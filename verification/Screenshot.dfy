/** The whole screenshot: the pixels the server sends, converted and written as PNG. */
module Screenshot {
  import opened Wrappers
  import opened Bits
  import opened Png
  import opened Pixels

  /** Of everything the server shows, in any lawful format, the picture file keeps the size and every colour, scaled. */
  lemma ScreenshotShowsTheScreen(zlib: Zlib, width: nat, height: nat, format: Format, colours: seq<Colour>)
    requires zlib.Lossless() && Lawful(format) && |colours| == width * height
    requires forall c :: c in colours ==> InRange(format, c)
    requires Encodable(zlib, width, height, AllScaled(Stored, format, colours))
    ensures Encodable(zlib, width, height, Converted(Stored, ServerPixels(format, colours), width * height, format))
    ensures Decode(zlib, Encode(zlib, width, height,
      Converted(Stored, ServerPixels(format, colours), width * height, format)))
      == Some(Image(width, height, AllScaled(Stored, format, colours)))
  {
    PixelsComeBack(Stored, format, colours);
    DecodeEncode(zlib, width, height, AllScaled(Stored, format, colours));
  }
}
