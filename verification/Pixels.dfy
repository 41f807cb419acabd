/** Raw framebuffer pixels to packed RGB (rawToRgb), against a server that follows section 7.4 of RFC 6143. */
module Pixels {
  import opened Strings
  import opened Bits

  datatype Channel = Channel(shift: nat, max: nat)
  datatype Format = Format(bytesPerPixel: nat, bigEndian: bool, red: Channel, green: Channel, blue: Channel)
  datatype Colour = Colour(red: nat, green: nat, blue: nat)

  // ---- The client: what the program does ----

  function ReadLittle(bytes: Bytes): nat {
    if |bytes| == 0 then 0 else bytes[0] as nat + 256 * ReadLittle(bytes[1..])
  }

  function ReadBig(bytes: Bytes): nat {
    if |bytes| == 0 then 0 else ReadBig(Init(bytes)) * 256 + Last(bytes) as nat
  }

  /** Four bytes, two bytes, or else one. */
  function Width(format: Format): nat {
    if format.bytesPerPixel == 4 then 4 else if format.bytesPerPixel == 2 then 2 else 1
  }

  function ReadPixel(pixels: Bytes, i: nat, format: Format): nat
    requires i + Width(format) <= |pixels|
  {
    var bytes := pixels[i..i + Width(format)];
    if format.bigEndian then ReadBig(bytes) else ReadLittle(bytes)
  }

  /** `(px >>> shift) & max` */
  function Field(px: Word, channel: Channel): nat {
    Unsigned(And(ShiftRight(px, channel.shift % 32), ToWord(channel.max)))
  }

  /** `Math.round(value * 255 / max)`; without a maximum the store of a NaN leaves 0. */
  function Scale(value: nat, max: nat): nat {
    if max == 255 then value else if max == 0 then 0 else (510 * value + max) / (2 * max)
  }

  function Stored(value: nat, max: nat): Byte {
    (Scale(value, max) % 256) as Byte
  }

  /** How a component value is stored, given its maximum. */
  type Scaler = (nat, nat) -> Byte

  function Triple(scale: Scaler, px: Word, format: Format): (rgb: Bytes)
    ensures |rgb| == 3
  {
    [scale(Field(px, format.red), format.red.max),
     scale(Field(px, format.green), format.green.max),
     scale(Field(px, format.blue), format.blue.max)]
  }

  /** The word of pixel p; a buffer too short for it does not reach the conversion. */
  function WordAt(pixels: Bytes, p: nat, format: Format): Word {
    var i := p * format.bytesPerPixel;
    ToWord(if i + Width(format) <= |pixels| then ReadPixel(pixels, i, format) else 0)
  }

  /** The first n pixels, converted one after the other. */
  function Converted(scale: Scaler, pixels: Bytes, n: nat, format: Format): (rgb: Bytes)
    ensures |rgb| == 3 * n
  {
    if n == 0 then []
    else Converted(scale, pixels, n - 1, format) + Triple(scale, WordAt(pixels, n - 1, format), format)
  }

  lemma PixelFits(length: nat, p: nat, n: nat, format: Format)
    requires format.bytesPerPixel > 0 && length >= n * format.bytesPerPixel && p < n
    ensures p * format.bytesPerPixel + Width(format) <= length
  {
    assert (p + 1) * format.bytesPerPixel <= n * format.bytesPerPixel;
  }

  /** Stores pixel p behind the ones before it. */
  method StorePixel(scale: Scaler, rgb: array<Byte>, pixels: Bytes, p: nat, format: Format)
    requires 3 * p + 3 <= rgb.Length
    requires rgb[..3 * p] == Converted(scale, pixels, p, format)
    modifies rgb
    ensures rgb[..3 * (p + 1)] == Converted(scale, pixels, p + 1, format)
  {
    var px := WordAt(pixels, p, format);
    rgb[p * 3] := scale(Field(px, format.red), format.red.max);
    rgb[p * 3 + 1] := scale(Field(px, format.green), format.green.max);
    rgb[p * 3 + 2] := scale(Field(px, format.blue), format.blue.max);
    assert rgb[..3 * p] == old(rgb[..3 * p]);
    assert rgb[3 * p..3 * p + 3] == Triple(scale, px, format);
    assert rgb[..3 * p + 3] == rgb[..3 * p] + rgb[3 * p..3 * p + 3];
  }

  method RawToRgb(pixels: Bytes, width: nat, height: nat, format: Format) returns (rgb: array<Byte>)
    requires |pixels| == width * height * format.bytesPerPixel
    ensures fresh(rgb) && rgb[..] == Converted(Stored, pixels, width * height, format)
  {
    rgb := ConvertPixels(Stored, pixels, width * height, format);
  }

  method ConvertPixels(scale: Scaler, pixels: Bytes, n: nat, format: Format) returns (rgb: array<Byte>)
    ensures fresh(rgb) && rgb[..] == Converted(scale, pixels, n, format)
  {
    rgb := new Byte[n * 3];
    var p := 0;
    while p < n
      invariant p <= n
      invariant rgb[..3 * p] == Converted(scale, pixels, p, format)
    {
      StorePixel(scale, rgb, pixels, p, format);
      p := p + 1;
    }
    assert rgb[..3 * n] == rgb[..];
  }

  lemma FitsUpTo(length: nat, p: nat, n: nat, format: Format)
    requires length >= n * format.bytesPerPixel && p < n
    ensures length >= (p + 1) * format.bytesPerPixel
  {
    assert (p + 1) * format.bytesPerPixel <= n * format.bytesPerPixel;
  }

  // ---- The server: what the standard says ----

  function WriteLittle(n: nat, k: nat): (bytes: Bytes)
    ensures |bytes| == k
  {
    if k == 0 then [] else [(n % 256) as Byte] + WriteLittle(n / 256, k - 1)
  }

  function WriteBig(n: nat, k: nat): (bytes: Bytes)
    ensures |bytes| == k
  {
    if k == 0 then [] else WriteBig(n / 256, k - 1) + [(n % 256) as Byte]
  }

  function ServerWord(format: Format, c: Colour): Word
    requires Lawful(format)
  {
    Or(ShiftLeft(ToWord(c.red), format.red.shift),
      Or(ShiftLeft(ToWord(c.green), format.green.shift), ShiftLeft(ToWord(c.blue), format.blue.shift)))
  }

  function ServerPixel(format: Format, c: Colour): (bytes: Bytes)
    requires Lawful(format)
    ensures |bytes| == format.bytesPerPixel
  {
    var n := Unsigned(ServerWord(format, c));
    if format.bigEndian then WriteBig(n, format.bytesPerPixel) else WriteLittle(n, format.bytesPerPixel)
  }

  lemma OneMore(n: nat, k: nat)
    requires n > 0
    ensures (n - 1) * k + k == n * k
  {
  }

  function ServerPixels(format: Format, colours: seq<Colour>): (bytes: Bytes)
    requires Lawful(format)
    ensures |bytes| == |colours| * format.bytesPerPixel
  {
    if |colours| == 0 then []
    else
      OneMore(|colours|, format.bytesPerPixel);
      ServerPixels(format, Init(colours)) + ServerPixel(format, Last(colours))
  }

  /** The maximum is 2^bits - 1 and the field fits in the pixel. */
  ghost predicate IsChannel(c: Channel, bits: nat, pixelBits: nat) {
    bits > 0 && c.max == Pow2(bits) - 1 && c.shift + bits <= pixelBits
  }

  predicate Disjoint(a: Channel, aBits: nat, b: Channel, bBits: nat) {
    a.shift + aBits <= b.shift || b.shift + bBits <= a.shift
  }

  ghost predicate LawfulWith(format: Format, r: nat, g: nat, b: nat) {
    var pixelBits := 8 * format.bytesPerPixel;
    IsChannel(format.red, r, pixelBits) && IsChannel(format.green, g, pixelBits) &&
    IsChannel(format.blue, b, pixelBits) &&
    Disjoint(format.red, r, format.green, g) && Disjoint(format.red, r, format.blue, b) &&
    Disjoint(format.green, g, format.blue, b)
  }

  /** True colour with 8, 16 or 32 bits a pixel and three fields that do not overlap. */
  ghost predicate Lawful(format: Format) {
    format.bytesPerPixel in {1, 2, 4} && exists r, g, b :: LawfulWith(format, r, g, b)
  }

  predicate InRange(format: Format, c: Colour) {
    c.red <= format.red.max && c.green <= format.green.max && c.blue <= format.blue.max
  }

  // ---- The client undoes the server ----

  lemma {:induction false} ReadWriteLittle(n: nat, k: nat)
    requires n < Pow2(8 * k)
    ensures ReadLittle(WriteLittle(n, k)) == n
  {
    if k > 0 {
      ByteDown(n, k);
      ReadWriteLittle(n / 256, k - 1);
      assert WriteLittle(n, k)[1..] == WriteLittle(n / 256, k - 1);
    }
  }

  lemma {:induction false} ReadWriteBig(n: nat, k: nat)
    requires n < Pow2(8 * k)
    ensures ReadBig(WriteBig(n, k)) == n
  {
    if k > 0 {
      ByteDown(n, k);
      ReadWriteBig(n / 256, k - 1);
      assert Init(WriteBig(n, k)) == WriteBig(n / 256, k - 1);
    }
  }

  lemma Pow2PlusEight(m: nat)
    ensures Pow2(m + 8) == 256 * Pow2(m)
  {
    assert Pow2(m + 2) == 4 * Pow2(m) && Pow2(m + 4) == 4 * Pow2(m + 2);
    assert Pow2(m + 6) == 4 * Pow2(m + 4) && Pow2(m + 8) == 4 * Pow2(m + 6);
  }

  lemma ByteDown(n: nat, k: nat)
    requires k > 0 && n < Pow2(8 * k)
    ensures n / 256 < Pow2(8 * (k - 1))
  {
    Pow2PlusEight(8 * (k - 1));
  }

  ghost predicate NothingAbove(w: Word, bits: nat) {
    forall i :: bits <= i < 32 ==> !w[i]
  }

  /** The bits of a component: only its own low bits can be set. */
  lemma ComponentBits(v: nat, c: Channel, bits: nat, pixelBits: nat)
    requires IsChannel(c, bits, pixelBits) && v <= c.max && pixelBits <= 32
    ensures NothingAbove(ToWord(v), bits) && Unsigned(ToWord(v)) == v
  {
    Pow2Rises(bits, |ToWord(v)|);
    WordRoundTrip(ToWord(v), v);
    forall i | bits <= i < 32 ensures !Bit(v, i) {
      NoBitAbove(v, bits, i);
    }
  }

  lemma {:induction false} Pow2Rises(a: nat, b: nat)
    requires a <= b
    ensures Pow2(a) <= Pow2(b)
    decreases b - a
  {
    if a < b {
      Pow2Rises(a, b - 1);
    }
  }

  /** A field that holds the bits of v is extracted as v. */
  lemma ExtractField(px: Word, c: Channel, bits: nat, pixelBits: nat, v: nat)
    requires IsChannel(c, bits, pixelBits) && pixelBits <= 32 && v <= c.max
    requires HoldsField(px, c.shift, bits, ToWord(v))
    ensures Field(px, c) == v
  {
    ComponentBits(v, c, bits, pixelBits);
    forall i | 0 <= i < 32 ensures ToWord(c.max)[i] == (i < bits) {
      BitOfAllOnes(bits, i);
    }
    Masked(px, c.shift, bits, ToWord(c.max), ToWord(v));
  }

  ghost predicate HoldsField(px: Word, shift: nat, bits: nat, value: Word)
    requires shift + bits <= 32
  {
    forall i :: 0 <= i < bits ==> px[shift + i] == value[i]
  }

  lemma Masked(px: Word, shift: nat, bits: nat, mask: Word, value: Word)
    requires shift + bits <= 32 && HoldsField(px, shift, bits, value) && NothingAbove(value, bits)
    requires forall i :: 0 <= i < 32 ==> mask[i] == (i < bits)
    ensures And(ShiftRight(px, shift), mask) == value
  {
  }

  /** Fields that do not overlap keep their bits when they are put together. */
  lemma FieldsSeparate(
    red: Word, green: Word, blue: Word, rs: nat, r: nat, gs: nat, g: nat, bs: nat, b: nat, pixelBits: nat)
    requires NothingAbove(red, r) && NothingAbove(green, g) && NothingAbove(blue, b)
    requires rs + r <= pixelBits && gs + g <= pixelBits && bs + b <= pixelBits && pixelBits <= 32
    requires rs + r <= gs || gs + g <= rs
    requires rs + r <= bs || bs + b <= rs
    requires gs + g <= bs || bs + b <= gs
    ensures var px := Or(ShiftLeft(red, rs), Or(ShiftLeft(green, gs), ShiftLeft(blue, bs)));
      HoldsField(px, rs, r, red) && HoldsField(px, gs, g, green) && HoldsField(px, bs, b, blue) &&
      NothingAbove(px, pixelBits)
  {
  }

  lemma ServerWordBits(format: Format, c: Colour, r: nat, g: nat, b: nat)
    requires Lawful(format) && LawfulWith(format, r, g, b) && InRange(format, c)
    ensures var px := ServerWord(format, c);
      Field(px, format.red) == c.red && Field(px, format.green) == c.green && Field(px, format.blue) == c.blue &&
      NothingAbove(px, 8 * format.bytesPerPixel)
  {
    var px, pixelBits := ServerWord(format, c), 8 * format.bytesPerPixel;
    ComponentBits(c.red, format.red, r, pixelBits);
    ComponentBits(c.green, format.green, g, pixelBits);
    ComponentBits(c.blue, format.blue, b, pixelBits);
    FieldsSeparate(ToWord(c.red), ToWord(c.green), ToWord(c.blue),
      format.red.shift, r, format.green.shift, g, format.blue.shift, b, pixelBits);
    ExtractField(px, format.red, r, pixelBits, c.red);
    ExtractField(px, format.green, g, pixelBits, c.green);
    ExtractField(px, format.blue, b, pixelBits, c.blue);
  }

  lemma ValueBelow(px: Word, bits: nat)
    requires NothingAbove(px, bits) && bits <= 32
    ensures Unsigned(px) < Pow2(bits)
  {
    var k := |px| - bits;
    assert px == px[..bits] + Zeros(k);
    ValueOfParts(px[..bits], Zeros(k));
    ValueOfConstants(k);
    ValueFits(px[..bits]);
  }

  lemma ReadWritten(format: Format, n: nat, k: nat)
    requires Width(format) == k && n < Pow2(8 * k)
    ensures ReadPixel(if format.bigEndian then WriteBig(n, k) else WriteLittle(n, k), 0, format) == n
  {
    ReadWriteBig(n, k);
    ReadWriteLittle(n, k);
    assert WriteBig(n, k)[0..k] == WriteBig(n, k) && WriteLittle(n, k)[0..k] == WriteLittle(n, k);
  }

  /** Reading a pixel that the server wrote gives its word back. */
  lemma ReadServerPixel(format: Format, c: Colour, r: nat, g: nat, b: nat)
    requires Lawful(format) && LawfulWith(format, r, g, b) && InRange(format, c)
    ensures ToWord(ReadPixel(ServerPixel(format, c), 0, format)) == ServerWord(format, c)
  {
    var px := ServerWord(format, c);
    ServerWordBits(format, c, r, g, b);
    ValueBelow(px, 8 * format.bytesPerPixel);
    ReadWritten(format, Unsigned(px), format.bytesPerPixel);
    WordRoundTrip(px, 0);
  }

  function Scaled(scale: Scaler, format: Format, c: Colour): Bytes {
    [scale(c.red, format.red.max), scale(c.green, format.green.max), scale(c.blue, format.blue.max)]
  }

  function AllScaled(scale: Scaler, format: Format, colours: seq<Colour>): Bytes {
    if |colours| == 0 then [] else AllScaled(scale, format, Init(colours)) + Scaled(scale, format, Last(colours))
  }

  lemma WordOfLonger(pixels: Bytes, more: Bytes, p: nat, format: Format)
    requires format.bytesPerPixel > 0 && |pixels| >= (p + 1) * format.bytesPerPixel
    ensures WordAt(pixels + more, p, format) == WordAt(pixels, p, format)
  {
    var i := p * format.bytesPerPixel;
    PixelFits(|pixels|, p, p + 1, format);
    assert (pixels + more)[i..i + Width(format)] == pixels[i..i + Width(format)];
  }

  lemma ConvertedOfLonger(scale: Scaler, pixels: Bytes, more: Bytes, n: nat, format: Format)
    requires format.bytesPerPixel > 0 && |pixels| >= n * format.bytesPerPixel
    ensures Converted(scale, pixels + more, n, format) == Converted(scale, pixels, n, format)
  {
    forall p: nat | p < n ensures WordAt(pixels + more, p, format) == WordAt(pixels, p, format) {
      FitsUpTo(|pixels|, p, n, format);
      WordOfLonger(pixels, more, p, format);
    }
    SameWordsSameColours(scale, pixels + more, pixels, n, format);
  }

  lemma {:induction false} SameWordsSameColours(scale: Scaler, a: Bytes, b: Bytes, n: nat, format: Format)
    requires forall p: nat :: p < n ==> WordAt(a, p, format) == WordAt(b, p, format)
    ensures Converted(scale, a, n, format) == Converted(scale, b, n, format)
  {
    if n > 0 {
      SameWordsSameColours(scale, a, b, n - 1, format);
      assert WordAt(a, n - 1, format) == WordAt(b, n - 1, format);
    }
  }

  /** Whatever colours the server sends, in any lawful format and byte order, come out as these colours, scaled. */
  lemma {:induction false} PixelsComeBack(scale: Scaler, format: Format, colours: seq<Colour>)
    requires Lawful(format) && forall c :: c in colours ==> InRange(format, c)
    ensures Converted(scale, ServerPixels(format, colours), |colours|, format) == AllScaled(scale, format, colours)
  {
    if |colours| > 0 {
      var n, c := |colours| - 1, Last(colours);
      var before, pixel := ServerPixels(format, Init(colours)), ServerPixel(format, c);
      var r, g, b :| LawfulWith(format, r, g, b);
      PixelsComeBack(scale, format, Init(colours));
      ConvertedOfLonger(scale, before, pixel, n, format);
      ReadServerPixel(format, c, r, g, b);
      ServerWordBits(format, c, r, g, b);
      LastPixel(scale, before, pixel, n, format);
    }
  }

  lemma LastPixel(scale: Scaler, before: Bytes, pixel: Bytes, n: nat, format: Format)
    requires format.bytesPerPixel in {1, 2, 4}
    requires |before| == n * format.bytesPerPixel && |pixel| == format.bytesPerPixel
    ensures |before + pixel| >= (n + 1) * format.bytesPerPixel
    ensures Converted(scale, before + pixel, n + 1, format) ==
      Converted(scale, before + pixel, n, format) + Triple(scale, ToWord(ReadPixel(pixel, 0, format)), format)
  {
    var i := |before|;
    assert |before + pixel| == (n + 1) * format.bytesPerPixel;
    assert (before + pixel)[i..i + Width(format)] == pixel[0..Width(format)];
  }

  /** Scaling takes 0..max to 0..255 with both ends kept, never turns two values round, and never wraps. */
  lemma ScaleIsMonotone(v: nat, w: nat, max: nat)
    requires v <= w <= max && max > 0
    ensures Scale(0, max) == 0 && Scale(max, max) == 255
    ensures Scale(v, max) <= Scale(w, max) <= 255
    ensures max < 255 && v < w ==> Scale(v, max) < Scale(w, max)
  {
    if max != 255 {
      Quotients(510 * v + max, 510 * w + max, 2 * max);
      Quotients(510 * w + max, 510 * max + max, 2 * max);
    }
    ScaleEnds(max);
  }

  /** A scaled value is the value times 255 / max, rounded to the nearest whole number, and up from a half. */
  lemma ScaleIsNearest(v: nat, max: nat)
    requires v <= max && max > 0
    ensures Stored(v, max) as nat == Scale(v, max)
    ensures 2 * (Stored(v, max) as nat * max) <= 2 * (255 * v) + max
    ensures 2 * (255 * v) < 2 * (Stored(v, max) as nat * max) + max
  {
    ScaleIsMonotone(v, max, max);
    if max != 255 {
      var q, r := (510 * v + max) / (2 * max), (510 * v + max) % (2 * max);
      assert 510 * v + max == 2 * max * q + r;
      assert 2 * max * q == 2 * (q * max);
    }
  }

  lemma ScaleEnds(max: nat)
    requires max > 0
    ensures Scale(0, max) == 0 && Scale(max, max) == 255
  {
    if max != 255 {
      QuotientOrder(2 * max, (511 * max) / (2 * max), (511 * max) % (2 * max), 255, max);
      QuotientOrder(2 * max, 255, max, (511 * max) / (2 * max), (511 * max) % (2 * max));
    }
  }

  lemma Quotients(a: nat, b: nat, d: nat)
    requires 0 < d && a <= b
    ensures a / d <= b / d
    ensures a + d <= b ==> a / d < b / d
  {
    QuotientOrder(d, a / d, a % d, b / d, b % d);
    if a + d <= b {
      assert d * (a / d + 1) + a % d == a + d;
      QuotientOrder(d, a / d + 1, a % d, b / d, b % d);
    }
  }

  lemma QuotientOrder(d: nat, q: nat, r: nat, q': nat, r': nat)
    requires r < d && r' < d && d * q + r <= d * q' + r'
    ensures q <= q'
  {
    if q > q' {
      Product(d, q' + 1, q);
    }
  }

  lemma Product(d: nat, x: nat, y: nat)
    requires x <= y
    ensures d * x <= d * y
  {
  }
}
