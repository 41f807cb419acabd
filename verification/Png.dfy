/** The PNG writer, and a reader that follows the standard (RFC 2083). */
module Png {
  import opened Wrappers
  import opened Bits
  import opened Crc32

  type Word32 = x: nat | x < 0x1_0000_0000

  /** A checksum over a chunk's type and data. The container's layout does not depend on which one. */
  type Checksum = Bytes -> Word32

  function PngCrc(bytes: Bytes): Word32 {
    ValueFits(BitSerialCrc(bytes));
    KnownPowers();
    Unsigned(BitSerialCrc(bytes))
  }

  /** The compressor, of which only the round trip is known. */
  datatype Zlib = Zlib(deflate: Bytes -> Bytes, inflate: Bytes -> Option<Bytes>) {
    ghost predicate Lossless() {
      forall data :: inflate(deflate(data)) == Some(data)
    }
  }

  datatype Image = Image(width: nat, height: nat, rgb: Bytes)

  const SIGNATURE: Bytes := [0x89, 0x50, 0x4e, 0x47, 0x0d, 0x0a, 0x1a, 0x0a]
  const IHDR: Bytes := [0x49, 0x48, 0x44, 0x52]
  const IDAT: Bytes := [0x49, 0x44, 0x41, 0x54]
  const IEND: Bytes := [0x49, 0x45, 0x4e, 0x44]

  // ---- Writing ----

  /** `writeUInt32BE` */
  function BigEndian(n: nat): (bytes: Bytes)
    requires n < 0x1_0000_0000
    ensures |bytes| == 4
  {
    [(n / 0x100_0000) as Byte, (n / 0x1_0000 % 256) as Byte, (n / 0x100 % 256) as Byte, (n % 256) as Byte]
  }

  function Chunk(crc: Checksum, c: RawChunk): Bytes
    requires Fits(c)
  {
    BigEndian(|c.data|) + c.kind + c.data + BigEndian(crc(c.kind + c.data))
  }

  function Header(width: nat, height: nat): (bytes: Bytes)
    requires width < 0x1_0000_0000 && height < 0x1_0000_0000
    ensures |bytes| == 13
  {
    BigEndian(width) + BigEndian(height) + [8, 2, 0, 0, 0]
  }

  /** rows * width */
  function Area(rows: nat, width: nat): nat {
    if rows == 0 then 0 else Area(rows - 1, width) + width
  }

  lemma {:induction false} AreaIsProduct(rows: nat, width: nat)
    ensures Area(rows, width) == rows * width
  {
    if rows > 0 {
      AreaIsProduct(rows - 1, width);
    }
  }

  lemma {:induction false} AreaGrows(a: nat, b: nat, width: nat)
    requires a <= b
    ensures Area(a, width) <= Area(b, width)
    decreases b
  {
    if a < b {
      AreaGrows(a, b - 1, width);
    }
  }

  /** The scan lines, each after its filter type byte 0. */
  function Filtered(height: nat, stride: nat, rgb: Bytes): (lines: Bytes)
    requires |rgb| == Area(height, stride)
    ensures |lines| == Area(height, stride + 1)
  {
    if height == 0 then []
    else
      var cut := Area(height - 1, stride);
      Filtered(height - 1, stride, rgb[..cut]) + ([0] + rgb[cut..])
  }

  function Encode(zlib: Zlib, width: nat, height: nat, rgb: Bytes): Bytes
    requires Encodable(zlib, width, height, rgb)
  {
    Chunks(PngCrc, RawChunk(IHDR, Header(width, height)),
           RawChunk(IDAT, zlib.deflate(Filtered(height, width * 3, rgb))),
           RawChunk(IEND, []))
  }

  datatype RawChunk = RawChunk(kind: Bytes, data: Bytes)

  predicate Fits(c: RawChunk) {
    |c.kind| == 4 && |c.data| < 0x1_0000_0000
  }

  /** The signature and three chunks. */
  function Chunks(crc: Checksum, header: RawChunk, data: RawChunk, end: RawChunk): Bytes
    requires Fits(header) && Fits(data) && Fits(end)
  {
    SIGNATURE + Chunk(crc, header) + Chunk(crc, data) + Chunk(crc, end)
  }

  /** What the writer is handed: three bytes a pixel, and nothing too long for a 32-bit length. */
  predicate Encodable(zlib: Zlib, width: nat, height: nat, rgb: Bytes) {
    && width < 0x1_0000_0000 && height < 0x1_0000_0000
    && |rgb| == Area(height, width * 3)
    && |zlib.deflate(Filtered(height, width * 3, rgb))| < 0x1_0000_0000
  }

  method PngChunk(table: array<Word>, kind: Bytes, data: Bytes) returns (chunk: Bytes)
    requires IsTable(table[..]) && |kind| == 4 && |data| < 0x1_0000_0000
    ensures chunk == Chunk(PngCrc, RawChunk(kind, data))
  {
    var body := kind + data;
    var crc := TableCrc(table, body);
    ValueFits(crc);
    KnownPowers();
    chunk := BigEndian(|data|) + body + BigEndian(Unsigned(crc));
  }

  /** One row: the filter byte and a copy of one stride of pixels after it; nothing else moves. */
  method CopyRow(filtered: array<Byte>, at: nat, rgb: array<Byte>, from: nat, stride: nat)
    requires filtered != rgb && at + stride + 1 <= filtered.Length && from + stride <= rgb.Length
    modifies filtered
    ensures filtered[..at + stride + 1] == old(filtered[..at]) + ([0] + rgb[from..from + stride])
  {
    filtered[at] := 0;
    for x := 0 to stride
      invariant filtered[..at] == old(filtered[..at])
      invariant filtered[at..at + 1 + x] == [0] + rgb[from..from + x]
    {
      filtered[at + 1 + x] := rgb[from + x];
      SliceGrows(filtered[..], at, at + 1 + x);
      SliceGrows(rgb[..], from, from + x);
    }
    assert filtered[..at + stride + 1] == filtered[..at] + filtered[at..at + 1 + stride];
  }

  lemma SliceGrows(s: Bytes, i: nat, j: nat)
    requires i <= j < |s|
    ensures s[i..j + 1] == s[i..j] + [s[j]]
  {
  }

  /** Row y behind the rows before it. */
  method FilterRow(filtered: array<Byte>, y: nat, rgb: array<Byte>, stride: nat)
    requires filtered != rgb && Area(y + 1, stride) <= rgb.Length && Area(y + 1, stride + 1) <= filtered.Length
    requires filtered[..Area(y, stride + 1)] == Filtered(y, stride, rgb[..Area(y, stride)])
    modifies filtered
    ensures filtered[..Area(y + 1, stride + 1)] == Filtered(y + 1, stride, rgb[..Area(y + 1, stride)])
  {
    AreaIsProduct(y, stride + 1);
    AreaIsProduct(y, stride);
    CopyRow(filtered, y * (stride + 1), rgb, y * stride, stride);
    ghost var from := Area(y, stride);
    FilteredNext(y, stride, rgb[..from + stride], rgb[..from], rgb[from..from + stride]);
  }

  method FilterRows(width: nat, height: nat, rgb: array<Byte>) returns (filtered: array<Byte>)
    requires rgb.Length == Area(height, width * 3)
    ensures fresh(filtered) && filtered[..] == Filtered(height, width * 3, rgb[..])
  {
    var stride := width * 3;
    AreaIsProduct(height, stride + 1);
    filtered := new Byte[height * (stride + 1)](_ => 0);
    for y := 0 to height
      invariant Area(y, stride) <= rgb.Length && Area(y, stride + 1) <= filtered.Length
      invariant filtered[..Area(y, stride + 1)] == Filtered(y, stride, rgb[..Area(y, stride)])
    {
      AreaGrows(y + 1, height, stride);
      AreaGrows(y + 1, height, stride + 1);
      FilterRow(filtered, y, rgb, stride);
    }
    assert rgb[..Area(height, stride)] == rgb[..] && filtered[..Area(height, stride + 1)] == filtered[..];
  }

  lemma FilteredNext(y: nat, stride: nat, rgb: Bytes, before: Bytes, row: Bytes)
    requires |before| == Area(y, stride) && |row| == stride && rgb == before + row
    ensures Filtered(y + 1, stride, rgb) == Filtered(y, stride, before) + ([0] + row)
  {
    var cut := Area(y, stride);
    assert rgb[..cut] == before && rgb[cut..] == row;
  }

  method EncodePng(zlib: Zlib, width: nat, height: nat, rgb: array<Byte>) returns (file: Bytes)
    requires Encodable(zlib, width, height, rgb[..])
    ensures file == Encode(zlib, width, height, rgb[..])
  {
    var table := BuildTable();
    var filtered := FilterRows(width, height, rgb);
    var header := PngChunk(table, IHDR, Header(width, height));
    var data := PngChunk(table, IDAT, zlib.deflate(filtered[..]));
    var end := PngChunk(table, IEND, []);
    file := SIGNATURE + header + data + end;
  }

  // ---- Reading, by the standard ----

  function FromBigEndian(bytes: Bytes): nat
    requires |bytes| == 4
  {
    ((bytes[0] as nat * 256 + bytes[1] as nat) * 256 + bytes[2] as nat) * 256 + bytes[3] as nat
  }

  /** Section 3.2: length, type, data and CRC, one chunk after the other up to the end of the file. */
  function ReadChunks(crc: Checksum, file: Bytes): Option<seq<RawChunk>>
    decreases |file|
  {
    if file == [] then Some([])
    else if |file| < 12 then None
    else
      var n := FromBigEndian(file[..4]);
      if |file| < 12 + n then None
      else
        var kind, data, rest := file[4..8], file[8..8 + n], file[12 + n..];
        if FromBigEndian(file[8 + n..12 + n]) != crc(kind + data) then None
        else
          match ReadChunks(crc, rest)
          case None => None
          case Some(more) => Some([RawChunk(kind, data)] + more)
  }

  /** Section 6.2, filter type 0: the scan lines without their filter bytes. */
  function Unfilter(height: nat, stride: nat, lines: Bytes): Option<Bytes> {
    if height == 0 then if lines == [] then Some([]) else None
    else if |lines| < stride + 1 || lines[|lines| - stride - 1] != 0 then None
    else
      match Unfilter(height - 1, stride, lines[..|lines| - stride - 1])
      case None => None
      case Some(before) => Some(before + lines[|lines| - stride..])
  }

  /** Section 3.1, in decimal as it stands there. */
  const FIRST_BYTES: Bytes := [137, 80, 78, 71, 13, 10, 26, 10]

  /** Section 3.3: a chunk type is four letters. */
  function Ascii(s: string): Bytes {
    seq(|s|, i requires 0 <= i < |s| => (s[i] as int % 256) as Byte)
  }

  /** Section 4.1.1: an 8-bit truecolor header without interlace, its image data, and the end. */
  function Decode(zlib: Zlib, file: Bytes): Option<Image> {
    if !(FIRST_BYTES <= file) then None
    else
      match ReadChunks(PngCrc, file[8..])
      case None => None
      case Some(chunks) =>
        if |chunks| != 3 || chunks[0].kind != Ascii("IHDR") || chunks[1].kind != Ascii("IDAT")
          || chunks[2] != RawChunk(Ascii("IEND"), []) then None
        else ReadImage(zlib, chunks[0].data, chunks[1].data)
  }

  function ReadImage(zlib: Zlib, header: Bytes, data: Bytes): Option<Image> {
    if |header| != 13 || header[8..] != [8, 2, 0, 0, 0] then None
    else
      var width, height := FromBigEndian(header[..4]), FromBigEndian(header[4..8]);
      match zlib.inflate(data)
      case None => None
      case Some(lines) =>
        match Unfilter(height, width * 3, lines)
        case None => None
        case Some(rgb) => Some(Image(width, height, rgb))
  }

  // ---- The reader gets back what the writer wrote ----

  lemma BigEndianRoundTrip(n: nat)
    requires n < 0x1_0000_0000
    ensures FromBigEndian(BigEndian(n)) == n
  {
    var a, b, c := n / 0x100, n / 0x1_0000, n / 0x100_0000;
    assert a / 256 == b && b / 256 == c;
    assert n == a * 256 + n % 256 && a == b * 256 + a % 256 && b == c * 256 + b % 256;
  }

  lemma ReadChunkBack(crc: Checksum, c: RawChunk, rest: Bytes, more: seq<RawChunk>)
    requires Fits(c) && ReadChunks(crc, rest) == Some(more)
    ensures ReadChunks(crc, Chunk(crc, c) + rest) == Some([c] + more)
  {
    var n := |c.data|;
    var file := Chunk(crc, c) + rest;
    BigEndianRoundTrip(n);
    assert file[..4] == BigEndian(n);
    assert file[4..8] == c.kind;
    assert file[8..8 + n] == c.data;
    assert file[8 + n..12 + n] == BigEndian(crc(c.kind + c.data));
    BigEndianRoundTrip(crc(c.kind + c.data));
    assert file[12 + n..] == rest;
  }

  lemma ChunksBack(crc: Checksum, header: RawChunk, data: RawChunk, end: RawChunk)
    requires Fits(header) && Fits(data) && Fits(end)
    ensures SIGNATURE <= Chunks(crc, header, data, end)
    ensures ReadChunks(crc, Chunks(crc, header, data, end)[8..]) == Some([header, data, end])
  {
    var a, b, c := Chunk(crc, header), Chunk(crc, data), Chunk(crc, end);
    var one := [end];
    var two := [data] + one;
    assert c + [] == c && [end] + [] == one;
    ReadChunkBack(crc, end, [], []);
    ReadChunkBack(crc, data, c, one);
    ReadChunkBack(crc, header, b + c, two);
    assert [header] + two == [header, data, end];
    AfterSignature(SIGNATURE, a, b, c);
  }

  lemma NamesAreSpelt()
    ensures SIGNATURE == FIRST_BYTES && IHDR == Ascii("IHDR") && IDAT == Ascii("IDAT") && IEND == Ascii("IEND")
  {
  }

  lemma AfterSignature(signature: Bytes, a: Bytes, b: Bytes, c: Bytes)
    requires |signature| == 8
    ensures signature <= signature + a + b + c && (signature + a + b + c)[8..] == a + (b + c)
  {
  }

  lemma UnfilterRow(height: nat, stride: nat, lines: Bytes, row: Bytes)
    requires height > 0 && |row| == stride && Unfilter(height - 1, stride, lines).Some?
    ensures Unfilter(height, stride, lines + ([0] + row)) == Some(Unfilter(height - 1, stride, lines).value + row)
  {
    var all := lines + ([0] + row);
    assert all[|all| - stride - 1] == 0;
    assert all[..|all| - stride - 1] == lines;
    assert all[|all| - stride..] == row;
  }

  lemma {:induction false} UnfilterBack(height: nat, stride: nat, rgb: Bytes)
    requires |rgb| == Area(height, stride)
    ensures Unfilter(height, stride, Filtered(height, stride, rgb)) == Some(rgb)
  {
    if height > 0 {
      var cut := Area(height - 1, stride);
      UnfilterBack(height - 1, stride, rgb[..cut]);
      var before := Filtered(height - 1, stride, rgb[..cut]);
      assert Filtered(height, stride, rgb) == before + ([0] + rgb[cut..]);
      UnfilterRow(height, stride, before, rgb[cut..]);
      assert rgb[..cut] + rgb[cut..] == rgb;
    }
  }

  lemma HeaderBack(width: nat, height: nat)
    requires width < 0x1_0000_0000 && height < 0x1_0000_0000
    ensures var h := Header(width, height);
      FromBigEndian(h[..4]) == width && FromBigEndian(h[4..8]) == height && h[8..] == [8, 2, 0, 0, 0]
  {
    BigEndianRoundTrip(width);
    BigEndianRoundTrip(height);
    var h := Header(width, height);
    assert h[..4] == BigEndian(width) && h[4..8] == BigEndian(height);
  }

  lemma ImageBack(zlib: Zlib, width: nat, height: nat, rgb: Bytes)
    requires zlib.Lossless() && Encodable(zlib, width, height, rgb)
    ensures ReadImage(zlib, Header(width, height), zlib.deflate(Filtered(height, width * 3, rgb)))
         == Some(Image(width, height, rgb))
  {
    HeaderBack(width, height);
    UnfilterBack(height, width * 3, rgb);
  }

  /** Decoding an encoded picture by the standard gives back its size and every pixel. */
  lemma DecodeEncode(zlib: Zlib, width: nat, height: nat, rgb: Bytes)
    requires zlib.Lossless() && Encodable(zlib, width, height, rgb)
    ensures Decode(zlib, Encode(zlib, width, height, rgb)) == Some(Image(width, height, rgb))
  {
    NamesAreSpelt();
    ChunksBack(PngCrc, RawChunk(IHDR, Header(width, height)),
               RawChunk(IDAT, zlib.deflate(Filtered(height, width * 3, rgb))),
               RawChunk(IEND, []));
    ImageBack(zlib, width, height, rgb);
  }
}
