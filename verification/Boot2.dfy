/** The ESP8266 boot2 image check of src/firmware/verify.js, against the layout of the images it accepts. */
module Boot2 {
  import opened Prelude

  const MAX_IMAGE: nat := 0xfe000

  /** An image with its signature and the length of that. */
  const MAX_SIGNED: nat := MAX_IMAGE + 260

  const MAGIC: Bytes := [0xea, 4, 2, 0x40]
  const CHECKSUM_SEED: byte := 0xef

  // ---- The checksum ----

  /** The exclusive or of two `width`-bit numbers, bit by bit. */
  function Xor(a: nat, b: nat, width: nat): (r: nat)
  {
    if width == 0 then 0 else (if a % 2 == b % 2 then 0 else 1) + 2 * Xor(a / 2, b / 2, width - 1)
  }

  lemma {:induction false} XorBound(a: nat, b: nat, width: nat)
    ensures Xor(a, b, width) < Pow2(width)
  {
    if width > 0 {
      XorBound(a / 2, b / 2, width - 1);
    }
  }

  /** Xor with a fixed number loses nothing. */
  lemma {:induction false} XorInjective(a: nat, a': nat, b: nat, width: nat)
    requires a < Pow2(width) && a' < Pow2(width) && Xor(a, b, width) == Xor(a', b, width)
    ensures a == a'
  {
    if width > 0 {
      assert Xor(a, b, width) % 2 == Xor(a', b, width) % 2;
      XorInjective(a / 2, a' / 2, b / 2, width - 1);
    }
  }

  lemma {:induction false} XorCommutes(a: nat, b: nat, width: nat)
    ensures Xor(a, b, width) == Xor(b, a, width)
  {
    if width > 0 {
      XorCommutes(a / 2, b / 2, width - 1);
    }
  }

  function XorByte(a: byte, b: byte): byte {
    XorBound(a, b, 8);
    assert Pow2(8) == 256 by { assert Pow2(4) == 16; }
    Xor(a, b, 8)
  }

  lemma XorByteInjective(a: byte, a': byte, b: byte, b': byte)
    ensures XorByte(a, b) == XorByte(a', b) ==> a == a'
    ensures XorByte(a, b) == XorByte(a, b') ==> b == b'
  {
    assert Pow2(8) == 256 by { assert Pow2(4) == 16; }
    if XorByte(a, b) == XorByte(a', b) {
      XorInjective(a, a', b, 8);
    }
    if XorByte(a, b) == XorByte(a, b') {
      XorCommutes(a, b, 8);
      XorCommutes(a, b', 8);
      XorInjective(b, b', a, 8);
    }
  }

  /** The running checksum over `s`, started at `seed`. */
  function Checksum(seed: byte, s: Bytes): byte {
    if s == [] then seed else XorByte(Checksum(seed, s[..|s| - 1]), s[|s| - 1])
  }

  lemma {:induction false} ChecksumSum(seed: byte, s: Bytes, t: Bytes)
    ensures Checksum(seed, s + t) == Checksum(Checksum(seed, s), t)
  {
    if t == [] {
      assert s + t == s;
    } else {
      assert (s + t)[..|s + t| - 1] == s + t[..|t| - 1];
      ChecksumSum(seed, s, t[..|t| - 1]);
    }
  }

  lemma {:induction false} ChecksumInjective(seed: byte, seed': byte, s: Bytes)
    requires Checksum(seed, s) == Checksum(seed', s)
    ensures seed == seed'
  {
    hide XorByte;
    if s != [] {
      XorByteInjective(Checksum(seed, s[..|s| - 1]), Checksum(seed', s[..|s| - 1]), s[|s| - 1], 0);
      ChecksumInjective(seed, seed', s[..|s| - 1]);
    }
  }

  /** One changed byte changes the checksum. */
  lemma ChecksumDetects(seed: byte, s: Bytes, i: nat, v: byte)
    requires i < |s| && v != s[i]
    ensures Checksum(seed, s[i := v]) != Checksum(seed, s)
  {
    hide XorByte;
    var before, after := Checksum(seed, s[..i]), s[i + 1..];
    assert s == s[..i] + [s[i]] + after && s[i := v] == s[..i] + [v] + after;
    ChecksumSum(seed, s[..i] + [s[i]], after);
    ChecksumSum(seed, s[..i] + [v], after);
    assert (s[..i] + [s[i]])[..i] == s[..i] && (s[..i] + [v])[..i] == s[..i];
    if Checksum(seed, s[i := v]) == Checksum(seed, s) {
      ChecksumInjective(XorByte(before, s[i]), XorByte(before, v), after);
      XorByteInjective(before, before, s[i], v);
      assert false;
    }
  }

  // ---- Images ----

  datatype Segment = Segment(address: nat, data: Bytes)

  /** An image, with the contents of its two stretches of padding. */
  datatype Image = Image(entry: nat, irom: Bytes, gap: Bytes, segments: seq<Segment>, tail: Bytes, checksum: byte)

  function End(s: Segment): nat {
    s.address + |s.data|
  }

  predicate Placed(s: Segment) {
    && |s.data| > 0
    && ((s.address >= 0x40100000 && End(s) <= 0x40110000) || (s.address >= 0x3ffe8000 && End(s) <= 0x40000000))
  }

  predicate Apart(s: Segment, t: Segment) {
    End(s) <= t.address || s.address >= End(t)
  }

  predicate Disjoint(segments: seq<Segment>) {
    forall i, j :: 0 <= i < j < |segments| ==> Apart(segments[j], segments[i])
  }

  predicate Holds(s: Segment, address: nat) {
    s.address <= address < End(s)
  }

  function Loaded(segments: seq<Segment>): Bytes {
    if segments == [] then [] else Loaded(segments[..|segments| - 1]) + segments[|segments| - 1].data
  }

  function PrintSegment(s: Segment): Bytes {
    WriteLE(s.address, 4) + WriteLE(|s.data|, 4) + s.data
  }

  function PrintSegments(segments: seq<Segment>): Bytes {
    if segments == [] then [] else PrintSegment(segments[0]) + PrintSegments(segments[1..])
  }

  function PrintIrom(im: Image): Bytes {
    MAGIC + WriteLE(im.entry, 4) + WriteLE(0, 4) + WriteLE(|im.irom|, 4) + im.irom + im.gap
  }

  function PrintRam(im: Image): Bytes {
    [0xe9, |im.segments| % 256, 2, 0x40] + WriteLE(im.entry, 4) + PrintSegments(im.segments)
  }

  function Print(im: Image): Bytes {
    PrintIrom(im) + PrintRam(im) + im.tail + [im.checksum]
  }

  /** What a loader relies on, apart from the checksum: fields in range, padding to 16 bytes, segments apart. */
  predicate Laid(im: Image) {
    && 0x40100000 <= im.entry < 0x40110000
    && |im.irom| > 0 && |im.gap| < 16 && (16 + |im.irom| + |im.gap|) % 16 == 0
    && 1 <= |im.segments| <= 16
    && (forall i :: 0 <= i < |im.segments| ==> Placed(im.segments[i]))
    && Disjoint(im.segments)
    && (exists i :: 0 <= i < |im.segments| && Holds(im.segments[i], im.entry))
    && |im.tail| < 16 && |Print(im)| % 16 == 0 && |Print(im)| <= MAX_IMAGE
  }

  predicate Summed(im: Image) {
    im.checksum == Checksum(Checksum(CHECKSUM_SEED, im.irom), Loaded(im.segments))
  }

  // ---- Reading ----

  function U32(bytes: Bytes, offset: nat): (n: nat)
    requires offset + 4 <= |bytes|
    ensures n < TWO32
  {
    Pow256Values();
    ReadLE(bytes[offset..offset + 4])
  }

  /** `count` segments from `offset` on, and where they end. */
  function ReadSegments(bytes: Bytes, offset: nat, count: nat): (r: Option<(seq<Segment>, nat)>)
    ensures r.Some? ==> offset <= r.value.1 && (offset <= |bytes| ==> r.value.1 <= |bytes|)
    decreases count
  {
    if count == 0 then Some(([], offset))
    else if offset + 8 > |bytes| then None
    else
      var address, size := U32(bytes, offset), U32(bytes, offset + 4);
      if size == 0 || size > |bytes| - (offset + 8) then None
      else
        var s := Segment(address, bytes[offset + 8..offset + 8 + size]);
        if !Placed(s) then None
        else
          match ReadSegments(bytes, offset + 8 + size, count - 1)
          case None => None
          case Some((rest, end)) => Some(([s] + rest, end))
  }

  lemma U32Reads(bytes: Bytes, offset: nat, n: nat)
    requires offset + 4 <= |bytes| && n < TWO32
    ensures U32(bytes, offset) == n <==> bytes[offset..offset + 4] == WriteLE(n, 4)
  {
    hide ReadLE, WriteLE;
    Pow256Values();
    ReadOfWriteLE(n, 4);
    WriteOfReadLE(bytes[offset..offset + 4]);
  }

  /** One segment header and its data, read back. */
  lemma SegmentReads(bytes: Bytes, offset: nat, s: Segment, end: nat)
    requires offset + 8 <= |bytes| && s.address < TWO32 && |s.data| < TWO32 && end <= |bytes|
    ensures && U32(bytes, offset) == s.address && U32(bytes, offset + 4) == |s.data| && end == offset + 8 + |s.data|
            && bytes[offset + 8..end] == s.data
            <==> offset + 8 <= end && bytes[offset..end] == PrintSegment(s)
  {
    hide U32, WriteLE;
    U32Reads(bytes, offset, s.address);
    U32Reads(bytes, offset + 4, |s.data|);
    if offset + 8 <= end {
      var a, b, c := bytes[offset..offset + 4], bytes[offset + 4..offset + 8], bytes[offset + 8..end];
      assert bytes[offset..end] == a + b + c;
      if bytes[offset..end] == PrintSegment(s) {
        assert (a + b) + c == (WriteLE(s.address, 4) + WriteLE(|s.data|, 4)) + s.data;
        SplitEqual(a + b, WriteLE(s.address, 4) + WriteLE(|s.data|, 4), c, s.data);
        SplitEqual(a, WriteLE(s.address, 4), b, WriteLE(|s.data|, 4));
      }
    }
  }

  predicate AllPlaced(segments: seq<Segment>) {
    forall i :: 0 <= i < |segments| ==> Placed(segments[i])
  }

  lemma PlacedBound(s: Segment)
    requires Placed(s)
    ensures s.address < TWO32 && |s.data| < TWO32
  {}

  /** The segments read are exactly the placed ones whose printed form stands there. */
  lemma {:induction false} SegmentsExact(bytes: Bytes, offset: nat, count: nat, segments: seq<Segment>, end: nat)
    requires offset <= |bytes|
    ensures ReadSegments(bytes, offset, count) == Some((segments, end)) <==>
            && |segments| == count && AllPlaced(segments) && offset <= end <= |bytes|
            && bytes[offset..end] == PrintSegments(segments)
    decreases count
  {
    hide Placed, U32, PrintSegment;
    if count == 0 {
      assert |segments| == 0 ==> segments == [] && PrintSegments(segments) == [];
    } else {
      if ReadSegments(bytes, offset, count) == Some((segments, end)) {
        SegmentsForth(bytes, offset, count, segments, end);
      }
      if |segments| == count && AllPlaced(segments) && offset <= end <= |bytes|
          && bytes[offset..end] == PrintSegments(segments) {
        SegmentsBack(bytes, offset, count, segments, end);
      }
    }
  }

  lemma {:induction false} SegmentsForth(bytes: Bytes, offset: nat, count: nat, segments: seq<Segment>, end: nat)
    requires offset <= |bytes| && count > 0 && ReadSegments(bytes, offset, count) == Some((segments, end))
    ensures && |segments| == count && AllPlaced(segments) && offset <= end <= |bytes|
            && bytes[offset..end] == PrintSegments(segments)
    decreases count, 0
  {
    hide Placed, U32, PrintSegment;
    var s := segments[0];
    var next := offset + 8 + |s.data|;
    assert ReadSegments(bytes, next, count - 1) == Some((segments[1..], end));
    SegmentsExact(bytes, next, count - 1, segments[1..], end);
    PlacedBound(s);
    SegmentReads(bytes, offset, s, next);
    assert bytes[offset..end] == bytes[offset..next] + bytes[next..end];
    assert segments == [s] + segments[1..];
  }

  lemma {:induction false} SegmentsBack(bytes: Bytes, offset: nat, count: nat, segments: seq<Segment>, end: nat)
    requires count > 0 && |segments| == count && AllPlaced(segments) && offset <= end <= |bytes|
    requires bytes[offset..end] == PrintSegments(segments)
    ensures ReadSegments(bytes, offset, count) == Some((segments, end))
    decreases count, 0
  {
    hide Placed, U32, WriteLE;
    var s := segments[0];
    var next := offset + 8 + |s.data|;
    assert Placed(s);
    PlacedBound(s);
    assert |bytes[offset..end]| == |PrintSegment(s)| + |PrintSegments(segments[1..])|;
    assert bytes[offset..end] == bytes[offset..next] + bytes[next..end];
    SplitEqual(bytes[offset..next], PrintSegment(s), bytes[next..end], PrintSegments(segments[1..]));
    SegmentReads(bytes, offset, s, next);
    SegmentsExact(bytes, next, count - 1, segments[1..], end);
    assert segments == [s] + segments[1..];
    assert s == Segment(U32(bytes, offset), bytes[offset + 8..next]);
    assert |s.data| > 0 by { PlacedFull(s); }
  }

  lemma PlacedFull(s: Segment)
    requires Placed(s)
    ensures |s.data| > 0
  {}

  // ---- The whole image ----

  function RoundUp(n: nat): (r: nat)
    ensures n <= r < n + 16 && r % 16 == 0
  {
    (n + 15) / 16 * 16
  }

  /** Where the header of the RAM part starts, if the header before it is in order. */
  function RamOffset(bytes: Bytes): Option<nat> {
    if |bytes| < 32 || |bytes| > MAX_IMAGE || bytes[..4] != MAGIC then None
    else
      var length := U32(bytes, 12);
      if U32(bytes, 8) != 0 || length == 0 || length > |bytes| - 16 then None
      else
        var ram := RoundUp(16 + length);
        if ram + 8 > |bytes| then None else Some(ram)
  }

  predicate RamHeader(bytes: Bytes, ram: nat, entry: nat)
    requires ram + 8 <= |bytes|
  {
    && bytes[ram] == 0xe9 && 1 <= bytes[ram + 1] <= 16 && bytes[ram + 2] == 2 && bytes[ram + 3] == 0x40
    && U32(bytes, ram + 4) == entry && 0x40100000 <= entry < 0x40110000
  }

  function ReadRam(bytes: Bytes): Option<(seq<Segment>, nat)> {
    var ram :- RamOffset(bytes);
    if !RamHeader(bytes, ram, U32(bytes, 4)) then None else ReadSegments(bytes, ram + 8, bytes[ram + 1])
  }

  /** The image whose layout the bytes follow, whatever its checksum. */
  function Parse(bytes: Bytes): Option<Image> {
    var (segments, end) :- ReadRam(bytes);
    var entry, length := U32(bytes, 4), U32(bytes, 12);
    if !Disjoint(segments) || !(exists i :: 0 <= i < |segments| && Holds(segments[i], entry)) then None
    else if (end + 16) / 16 * 16 != |bytes| then None
    else Some(Image(entry, bytes[16..16 + length], bytes[16 + length..RoundUp(16 + length)], segments,
                    bytes[end..|bytes| - 1], bytes[|bytes| - 1]))
  }

  /** `verifyBoot2` accepts. */
  predicate Accepts(bytes: Bytes) {
    Parse(bytes).Some? && Summed(Parse(bytes).value)
  }

  // ---- Layout and parser agree ----

  lemma HeaderReads(bytes: Bytes, im: Image)
    requires |bytes| >= 16 && im.entry < TWO32 && |im.irom| < TWO32
    ensures bytes[..4] == MAGIC && U32(bytes, 4) == im.entry && U32(bytes, 8) == 0 && U32(bytes, 12) == |im.irom|
            <==> bytes[..16] == MAGIC + WriteLE(im.entry, 4) + WriteLE(0, 4) + WriteLE(|im.irom|, 4)
  {
    hide U32, WriteLE;
    U32Reads(bytes, 4, im.entry);
    U32Reads(bytes, 8, 0);
    U32Reads(bytes, 12, |im.irom|);
    var a, b, c, d := bytes[..4], bytes[4..8], bytes[8..12], bytes[12..16];
    var w, x, y, z := MAGIC, WriteLE(im.entry, 4), WriteLE(0, 4), WriteLE(|im.irom|, 4);
    assert bytes[..16] == ((a + b) + c) + d;
    if bytes[..16] == ((w + x) + y) + z {
      SplitEqual((a + b) + c, (w + x) + y, d, z);
      SplitEqual(a + b, w + x, c, y);
      SplitEqual(a, w, b, x);
    }
  }

  lemma RamReads(bytes: Bytes, ram: nat, im: Image)
    requires ram + 8 <= |bytes| && im.entry < TWO32 && |im.segments| <= 255
    ensures && bytes[ram] == 0xe9 && bytes[ram + 1] == |im.segments| && bytes[ram + 2] == 2 && bytes[ram + 3] == 0x40
            && U32(bytes, ram + 4) == im.entry
            <==> bytes[ram..ram + 8] == [0xe9, |im.segments| % 256, 2, 0x40] + WriteLE(im.entry, 4)
  {
    hide U32, WriteLE;
    U32Reads(bytes, ram + 4, im.entry);
    var a, x: Bytes := bytes[ram..ram + 4], [0xe9, |im.segments| % 256, 2, 0x40];
    assert a == [bytes[ram], bytes[ram + 1], bytes[ram + 2], bytes[ram + 3]];
    assert bytes[ram..ram + 8] == a + bytes[ram + 4..ram + 8];
    if bytes[ram..ram + 8] == x + WriteLE(im.entry, 4) {
      SplitEqual(a, x, bytes[ram + 4..ram + 8], WriteLE(im.entry, 4));
      assert a[0] == x[0] && a[1] == x[1] && a[2] == x[2] && a[3] == x[3];
    }
  }

  /** The five stretches of an accepted image. */
  lemma Stretches(bytes: Bytes, a: nat, b: nat, c: nat, d: nat)
    requires 16 <= a <= b <= c <= d < |bytes|
    ensures bytes ==
            bytes[..16] + bytes[16..a] + bytes[a..b] + (bytes[b..c] + bytes[c..d]) + bytes[d..|bytes| - 1] +
                [bytes[|bytes| - 1]]
  {}

  lemma ParsedPrint(bytes: Bytes, im: Image)
    requires Parse(bytes) == Some(im)
    ensures bytes == Print(im) && AllPlaced(im.segments)
  {
    hide ReadSegments, U32, Placed, Disjoint, WriteLE, PrintSegments, Holds;
    var ram := RamOffset(bytes).value;
    var (segments, end) := ReadRam(bytes).value;
    var n := 16 + |im.irom|;
    SegmentsExact(bytes, ram + 8, bytes[ram + 1], segments, end);
    HeaderReads(bytes, im);
    RamReads(bytes, ram, im);
    Stretches(bytes, n, ram, ram + 8, end);
    assert bytes[ram..ram + 8] + bytes[ram + 8..end] == PrintRam(im);
  }

  lemma ParsedFields(bytes: Bytes, im: Image)
    requires Parse(bytes) == Some(im)
    ensures && 0x40100000 <= im.entry < 0x40110000 && |im.irom| > 0 && |im.gap| < 16
    ensures (16 + |im.irom| + |im.gap|) % 16 == 0
            && 1 <= |im.segments| <= 16 && Disjoint(im.segments)
            && (exists i :: 0 <= i < |im.segments| && Holds(im.segments[i], im.entry))
            && |im.tail| < 16 && |bytes| % 16 == 0 && |bytes| <= MAX_IMAGE
  {
    hide ReadSegments, U32, Placed, Disjoint, PrintSegments, Holds;
    var ram := RamOffset(bytes).value;
    var (segments, end) := ReadRam(bytes).value;
    SegmentsExact(bytes, ram + 8, bytes[ram + 1], segments, end);
  }

  lemma ParsedLaid(bytes: Bytes, im: Image)
    requires Parse(bytes) == Some(im)
    ensures Laid(im) && bytes == Print(im)
  {
    hide Parse, Print, Placed, Disjoint, Holds;
    ParsedPrint(bytes, im);
    ParsedFields(bytes, im);
  }

  lemma PrintSize(im: Image)
    ensures |PrintIrom(im)| == 16 + |im.irom| + |im.gap| && |PrintRam(im)| == 8 + |PrintSegments(im.segments)|
    ensures |Print(im)| == |PrintIrom(im)| + |PrintRam(im)| + |im.tail| + 1
  {}

  lemma LaidParses(bytes: Bytes, im: Image)
    requires Laid(im) && bytes == Print(im)
    ensures Parse(bytes) == Some(im)
  {
    hide ReadSegments, U32, Placed, Disjoint, Print, PrintIrom, PrintRam, Holds, RoundUp, ReadRam, PrintSegments,
         WriteLE;
    PrintSize(im);
    var n := 16 + |im.irom|;
    var ram := n + |im.gap|;
    var end := ram + |PrintRam(im)|;
    Pieces(bytes, im, n, ram, end);
    HeaderReads(bytes, im);
    RoundedUp(n, ram);
    LaidReads(bytes, im, n, ram, end);
    PaddedTo(end, |bytes|);
  }

  lemma PaddedTo(end: nat, total: nat)
    requires end < total <= end + 16 && total % 16 == 0
    ensures (end + 16) / 16 * 16 == total
  {}

  lemma RoundedUp(n: nat, ram: nat)
    requires n <= ram < n + 16 && ram % 16 == 0
    ensures RoundUp(n) == ram
  {}

  lemma LaidReads(bytes: Bytes, im: Image, n: nat, ram: nat, end: nat)
    requires Laid(im) && bytes == Print(im) && n == 16 + |im.irom| && ram == n + |im.gap| && end == ram + |PrintRam(im)|
    ensures ReadRam(bytes) == Some((im.segments, end)) && U32(bytes, 4) == im.entry && U32(bytes, 12) == |im.irom|
  {
    hide ReadSegments, U32, Placed, Disjoint, Holds, Print, PrintIrom, PrintRam, RoundUp, PrintSegments, WriteLE;
    PrintSize(im);
    Pieces(bytes, im, n, ram, end);
    HeaderReads(bytes, im);
    RoundedUp(n, ram);
    RamReads(bytes, ram, im);
    SegmentsExact(bytes, ram + 8, |im.segments|, im.segments, end);
  }

  lemma Pieces(bytes: Bytes, im: Image, n: nat, ram: nat, end: nat)
    requires bytes == Print(im) && n == 16 + |im.irom| && ram == n + |im.gap| && end == ram + |PrintRam(im)|
    ensures end + |im.tail| + 1 == |bytes| && ram + 8 <= end && |bytes| >= 16
    ensures bytes[..16] == MAGIC + WriteLE(im.entry, 4) + WriteLE(0, 4) + WriteLE(|im.irom|, 4) && bytes[..4] == MAGIC
    ensures bytes[16..n] == im.irom && bytes[n..ram] == im.gap
    ensures bytes[ram..ram + 8] == [0xe9, |im.segments| % 256, 2, 0x40] + WriteLE(im.entry, 4)
    ensures bytes[ram + 8..end] == PrintSegments(im.segments)
    ensures bytes[end..|bytes| - 1] == im.tail && bytes[|bytes| - 1] == im.checksum
  {
    hide WriteLE, PrintSegments;
    var head := MAGIC + WriteLE(im.entry, 4) + WriteLE(0, 4) + WriteLE(|im.irom|, 4);
    var ramHead := [0xe9, |im.segments| % 256, 2, 0x40] + WriteLE(im.entry, 4);
    assert PrintIrom(im) == head + im.irom + im.gap;
    assert PrintRam(im) == ramHead + PrintSegments(im.segments);
    assert bytes == head + im.irom + im.gap + (ramHead + PrintSegments(im.segments)) + im.tail + [im.checksum];
  }

  /** The parser recovers exactly the images whose layout the bytes follow. */
  lemma ParseExact(bytes: Bytes, im: Image)
    ensures Parse(bytes) == Some(im) <==> Laid(im) && bytes == Print(im)
  {
    hide Parse, Laid, Print;
    if Parse(bytes) == Some(im) {
      ParsedLaid(bytes, im);
    }
    if Laid(im) && bytes == Print(im) {
      LaidParses(bytes, im);
    }
  }

  /** Soundness and completeness: the accepted byte strings are exactly the printed images with a right checksum. */
  lemma AcceptsExactly(bytes: Bytes)
    ensures Accepts(bytes) <==> exists im :: Laid(im) && Summed(im) && bytes == Print(im)
  {
    hide Parse, Laid, Print, Summed;
    if Accepts(bytes) {
      ParseExact(bytes, Parse(bytes).value);
    }
    if exists im :: Laid(im) && Summed(im) && bytes == Print(im) {
      var im :| Laid(im) && Summed(im) && bytes == Print(im);
      ParseExact(bytes, im);
    }
  }

  /** A byte string has at most one layout. */
  lemma LayoutUnique(a: Image, b: Image)
    requires Laid(a) && Laid(b) && Print(a) == Print(b)
    ensures a == b
  {
    hide Parse, Laid, Print;
    ParseExact(Print(a), a);
    ParseExact(Print(a), b);
  }

  /** The entry point of a laid out image lies in exactly one of its segments. */
  lemma EntryInOneSegment(im: Image)
    requires Laid(im)
    ensures exists i :: 0 <= i < |im.segments| && Holds(im.segments[i], im.entry)
                        && forall j :: 0 <= j < |im.segments| && Holds(im.segments[j], im.entry) ==> j == i
  {
    hide Print;
    var i :| 0 <= i < |im.segments| && Holds(im.segments[i], im.entry);
    forall j | 0 <= j < |im.segments| && Holds(im.segments[j], im.entry) ensures j == i {
      assert i < j ==> Apart(im.segments[j], im.segments[i]);
      assert j < i ==> Apart(im.segments[i], im.segments[j]);
    }
  }

  /** Memory that a loader may write: instruction RAM, or data RAM. */
  predicate Writable(address: nat) {
    0x40100000 <= address < 0x40110000 || 0x3ffe8000 <= address < 0x40000000
  }

  /** This address is in RAM, and no other segment of the image has it. */
  predicate HeldOnce(im: Image, i: nat, address: nat)
    requires i < |im.segments|
  {
    Writable(address) && forall j :: 0 <= j < |im.segments| && Holds(im.segments[j], address) ==> j == i
  }

  lemma NotBoth(s: Segment, t: Segment, address: nat)
    ensures Apart(s, t) && Holds(s, address) ==> !Holds(t, address)
  {}

  lemma LaidOnce(im: Image, i: nat, address: nat)
    requires Laid(im) && i < |im.segments| && Holds(im.segments[i], address)
    ensures HeldOnce(im, i, address)
  {
    assert Placed(im.segments[i]);
    hide Print, Apart, Holds;
    forall j | 0 <= j < |im.segments| && Holds(im.segments[j], address) ensures j == i {
      NotBoth(im.segments[i], im.segments[j], address);
      NotBoth(im.segments[j], im.segments[i], address);
    }
    assert Writable(address) by { InRam(im.segments[i], address); }
  }

  lemma InRam(s: Segment, address: nat)
    requires Placed(s) && Holds(s, address)
    ensures Writable(address)
  {}

  lemma LaidBounds(im: Image)
    requires Laid(im)
    ensures |Print(im)| % 16 == 0 && |Print(im)| <= 0xfe000 && 0x40100000 <= im.entry < 0x40110000
    ensures exists i :: 0 <= i < |im.segments| && Holds(im.segments[i], im.entry)
  {
    hide Print, Holds;
  }

  /**
   * Loading an accepted image is safe: it writes only to RAM, no address twice, and what it then runs is instruction
   * RAM that it has just written. The image is whole blocks and fits its slot.
   */
  lemma LoadsSafely(bytes: Bytes)
    requires Accepts(bytes)
    ensures var im := Parse(bytes).value;
            && bytes == Print(im) && |bytes| % 16 == 0 && |bytes| <= 0xfe000
            && (forall i, address :: 0 <= i < |im.segments| && Holds(im.segments[i], address) ==>
                  HeldOnce(im, i, address))
            && 0x40100000 <= im.entry < 0x40110000
            && exists i :: 0 <= i < |im.segments| && Holds(im.segments[i], im.entry)
  {
    hide Parse, Print, Laid, Summed, Holds, HeldOnce;
    var im := Parse(bytes).value;
    ParseExact(bytes, im);
    LaidBounds(im);
    forall i, address | 0 <= i < |im.segments| && Holds(im.segments[i], address) ensures HeldOnce(im, i, address) {
      LaidOnce(im, i, address);
    }
  }

  // ---- Single changes are detected ----

  lemma {:induction false} SameShape(a: seq<Segment>, i: nat, s: Segment)
    requires i < |a| && s.address == a[i].address && |s.data| == |a[i].data|
    ensures |PrintSegments(a[i := s])| == |PrintSegments(a)|
  {
    hide WriteLE;
    if i > 0 {
      assert a[i := s][1..] == a[1..][i - 1 := s];
      SameShape(a[1..], i - 1, s);
    } else {
      assert a[i := s][1..] == a[1..];
    }
  }

  function WithIrom(im: Image, k: nat, v: byte): Image
    requires k < |im.irom|
  {
    im.(irom := im.irom[k := v])
  }

  function WithData(im: Image, i: nat, k: nat, v: byte): Image
    requires i < |im.segments| && k < |im.segments[i].data|
  {
    im.(segments := im.segments[i := im.segments[i].(data := im.segments[i].data[k := v])])
  }

  lemma {:induction false} LoadedChange(segments: seq<Segment>, i: nat, k: nat, v: byte)
    requires i < |segments| && k < |segments[i].data|
    ensures exists p :: 0 <= p < |Loaded(segments)| && Loaded(segments)[p] == segments[i].data[k]
                        && Loaded(segments[i := segments[i].(data := segments[i].data[k := v])]) ==
                           Loaded(segments)[p := v]
    decreases |segments|
  {
    var last := |segments| - 1;
    var s := segments[i].(data := segments[i].data[k := v]);
    var front := Loaded(segments[..last]);
    if i == last {
      var changed := segments[i := s];
      assert changed[..last] == segments[..last] && changed[last] == s;
      var p := |front| + k;
      assert Loaded(changed) == front + s.data && Loaded(segments)[p] == s.data[k := segments[i].data[k]][k];
      assert Loaded(segments)[p := v] == front + segments[last].data[k := v];
    } else {
      LoadedChange(segments[..last], i, k, v);
      var p :| 0 <= p < |front| && front[p] == segments[i].data[k] && Loaded(segments[..last][i := s]) == front[p := v];
      var changed := segments[i := s];
      assert changed[..last] == segments[..last][i := s] && changed[last] == segments[last];
      assert Loaded(changed) == front[p := v] + segments[last].data;
      assert Loaded(segments)[p := v] == front[p := v] + segments[last].data && Loaded(segments)[p] == front[p];
    }
  }

  lemma LaidStays(im: Image, changed: Image)
    requires Laid(im) && changed.entry == im.entry && |changed.irom| == |im.irom| && changed.gap == im.gap
    requires changed.tail == im.tail
    requires |changed.segments| == |im.segments| && |PrintSegments(changed.segments)| == |PrintSegments(im.segments)|
    requires forall i :: 0 <= i < |im.segments| ==>
               changed.segments[i].address == im.segments[i].address
                   && |changed.segments[i].data| == |im.segments[i].data|
    ensures Laid(changed)
  {
    hide Print, PrintIrom, PrintRam, PrintSegments;
    PrintSize(im);
    PrintSize(changed);
    var i :| 0 <= i < |im.segments| && Holds(im.segments[i], im.entry);
    assert Holds(changed.segments[i], changed.entry);
  }

  /** Change any one loaded byte, or the checksum, of an accepted image and it is no longer accepted. */
  lemma ChangeRejected(im: Image, k: nat, i: nat, v: byte)
    requires Laid(im) && Summed(im)
    ensures k < |im.irom| && v != im.irom[k] ==> !Accepts(Print(WithIrom(im, k, v)))
    ensures i < |im.segments| && k < |im.segments[i].data| && v != im.segments[i].data[k] ==>
              !Accepts(Print(WithData(im, i, k, v)))
    ensures v != im.checksum ==> !Accepts(Print(im.(checksum := v)))
  {
    hide Print, Laid, Parse, Loaded, Checksum;
    if k < |im.irom| && v != im.irom[k] {
      var changed := WithIrom(im, k, v);
      LaidStays(im, changed);
      ParseExact(Print(changed), changed);
      ChecksumDetects(CHECKSUM_SEED, im.irom, k, v);
      OtherSeed(Checksum(CHECKSUM_SEED, im.irom), Checksum(CHECKSUM_SEED, changed.irom), Loaded(im.segments));
    }
    if i < |im.segments| && k < |im.segments[i].data| && v != im.segments[i].data[k] {
      var changed := WithData(im, i, k, v);
      SameShape(im.segments, i, changed.segments[i]);
      LaidStays(im, changed);
      ParseExact(Print(changed), changed);
      LoadedChange(im.segments, i, k, v);
      var p :| 0 <= p < |Loaded(im.segments)| && Loaded(im.segments)[p] == im.segments[i].data[k]
               && Loaded(changed.segments) == Loaded(im.segments)[p := v];
      ChecksumDetects(Checksum(CHECKSUM_SEED, im.irom), Loaded(im.segments), p, v);
    }
    if v != im.checksum {
      var changed := im.(checksum := v);
      LaidStays(im, changed);
      ParseExact(Print(changed), changed);
    }
  }

  lemma OtherSeed(a: byte, b: byte, s: Bytes)
    requires a != b
    ensures Checksum(a, s) != Checksum(b, s)
  {
    hide Checksum;
    if Checksum(a, s) == Checksum(b, s) {
      ChecksumInjective(a, b, s);
      assert false;
    }
  }

  // ---- The check itself ----

  /** `segments` so far, and those that follow: what remains to be read decides. */
  lemma ReadNext(bytes: Bytes, offset: nat, count: nat)
    requires count > 0
    ensures var r := ReadSegments(bytes, offset, count);
            if offset + 8 > |bytes| then r.None?
            else
              var address, size := U32(bytes, offset), U32(bytes, offset + 4);
              if size == 0 || size > |bytes| - (offset + 8) then r.None?
              else
                var s := Segment(address, bytes[offset + 8..offset + 8 + size]);
                if !Placed(s) then r.None?
                else
                  var rest := ReadSegments(bytes, offset + 8 + size, count - 1);
                  r == if rest.None? then None else Some(([s] + rest.value.0, rest.value.1))
  {}

  /** What the loop still has to find, given the segments it has read. */
  predicate Completes(bytes: Bytes, read: seq<Segment>, offset: nat, left: nat) {
    var rest := ReadSegments(bytes, offset, left);
    && ReadRam(bytes).Some? == rest.Some?
    && (rest.Some? ==> ReadRam(bytes).value == (read + rest.value.0, rest.value.1))
  }

  lemma CompletesNext(bytes: Bytes, read: seq<Segment>, offset: nat, left: nat, s: Segment)
    requires left > 0 && Completes(bytes, read, offset, left) && offset + 8 + |s.data| <= |bytes| && |s.data| > 0
    requires Placed(s)
    requires s.address == U32(bytes, offset) && |s.data| == U32(bytes, offset + 4)
    requires s.data == bytes[offset + 8..offset + 8 + |s.data|]
    ensures Completes(bytes, read + [s], offset + 8 + |s.data|, left - 1)
  {
    hide ReadSegments, U32, Placed, ReadRam;
    ReadNext(bytes, offset, left);
    var rest := ReadSegments(bytes, offset + 8 + |s.data|, left - 1);
    if rest.Some? {
      assert read + ([s] + rest.value.0) == (read + [s]) + rest.value.0;
    }
  }

  lemma OverlapStays(read: seq<Segment>, s: Segment, rest: seq<Segment>, i: nat)
    requires i < |read| && !Apart(s, read[i])
    ensures !Disjoint(read + ([s] + rest))
  {
    hide Apart;
    var all := read + ([s] + rest);
    assert all[i] == read[i] && all[|read|] == s;
  }

  lemma ChecksumNone(seed: byte)
    ensures Checksum(seed, []) == seed
  {}

  lemma ChecksumNext(seed: byte, bytes: Bytes, from: nat, i: nat)
    requires from <= i < |bytes|
    ensures Checksum(seed, bytes[from..i + 1]) == XorByte(Checksum(seed, bytes[from..i]), bytes[i])
  {
    hide XorByte;
    assert bytes[from..i + 1][..i - from] == bytes[from..i];
  }

  /** The checksum over a stretch of the bytes, continued from `seed`. */
  method Add(seed: byte, bytes: Bytes, from: nat, to: nat) returns (checksum: byte)
    requires from <= to <= |bytes|
    ensures checksum == Checksum(seed, bytes[from..to])
  {
    hide XorByte, Checksum;
    checksum := seed;
    ChecksumNone(seed);
    assert bytes[from..from] == [];
    for i := from to to
      invariant checksum == Checksum(seed, bytes[from..i])
    {
      ChecksumNext(seed, bytes, from, i);
      checksum := XorByte(checksum, bytes[i]);
    }
  }

  lemma LoadedNext(segments: seq<Segment>, s: Segment)
    ensures Loaded(segments + [s]) == Loaded(segments) + s.data
  {
    assert (segments + [s])[..|segments|] == segments;
  }

  lemma Overlapping(bytes: Bytes, read: seq<Segment>, offset: nat, left: nat, s: Segment, i: nat)
    requires Completes(bytes, read + [s], offset, left) && i < |read| && !Apart(s, read[i])
    ensures !Accepts(bytes)
  {
    hide ReadSegments, U32, ReadRam, Apart;
    if ReadRam(bytes).Some? {
      var rest := ReadSegments(bytes, offset, left).value.0;
      assert (read + [s]) + rest == read + ([s] + rest);
      OverlapStays(read, s, rest, i);
    }
  }

  /** The part of the check behind the RAM header. */
  method VerifySegments(bytes: Bytes, entry: nat, length: nat, start: nat, count: nat, seed: byte) returns (ok: bool)
    requires start >= 8 && RamOffset(bytes) == Some(start - 8) && RamHeader(bytes, start - 8, entry)
    requires count == bytes[start - 7]
    requires entry == U32(bytes, 4) && length == U32(bytes, 12)
    requires seed == Checksum(CHECKSUM_SEED, bytes[16..16 + length])
    ensures ok <==> Accepts(bytes)
  {
    hide U32, Placed, ReadSegments, Checksum, Loaded, Apart, Disjoint, RamOffset, RamHeader, Completes, Accepts;
    var offset, checksum := start, seed;
    var segments: seq<Segment> := [];
    Starting(bytes, start, count, seed);
    for i := 0 to count
      invariant start <= offset <= |bytes| && Completes(bytes, segments, offset, count - i)
      invariant Disjoint(segments) && checksum == Checksum(seed, Loaded(segments))
    {
      ReadNext(bytes, offset, count - i);
      Stuck(bytes, segments, offset, count - i);
      if offset + 8 > |bytes| {
        return false;
      }
      var address, size := U32(bytes, offset), U32(bytes, offset + 4);
      var at := offset + 8;
      if size == 0 || size > |bytes| - at {
        return false;
      }
      var s := Segment(address, bytes[at..at + size]);
      if !Placed(s) {
        return false;
      }
      CompletesNext(bytes, segments, offset, count - i, s);
      if k :| 0 <= k < |segments| && !Apart(s, segments[k]) {
        Overlapping(bytes, segments, at + size, count - i - 1, s, k);
        return false;
      }
      DisjointNext(segments, s);
      LoadedNext(segments, s);
      ChecksumSum(seed, Loaded(segments), s.data);
      checksum := Add(checksum, bytes, at, at + size);
      segments := segments + [s];
      offset := at + size;
    }
    Finished(bytes, segments, offset, entry, length, checksum);
    if !(exists k :: 0 <= k < |segments| && Holds(segments[k], entry)) {
      return false;
    }
    var checksumOffset := (offset + 16) / 16 * 16 - 1;
    ok := checksumOffset == |bytes| - 1 && bytes[checksumOffset] == checksum;
  }

  lemma Stuck(bytes: Bytes, read: seq<Segment>, offset: nat, left: nat)
    requires Completes(bytes, read, offset, left)
    ensures ReadSegments(bytes, offset, left).None? ==> !Accepts(bytes)
  {
    hide ReadSegments, ReadRam;
  }

  /** With all segments read, the remaining conditions decide. */
  lemma Finished(bytes: Bytes, segments: seq<Segment>, offset: nat, entry: nat, length: nat, checksum: byte)
    requires Completes(bytes, segments, offset, 0) && Disjoint(segments) && |bytes| >= 32 && offset <= |bytes|
    requires entry == U32(bytes, 4) && length == U32(bytes, 12) && 16 + length <= |bytes|
    requires checksum == Checksum(Checksum(CHECKSUM_SEED, bytes[16..16 + length]), Loaded(segments))
    ensures Accepts(bytes) <==>
            && (exists k :: 0 <= k < |segments| && Holds(segments[k], entry))
            && (offset + 16) / 16 * 16 == |bytes| && bytes[|bytes| - 1] == checksum
  {
    hide U32, Checksum, Loaded, Disjoint, Completes, ReadRam, Holds;
    Ended(bytes, segments, offset);
  }

  lemma Starting(bytes: Bytes, start: nat, count: nat, seed: byte)
    requires start >= 8 && RamOffset(bytes) == Some(start - 8) && RamHeader(bytes, start - 8, U32(bytes, 4))
    requires count == bytes[start - 7]
    ensures Completes(bytes, [], start, count) && Disjoint([]) && Checksum(seed, Loaded([])) == seed && start <= |bytes|
    ensures |bytes| >= 32 && 16 + U32(bytes, 12) <= |bytes|
  {
    hide ReadSegments, U32;
    var rest := ReadSegments(bytes, start, count);
    assert ReadRam(bytes) == rest;
    if rest.Some? {
      assert [] + rest.value.0 == rest.value.0;
    }
  }

  lemma Ended(bytes: Bytes, segments: seq<Segment>, offset: nat)
    requires Completes(bytes, segments, offset, 0)
    ensures ReadRam(bytes) == Some((segments, offset))
  {
    hide ReadRam;
    assert segments + [] == segments;
  }

  lemma DisjointNext(segments: seq<Segment>, s: Segment)
    requires Disjoint(segments) && forall k :: 0 <= k < |segments| ==> Apart(s, segments[k])
    ensures Disjoint(segments + [s])
  {
    hide Apart;
  }

  /** The check, over the bytes in place. Every read is in bounds; it accepts exactly the images of `AcceptsExactly`. */
  method VerifyBoot2(bytes: Bytes) returns (ok: bool)
    ensures ok <==> Accepts(bytes)
    ensures ok <==> exists im :: Laid(im) && Summed(im) && bytes == Print(im)
  {
    hide U32, Placed, ReadSegments, Checksum, XorByte, Print, Laid, Loaded;
    AcceptsExactly(bytes);
    if |bytes| < 32 || |bytes| > MAX_IMAGE || bytes[..4] != MAGIC {
      return false;
    }
    var entry, length := U32(bytes, 4), U32(bytes, 12);
    if U32(bytes, 8) != 0 || length == 0 || length > |bytes| - 16 {
      return false;
    }
    var checksum := Add(CHECKSUM_SEED, bytes, 16, 16 + length);
    var offset := RoundUp(16 + length);
    if offset + 8 > |bytes| {
      return false;
    }
    var count := bytes[offset + 1];
    if !(&& bytes[offset] == 0xe9 && 1 <= count <= 16 && bytes[offset + 2] == 2 && bytes[offset + 3] == 0x40
         && U32(bytes, offset + 4) == entry && 0x40100000 <= entry < 0x40110000) {
      return false;
    }
    ok := VerifySegments(bytes, entry, length, offset + 8, count, checksum);
  }

  // ---- Where the loaded bytes are ----

  lemma IromAt(im: Image, k: nat, v: byte)
    requires k < |im.irom|
    ensures 16 + k < |Print(im)| && Print(im)[16 + k] == im.irom[k]
    ensures Print(WithIrom(im, k, v)) == Print(im)[16 + k := v]
  {
    hide WriteLE, PrintRam, Print, PrintIrom;
    var n := 16 + |im.irom|;
    var head := MAGIC + WriteLE(im.entry, 4) + WriteLE(0, 4) + WriteLE(|im.irom|, 4);
    var rest := im.gap + PrintRam(im) + im.tail + [im.checksum];
    IromForm(im);
    IromForm(WithIrom(im, k, v));
    assert PrintRam(WithIrom(im, k, v)) == PrintRam(im) by { SameRam(im, WithIrom(im, k, v)); }
    assert (head + im.irom + rest)[16 + k := v] == head + im.irom[k := v] + rest;
  }

  lemma IromForm(im: Image)
    ensures Print(im) == MAGIC + WriteLE(im.entry, 4) + WriteLE(0, 4) + WriteLE(|im.irom|, 4) + im.irom
                         + (im.gap + PrintRam(im) + im.tail + [im.checksum])
  {
    hide WriteLE, PrintRam;
  }

  lemma SameRam(a: Image, b: Image)
    requires a.segments == b.segments && a.entry == b.entry
    ensures PrintRam(a) == PrintRam(b)
  {}

  /** Where byte `k` of segment `i` stands in the printed segments. */
  function DataAt(segments: seq<Segment>, i: nat, k: nat): nat
    requires i < |segments|
  {
    if i == 0 then 8 + k else 8 + |segments[0].data| + DataAt(segments[1..], i - 1, k)
  }

  lemma {:induction false} DataChange(segments: seq<Segment>, i: nat, k: nat, v: byte)
    requires i < |segments| && k < |segments[i].data|
    ensures var p := DataAt(segments, i, k);
            && p < |PrintSegments(segments)| && PrintSegments(segments)[p] == segments[i].data[k]
            && PrintSegments(segments[i := segments[i].(data := segments[i].data[k := v])]) ==
               PrintSegments(segments)[p := v]
    decreases i
  {
    hide WriteLE;
    var s := segments[i].(data := segments[i].data[k := v]);
    var changed := segments[i := s];
    if i == 0 {
      assert changed[1..] == segments[1..];
      assert PrintSegment(s) == PrintSegment(segments[0])[8 + k := v];
    } else {
      DataChange(segments[1..], i - 1, k, v);
      assert changed[1..] == segments[1..][i - 1 := s];
    }
  }

  lemma RamAt(im: Image, i: nat, k: nat, v: byte)
    requires i < |im.segments| && k < |im.segments[i].data|
    ensures var p := 16 + |im.irom| + |im.gap| + 8 + DataAt(im.segments, i, k);
            p < |Print(im)| && Print(im)[p] == im.segments[i].data[k]
                && Print(WithData(im, i, k, v)) == Print(im)[p := v]
  {
    hide WriteLE, PrintSegments, PrintIrom;
    DataChange(im.segments, i, k, v);
    var changed := WithData(im, i, k, v);
    PrintSize(im);
    var q := DataAt(im.segments, i, k);
    var front := PrintIrom(im) + ([0xe9, |im.segments| % 256, 2, 0x40] + WriteLE(im.entry, 4));
    assert PrintIrom(changed) == PrintIrom(im) by { SameIrom(im, changed); }
    assert Print(im) == front + PrintSegments(im.segments) + (im.tail + [im.checksum]);
    assert Print(changed) == front + PrintSegments(changed.segments) + (im.tail + [im.checksum]);
  }

  lemma SameIrom(a: Image, b: Image)
    requires a.irom == b.irom && a.entry == b.entry && a.gap == b.gap
    ensures PrintIrom(a) == PrintIrom(b)
  {}

  /** The positions of an image that are loaded or hold the checksum. */
  predicate Covered(im: Image, p: nat) {
    || 16 <= p < 16 + |im.irom|
    || (exists i, k :: 0 <= i < |im.segments| && 0 <= k < |im.segments[i].data|
                       && p == 16 + |im.irom| + |im.gap| + 8 + DataAt(im.segments, i, k))
    || p == |Print(im)| - 1
  }

  /** Change any one loaded byte, or the checksum byte, of accepted bytes and they are no longer accepted. */
  lemma SingleChangeRejected(bytes: Bytes, p: nat, v: byte)
    requires Accepts(bytes) && p < |bytes| && v != bytes[p] && Covered(Parse(bytes).value, p)
    ensures !Accepts(bytes[p := v])
  {
    hide Accepts, Parse, Laid, Print, Summed;
    AcceptedSummed(bytes);
    var im := Parse(bytes).value;
    ParseExact(bytes, im);
    if 16 <= p < 16 + |im.irom| {
      IromAt(im, p - 16, v);
      ChangeRejected(im, p - 16, |im.segments|, v);
    } else if p == |Print(im)| - 1 {
      LastByte(im, v);
      ChangeRejected(im, 0, 0, v);
    } else {
      var i, k :| 0 <= i < |im.segments| && 0 <= k < |im.segments[i].data|
                  && p == 16 + |im.irom| + |im.gap| + 8 + DataAt(im.segments, i, k);
      RamAt(im, i, k, v);
      ChangeRejected(im, k, i, v);
    }
  }

  lemma AcceptedSummed(bytes: Bytes)
    requires Accepts(bytes)
    ensures Parse(bytes).Some? && Summed(Parse(bytes).value)
  {
    hide Parse, Summed;
  }

  lemma LastByte(im: Image, v: byte)
    ensures |Print(im)| > 0 && Print(im)[|Print(im)| - 1] == im.checksum
    ensures Print(im.(checksum := v)) == Print(im)[|Print(im)| - 1 := v]
  {
    hide PrintIrom, PrintRam;
    assert PrintIrom(im.(checksum := v)) == PrintIrom(im) && PrintRam(im.(checksum := v)) == PrintRam(im) by {
      SameIrom(im, im.(checksum := v));
      SameRam(im, im.(checksum := v));
    }
  }
}
