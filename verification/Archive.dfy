/** The release archive of src/firmware/archive.js: the tar loop, and the tar files it reads back. */
module Archive {
  import opened Prelude
  import Boot2

  const BLOCK: nat := 512
  const MAX_MANIFEST: nat := 16 * 1024
  const FILE_TYPE: byte := 48
  const DIRECTORY_TYPE: byte := 53

  const MANIFEST := Chars("manifest.json")
  const DOT_SLASH: Bytes := [0x2e, 0x2f]

  /** What may be in the archive of one release. */
  datatype Names = Names(artifact: Bytes, directories: set<Bytes>)

  function NamesOf(version: Bytes): Names {
    Names(KEYPAD_HARDWARE + Chars("/") + version + Chars("/firmware.bin.signed"),
          {[], KEYPAD_HARDWARE + Chars("/"), KEYPAD_HARDWARE + Chars("/") + version + Chars("/")})
  }

  // ---- Fields ----

  /** Node's "ascii" decoding drops the high bit. */
  function Ascii(s: Bytes): (r: Bytes)
    ensures |r| == |s|
  {
    seq(|s|, i requires 0 <= i < |s| => s[i] % 128)
  }

  function CutAtNul(s: Bytes): Bytes {
    if s == [] || s[0] == 0 then [] else [s[0]] + CutAtNul(s[1..])
  }

  function Field(header: Bytes, start: nat, size: nat): Bytes
    requires start + size <= |header|
  {
    CutAtNul(Ascii(header[start..start + size]))
  }

  predicate Space(c: byte) {
    9 <= c <= 13 || c == 32
  }

  function TrimStart(s: Bytes): Bytes {
    if s != [] && Space(s[0]) then TrimStart(s[1..]) else s
  }

  function TrimEnd(s: Bytes): Bytes {
    if s != [] && Space(s[|s| - 1]) then TrimEnd(s[..|s| - 1]) else s
  }

  predicate OctalDigit(c: byte) {
    48 <= c <= 55
  }

  function OctalValue(s: Bytes): nat
    requires forall i :: 0 <= i < |s| ==> OctalDigit(s[i])
  {
    if s == [] then 0
    else
      assert OctalDigit(s[|s| - 1]);
      var digit: int := s[|s| - 1];
      8 * OctalValue(s[..|s| - 1]) + (digit - 48)
  }

  /** A numeric field, or `None` where the source throws. */
  function Octal(header: Bytes, start: nat, size: nat): Option<nat>
    requires start + size <= |header|
  {
    var text := TrimEnd(TrimStart(Field(header, start, size)));
    if text != [] && forall i :: 0 <= i < |text| ==> OctalDigit(text[i]) then Some(OctalValue(text)) else None
  }

  function Sum(s: Bytes): nat {
    if s == [] then 0 else Sum(s[..|s| - 1]) + s[|s| - 1]
  }

  /** The sum of a header's bytes, with spaces for its checksum field. */
  function HeaderSum(header: Bytes): nat
    requires |header| == BLOCK
  {
    Sum(header[..148] + Repeat(32, 8) + header[156..])
  }

  predicate Zero(s: Bytes) {
    forall i :: 0 <= i < |s| ==> s[i] == 0
  }

  function Undotted(name: Bytes): Bytes {
    if DOT_SLASH <= name then name[2..] else name
  }

  // ---- The loop ----

  type Files = map<Bytes, Bytes>

  function Blocks(size: nat): (r: nat)
    ensures size <= r < size + BLOCK && r % BLOCK == 0
  {
    (size + 511) / BLOCK * BLOCK
  }

  /** The name and size of a header, if its checksum holds and it has no path prefix. */
  function ReadHeader(header: Bytes): Option<(Bytes, nat)>
    requires |header| == BLOCK
  {
    var checksum :- Octal(header, 148, 8);
    if checksum != HeaderSum(header) || Field(header, 345, 155) != [] then None
    else
      var size :- Octal(header, 124, 12);
      Some((Undotted(Field(header, 0, 100)), size))
  }

  /** One member: the files afterwards and where the next header is. */
  function ReadMember(tar: Bytes, offset: nat, names: Names, files: Files): (r: Option<(Files, nat)>)
    requires offset + BLOCK <= |tar|
    ensures r.Some? ==> offset < r.value.1
  {
    var header := tar[offset..offset + BLOCK];
    var (name, size) :- ReadHeader(header);
    var at := offset + BLOCK;
    if size > Boot2.MAX_SIGNED || at + size > |tar| then None
    else if header[156] == DIRECTORY_TYPE then
      if size == 0 && name in names.directories then Some((files, at)) else None
    else if header[156] != 0 && header[156] != FILE_TYPE then None
    else if (name != MANIFEST && name != names.artifact) || name in files
        || (name == MANIFEST && size > MAX_MANIFEST) then None
    else Some((files[name := tar[at..at + size]], at + Blocks(size)))
  }

  /** The members from `offset` on, up to the terminator. */
  function Walk(tar: Bytes, offset: nat, names: Names, files: Files): Option<Files>
    decreases |tar| - offset
  {
    if offset + BLOCK > |tar| then None
    else if Zero(tar[offset..offset + BLOCK]) then
      if |tar| - offset >= 1024 && Zero(tar[offset..]) then Some(files) else None
    else
      var (more, next) :- ReadMember(tar, offset, names, files);
      Walk(tar, next, names, more)
  }

  /** The files of an archive. */
  function Unpack(tar: Bytes, names: Names): Option<Files> {
    var files :- Walk(tar, 0, names, map[]);
    if |files| == 2 then Some(files) else None
  }

  // ---- Soundness ----

  /** A stretch of the archive holds this file. */
  predicate Stretch(tar: Bytes, data: Bytes, at: nat) {
    at + |data| <= |tar| && tar[at..at + |data|] == data
  }

  /** Every file read so far lies before `offset`, apart from the others. */
  ghost predicate Located(tar: Bytes, files: Files, place: map<Bytes, nat>, offset: nat) {
    && place.Keys == files.Keys
    && (forall name :: name in files ==>
         Stretch(tar, files[name], place[name]) && place[name] + |files[name]| <= offset)
    && forall a, b :: a in files && b in files && a != b ==>
         place[a] + |files[a]| <= place[b] || place[b] + |files[b]| <= place[a]
  }

  predicate Terminated(tar: Bytes, end: nat) {
    end + 1024 <= |tar| && Zero(tar[end..])
  }

  /** What one member adds. */
  predicate Adds(
      tar: Bytes, offset: nat, names: Names, files: Files, more: Files, next: nat, name: Bytes, data: Bytes) {
    && name !in files && name in {MANIFEST, names.artifact} && more == files[name := data]
    && Stretch(tar, data, offset + BLOCK) && offset + BLOCK + |data| <= next
  }

  lemma MemberAdds(tar: Bytes, offset: nat, names: Names, files: Files, more: Files, next: nat)
    requires offset + BLOCK <= |tar| && ReadMember(tar, offset, names, files) == Some((more, next))
    ensures offset < next
    ensures (more == files || exists name, data :: Adds(tar, offset, names, files, more, next, name, data))
  {
    hide ReadHeader, Blocks;
    var (name, size) := ReadHeader(tar[offset..offset + BLOCK]).value;
    var at := offset + BLOCK;
    if tar[offset..offset + BLOCK][156] != DIRECTORY_TYPE {
      assert Adds(tar, offset, names, files, more, next, name, tar[at..at + size]);
    }
  }

  lemma MemberLocated(
      tar: Bytes, offset: nat, names: Names, files: Files, place: map<Bytes, nat>, more: Files, next: nat)
    requires offset + BLOCK <= |tar| && Located(tar, files, place, offset)
    requires ReadMember(tar, offset, names, files) == Some((more, next))
    requires files.Keys <= {MANIFEST, names.artifact}
    ensures more.Keys <= {MANIFEST, names.artifact}
    ensures exists place' :: Located(tar, more, place', next)
  {
    hide ReadMember, Stretch;
    MemberAdds(tar, offset, names, files, more, next);
    if more == files {
      assert Located(tar, more, place, next);
    } else {
      var name, data :| Adds(tar, offset, names, files, more, next, name, data);
      hide Adds;
      LocatedNext(tar, files, place, offset, more, next, name, data, names);
    }
  }

  lemma LocatedNext(
      tar: Bytes, files: Files, place: map<Bytes, nat>, offset: nat, more: Files, next: nat, name: Bytes, data: Bytes,
      names: Names)
    requires Located(tar, files, place, offset) && Adds(tar, offset, names, files, more, next, name, data)
    requires files.Keys <= {MANIFEST, names.artifact}
    ensures Located(tar, more, place[name := offset + BLOCK], next) && more.Keys <= {MANIFEST, names.artifact}
  {
    hide Stretch;
    var place' := place[name := offset + BLOCK];
    forall n | n in more ensures Stretch(tar, more[n], place'[n]) && place'[n] + |more[n]| <= next {
      assert n == name || n in files;
    }
    assert place'.Keys == more.Keys;
  }

  lemma {:induction false} WalkSound(tar: Bytes, offset: nat, names: Names, files: Files, place: map<Bytes, nat>)
    requires Located(tar, files, place, offset) && files.Keys <= {MANIFEST, names.artifact}
    requires Walk(tar, offset, names, files).Some?
    ensures var r := Walk(tar, offset, names, files).value;
            && r.Keys <= {MANIFEST, names.artifact}
            && exists place', end :: Located(tar, r, place', end) && Terminated(tar, end)
    decreases |tar| - offset
  {
    hide ReadMember, Located;
    if Zero(tar[offset..offset + BLOCK]) {
      assert Located(tar, files, place, offset) && Terminated(tar, offset);
    } else {
      var (more, next) := ReadMember(tar, offset, names, files).value;
      MemberLocated(tar, offset, names, files, place, more, next);
      var place' :| Located(tar, more, place', next);
      WalkSound(tar, next, names, more, place');
    }
  }

  /**
   * An accepted archive holds exactly the manifest and the artifact, in stretches that lie in bounds and apart, and
   * ends in at least two blocks of zeros behind both.
   */
  lemma AcceptedArchive(tar: Bytes, names: Names)
    requires Unpack(tar, names).Some?
    ensures var files := Unpack(tar, names).value;
            && files.Keys == {MANIFEST, names.artifact} && MANIFEST != names.artifact
            && exists place, end :: Located(tar, files, place, end) && Terminated(tar, end)
  {
    hide Walk, Located;
    assert Located(tar, map[], map[], 0) by { NothingLocated(tar); }
    WalkSound(tar, 0, names, map[], map[]);
    var files := Unpack(tar, names).value;
    assert |files.Keys| == 2;
    if MANIFEST == names.artifact {
      SubsetSize(files.Keys, {MANIFEST});
    } else {
      assert |{MANIFEST, names.artifact}| == 2;
      SubsetSize(files.Keys, {MANIFEST, names.artifact});
    }
  }

  lemma NothingLocated(tar: Bytes)
    ensures Located(tar, map[], map[], 0)
  {}

  lemma {:induction false} SubsetSize<T>(a: set<T>, b: set<T>)
    requires a <= b
    ensures |a| <= |b| && (|a| == |b| ==> a == b)
  {
    if a != {} {
      var x :| x in a;
      SubsetSize(a - {x}, b - {x});
    }
  }

  // ---- Every member of an accepted archive is in order ----

  function NameAt(tar: Bytes, at: nat): Bytes
    requires at + 512 <= |tar|
  {
    Undotted(Field(tar[at..at + 512], 0, 100))
  }

  function SizeAt(tar: Bytes, at: nat): nat
    requires at + 512 <= |tar|
  {
    var size := Octal(tar[at..at + 512], 124, 12);
    if size.Some? then size.value else 0
  }

  /** A header with the right checksum and no path prefix, of a known directory or one of the two files. */
  predicate Proper(tar: Bytes, at: nat, names: Names) {
    && at + 512 <= |tar| && at + 512 + SizeAt(tar, at) <= |tar|
    && var header, name, size := tar[at..at + 512], NameAt(tar, at), SizeAt(tar, at);
       && Octal(header, 148, 8) == Some(HeaderSum(header)) && Octal(header, 124, 12).Some? && header[345] % 128 == 0
       && if header[156] == 53 then name in names.directories && size == 0
          else
            && (header[156] == 0 || header[156] == 48)
            && ((name == Chars("manifest.json") && size <= 16384) || (name == names.artifact && size <= 0xfe000 + 260))
  }

  /** Header `k` is in order, and the next one, or the end, stands behind its data. */
  predicate Linked(tar: Bytes, offsets: seq<nat>, k: nat, end: nat, names: Names)
    requires k < |offsets|
  {
    Proper(tar, offsets[k], names)
    && (if k + 1 < |offsets| then offsets[k + 1] else end) == offsets[k] + 512 + Blocks(SizeAt(tar, offsets[k]))
  }

  /** The headers stand one behind the other, each behind the blocks of the data before it. */
  ghost predicate Chain(tar: Bytes, from: nat, offsets: seq<nat>, end: nat, names: Names) {
    && (if offsets == [] then end == from else offsets[0] == from)
    && forall k :: 0 <= k < |offsets| ==> Linked(tar, offsets, k, end, names)
  }

  lemma NoPrefixByte(header: Bytes)
    requires |header| == 512 && Field(header, 345, 155) == []
    ensures header[345] % 128 == 0
  {
    var ascii := Ascii(header[345..500]);
    assert ascii[0] == header[345] % 128;
  }

  lemma NoBlocks()
    ensures Blocks(0) == 0
  {}

  lemma MemberProper(tar: Bytes, offset: nat, names: Names, files: Files, more: Files, next: nat)
    requires offset + BLOCK <= |tar| && ReadMember(tar, offset, names, files) == Some((more, next))
    ensures Proper(tar, offset, names) && next == offset + 512 + Blocks(SizeAt(tar, offset))
  {
    hide Octal, Undotted, HeaderSum, Blocks, Chars, Field;
    NoPrefixByte(tar[offset..offset + BLOCK]);
    NoBlocks();
  }

  lemma NoChain(tar: Bytes, from: nat, names: Names)
    ensures Chain(tar, from, [], from, names)
  {}

  lemma ChainNext(tar: Bytes, from: nat, rest: seq<nat>, end: nat, names: Names, next: nat)
    requires Proper(tar, from, names) && next == from + 512 + Blocks(SizeAt(tar, from))
    requires Chain(tar, next, rest, end, names)
    ensures Chain(tar, from, [from] + rest, end, names)
  {
    hide Octal, Undotted, HeaderSum, Blocks, Field;
    var offsets := [from] + rest;
    forall k: nat | k < |offsets| ensures Linked(tar, offsets, k, end, names) {
      if k > 0 {
        assert Linked(tar, rest, k - 1, end, names) && offsets[k] == rest[k - 1];
        assert k + 1 < |offsets| ==> offsets[k + 1] == rest[k];
      } else {
        assert |rest| > 0 ==> offsets[1] == rest[0] == next;
      }
    }
  }

  lemma {:induction false} WalkChain(tar: Bytes, offset: nat, names: Names, files: Files)
    returns (offsets: seq<nat>, end: nat)
    requires Walk(tar, offset, names, files).Some?
    ensures Chain(tar, offset, offsets, end, names) && Terminated(tar, end)
    decreases |tar| - offset
  {
    hide ReadMember, Proper, SizeAt, Blocks, Chain;
    if Zero(tar[offset..offset + BLOCK]) {
      offsets, end := [], offset;
      assert Chain(tar, offset, [], offset, names) by { NoChain(tar, offset, names); }
    } else {
      var (more, next) := ReadMember(tar, offset, names, files).value;
      MemberProper(tar, offset, names, files, more, next);
      var rest;
      rest, end := WalkChain(tar, next, names, more);
      ChainNext(tar, offset, rest, end, names, next);
      offsets := [offset] + rest;
    }
  }

  /**
   * An accepted archive is nothing but headers in order, each with the right checksum and one of the allowed names, the
   * data they announce, and the terminator.
   */
  lemma AcceptedMembers(tar: Bytes, names: Names)
    requires Unpack(tar, names).Some?
    ensures exists offsets, end :: Chain(tar, 0, offsets, end, names) && Terminated(tar, end)
  {
    var offsets, end := WalkChain(tar, 0, names, map[]);
  }

  lemma {:induction false} SumChange(s: Bytes, i: nat, v: byte)
    requires i < |s|
    ensures Sum(s[i := v]) == Sum(s) - s[i] + v
  {
    var t := s[i := v];
    if i == |s| - 1 {
      assert t[..|s| - 1] == s[..|s| - 1];
    } else {
      assert t[..|s| - 1] == s[..|s| - 1][i := v];
      SumChange(s[..|s| - 1], i, v);
    }
  }

  /** A header in which any one byte outside its checksum field is changed is rejected. */
  lemma DamagedHeaderRejected(header: Bytes, i: nat, v: byte)
    requires |header| == 512 && ReadHeader(header).Some? && i < 512 && !(148 <= i < 156) && v != header[i]
    ensures ReadHeader(header[i := v]).None?
  {
    hide Sum, Undotted, CutAtNul, Ascii, TrimEnd, TrimStart, OctalValue;
    var damaged := header[i := v];
    assert damaged[148..156] == header[148..156];
    var spaced := header[..148] + Repeat(32, 8) + header[156..];
    SumChange(spaced, i, v);
    assert damaged[..148] + Repeat(32, 8) + damaged[156..] == spaced[i := v];
  }

  // ---- Printing ----

  /** Two octal digits, the higher one first. */
  lemma OctalText(n: nat)
    ensures OctalDigits(n, 2) == [48 + n / 8 % 8, 48 + n % 8]
  {
    assert OctalDigits(n / 8, 1) == OctalDigits(n / 8 / 8, 0) + [48 + n / 8 % 8];
  }

  function OctalDigits(n: nat, width: nat): (s: Bytes)
    ensures |s| == width && forall i :: 0 <= i < width ==> OctalDigit(s[i])
  {
    if width == 0 then [] else OctalDigits(n / 8, width - 1) + [48 + n % 8]
  }

  function Pow8(width: nat): (r: nat)
    ensures r >= 1
  {
    if width == 0 then 1 else 8 * Pow8(width - 1)
  }

  /** One member as the release tool writes it. */
  datatype Member = Member(name: Bytes, dotted: bool, directory: bool, data: Bytes)

  function FullName(m: Member): Bytes {
    if m.dotted then DOT_SLASH + m.name else m.name
  }

  /** A header's bytes before and behind the checksum field. */
  function Before(m: Member): (r: Bytes)
    requires |FullName(m)| <= 100
    ensures |r| == 148
  {
    FullName(m) + Repeat(0, 100 - |FullName(m)|) + Repeat(0, 24) + (OctalDigits(|m.data|, 11) + [0]) + Repeat(0, 12)
  }

  function Behind(m: Member): (r: Bytes)
    ensures |r| == 356
  {
    [if m.directory then DIRECTORY_TYPE else FILE_TYPE] + Repeat(0, 188) + Repeat(0, 155) + Repeat(0, 12)
  }

  function PrintHeader(m: Member): (r: Bytes)
    requires |FullName(m)| <= 100
    ensures |r| == BLOCK
  {
    Before(m) + (OctalDigits(Sum(Before(m) + Repeat(32, 8) + Behind(m)), 6) + [0, 32]) + Behind(m)
  }

  function PrintMember(m: Member): (r: Bytes)
    requires |FullName(m)| <= 100
    ensures |r| == BLOCK + Blocks(|m.data|)
  {
    PrintHeader(m) + m.data + Repeat(0, Blocks(|m.data|) - |m.data|)
  }

  /** A plain name: ASCII without NUL, not itself starting with "./". */
  predicate PlainName(name: Bytes) {
    |name| <= 98 && !(DOT_SLASH <= name) && forall i :: 0 <= i < |name| ==> 1 <= name[i] < 128
  }

  predicate Printable(m: Member, names: Names) {
    && PlainName(m.name)
    && if m.directory then m.data == [] && m.name in names.directories
       else && (m.name == MANIFEST || m.name == names.artifact)
            && |m.data| <= Boot2.MAX_SIGNED && (m.name == MANIFEST ==> |m.data| <= MAX_MANIFEST)
  }

  // ---- What is printed is read back ----

  lemma {:induction false} OctalReads(n: nat, width: nat)
    requires n < Pow8(width)
    ensures OctalValue(OctalDigits(n, width)) == n
  {
    if width > 0 {
      OctalReads(n / 8, width - 1);
      assert OctalDigits(n, width)[..width - 1] == OctalDigits(n / 8, width - 1);
    }
  }

  lemma {:induction false} CutsAtNul(s: Bytes, rest: Bytes)
    requires forall i :: 0 <= i < |s| ==> s[i] != 0
    ensures CutAtNul(s + [0] + rest) == s && CutAtNul(s) == s
  {
    if s != [] {
      assert (s + [0] + rest)[1..] == s[1..] + [0] + rest;
      CutsAtNul(s[1..], rest);
    } else {
      assert (s + [0] + rest)[0] == 0;
    }
  }

  lemma AsciiKeeps(s: Bytes)
    requires forall i :: 0 <= i < |s| ==> s[i] < 128
    ensures Ascii(s) == s
  {}

  /** A numeric field as printed: digits, NUL and anything plain behind. */
  lemma OctalFieldReads(header: Bytes, start: nat, size: nat, n: nat, width: nat, rest: Bytes)
    requires start + size <= |header| && 0 < width && n < Pow8(width) && forall i :: 0 <= i < |rest| ==> rest[i] < 128
    requires header[start..start + size] == OctalDigits(n, width) + [0] + rest
    ensures Octal(header, start, size) == Some(n)
  {
    var digits := OctalDigits(n, width);
    assert forall i :: 0 <= i < |digits| ==> OctalDigit(digits[i]);
    AsciiKeeps(digits + [0] + rest);
    CutsAtNul(digits, rest);
    assert Field(header, start, size) == digits;
    assert !Space(digits[0]) && !Space(digits[|digits| - 1]);
    OctalReads(n, width);
  }

  lemma {:induction false} SumBound(s: Bytes)
    ensures Sum(s) <= 255 * |s|
  {
    if s != [] {
      SumBound(s[..|s| - 1]);
    }
  }

  lemma Pow8Values()
    ensures Pow8(6) == 262144 && Pow8(11) == 8589934592
  {
    assert Pow8(3) == 512;
    assert Pow8(6) == 512 * 512 by { assert Pow8(4) == 4096; }
    assert Pow8(9) == 512 * 262144 by { assert Pow8(7) == 8 * 262144; }
  }

  lemma HeaderSlices(m: Member)
    requires |FullName(m)| <= 100
    ensures var h := PrintHeader(m);
            && h[..148] == Before(m) && h[156..] == Behind(m)
            && h[148..156] == OctalDigits(Sum(Before(m) + Repeat(32, 8) + Behind(m)), 6) + [0] + [32]
            && h[156] == (if m.directory then DIRECTORY_TYPE else FILE_TYPE)
            && h[124..136] == OctalDigits(|m.data|, 11) + [0] + []
            && h[0..100] == FullName(m) + Repeat(0, 100 - |FullName(m)|)
            && h[345..500] == Repeat(0, 155)
  {
    hide OctalDigits, Sum;
    var h := PrintHeader(m);
    assert h[..148] == Before(m);
    assert h[124..136] == Before(m)[124..136];
    assert h[0..100] == Before(m)[0..100];
    assert h[156..] == Behind(m);
    assert h[345..500] == Behind(m)[189..344];
  }

  lemma NameReads(m: Member)
    requires PlainName(m.name)
    ensures Undotted(Field(PrintHeader(m), 0, 100)) == m.name
  {
    hide PrintHeader, CutAtNul, Ascii;
    HeaderSlices(m);
    var full, n := FullName(m), 100 - |FullName(m)|;
    AsciiKeeps(full + Repeat(0, n));
    if n > 0 {
      assert full + Repeat(0, n) == full + [0] + Repeat(0, n - 1);
      CutsAtNul(full, Repeat(0, n - 1));
    } else {
      assert full + Repeat(0, n) == full;
      CutsAtNul(full, []);
    }
    if m.dotted {
      assert DOT_SLASH <= full && full[2..] == m.name;
    }
  }

  lemma HeaderReads(m: Member)
    requires PlainName(m.name) && |m.data| <= Boot2.MAX_SIGNED
    ensures ReadHeader(PrintHeader(m)) == Some((m.name, |m.data|)) && !Zero(PrintHeader(m))
  {
    hide PrintHeader, CutAtNul, Ascii, Field, Octal, OctalDigits, Sum, Undotted;
    var h, sum := PrintHeader(m), Sum(Before(m) + Repeat(32, 8) + Behind(m));
    HeaderSlices(m);
    Pow8Values();
    SumBound(Before(m) + Repeat(32, 8) + Behind(m));
    OctalFieldReads(h, 148, 8, sum, 6, [32]);
    OctalFieldReads(h, 124, 12, |m.data|, 11, []);
    assert HeaderSum(h) == sum;
    NameReads(m);
    assert Field(h, 345, 155) == [] by { NoPrefix(h); }
  }

  lemma NoPrefix(h: Bytes)
    requires |h| == BLOCK && h[345..500] == Repeat(0, 155)
    ensures Field(h, 345, 155) == []
  {
    AsciiKeeps(Repeat(0, 155));
  }

  lemma SliceOfSlice(s: Bytes, a: nat, b: nat, i: nat, j: nat)
    requires a <= b <= |s| && i <= j <= b - a
    ensures s[a..b][i..j] == s[a + i..a + j]
  {
    assert forall k :: 0 <= k < j - i ==> s[a..b][i..j][k] == s[a + i..a + j][k];
  }

  lemma Splits(s: Bytes, offset: nat, first: Bytes, rest: Bytes)
    requires offset <= |s| && s[offset..] == first + rest
    ensures offset + |first| <= |s| && s[offset..offset + |first|] == first && s[offset + |first|..] == rest
  {
    var tail := s[offset..];
    assert |tail| == |first| + |rest|;
    assert forall k :: offset <= k < |s| ==> s[k] == tail[k - offset];
  }

  /** One printed member, wherever it stands, is read as that member and skipped as a whole. */
  lemma MemberReads(tar: Bytes, offset: nat, m: Member, names: Names, files: Files)
    requires Printable(m, names) && (!m.directory ==> m.name !in files)
    requires |FullName(m)| <= 100 && offset + |PrintMember(m)| <= |tar|
    requires tar[offset..offset + |PrintMember(m)|] == PrintMember(m)
    ensures !Zero(tar[offset..offset + BLOCK])
    ensures ReadMember(tar, offset, names, files) ==
            Some((if m.directory then files else files[m.name := m.data], offset + |PrintMember(m)|))
  {
    hide ReadHeader, PrintHeader, Zero, PlainName;
    HeaderReads(m);
    HeaderSlices(m);
    var end := offset + |PrintMember(m)|;
    var printed := tar[offset..end];
    assert printed == PrintHeader(m) + m.data + Repeat(0, Blocks(|m.data|) - |m.data|);
    SliceOfSlice(tar, offset, end, 0, BLOCK);
    SliceOfSlice(tar, offset, end, BLOCK, BLOCK + |m.data|);
    assert printed[0..BLOCK] == PrintHeader(m);
    assert printed[BLOCK..BLOCK + |m.data|] == m.data;
  }

  function PrintMembers(members: seq<Member>): Bytes
    requires forall i :: 0 <= i < |members| ==> |FullName(members[i])| <= 100
  {
    if members == [] then [] else PrintMember(members[0]) + PrintMembers(members[1..])
  }

  /** The files among the members, on top of those read before. */
  function FilesOf(members: seq<Member>, files: Files): Files {
    if members == [] then files
    else FilesOf(members[1..], if members[0].directory then files else files[members[0].name := members[0].data])
  }

  /** No two files have the same name, and none repeats one read before. */
  predicate Fresh(members: seq<Member>, files: Files) {
    members == [] ||
    ((!members[0].directory ==> members[0].name !in files)
     && Fresh(members[1..], if members[0].directory then files else files[members[0].name := members[0].data]))
  }

  predicate AllPrintable(members: seq<Member>, names: Names) {
    forall i :: 0 <= i < |members| ==> Printable(members[i], names)
  }

  lemma {:induction false} WalkReads(
      tar: Bytes, offset: nat, members: seq<Member>, zeros: nat, names: Names, files: Files)
    requires AllPrintable(members, names) && Fresh(members, files) && zeros >= 1024 && offset <= |tar|
    requires forall i :: 0 <= i < |members| ==> |FullName(members[i])| <= 100
    requires tar[offset..] == PrintMembers(members) + Repeat(0, zeros)
    ensures Walk(tar, offset, names, files) == Some(FilesOf(members, files))
    decreases |members|
  {
    hide ReadMember, PrintMember, Printable;
    if members == [] {
      assert tar[offset..] == Repeat(0, zeros);
      Splits(tar, offset, Repeat(0, BLOCK), Repeat(0, zeros - BLOCK));
    } else {
      var m := members[0];
      var printed, more := PrintMember(m), PrintMembers(members[1..]) + Repeat(0, zeros);
      assert Printable(m, names);
      assert PrintMembers(members) + Repeat(0, zeros) == printed + more;
      Splits(tar, offset, printed, more);
      MemberReads(tar, offset, m, names, files);
      var later := if m.directory then files else files[m.name := m.data];
      WalkReads(tar, offset + |printed|, members[1..], zeros, names, later);
    }
  }

  /**
   * Reading undoes printing: whatever the order of the manifest and the artifact and whatever allowed directories
   * stand between them, the loop recovers exactly the bytes written for each.
   */
  lemma UnpackUndoesPrint(members: seq<Member>, zeros: nat, names: Names)
    requires AllPrintable(members, names) && Fresh(members, map[]) && zeros >= 1024
    requires forall i :: 0 <= i < |members| ==> |FullName(members[i])| <= 100
    requires FilesOf(members, map[]).Keys == {MANIFEST, names.artifact} && MANIFEST != names.artifact
    ensures Unpack(PrintMembers(members) + Repeat(0, zeros), names) == Some(FilesOf(members, map[]))
  {
    hide Walk;
    var tar := PrintMembers(members) + Repeat(0, zeros);
    assert tar[0..] == tar;
    WalkReads(tar, 0, members, zeros, names, map[]);
    var files := FilesOf(members, map[]);
    assert |files| == |files.Keys| == 2;
  }

  /** Each file read is the data of the member of that name. */
  lemma {:induction false} FilesAreMembers(members: seq<Member>, files: Files, i: nat)
    requires Fresh(members, files) && i < |members| && !members[i].directory
    ensures members[i].name in FilesOf(members, files) && FilesOf(members, files)[members[i].name] == members[i].data
    decreases |members|
  {
    var more := if members[0].directory then files else files[members[0].name := members[0].data];
    if i == 0 {
      FilesStay(members[1..], more, members[0].name);
    } else {
      FilesAreMembers(members[1..], more, i - 1);
    }
  }

  lemma {:induction false} FilesStay(members: seq<Member>, files: Files, name: Bytes)
    requires Fresh(members, files) && name in files
    ensures name in FilesOf(members, files) && FilesOf(members, files)[name] == files[name]
    decreases |members|
  {
    if members != [] {
      FilesStay(members[1..], if members[0].directory then files else files[members[0].name := members[0].data], name);
    }
  }

  /** The names in the archive of any version are plain, and the manifest is not the artifact. */
  lemma ReleaseNamesPlain(version: Bytes)
    requires |version| <= 47 && forall i :: 0 <= i < |version| ==> 1 <= version[i] < 128
    ensures var names := NamesOf(version);
            && PlainName(MANIFEST) && PlainName(names.artifact) && names.artifact != MANIFEST
            && forall name :: name in names.directories ==> PlainName(name)
  {
    hide Chars, KEYPAD_HARDWARE;
    var hardware, slash, file := KEYPAD_HARDWARE, Chars("/"), Chars("/firmware.bin.signed");
    FixedTexts();
    PlainJoin(hardware, slash);
    PlainJoin(hardware + slash, version);
    PlainJoin(hardware + slash + version, slash);
    PlainJoin(hardware + slash + version, file);
    var artifact := hardware + slash + version + file;
    assert artifact[0] == 109 && artifact[1] == 105;
  }

  predicate PlainChars(s: Bytes) {
    forall i :: 0 <= i < |s| ==> 1 <= s[i] < 128
  }

  lemma PlainJoin(a: Bytes, b: Bytes)
    requires PlainChars(a) && PlainChars(b)
    ensures PlainChars(a + b) && |a + b| == |a| + |b| && (|a| >= 2 ==> (a + b)[0] == a[0] && (a + b)[1] == a[1])
  {}

  lemma PlainText(s: string)
    requires forall i :: 0 <= i < |s| ==> 1 <= s[i] as int < 128
    ensures PlainChars(Chars(s)) && |Chars(s)| == |s| && forall i :: 0 <= i < |s| ==> Chars(s)[i] == s[i] as int
  {}

  lemma FixedTexts()
    ensures PlainChars(KEYPAD_HARDWARE) && |KEYPAD_HARDWARE| == 20 && KEYPAD_HARDWARE[0] == 109
    ensures KEYPAD_HARDWARE[1] == 105
    ensures PlainChars(Chars("/")) && |Chars("/")| == 1
    ensures PlainChars(Chars("/firmware.bin.signed")) && |Chars("/firmware.bin.signed")| == 20
    ensures PlainChars(MANIFEST) && |MANIFEST| == 13 && MANIFEST[0] == 109 && MANIFEST[1] == 97
  {
    hide Chars;
    PlainText("mindflayer-keypad-v1");
    PlainText("/");
    PlainText("/firmware.bin.signed");
    PlainText("manifest.json");
  }

  // ---- The loop itself ----

  method IsZero(s: Bytes) returns (zero: bool)
    ensures zero == Zero(s)
  {
    for i := 0 to |s|
      invariant forall k :: 0 <= k < i ==> s[k] == 0
    {
      if s[i] != 0 {
        return false;
      }
    }
    return true;
  }

  /** The checksum loop: the bytes of a header, with spaces at 148 to 155. */
  method SumHeader(header: Bytes) returns (sum: nat)
    requires |header| == BLOCK
    ensures sum == HeaderSum(header)
  {
    hide Sum;
    ghost var spaced := header[..148] + Repeat(32, 8) + header[156..];
    sum := 0;
    SumNone();
    for i := 0 to BLOCK
      invariant sum == Sum(spaced[..i])
    {
      SumNext(spaced, i);
      sum := sum + if 148 <= i < 156 then 32 else header[i];
    }
    assert spaced[..BLOCK] == spaced;
  }

  lemma SumNone()
    ensures Sum([]) == 0
  {}

  lemma SumNext(s: Bytes, i: nat)
    requires i < |s|
    ensures Sum(s[..i + 1]) == Sum(s[..i]) + s[i]
  {
    assert s[..i + 1][..i] == s[..i];
  }

  /** Reads an archive in place; the offset grows with every member, so the loop ends on every input. */
  method UnpackRelease(tar: Bytes, names: Names) returns (result: Option<Files>)
    ensures result == Unpack(tar, names)
  {
    hide Walk, ReadMember, Octal, Field, HeaderSum, Zero;
    var files: Files := map[];
    var offset, ended := 0, false;
    while offset + BLOCK <= |tar| && !ended
      invariant ended ==> Walk(tar, 0, names, map[]) == Some(files)
      invariant !ended ==> Walk(tar, 0, names, map[]) == Walk(tar, offset, names, files)
      decreases |tar| - offset, !ended
    {
      var header := tar[offset..offset + BLOCK];
      WalkNext(tar, offset, names, files);
      ReadNext(tar, offset, names, files);
      var blank := IsZero(header);
      if blank {
        var rest := IsZero(tar[offset..]);
        if |tar| - offset < 1024 || !rest {
          return None;
        }
        ended := true;
      } else {
        var checksum := SumHeader(header);
        if Octal(header, 148, 8) != Some(checksum) || Field(header, 345, 155) != [] {
          return None;
        }
        var name := Undotted(Field(header, 0, 100));
        var length := Octal(header, 124, 12);
        if length.None? {
          return None;
        }
        var size, kind := length.value, header[156];
        offset := offset + BLOCK;
        if size > Boot2.MAX_SIGNED || offset + size > |tar| {
          return None;
        }
        if kind == DIRECTORY_TYPE {
          if size != 0 || name !in names.directories {
            return None;
          }
        } else {
          if (kind != 0 && kind != FILE_TYPE) || (name != MANIFEST && name != names.artifact) || name in files {
            return None;
          }
          if name == MANIFEST && size > MAX_MANIFEST {
            return None;
          }
          files := files[name := tar[offset..offset + size]];
        }
        offset := offset + Blocks(size);
      }
    }
    if !ended {
      WalkOff(tar, offset, names, files);
    }
    result := if ended && |files| == 2 then Some(files) else None;
  }

  lemma WalkOff(tar: Bytes, offset: nat, names: Names, files: Files)
    requires offset + BLOCK > |tar|
    ensures Walk(tar, offset, names, files).None?
  {}

  lemma WalkNext(tar: Bytes, offset: nat, names: Names, files: Files)
    requires offset + BLOCK <= |tar|
    ensures Walk(tar, offset, names, files) ==
            if Zero(tar[offset..offset + BLOCK]) then
              if |tar| - offset >= 1024 && Zero(tar[offset..]) then Some(files) else None
            else
              var r := ReadMember(tar, offset, names, files);
              if r.None? then None else Walk(tar, r.value.1, names, r.value.0)
  {
    hide ReadMember;
  }

  lemma ReadNext(tar: Bytes, offset: nat, names: Names, files: Files)
    requires offset + BLOCK <= |tar|
    ensures var header := tar[offset..offset + BLOCK];
            var r := ReadMember(tar, offset, names, files);
            var checksum, length := Octal(header, 148, 8), Octal(header, 124, 12);
            var name, at := Undotted(Field(header, 0, 100)), offset + BLOCK;
            if checksum != Some(HeaderSum(header)) || Field(header, 345, 155) != [] || length.None? then r.None?
            else if length.value > Boot2.MAX_SIGNED || at + length.value > |tar| then r.None?
            else if header[156] == DIRECTORY_TYPE then
              r == if length.value == 0 && name in names.directories then Some((files, at)) else None
            else if (header[156] != 0 && header[156] != FILE_TYPE) || (name != MANIFEST && name != names.artifact)
                || name in files
                    || (name == MANIFEST && length.value > MAX_MANIFEST) then r.None?
            else r == Some((files[name := tar[at..at + length.value]], at + Blocks(length.value)))
  {
    hide Octal, Field, HeaderSum;
  }
}
