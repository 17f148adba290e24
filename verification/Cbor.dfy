/** Deterministically encoded CBOR (sections 3 and 4.2.1 of RFC 8949): heads, and byte strings standing in an input. */
module Cbor {
  import opened Prelude

  const UINT := 0
  const BYTES := 2
  const TEXT := 3
  const ARRAY := 4
  const MAP := 5

  /** The low five bits of the shortest initial byte for argument `n`. */
  function Additional(n: nat): (a: nat)
    ensures a < 28
  {
    if n < 24 then n else if n < 0x100 then 24 else if n < 0x1_0000 then 25 else if n < TWO32 then 26 else 27
  }

  /** The number of argument bytes that follow an initial byte whose low five bits are `additional`. */
  function Width(additional: nat): (w: nat)
    ensures 0 <= w <= 8
  {
    if additional < 24 then 0
    else if additional == 24 then 1
    else if additional == 25 then 2
    else if additional == 26 then 4
    else 8
  }

  /** The smallest argument that needs the given width. */
  function Minimum(additional: nat): nat
    requires 24 <= additional < 28
  {
    if additional == 24 then 24 else Pow256(Width(additional) / 2)
  }

  /** The shortest head of a major type with argument `n`. */
  function EncodeHead(major: nat, n: nat): (s: Bytes)
    requires major < 8
    ensures 1 <= |s| <= 9
  {
    [major * 32 + Additional(n)] + if n < 24 then [] else WriteBE(n, Width(Additional(n)))
  }

  /** Head at `offset`, of any length: major type, argument and the offset behind it. */
  function ReadArgument(input: Bytes, offset: nat): (r: Option<(nat, nat, nat)>)
    ensures r.Some? ==> offset < r.value.2 <= |input|
  {
    if offset >= |input| then None else
    var major, additional := input[offset] / 32, input[offset] % 32;
    :- Need(additional < 28);
    var stop := offset + 1 + Width(additional);
    :- Need(stop <= |input|);
    Some((major, if additional < 24 then additional else ReadBE(input[offset + 1..stop]), stop))
  }

  /** Head at `offset` as `readHead` accepts it: expected type, shortest form, safe integer. */
  function ReadHead(input: Bytes, offset: nat, major: nat): (r: Option<(nat, nat)>)
    ensures r.Some? ==> offset < r.value.1 <= |input|
  {
    var (found, n, stop) :- ReadArgument(input, offset);
    :- Need(found == major);
    var additional := input[offset] % 32;
    :- Need(additional < 24 || (n <= MAX_SAFE_INTEGER && n >= Minimum(additional)));
    Some((n, stop))
  }

  predicate At(input: Bytes, offset: nat, part: Bytes) {
    offset + |part| <= |input| && input[offset..offset + |part|] == part
  }

  lemma AtSum(input: Bytes, offset: nat, x: Bytes, y: Bytes)
    ensures At(input, offset, x + y) <==> At(input, offset, x) && At(input, offset + |x|, y)
  {
    var middle, stop := offset + |x|, offset + |x| + |y|;
    if stop <= |input| {
      var all := input[offset..stop];
      assert all == input[offset..middle] + input[middle..stop];
      assert all[..|x|] == input[offset..middle] && all[|x|..] == input[middle..stop];
    }
  }

  /**
   * A read yields `t` exactly where the input carries the encoding of a legal `t`, and moves the cursor behind it.
   */
  ghost predicate ReadsAs<T(!new)>(
      read: Option<(T, nat)>, input: Bytes, offset: nat, legal: bool, t: T, encoding: Bytes) {
    && (legal && At(input, offset, encoding) ==> read == Some((t, offset + |encoding|)))
    && (read.Some? && read.value.0 == t
        ==> legal && At(input, offset, encoding) && read.value.1 == offset + |encoding|)
  }

  /** An argument needs the width of its shortest head and no more. */
  lemma ShortestWidth(n: nat, additional: nat)
    requires 24 <= additional < 28 && n <= MAX_SAFE_INTEGER
    ensures Additional(n) == additional <==> Minimum(additional) <= n < Pow256(Width(additional))
  {
    Pow256Values();
  }

  lemma ArgumentRead(input: Bytes, offset: nat, n: nat)
    requires offset < |input| && input[offset] % 32 == Additional(n) >= 24 && n <= MAX_SAFE_INTEGER
    requires At(input, offset + 1, WriteBE(n, Width(Additional(n))))
    ensures ReadArgument(input, offset) == Some((input[offset] / 32, n, offset + 1 + Width(Additional(n))))
  {
    ShortestWidth(n, Additional(n));
    ReadOfWriteBE(n, Width(Additional(n)));
  }

  lemma ArgumentWritten(input: Bytes, offset: nat)
    requires ReadArgument(input, offset).Some? && input[offset] % 32 >= 24
    ensures var (_, n, _) := ReadArgument(input, offset).value;
            At(input, offset + 1, WriteBE(n, Width(input[offset] % 32))) && n < Pow256(Width(input[offset] % 32))
  {
    var (_, n, stop) := ReadArgument(input, offset).value;
    WriteOfReadBE(input[offset + 1..stop]);
  }

  lemma AtHead(input: Bytes, offset: nat, major: nat, n: nat)
    requires major < 8
    ensures At(input, offset, EncodeHead(major, n))
       <==> offset < |input| && input[offset] == major * 32 + Additional(n)
            && (n >= 24 ==> At(input, offset + 1, WriteBE(n, Width(Additional(n)))))
  {
    var first: Bytes := [major * 32 + Additional(n)];
    AtSum(input, offset, first, if n < 24 then [] else WriteBE(n, Width(Additional(n))));
    assert offset < |input| ==> input[offset..offset + 1] == [input[offset]];
  }

  /** The shortest heads, byte by byte (section 3 of RFC 8949). */
  lemma HeadBytes(major: nat, n: nat)
    requires major < 8 && n < 0x1_0000_0000
    ensures EncodeHead(major, n) ==
            if n < 24 then [32 * major + n]
            else if n < 0x100 then [32 * major + 24, n]
            else if n < 0x1_0000 then [32 * major + 25, n / 0x100, n % 0x100]
            else [32 * major + 26, n / 0x100_0000, n / 0x1_0000 % 0x100, n / 0x100 % 0x100, n % 0x100]
  {
    hide WriteBE;
    BigEndian(n);
    assert [major * 32 + Additional(n)] + [] == [major * 32 + Additional(n)];
  }

  /** `readHead` reads exactly the shortest heads of safe integers. */
  lemma HeadReads(input: Bytes, offset: nat, major: nat, n: nat)
    requires major < 8
    ensures ReadsAs(ReadHead(input, offset, major), input, offset, n <= MAX_SAFE_INTEGER, n, EncodeHead(major, n))
  {
    AtHead(input, offset, major, n);
    var additional := Additional(n);
    if n <= MAX_SAFE_INTEGER && At(input, offset, EncodeHead(major, n)) {
      if n >= 24 {
        ArgumentRead(input, offset, n);
        ShortestWidth(n, additional);
      }
      assert input[offset] / 32 == major && input[offset] % 32 == additional;
    }
    var r := ReadHead(input, offset, major);
    if r.Some? && r.value.0 == n {
      if input[offset] % 32 >= 24 {
        ArgumentWritten(input, offset);
        ShortestWidth(n, input[offset] % 32);
      }
      assert input[offset] == (input[offset] / 32) * 32 + input[offset] % 32;
    }
  }

  /** Heads are prefix-free: equal streams start with equal heads. */
  lemma HeadInjective(major: nat, m: nat, n: nat, x: Bytes, y: Bytes)
    requires major < 8 && m <= MAX_SAFE_INTEGER && n <= MAX_SAFE_INTEGER
    requires EncodeHead(major, m) + x == EncodeHead(major, n) + y
    ensures m == n && x == y
  {
    var s := EncodeHead(major, m) + x;
    AtSum(s, 0, EncodeHead(major, m), x);
    AtSum(s, 0, EncodeHead(major, n), y);
    assert s[0..|s|] == s;
    HeadReads(s, 0, major, m);
    HeadReads(s, 0, major, n);
    SplitEqual(EncodeHead(major, m), EncodeHead(major, n), x, y);
  }
}
