/** Values shared by every module: optional results, bytes, and fixed-width unsigned integers. */
module Prelude {

  /** A result that the source either returns or replaces by throwing. */
  datatype Option<+T> = None | Some(value: T) {
    predicate IsFailure() {
      None?
    }

    function PropagateFailure<U>(): Option<U>
      requires None?
    {
      None
    }

    function Extract(): T
      requires Some?
    {
      value
    }
  }

  /** A check that makes the source throw when it fails. */
  datatype Check = Pass | Fail {
    predicate IsFailure() {
      Fail?
    }

    function PropagateFailure<U>(): Option<U>
      requires Fail?
    {
      None
    }
  }

  function Need(condition: bool): (r: Check)
    ensures r.Pass? <==> condition
  {
    if condition then Pass else Fail
  }

  type byte = x: int | 0 <= x < 256
  type Bytes = seq<byte>

  const TWO32: int := 0x1_0000_0000
  const MAX_SAFE_INTEGER: int := 0x1F_FFFF_FFFF_FFFF

  function Repeat(b: byte, n: nat): (r: Bytes)
    ensures |r| == n && forall i :: 0 <= i < n ==> r[i] == b
  {
    seq(n, i => b)
  }

  /** Plain text as its bytes. */
  function Chars(s: string): (r: Bytes)
    ensures |r| == |s|
  {
    seq(|s|, i requires 0 <= i < |s| => s[i] as int % 256)
  }

  /** The hardware name of the keypad. */
  const KEYPAD_HARDWARE := Chars("mindflayer-keypad-v1")

  function Pow2(n: nat): (r: nat)
    ensures r >= 1
  {
    if n == 0 then 1 else 2 * Pow2(n - 1)
  }

  function Pow256(width: nat): (r: nat)
    ensures r >= 1
  {
    if width == 0 then 1 else 256 * Pow256(width - 1)
  }

  /** Big-endian value, accumulated left to right as `value * 256 + byte`. */
  function ReadBE(s: Bytes): (n: nat)
    ensures n < Pow256(|s|)
  {
    if s == [] then 0 else ReadBE(s[..|s| - 1]) * 256 + s[|s| - 1]
  }

  function WriteBE(n: nat, width: nat): (s: Bytes)
    ensures |s| == width
  {
    if width == 0 then [] else WriteBE(n / 256, width - 1) + [n % 256]
  }

  lemma {:induction false} ReadOfWriteBE(n: nat, width: nat)
    requires n < Pow256(width)
    ensures ReadBE(WriteBE(n, width)) == n
  {
    if width > 0 {
      ReadOfWriteBE(n / 256, width - 1);
      var s := WriteBE(n, width);
      assert s[..|s| - 1] == WriteBE(n / 256, width - 1);
    }
  }

  lemma {:induction false} WriteOfReadBE(s: Bytes)
    ensures WriteBE(ReadBE(s), |s|) == s
  {
    if s != [] {
      WriteOfReadBE(s[..|s| - 1]);
      assert s == s[..|s| - 1] + [s[|s| - 1]];
    }
  }

  lemma Pow256Values()
    ensures Pow256(1) == 0x100 && Pow256(2) == 0x1_0000 && Pow256(4) == TWO32 && Pow256(8) == TWO32 * TWO32
  {
    assert Pow256(3) == 256 * Pow256(2);
    assert Pow256(4) == 256 * Pow256(3);
    assert Pow256(5) == 256 * Pow256(4);
    assert Pow256(6) == 256 * Pow256(5);
    assert Pow256(7) == 256 * Pow256(6);
  }

  lemma Quotients(n: nat)
    ensures n / 0x100 / 0x100 == n / 0x1_0000 && n / 0x1_0000 / 0x100 == n / 0x100_0000
  {}

  lemma WriteFour(n: nat, x: nat, y: nat, z: nat)
    requires x == n / 256 && y == x / 256 && z == y / 256
    ensures WriteBE(n, 4) == [z % 256, y % 256, x % 256, n % 256]
  {
    assert WriteBE(z, 1) == WriteBE(z / 256, 0) + [z % 256];
    assert WriteBE(y, 2) == WriteBE(z, 1) + [y % 256];
    assert WriteBE(x, 3) == WriteBE(y, 2) + [x % 256];
    assert WriteBE(n, 4) == WriteBE(x, 3) + [n % 256];
  }

  /** The most significant byte comes first. */
  lemma BigEndian(n: nat)
    ensures WriteBE(n, 1) == [n % 256]
    ensures WriteBE(n, 2) == [n / 0x100 % 256, n % 256]
    ensures WriteBE(n, 4) == [n / 0x100_0000 % 256, n / 0x1_0000 % 256, n / 0x100 % 256, n % 256]
  {
    hide WriteBE;
    WriteShort(n);
    Quotients(n);
    WriteFour(n, n / 0x100, n / 0x1_0000, n / 0x100_0000);
  }

  lemma WriteShort(n: nat)
    ensures WriteBE(n, 1) == [n % 256] && WriteBE(n, 2) == [n / 0x100 % 256, n % 256]
  {
    assert WriteBE(n, 1) == WriteBE(n / 256, 0) + [n % 256];
    assert WriteBE(n / 256, 1) == WriteBE(n / 256 / 256, 0) + [n / 256 % 256];
  }

  /** Little-endian value, as `readUInt32LE` computes it. */
  function ReadLE(s: Bytes): (n: nat)
    ensures n < Pow256(|s|)
  {
    if s == [] then 0 else s[0] + 256 * ReadLE(s[1..])
  }

  function WriteLE(n: nat, width: nat): (s: Bytes)
    ensures |s| == width
  {
    if width == 0 then [] else [n % 256] + WriteLE(n / 256, width - 1)
  }

  /** The least significant byte comes first. */
  lemma LittleEndian(n: nat)
    ensures WriteLE(n, 2) == [n % 256, n / 0x100 % 256]
    ensures WriteLE(n, 4) == [n % 256, n / 0x100 % 256, n / 0x1_0000 % 256, n / 0x100_0000 % 256]
  {
    Quotients(n);
    var x, y, z := n / 0x100, n / 0x1_0000, n / 0x100_0000;
    assert WriteLE(x, 1) == [x % 256] + WriteLE(y, 0) && WriteLE(z, 1) == [z % 256] + WriteLE(z / 256, 0);
    assert WriteLE(n, 2) == [n % 256] + WriteLE(x, 1);
    assert WriteLE(n, 4) == [n % 256] + ([x % 256] + ([y % 256] + WriteLE(z, 1))) by {
      assert WriteLE(n, 4) == [n % 256] + WriteLE(x, 3);
      assert WriteLE(x, 3) == [x % 256] + WriteLE(y, 2);
      assert WriteLE(y, 2) == [y % 256] + WriteLE(z, 1);
    }
  }

  lemma {:induction false} ReadOfWriteLE(n: nat, width: nat)
    requires n < Pow256(width)
    ensures ReadLE(WriteLE(n, width)) == n
  {
    if width > 0 {
      ReadOfWriteLE(n / 256, width - 1);
      assert WriteLE(n, width)[1..] == WriteLE(n / 256, width - 1);
    }
  }

  lemma {:induction false} WriteOfReadLE(s: Bytes)
    ensures WriteLE(ReadLE(s), |s|) == s
  {
    if s != [] {
      WriteOfReadLE(s[1..]);
      var n := ReadLE(s);
      assert n % 256 == s[0] && n / 256 == ReadLE(s[1..]);
      assert s == [s[0]] + s[1..];
    }
  }

  /** Two sequences that agree after a common split agree on both sides of it. */
  lemma SplitEqual<T>(a: seq<T>, b: seq<T>, x: seq<T>, y: seq<T>)
    requires a + x == b + y
    requires |a| == |b|
    ensures a == b && x == y
  {
    assert a == (a + x)[..|a|] && b == (b + y)[..|b|];
    assert x == (a + x)[|a|..] && y == (b + y)[|b|..];
  }
}
