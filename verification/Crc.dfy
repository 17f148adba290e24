/** The reflected CRC-32 of src/provisioning/format.js and the errors it is certain to detect. */
module Crc {
  import opened Prelude

  const POLYNOMIAL: bv32 := 0xedb88320

  /** The masked polynomial `0xedb88320 & -(crc & 1)` of one register step, for a low bit of 0 or 1. */
  function Poly(low: bv32): bv32 {
    POLYNOMIAL & (0 - low)
  }

  function BitStep(c: bv32): bv32 {
    (c >> 1) ^ Poly(c & 1)
  }

  function Steps(c: bv32, n: nat): bv32
    decreases n
  {
    if n == 0 then c else Steps(BitStep(c), n - 1)
  }

  /** The binary digits of a byte, lowest first. */
  function Digits(b: byte): (digits: seq<bool>)
    ensures |digits| == 8
  {
    Halves(b, 8)
  }

  function Halves(n: nat, count: nat): (digits: seq<bool>)
    ensures |digits| == count
    decreases count
  {
    if count == 0 then [] else [n % 2 == 1] + Halves(n / 2, count - 1)
  }

  function Assemble(d0: bool, d1: bool, d2: bool, d3: bool, d4: bool, d5: bool, d6: bool, d7: bool): bv32 {
    (if d0 then 1 else 0) | (if d1 then 2 else 0) | (if d2 then 4 else 0) | (if d3 then 8 else 0)
    | (if d4 then 16 else 0) | (if d5 then 32 else 0) | (if d6 then 64 else 0) | (if d7 then 128 else 0)
  }

  /** A byte as a register value. */
  function ToWord(b: byte): bv32 {
    var d := Digits(b);
    Assemble(d[0], d[1], d[2], d[3], d[4], d[5], d[6], d[7])
  }

  function ByteStep(c: bv32, b: byte): bv32 {
    Steps(c ^ ToWord(b), 8)
  }

  function Run(c: bv32, data: Bytes): bv32 {
    if data == [] then c else ByteStep(Run(c, data[..|data| - 1]), data[|data| - 1])
  }

  const START: bv32 := 0xffffffff

  function Finish(c: bv32): (r: nat)
    ensures r < TWO32
  {
    (c ^ START) as int
  }

  /** The checksum as the unsigned 32-bit number the source returns. */
  function Checksum(data: Bytes): (r: nat)
    ensures r < TWO32
  {
    Finish(Run(START, data))
  }

  /** The source's loop: eight register steps for every byte. */
  method Crc32(data: Bytes) returns (r: nat)
    ensures r == Checksum(data)
  {
    hide ToWord, BitStep, Finish;
    var crc := START;
    for i := 0 to |data|
      invariant crc == Run(START, data[..i])
    {
      crc := crc ^ ToWord(data[i]);
      ghost var start := crc;
      for bit := 0 to 8
        invariant Steps(crc, 8 - bit) == Steps(start, 8)
      {
        crc := BitStep(crc);
      }
      assert data[..i + 1][..i] == data[..i];
    }
    assert data[..|data|] == data;
    r := Finish(crc);
  }

  // ---- The register as its 32 bits, lowest first ----

  function Mask(k: nat): bv32 {
    if k == 0 then 1 else Mask(k - 1) << 1
  }

  predicate Has(c: bv32, mask: bv32) {
    c & mask != 0
  }

  predicate BitAt(c: bv32, k: nat) {
    Has(c, Mask(k))
  }

  function ToBits(c: bv32): (s: seq<bool>)
    ensures |s| == 32
    ensures forall k {:trigger s[k]} :: 0 <= k < 32 ==> s[k] == BitAt(c, k)
  {
    seq(32, k requires 0 <= k < 32 => BitAt(c, k))
  }

  lemma ShiftSingle(m: bv32)
    requires m & (m - 1) == 0
    ensures (m << 1) & ((m << 1) - 1) == 0
  {}

  /** A mask selects at most one bit. */
  lemma {:induction false} MaskSingle(k: nat)
    ensures Mask(k) & (Mask(k) - 1) == 0
  {
    if k > 0 {
      MaskSingle(k - 1);
      ShiftSingle(Mask(k - 1));
    }
  }

  lemma MaskTop()
    ensures Mask(31) == 0x80000000
  {
    assert Mask(8) == 0x100;
    assert Mask(16) == 0x10000;
    assert Mask(24) == 0x1000000;
  }

  /** One register step on bits: shift towards the lowest, folding the polynomial in when that bit was set. */
  function StepBits(s: seq<bool>): (r: seq<bool>)
    requires |s| == 32
    ensures |r| == 32
  {
    seq(32, k requires 0 <= k < 32 => (k < 31 && s[k + 1]) != (s[0] && ToBits(POLYNOMIAL)[k]))
  }

  function XorBits(a: seq<bool>, b: seq<bool>): (r: seq<bool>)
    requires |a| == |b|
    ensures |r| == |a|
  {
    seq(|a|, k requires 0 <= k < |a| => a[k] != b[k])
  }

  lemma StepMask(c: bv32, m: bv32, next: bv32)
    requires m & (m - 1) == 0 && next == m << 1
    ensures Has(BitStep(c), m) == (Has(c, next) != (Has(c, 1) && Has(POLYNOMIAL, m)))
  {}

  lemma XorMask(a: bv32, b: bv32, m: bv32)
    requires m & (m - 1) == 0
    ensures Has(a ^ b, m) == (Has(a, m) != Has(b, m))
  {}

  lemma NoBitAbove(c: bv32, m: bv32, next: bv32)
    requires m == 0x80000000 && next == m << 1
    ensures !Has(c, next)
  {}

  lemma StepBitAt(c: bv32, k: nat)
    ensures BitAt(BitStep(c), k) == (BitAt(c, k + 1) != (BitAt(c, 0) && BitAt(POLYNOMIAL, k)))
  {
    MaskSingle(k);
    StepMask(c, Mask(k), Mask(k + 1));
  }

  lemma LastBit(c: bv32)
    ensures !BitAt(c, 32)
  {
    MaskTop();
    NoBitAbove(c, Mask(31), Mask(32));
  }

  lemma StepIsStepBits(c: bv32)
    ensures ToBits(BitStep(c)) == StepBits(ToBits(c))
  {
    LastBit(c);
    forall k | 0 <= k < 32 ensures ToBits(BitStep(c))[k] == StepBits(ToBits(c))[k] {
      StepBitAt(c, k);
      var s := ToBits(c);
      assert s[0] == BitAt(c, 0) && ToBits(POLYNOMIAL)[k] == BitAt(POLYNOMIAL, k);
      assert k < 31 ==> s[k + 1] == BitAt(c, k + 1);
    }
  }

  lemma XorIsXorBits(a: bv32, b: bv32)
    ensures ToBits(a ^ b) == XorBits(ToBits(a), ToBits(b))
  {
    forall k | 0 <= k < 32 ensures ToBits(a ^ b)[k] == (ToBits(a)[k] != ToBits(b)[k]) {
      MaskSingle(k);
      XorMask(a, b, Mask(k));
    }
  }

  // ---- Feeding bits, and what survives to the end ----

  function FeedBit(s: seq<bool>, bit: bool): (r: seq<bool>)
    requires |s| == 32
    ensures |r| == 32
  {
    StepBits(s[0 := s[0] != bit])
  }

  function Feed(s: seq<bool>, bits: seq<bool>): (r: seq<bool>)
    requires |s| == 32
    ensures |r| == 32
    decreases |bits|
  {
    if bits == [] then s else Feed(FeedBit(s, bits[0]), bits[1..])
  }

  lemma PolynomialTop()
    ensures ToBits(POLYNOMIAL)[31]
  {
    MaskTop();
    assert Has(POLYNOMIAL, 0x80000000);
  }

  /** The top bit of a stepped register is the bit that was shifted out, so the step can be undone. */
  lemma StepBitsInjective(a: seq<bool>, b: seq<bool>)
    requires |a| == |b| == 32
    requires StepBits(a) == StepBits(b)
    ensures a == b
  {
    PolynomialTop();
    assert StepBits(a)[31] == a[0] && StepBits(b)[31] == b[0];
    forall k | 1 <= k < 32 ensures a[k] == b[k] {
      assert StepBits(a)[k - 1] == StepBits(b)[k - 1];
    }
  }

  /** The register before a step, recovered from the top bit. */
  function UnstepBits(s: seq<bool>): (r: seq<bool>)
    requires |s| == 32
    ensures |r| == 32
  {
    seq(32, k requires 0 <= k < 32 => if k == 0 then s[31] else s[k - 1] != (s[31] && ToBits(POLYNOMIAL)[k - 1]))
  }

  /** The step is a linear bijection: it respects xor, and every register has exactly one predecessor. */
  lemma StepBitsLinearBijection(a: seq<bool>, b: seq<bool>)
    requires |a| == |b| == 32
    ensures StepBits(XorBits(a, b)) == XorBits(StepBits(a), StepBits(b))
    ensures StepBits(a) == b <==> a == UnstepBits(b)
  {
    PolynomialTop();
    var u := UnstepBits(b);
    assert StepBits(u)[31] == b[31];
    assert StepBits(u) == b;
    if StepBits(a) == b {
      StepBitsInjective(a, u);
    }
  }

  lemma {:induction false} FeedInjective(a: seq<bool>, b: seq<bool>, bits: seq<bool>)
    requires |a| == |b| == 32
    requires Feed(a, bits) == Feed(b, bits)
    ensures a == b
    decreases |bits|
  {
    if bits != [] {
      FeedInjective(FeedBit(a, bits[0]), FeedBit(b, bits[0]), bits[1..]);
      var x, y := a[0 := a[0] != bits[0]], b[0 := b[0] != bits[0]];
      StepBitsInjective(x, y);
      assert x[0] == y[0];
      assert forall k :: 1 <= k < 32 ==> x[k] == a[k] && y[k] == b[k];
    }
  }

  lemma {:induction false} FeedAppend(s: seq<bool>, a: seq<bool>, b: seq<bool>)
    requires |s| == 32
    ensures Feed(s, a + b) == Feed(Feed(s, a), b)
    decreases |a|
  {
    if a == [] {
      assert a + b == b;
    } else {
      FeedAppend(FeedBit(s, a[0]), a[1..], b);
      assert (a + b)[1..] == a[1..] + b;
    }
  }

  /** Registers that meet after at most 32 bits differed by exactly the difference of those bits. */
  lemma {:induction false} MeetingRegisters(s: seq<bool>, t: seq<bool>, a: seq<bool>, b: seq<bool>)
    requires |s| == |t| == 32 && |a| == |b| <= 32
    requires Feed(s, a) == Feed(t, b)
    ensures forall k :: |a| <= k < 32 ==> s[k] == t[k]
    ensures forall k :: 0 <= k < |a| ==> (s[k] != a[k]) == (t[k] != b[k])
    decreases |a|
  {
    if a != [] {
      var s1, t1 := FeedBit(s, a[0]), FeedBit(t, b[0]);
      MeetingRegisters(s1, t1, a[1..], b[1..]);
      PolynomialTop();
      assert s1[31] == (s[0] != a[0]) && t1[31] == (t[0] != b[0]);
      forall k | 1 <= k < 32
        ensures k >= |a| ==> s[k] == t[k]
        ensures k < |a| ==> (s[k] != a[k]) == (t[k] != b[k])
      {
        assert s1[k - 1] == (s[k] != ((s[0] != a[0]) && ToBits(POLYNOMIAL)[k - 1]));
        assert t1[k - 1] == (t[k] != ((t[0] != b[0]) && ToBits(POLYNOMIAL)[k - 1]));
        assert k < |a| ==> a[1..][k - 1] == a[k] && b[1..][k - 1] == b[k];
      }
    }
  }

  // ---- Bytes as bits ----

  /** The bits of a message in the order the register consumes them. */
  function Bits(data: Bytes): (bits: seq<bool>)
    ensures |bits| == 8 * |data|
  {
    if data == [] then [] else Bits(data[..|data| - 1]) + Digits(data[|data| - 1])
  }

  lemma MaskAboveByte(m: bv32)
    requires m & 0xff == 0
    ensures (m << 1) & 0xff == 0
  {}

  lemma {:induction false} HighMask(k: nat)
    requires k >= 8
    ensures Mask(k) & 0xff == 0
  {
    if k == 8 {
      assert Mask(8) == 0x100;
    } else {
      HighMask(k - 1);
      MaskAboveByte(Mask(k - 1));
    }
  }

  lemma NoHighBit(w: bv32, m: bv32)
    requires w & 0xffffff00 == 0 && m & 0xff == 0
    ensures !Has(w, m)
  {}

  lemma AssembledBits(d0: bool, d1: bool, d2: bool, d3: bool, d4: bool, d5: bool, d6: bool, d7: bool)
    ensures var w := Assemble(d0, d1, d2, d3, d4, d5, d6, d7);
            && w & 0xffffff00 == 0
            && Has(w, 1) == d0 && Has(w, 2) == d1 && Has(w, 4) == d2 && Has(w, 8) == d3
            && Has(w, 16) == d4 && Has(w, 32) == d5 && Has(w, 64) == d6 && Has(w, 128) == d7
  {}

  function Padded(bits: seq<bool>): (s: seq<bool>)
    requires |bits| <= 32
    ensures |s| == 32
  {
    bits + seq(32 - |bits|, _ => false)
  }

  lemma LowMasks()
    ensures Mask(0) == 1
    ensures Mask(1) == 2 && Mask(2) == 4 && Mask(3) == 8 && Mask(4) == 16
    ensures Mask(5) == 32 && Mask(6) == 64 && Mask(7) == 128
  {}

  lemma LowBits(b: byte)
    ensures ToWord(b) & 0xffffff00 == 0
    ensures forall k :: 0 <= k < 8 ==> BitAt(ToWord(b), k) == Digits(b)[k]
  {
    hide Assemble, Has, Mask, Digits;
    var d := Digits(b);
    AssembledBits(d[0], d[1], d[2], d[3], d[4], d[5], d[6], d[7]);
    LowMasks();
  }

  lemma HighBit(b: byte, k: nat)
    requires k >= 8
    ensures !BitAt(ToWord(b), k)
  {
    hide Has, Mask, ToWord;
    LowBits(b);
    HighMask(k);
    NoHighBit(ToWord(b), Mask(k));
  }

  lemma ByteIsPadded(b: byte)
    ensures ToBits(ToWord(b)) == Padded(Digits(b))
  {
    hide BitAt, ToWord, Digits;
    LowBits(b);
    forall k | 8 <= k < 32 ensures !BitAt(ToWord(b), k) {
      HighBit(b, k);
    }
  }

  lemma {:induction false} HalvesInjective(a: nat, b: nat, count: nat)
    requires Halves(a, count) == Halves(b, count)
    requires a < Pow2(count) && b < Pow2(count)
    ensures a == b
    decreases count
  {
    if count > 0 {
      assert Halves(a, count)[0] == Halves(b, count)[0];
      assert Halves(a, count)[1..] == Halves(a / 2, count - 1) && Halves(b, count)[1..] == Halves(b / 2, count - 1);
      HalvesInjective(a / 2, b / 2, count - 1);
    }
  }

  lemma DigitsInjective(a: byte, b: byte)
    requires Digits(a) == Digits(b)
    ensures a == b
  {
    assert Pow2(8) == 256;
    HalvesInjective(a, b, 8);
  }

  function StepBitsTimes(s: seq<bool>, n: nat): (r: seq<bool>)
    requires |s| == 32
    ensures |r| == 32
    decreases n
  {
    if n == 0 then s else StepBitsTimes(StepBits(s), n - 1)
  }

  lemma {:induction false} StepsAreStepBits(c: bv32, n: nat)
    ensures ToBits(Steps(c, n)) == StepBitsTimes(ToBits(c), n)
    decreases n
  {
    if n > 0 {
      StepIsStepBits(c);
      StepsAreStepBits(BitStep(c), n - 1);
    }
  }

  /** Feeding up to 32 bits one at a time is the same as xoring them in at once and stepping. */
  lemma {:induction false} FeedIsXor(s: seq<bool>, bits: seq<bool>)
    requires |s| == 32 && |bits| <= 32
    ensures Feed(s, bits) == StepBitsTimes(XorBits(s, Padded(bits)), |bits|)
    decreases |bits|
  {
    if bits == [] {
      assert XorBits(s, Padded(bits)) == s;
    } else {
      FeedIsXor(FeedBit(s, bits[0]), bits[1..]);
      assert StepBits(XorBits(s, Padded(bits))) == XorBits(FeedBit(s, bits[0]), Padded(bits[1..]));
    }
  }

  lemma ByteStepIsFeed(c: bv32, b: byte)
    ensures ToBits(ByteStep(c, b)) == Feed(ToBits(c), Digits(b))
  {
    XorIsXorBits(c, ToWord(b));
    ByteIsPadded(b);
    StepsAreStepBits(c ^ ToWord(b), 8);
    FeedIsXor(ToBits(c), Digits(b));
  }

  lemma {:induction false} RunIsFeed(c: bv32, data: Bytes)
    ensures ToBits(Run(c, data)) == Feed(ToBits(c), Bits(data))
  {
    if data != [] {
      var front, last := data[..|data| - 1], data[|data| - 1];
      RunIsFeed(c, front);
      ByteStepIsFeed(Run(c, front), last);
      FeedAppend(ToBits(c), Bits(front), Digits(last));
    }
  }

  lemma {:induction false} BitOfByte(data: Bytes, j: nat, t: nat)
    requires j < |data| && t < 8
    ensures Bits(data)[8 * j + t] == Digits(data[j])[t]
  {
    if j < |data| - 1 {
      BitOfByte(data[..|data| - 1], j, t);
    }
  }

  lemma BitsInjective(a: Bytes, b: Bytes)
    requires |a| == |b| && Bits(a) == Bits(b)
    ensures a == b
  {
    hide Bits, Digits;
    forall j | 0 <= j < |a| ensures a[j] == b[j] {
      forall t | 0 <= t < 8 ensures Digits(a[j])[t] == Digits(b[j])[t] {
        BitOfByte(a, j, t);
        BitOfByte(b, j, t);
      }
      DigitsInjective(a[j], b[j]);
    }
  }

  // ---- What the checksum is certain to detect ----

  lemma WordRoundTrip(w: bv32)
    ensures (w as int) as bv32 == w
  {}

  lemma FinishInjective(a: bv32, b: bv32)
    requires Finish(a) == Finish(b)
    ensures a == b
  {
    WordRoundTrip(a ^ START);
    WordRoundTrip(b ^ START);
    Unflip(a, b);
  }

  lemma Unflip(a: bv32, b: bv32)
    requires a ^ START == b ^ START
    ensures a == b
  {}

  lemma SameChecksumSameFeed(a: Bytes, b: Bytes)
    requires Checksum(a) == Checksum(b)
    ensures Feed(ToBits(START), Bits(a)) == Feed(ToBits(START), Bits(b))
  {
    FinishInjective(Run(START, a), Run(START, b));
    RunIsFeed(START, a);
    RunIsFeed(START, b);
  }

  lemma SameStart(s: seq<bool>, x: seq<bool>, y: seq<bool>)
    requires |s| == 32 && |x| == |y| <= 32
    requires Feed(s, x) == Feed(s, y)
    ensures x == y
  {
    MeetingRegisters(s, s, x, y);
    assert forall k :: 0 <= k < |x| ==> (s[k] != x[k]) == (s[k] != y[k]);
  }

  /** Equal feeds that share a prefix and a suffix share the at most 32 bits between them too. */
  lemma BurstInjective(s: seq<bool>, front: seq<bool>, x: seq<bool>, y: seq<bool>, back: seq<bool>)
    requires |s| == 32 && |x| == |y| <= 32
    requires Feed(s, front + x + back) == Feed(s, front + y + back)
    ensures x == y
  {
    FeedAppend(s, front + x, back);
    FeedAppend(s, front + y, back);
    FeedAppend(s, front, x);
    FeedAppend(s, front, y);
    var start := Feed(s, front);
    FeedInjective(Feed(start, x), Feed(start, y), back);
    SameStart(start, x, y);
  }

  /** All the differing bits of `a` and `b` lie in the 32 bits from bit `from` on, lowest bit of a byte first. */
  ghost predicate WithinBurst(a: Bytes, b: Bytes, from: nat)
    requires |a| == |b|
  {
    forall k :: 0 <= k < 8 * |a| && Bits(a)[k] != Bits(b)[k] ==> from <= k < from + 32
  }

  /** Any error burst of at most 32 bits, at any bit position of a message of any length, changes the checksum. */
  lemma BurstDetected(a: Bytes, b: Bytes, from: nat)
    requires |a| == |b| && a != b
    requires WithinBurst(a, b, from)
    ensures Checksum(a) != Checksum(b)
  {
    hide Checksum, ToBits, Feed, Bits;
    var x, y := Bits(a), Bits(b);
    if Checksum(a) == Checksum(b) {
      SameChecksumSameFeed(a, b);
      var n := |x|;
      var start := if from <= n then from else n;
      var stop := if from + 32 <= n then from + 32 else n;
      assert x[..start] == y[..start] && x[stop..] == y[stop..];
      assert x == x[..start] + x[start..stop] + x[stop..];
      assert y == x[..start] + y[start..stop] + x[stop..];
      BurstInjective(ToBits(START), x[..start], x[start..stop], y[start..stop], x[stop..]);
      BitsInjective(a, b);
    }
  }

  /** In particular, any change confined to four consecutive bytes. */
  lemma FourByteChangeDetected(a: Bytes, b: Bytes, from: nat)
    requires |a| == |b| && a != b
    requires forall j :: 0 <= j < |a| && a[j] != b[j] ==> from <= j < from + 4
    ensures Checksum(a) != Checksum(b)
  {
    hide Checksum, Bits, Digits;
    forall k | 0 <= k < 8 * |a| && Bits(a)[k] != Bits(b)[k] ensures 8 * from <= k < 8 * from + 32 {
      BitOfByte(a, k / 8, k % 8);
      BitOfByte(b, k / 8, k % 8);
    }
    BurstDetected(a, b, 8 * from);
  }
}
