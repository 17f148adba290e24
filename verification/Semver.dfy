/** The precedence of section 11 of SemVer 2.0.0, as the firmware pipeline compares versions. */
module Semver {
  import opened Prelude

  // ---- Stable versions ----

  /** A stable version: no pre-release and no build part. */
  datatype Version = Version(major: nat, minor: nat, patch: nat)

  /** The precedence of section 11 of SemVer 2.0.0 on stable versions. */
  predicate Older(a: Version, b: Version) {
    || a.major < b.major
    || (a.major == b.major && a.minor < b.minor)
    || (a.major == b.major && a.minor == b.minor && a.patch < b.patch)
  }

  predicate AtMost(a: Version, b: Version) {
    a == b || Older(a, b)
  }

  lemma OlderOrder(a: Version, b: Version, c: Version)
    ensures !(Older(a, b) && Older(b, a)) && !Older(a, a)
    ensures Older(a, b) || Older(b, a) || a == b
    ensures Older(a, b) && Older(b, c) ==> Older(a, c)
  {}

  /** A greater patch, minor or major number makes a version newer, in this order of weight. */
  lemma OlderByNumbers(a: nat, b: nat, c: nat, x: nat, y: nat)
    ensures Older(Version(a, b, c), Version(a, b, c + 1))
    ensures Older(Version(a, b, x), Version(a, b + 1, c))
    ensures Older(Version(a, x, y), Version(a + 1, b, c))
  {}

  // ---- Versions with pre-release identifiers ----

  datatype Identifier = Numeric(n: nat) | Alphanumeric(text: Bytes)

  /** A version without its build part, which precedence ignores. */
  datatype SemVer = SemVer(core: Version, pre: seq<Identifier>)

  /** ASCII order. */
  predicate TextLess(a: Bytes, b: Bytes) {
    b != [] && (a == [] || a[0] < b[0] || (a[0] == b[0] && TextLess(a[1..], b[1..])))
  }

  predicate IdentifierLess(a: Identifier, b: Identifier) {
    match (a, b)
    case (Numeric(m), Numeric(n)) => m < n
    case (Numeric(_), Alphanumeric(_)) => true
    case (Alphanumeric(_), Numeric(_)) => false
    case (Alphanumeric(s), Alphanumeric(t)) => TextLess(s, t)
  }

  predicate ListLess(a: seq<Identifier>, b: seq<Identifier>) {
    b != [] && (a == [] || IdentifierLess(a[0], b[0]) || (a[0] == b[0] && ListLess(a[1..], b[1..])))
  }

  /** A pre-release comes before its release; otherwise the identifiers decide from the left. */
  predicate PreLess(a: seq<Identifier>, b: seq<Identifier>) {
    if a == [] then false else if b == [] then true else ListLess(a, b)
  }

  predicate Less(a: SemVer, b: SemVer) {
    Older(a.core, b.core) || (a.core == b.core && PreLess(a.pre, b.pre))
  }

  lemma {:induction false} TextOrder(a: Bytes, b: Bytes, c: Bytes)
    ensures !TextLess(a, a) && !(TextLess(a, b) && TextLess(b, a))
    ensures TextLess(a, b) || TextLess(b, a) || a == b
    ensures TextLess(a, b) && TextLess(b, c) ==> TextLess(a, c)
    decreases |a| + |b| + |c|
  {
    if a != [] && b != [] {
      TextOrder(a[1..], b[1..], if c == [] then [] else c[1..]);
      assert a == [a[0]] + a[1..] && b == [b[0]] + b[1..];
    } else if a != [] {
      TextOrder(a[1..], [], []);
    }
  }

  lemma IdentifierOrder(a: Identifier, b: Identifier, c: Identifier)
    ensures !IdentifierLess(a, a) && !(IdentifierLess(a, b) && IdentifierLess(b, a))
    ensures IdentifierLess(a, b) || IdentifierLess(b, a) || a == b
    ensures IdentifierLess(a, b) && IdentifierLess(b, c) ==> IdentifierLess(a, c)
  {
    TextOrder(if a.Numeric? then [] else a.text, if b.Numeric? then [] else b.text, if c.Numeric? then [] else c.text);
  }

  lemma {:induction false} ListOrder(a: seq<Identifier>, b: seq<Identifier>, c: seq<Identifier>)
    ensures !ListLess(a, a) && !(ListLess(a, b) && ListLess(b, a))
    ensures ListLess(a, b) || ListLess(b, a) || a == b
    ensures ListLess(a, b) && ListLess(b, c) ==> ListLess(a, c)
    decreases |a| + |b| + |c|
  {
    hide IdentifierLess;
    if a != [] && b != [] {
      ListOrder(a[1..], b[1..], if c == [] then [] else c[1..]);
      IdentifierOrder(a[0], b[0], if c == [] then a[0] else c[0]);
      assert a == [a[0]] + a[1..] && b == [b[0]] + b[1..];
    } else if a != [] {
      ListOrder(a[1..], [], []);
      IdentifierOrder(a[0], a[0], a[0]);
    }
  }

  /** Precedence is a strict total order. */
  lemma PrecedenceOrder(a: SemVer, b: SemVer, c: SemVer)
    ensures !Less(a, a) && !(Less(a, b) && Less(b, a))
    ensures Less(a, b) || Less(b, a) || a == b
    ensures Less(a, b) && Less(b, c) ==> Less(a, c)
  {
    hide ListLess, Older;
    OlderOrder(a.core, b.core, c.core);
    ListOrder(a.pre, b.pre, c.pre);
    OlderOrder(b.core, a.core, c.core);
  }

  /** The example of section 11 of SemVer 2.0.0, from its lowest to its highest precedence. */
  lemma PrecedenceExample(core: Version)
    ensures var alpha, beta, rc := Alphanumeric(Chars("alpha")), Alphanumeric(Chars("beta")), Alphanumeric(Chars("rc"));
            var versions := [SemVer(core, [alpha]), SemVer(core, [alpha, Numeric(1)]), SemVer(core, [alpha, beta]),
                             SemVer(core, [beta]), SemVer(core, [beta, Numeric(2)]), SemVer(core, [beta, Numeric(11)]),
                             SemVer(core, [rc, Numeric(1)]), SemVer(core, [])];
            forall i :: 0 <= i < 7 ==> Less(versions[i], versions[i + 1])
  {
    var alpha, beta, rc := Alphanumeric(Chars("alpha")), Alphanumeric(Chars("beta")), Alphanumeric(Chars("rc"));
    assert alpha.text[0] == 0x61 && beta.text[0] == 0x62 && rc.text[0] == 0x72;
    assert TextLess(alpha.text, beta.text) && TextLess(beta.text, rc.text);
    assert [alpha, Numeric(1)][1..] == [Numeric(1)] && [alpha, beta][1..] == [beta] && [alpha][1..] == [];
    assert [beta, Numeric(2)][1..] == [Numeric(2)] && [beta, Numeric(11)][1..] == [Numeric(11)] && [beta][1..] == [];
    assert ListLess([], [Numeric(1)]) && ListLess([Numeric(1)], [beta]) && ListLess([], [Numeric(2)]);
    assert ListLess([Numeric(2)], [Numeric(11)]);
    assert ListLess([alpha], [alpha, Numeric(1)]) && ListLess([alpha, Numeric(1)], [alpha, beta]);
    assert ListLess([alpha, beta], [beta]) && ListLess([beta], [beta, Numeric(2)]);
    assert ListLess([beta, Numeric(2)], [beta, Numeric(11)]) && ListLess([beta, Numeric(11)], [rc, Numeric(1)]);
  }
}
