/** Provisioning payloads and envelopes of src/provisioning/format.js. */
module Format {
  import opened Prelude
  import Cbor
  import Crc
  import Utf8

  const MAGIC: Bytes := [0x4d, 0x46, 0x50, 0x31]
  const ENVELOPE_VERSION: byte := 1
  const SCHEMA_VERSION := 2
  const MAX_PAYLOAD_SIZE := 1024
  const MAX_ENVELOPE_SIZE := 1035

  /** The settings a keypad is provisioned with; text as its UTF-8 bytes. */
  datatype Values = Values(
    deviceId: Bytes,
    deviceSecret: Bytes,
    ssid: Bytes,
    wifiPassword: Bytes,
    serverHost: Bytes,
    serverPort: int,
    serverPublicKey: Bytes,
    serialDebug: bool)

  /** Whether DER bytes parse as an RSA public key; the parser itself is not part of this model. */
  type KeyParser = Bytes -> bool

  predicate LegalText(s: Bytes, max: nat, allowEmpty: bool) {
    (allowEmpty || s != []) && |s| <= max && 0 !in s && Utf8.Valid(s)
  }

  predicate Valid(isRsa: KeyParser, v: Values) {
    && LegalText(v.deviceId, 64, false)
    && |v.deviceSecret| == 32
    && LegalText(v.ssid, 32, false)
    && LegalText(v.wifiPassword, 63, true)
    && LegalText(v.serverHost, 253, false)
    && 1 <= v.serverPort <= 65535
    && 32 <= |v.serverPublicKey| <= 512
    && isRsa(v.serverPublicKey)
  }

  // ---- CBOR maps of scalars ----

  datatype Scalar = Uint(n: nat) | Blob(s: Bytes) | Text(s: Bytes) | Bool(b: bool)

  function EncodeScalar(x: Scalar): Bytes {
    match x
    case Uint(n) => Cbor.EncodeHead(Cbor.UINT, n)
    case Blob(s) => Cbor.EncodeHead(Cbor.BYTES, |s|) + s
    case Text(s) => Cbor.EncodeHead(Cbor.TEXT, |s|) + s
    case Bool(b) => [if b then 0xf5 else 0xf4]
  }

  type Pair = (Scalar, Scalar)

  function EncodePairs(pairs: seq<Pair>): Bytes {
    if pairs == [] then [] else EncodeScalar(pairs[0].0) + EncodeScalar(pairs[0].1) + EncodePairs(pairs[1..])
  }

  /** The canonical encoding of a map, for keys already in canonical order. */
  function EncodeMap(pairs: seq<Pair>): Bytes {
    Cbor.EncodeHead(Cbor.MAP, |pairs|) + EncodePairs(pairs)
  }

  /**
   * One scalar as the general-purpose decoder reads it, in any head length. Items it would read as something else
   * (negative numbers, floats, tags, nested collections, indefinite lengths) are `None`: the caller rejects them
   * whatever they decode to, because no field accepts them or they are re-encoded differently.
   */
  function LooseScalar(input: Bytes, offset: nat): (r: Option<(Scalar, nat)>)
    ensures r.Some? ==> offset < r.value.1 <= |input|
  {
    var (major, n, start) :- Cbor.ReadArgument(input, offset);
    if major == Cbor.UINT && n <= MAX_SAFE_INTEGER then Some((Uint(n), start))
    else if major == Cbor.BYTES && start + n <= |input| then Some((Blob(input[start..start + n]), start + n))
    else if major == Cbor.TEXT && start + n <= |input| && Utf8.Valid(input[start..start + n]) then
      Some((Text(input[start..start + n]), start + n))
    else if input[offset] == 0xf4 || input[offset] == 0xf5 then Some((Bool(input[offset] == 0xf5), start))
    else None
  }

  function LoosePairs(input: Bytes, offset: nat, count: nat): (r: Option<(seq<Pair>, nat)>)
    ensures r.Some? ==> |r.value.0| == count
    decreases count
  {
    if count == 0 then Some(([], offset))
    else
      var (key, o1) :- LooseScalar(input, offset);
      var (value, o2) :- LooseScalar(input, o1);
      var (rest, stop) :- LoosePairs(input, o2, count - 1);
      Some(([(key, value)] + rest, stop))
  }

  function LooseMap(input: Bytes): Option<seq<Pair>> {
    var (major, count, start) :- Cbor.ReadArgument(input, 0);
    :- Need(major == Cbor.MAP);
    var (pairs, stop) :- LoosePairs(input, start, count);
    :- Need(stop == |input|);
    Some(pairs)
  }

  // ---- Payloads ----

  function Entries(schema: nat, v: Values): seq<Scalar>
    requires v.serverPort >= 0
  {
    [Uint(schema), Text(v.deviceId), Blob(v.deviceSecret), Text(v.ssid), Text(v.wifiPassword), Text(v.serverHost),
     Uint(v.serverPort), Blob(v.serverPublicKey)] + if schema == 1 then [] else [Bool(v.serialDebug)]
  }

  function Numbered(entries: seq<Scalar>): (pairs: seq<Pair>)
    ensures |pairs| == |entries|
  {
    seq(|entries|, i requires 0 <= i < |entries| => (Uint(i), entries[i]))
  }

  /** The payload of a schema version: a map from 0, 1, ... to the schema version and the settings. */
  function Payload(schema: nat, v: Values): Bytes
    requires v.serverPort >= 0
  {
    EncodeMap(Numbered(Entries(schema, v)))
  }

  /** What `encodePayload` returns, or `None` where it throws. */
  function EncodePayload(isRsa: KeyParser, v: Values): Option<Bytes> {
    if !Valid(isRsa, v) then None
    else
      var payload := Payload(SCHEMA_VERSION, v);
      if 0 < |payload| <= MAX_PAYLOAD_SIZE then Some(payload) else None
  }

  /** The settings in the fields of a decoded map, where each field has its type. */
  function FromEntries(schema: nat, e: seq<Scalar>): Option<Values>
    requires |e| == if schema == 1 then 8 else 9
  {
    if e[1].Text? && e[2].Blob? && e[3].Text? && e[4].Text? && e[5].Text? && e[6].Uint? && e[7].Blob?
       && (schema == 1 || e[8].Bool?)
    then Some(Values(e[1].s, e[2].s, e[3].s, e[4].s, e[5].s, e[6].n, e[7].s, schema != 1 && e[8].b))
    else None
  }

  function ValuesOf(pairs: seq<Pair>): (e: seq<Scalar>)
    ensures |e| == |pairs|
  {
    seq(|pairs|, i requires 0 <= i < |pairs| => pairs[i].1)
  }

  /** What `decodePayload` returns, or `None` where it throws. */
  function DecodePayload(isRsa: KeyParser, payload: Bytes): Option<Values> {
    var pairs :- LooseMap(payload);
    var schema := if |pairs| > 0 && pairs[0] == (Uint(0), Uint(1)) then 1
                  else if |pairs| > 0 && pairs[0] == (Uint(0), Uint(SCHEMA_VERSION)) then SCHEMA_VERSION else 0;
    :- Need(schema != 0 && |pairs| == (if schema == 1 then 8 else 9));
    :- Need(forall i :: 0 <= i < |pairs| ==> pairs[i].0 == Uint(i));
    var v :- FromEntries(schema, ValuesOf(pairs));
    :- Need(Valid(isRsa, v));
    :- Need(EncodeMap(pairs) == payload);
    Some(v)
  }

  lemma {:induction false} PairsAppend(a: seq<Pair>, b: seq<Pair>)
    ensures EncodePairs(a + b) == EncodePairs(a) + EncodePairs(b)
  {
    hide EncodeScalar;
    if a == [] {
      assert a + b == b;
    } else {
      PairsAppend(a[1..], b);
      assert (a + b)[1..] == a[1..] + b;
    }
  }

  lemma {:induction false} NumberedPrefix(entries: seq<Scalar>, n: nat)
    requires n < |entries|
    ensures EncodePairs(Numbered(entries[..n + 1])) ==
            EncodePairs(Numbered(entries[..n])) + Cbor.EncodeHead(0, n) + EncodeScalar(entries[n])
  {
    hide EncodeScalar;
    var last := [(Uint(n), entries[n])];
    assert Numbered(entries[..n + 1]) == Numbered(entries[..n]) + last;
    PairsAppend(Numbered(entries[..n]), last);
    assert last[1..] == [];
    assert EncodePairs(last) == EncodeScalar(Uint(n)) + EncodeScalar(entries[n]) + [];
    assert EncodeScalar(Uint(n)) == Cbor.EncodeHead(0, n) by { UintHead(n); }
  }

  lemma UintHead(n: nat)
    ensures EncodeScalar(Uint(n)) == Cbor.EncodeHead(0, n)
  {}

  /** A string of the given major type behind its head. */
  function Tagged(major: nat, s: Bytes): Bytes
    requires major < 8
  {
    Cbor.EncodeHead(major, |s|) + s
  }

  /** The schema version and the settings in the order in which they stand in a payload. */
  function Settings(schema: nat, v: Values): Bytes
    requires schema < 24 && v.serverPort >= 0
  {
    [0, schema] + [1] + Tagged(3, v.deviceId) + [2] + Tagged(2, v.deviceSecret) + [3] + Tagged(3, v.ssid)
    + [4] + Tagged(3, v.wifiPassword) + [5] + Tagged(3, v.serverHost) + [6] + Cbor.EncodeHead(0, v.serverPort)
    + [7] + Tagged(2, v.serverPublicKey)
  }

  lemma ScalarTagged(x: Scalar)
    ensures EncodeScalar(x) ==
            match x
            case Uint(n) => Cbor.EncodeHead(0, n)
            case Blob(s) => Tagged(2, s)
            case Text(s) => Tagged(3, s)
            case Bool(b) => [if b then 0xf5 else 0xf4]
  {}

  /** The pairs up to entry `n`, whose key takes one byte. */
  function UpTo(entries: seq<Scalar>, n: nat): Bytes
    requires n <= |entries|
  {
    EncodePairs(Numbered(entries[..n]))
  }

  lemma NextEntry(entries: seq<Scalar>, n: nat)
    requires n < |entries| && n < 24
    ensures UpTo(entries, n + 1) == UpTo(entries, n) + [n] + EncodeScalar(entries[n])
  {
    hide EncodePairs, Numbered, EncodeScalar;
    SmallHeads();
    NumberedPrefix(entries, n);
  }

  lemma EntriesLaidOut(schema: nat, v: Values)
    requires 1 <= schema <= 2 && v.serverPort >= 0
    ensures UpTo(Entries(schema, v), 8) == Settings(schema, v)
  {
    hide UpTo, EncodeScalar, Tagged, Cbor.EncodeHead;
    var e := Entries(schema, v);
    assert UpTo(e, 0) == [] by { NothingEncoded(e); }
    assert EncodeScalar(e[0]) == [schema] by { ScalarTagged(e[0]); SmallHeads(); }
    forall i | 0 <= i < 8 ensures UpTo(e, i + 1) == UpTo(e, i) + [i] + EncodeScalar(e[i]) {
      NextEntry(e, i);
      ScalarTagged(e[i]);
    }
    assert UpTo(e, 1) == [] + [0] + [schema] == [0, schema];
    assert UpTo(e, 2) == [0, schema] + [1] + Tagged(3, v.deviceId) by { ScalarTagged(e[1]); }
    assert UpTo(e, 3) == UpTo(e, 2) + [2] + Tagged(2, v.deviceSecret) by { ScalarTagged(e[2]); }
    assert UpTo(e, 4) == UpTo(e, 3) + [3] + Tagged(3, v.ssid) by { ScalarTagged(e[3]); }
    assert UpTo(e, 5) == UpTo(e, 4) + [4] + Tagged(3, v.wifiPassword) by { ScalarTagged(e[4]); }
    assert UpTo(e, 6) == UpTo(e, 5) + [5] + Tagged(3, v.serverHost) by { ScalarTagged(e[5]); }
    assert UpTo(e, 7) == UpTo(e, 6) + [6] + Cbor.EncodeHead(0, v.serverPort) by { ScalarTagged(e[6]); }
    assert UpTo(e, 8) == UpTo(e, 7) + [7] + Tagged(2, v.serverPublicKey) by { ScalarTagged(e[7]); }
  }

  lemma NothingEncoded(entries: seq<Scalar>)
    ensures UpTo(entries, 0) == []
  {}

  lemma SmallHeads()
    ensures forall n :: 0 <= n < 24 ==> Cbor.EncodeHead(0, n) == [n]
    ensures forall n :: 0 <= n < 24 ==> Cbor.EncodeHead(5, n) == [0xa0 + n]
  {
    forall n | 0 <= n < 24 ensures Cbor.EncodeHead(0, n) == [n] && Cbor.EncodeHead(5, n) == [0xa0 + n] {
      Cbor.HeadBytes(0, n);
      Cbor.HeadBytes(5, n);
    }
  }

  /**
   * A payload byte by byte: a map of eight or nine entries, the schema version first, and each setting at its number.
   */
  lemma PayloadLayout(v: Values)
    requires v.serverPort >= 0
    ensures Payload(1, v) == [0xa8] + Settings(1, v)
    ensures Payload(2, v) == [0xa9] + (Settings(2, v) + [8] + [if v.serialDebug then 0xf5 else 0xf4])
  {
    hide EncodePairs, Numbered, Settings, Cbor.EncodeHead;
    EntriesLaidOut(1, v);
    EntriesLaidOut(2, v);
    SmallHeads();
    var e1, e2 := Entries(1, v), Entries(2, v);
    assert e1[..8] == e1 && e2[..9] == e2;
    NextEntry(e2, 8);
  }

  // ---- Payload round trip ----

  lemma ArgumentReads(input: Bytes, offset: nat, major: nat, n: nat)
    requires major < 8 && n <= MAX_SAFE_INTEGER
    requires Cbor.At(input, offset, Cbor.EncodeHead(major, n))
    ensures Cbor.ReadArgument(input, offset) == Some((major, n, offset + |Cbor.EncodeHead(major, n)|))
  {
    hide Cbor.EncodeHead, Cbor.ReadArgument;
    Cbor.HeadReads(input, offset, major, n);
  }

  predicate Readable(x: Scalar) {
    match x
    case Uint(n) => n <= MAX_SAFE_INTEGER
    case Blob(s) => |s| <= MAX_SAFE_INTEGER
    case Text(s) => |s| <= MAX_SAFE_INTEGER && Utf8.Valid(s)
    case Bool(_) => true
  }

  lemma StringReads(input: Bytes, offset: nat, major: nat, s: Bytes)
    requires major < 8 && |s| <= MAX_SAFE_INTEGER
    requires Cbor.At(input, offset, Cbor.EncodeHead(major, |s|) + s)
    ensures var start := offset + |Cbor.EncodeHead(major, |s|)|;
            && Cbor.ReadArgument(input, offset) == Some((major, |s|, start))
            && start + |s| <= |input| && input[start..start + |s|] == s
  {
    hide Cbor.EncodeHead, Cbor.ReadArgument;
    Cbor.AtSum(input, offset, Cbor.EncodeHead(major, |s|), s);
    ArgumentReads(input, offset, major, |s|);
  }

  lemma BoolReads(input: Bytes, offset: nat, b: bool)
    requires Cbor.At(input, offset, EncodeScalar(Bool(b)))
    ensures LooseScalar(input, offset) == Some((Bool(b), offset + 1))
  {
    assert input[offset] == input[offset..offset + 1][0];
    assert Cbor.ReadArgument(input, offset) == Some((7, input[offset] % 32, offset + 1));
  }

  lemma ScalarReads(input: Bytes, offset: nat, x: Scalar)
    requires Readable(x) && Cbor.At(input, offset, EncodeScalar(x))
    ensures LooseScalar(input, offset) == Some((x, offset + |EncodeScalar(x)|))
  {
    hide Cbor.EncodeHead, Cbor.ReadArgument, Cbor.At;
    match x {
      case Uint(n) => ArgumentReads(input, offset, Cbor.UINT, n);
      case Blob(s) => StringReads(input, offset, Cbor.BYTES, s);
      case Text(s) => StringReads(input, offset, Cbor.TEXT, s);
      case Bool(b) => BoolReads(input, offset, b);
    }
  }

  lemma {:induction false} PairsRead(input: Bytes, offset: nat, pairs: seq<Pair>)
    requires forall i :: 0 <= i < |pairs| ==> Readable(pairs[i].0) && Readable(pairs[i].1)
    requires Cbor.At(input, offset, EncodePairs(pairs))
    ensures LoosePairs(input, offset, |pairs|) == Some((pairs, offset + |EncodePairs(pairs)|))
    decreases |pairs|
  {
    hide EncodeScalar, LooseScalar, Readable, Cbor.At;
    if pairs != [] {
      var key, value, rest := EncodeScalar(pairs[0].0), EncodeScalar(pairs[0].1), EncodePairs(pairs[1..]);
      Cbor.AtSum(input, offset, key + value, rest);
      Cbor.AtSum(input, offset, key, value);
      ScalarReads(input, offset, pairs[0].0);
      ScalarReads(input, offset + |key|, pairs[0].1);
      PairsRead(input, offset + |key| + |value|, pairs[1..]);
      assert pairs == [(pairs[0].0, pairs[0].1)] + pairs[1..];
    }
  }

  lemma MapReads(pairs: seq<Pair>)
    requires |pairs| <= MAX_SAFE_INTEGER
    requires forall i :: 0 <= i < |pairs| ==> Readable(pairs[i].0) && Readable(pairs[i].1)
    ensures LooseMap(EncodeMap(pairs)) == Some(pairs)
  {
    hide EncodePairs, LoosePairs, Readable, Cbor.EncodeHead, Cbor.ReadArgument, Cbor.At;
    var input := EncodeMap(pairs);
    var head := Cbor.EncodeHead(Cbor.MAP, |pairs|);
    Whole(input);
    Cbor.AtSum(input, 0, head, EncodePairs(pairs));
    ArgumentReads(input, 0, Cbor.MAP, |pairs|);
    PairsRead(input, |head|, pairs);
  }

  lemma Whole(input: Bytes)
    ensures Cbor.At(input, 0, input)
  {
    assert input[0..|input|] == input;
  }

  lemma EntriesReadable(isRsa: KeyParser, schema: nat, v: Values)
    requires 1 <= schema <= 2 && Valid(isRsa, v)
    ensures forall i :: 0 <= i < |Entries(schema, v)| ==> Readable(Entries(schema, v)[i])
  {}

  /** A schema version and settings that a payload of that version can carry. */
  predicate Carries(isRsa: KeyParser, schema: nat, v: Values) {
    1 <= schema <= SCHEMA_VERSION && Valid(isRsa, v) && (schema == 1 ==> !v.serialDebug)
  }

  lemma FieldsRoundTrip(schema: nat, v: Values)
    requires (schema == 1 && !v.serialDebug) || schema == SCHEMA_VERSION
    requires v.serverPort >= 0
    ensures FromEntries(schema, Entries(schema, v)) == Some(v)
  {}

  lemma NumberedMap(entries: seq<Scalar>)
    requires |entries| <= 9 && forall i :: 0 <= i < |entries| ==> Readable(entries[i])
    ensures LooseMap(EncodeMap(Numbered(entries))) == Some(Numbered(entries))
    ensures ValuesOf(Numbered(entries)) == entries
    ensures forall i :: 0 <= i < |entries| ==> Numbered(entries)[i] == (Uint(i), entries[i])
  {
    hide EncodeMap, LooseMap;
    var pairs := Numbered(entries);
    forall i | 0 <= i < |pairs| ensures Readable(pairs[i].0) && Readable(pairs[i].1) {}
    MapReads(pairs);
  }

  /** `decodePayload` undoes encoding, for both schema versions and all valid settings. */
  lemma PayloadRoundTrip(isRsa: KeyParser, schema: nat, v: Values)
    requires Carries(isRsa, schema, v)
    ensures DecodePayload(isRsa, Payload(schema, v)) == Some(v)
  {
    EntriesReadable(isRsa, schema, v);
    FieldsRoundTrip(schema, v);
    hide EncodeMap, LooseMap, Valid, Readable, FromEntries, Numbered, ValuesOf;
    NumberedMap(Entries(schema, v));
  }

  /** An accepted payload is the one canonical payload of its schema version and settings. */
  lemma AcceptedIsCanonical(isRsa: KeyParser, payload: Bytes) returns (schema: nat)
    requires DecodePayload(isRsa, payload).Some?
    ensures var v := DecodePayload(isRsa, payload).value;
            Carries(isRsa, schema, v) && payload == Payload(schema, v)
  {
    hide EncodeMap, LooseMap, Valid;
    var v := DecodePayload(isRsa, payload).value;
    var pairs := LooseMap(payload).value;
    schema := pairs[0].1.n;
    var entries := ValuesOf(pairs);
    assert entries == Entries(schema, v) by {
      assert entries[0] == Uint(schema);
    }
    assert pairs == Numbered(entries) by {
      forall i | 0 <= i < |pairs| ensures pairs[i] == Numbered(entries)[i] {}
    }
  }

  /** `decodePayload` accepts exactly the canonical payloads of valid settings. */
  lemma PayloadExact(isRsa: KeyParser, payload: Bytes, v: Values)
    ensures DecodePayload(isRsa, payload) == Some(v)
       <==> (Carries(isRsa, 1, v) && payload == Payload(1, v)) || (Carries(isRsa, 2, v) && payload == Payload(2, v))
  {
    hide DecodePayload, Payload, Carries;
    if DecodePayload(isRsa, payload) == Some(v) {
      var schema := AcceptedIsCanonical(isRsa, payload);
      assert schema == 1 || schema == 2 by { CarriedSchema(isRsa, schema, v); }
    }
    if Carries(isRsa, 1, v) {
      PayloadRoundTrip(isRsa, 1, v);
    }
    if Carries(isRsa, 2, v) {
      PayloadRoundTrip(isRsa, 2, v);
    }
  }

  lemma CarriedSchema(isRsa: KeyParser, schema: nat, v: Values)
    requires Carries(isRsa, schema, v)
    ensures (schema == 1 || schema == 2) && v.serverPort >= 0
  {}

  // ---- Payload size ----

  function ScalarSize(x: Scalar): nat {
    match x
    case Uint(n) => 1 + Cbor.Width(Cbor.Additional(n))
    case Blob(s) => 1 + Cbor.Width(Cbor.Additional(|s|)) + |s|
    case Text(s) => 1 + Cbor.Width(Cbor.Additional(|s|)) + |s|
    case Bool(_) => 1
  }

  lemma ScalarSizes(x: Scalar)
    ensures |EncodeScalar(x)| == ScalarSize(x)
  {}

  function Sizes(entries: seq<Scalar>): nat {
    if entries == [] then 0 else 1 + ScalarSize(entries[0]) + Sizes(entries[1..])
  }

  lemma {:induction false} PairsSize(pairs: seq<Pair>, entries: seq<Scalar>, from: nat)
    requires |pairs| == |entries| && from + |pairs| <= 24
    requires forall i :: 0 <= i < |pairs| ==> pairs[i] == (Uint(from + i), entries[i])
    ensures |EncodePairs(pairs)| == Sizes(entries)
    decreases |pairs|
  {
    hide EncodeScalar, ScalarSize;
    if pairs != [] {
      assert pairs[0] == (Uint(from + 0), entries[0]);
      ScalarSizes(pairs[0].0);
      ScalarSizes(pairs[0].1);
      KeySize(from);
      PairsSize(pairs[1..], entries[1..], from + 1);
    }
  }

  lemma KeySize(key: nat)
    requires key < 24
    ensures ScalarSize(Uint(key)) == 1
  {}

  /** The bytes behind the map head, by schema version and setting. */
  function FieldSizes(schema: nat, v: Values): nat
    requires v.serverPort >= 0
  {
    9 + ScalarSize(Text(v.deviceId)) + ScalarSize(Blob(v.deviceSecret)) + ScalarSize(Text(v.ssid))
    + ScalarSize(Text(v.wifiPassword)) + ScalarSize(Text(v.serverHost)) + ScalarSize(Uint(v.serverPort))
    + ScalarSize(Blob(v.serverPublicKey)) + if schema == 1 then 0 else 2
  }

  lemma SizesOfEntries(schema: nat, v: Values)
    requires 1 <= schema <= 2 && v.serverPort >= 0
    ensures Sizes(Entries(schema, v)) == FieldSizes(schema, v)
  {
    hide ScalarSize;
    KeySize(schema);
    var e := Entries(schema, v);
    var tail := e[4..];
    assert e[1..][1..][1..][1..] == tail;
    assert tail[1..][1..][1..][1..] == e[8..];
    assert Sizes(e[8..]) == if schema == 1 then 0 else 2 by {
      assert ScalarSize(Bool(v.serialDebug)) == 1 by { BoolSize(v.serialDebug); }
      if schema != 1 {
        assert e[8..][0] == Bool(v.serialDebug) && e[8..][1..] == [];
      }
    }
    assert Sizes(tail) == 4 + ScalarSize(tail[0]) + ScalarSize(tail[1]) + ScalarSize(tail[2]) + ScalarSize(tail[3])
                          + Sizes(e[8..]) by {
      FourSizes(tail);
    }
    FourSizes(e);
  }

  lemma BoolSize(b: bool)
    ensures ScalarSize(Bool(b)) == 1
  {}

  lemma FourSizes(e: seq<Scalar>)
    requires |e| >= 4
    ensures Sizes(e) == 4 + ScalarSize(e[0]) + ScalarSize(e[1]) + ScalarSize(e[2]) + ScalarSize(e[3]) + Sizes(e[4..])
  {
    hide ScalarSize;
    var rest := e[2..];
    assert e[1..][1..] == rest && rest[1..][1..] == e[4..];
    assert Sizes(e) == 2 + ScalarSize(e[0]) + ScalarSize(e[1]) + Sizes(rest);
    assert Sizes(rest) == 2 + ScalarSize(rest[0]) + ScalarSize(rest[1]) + Sizes(e[4..]);
  }

  /** No valid payload exceeds 984 bytes, and the largest settings reach it: the 1024-byte limit is never hit. */
  lemma PayloadSize(isRsa: KeyParser, schema: nat, v: Values)
    requires Carries(isRsa, schema, v)
    ensures 0 < |Payload(schema, v)| <= 984
    ensures schema == SCHEMA_VERSION && |v.deviceId| == 64 && |v.ssid| == 32 && |v.wifiPassword| == 63
            && |v.serverHost| == 253 && v.serverPort >= 256 && |v.serverPublicKey| == 512
            ==> |Payload(schema, v)| == 984
  {
    var entries := Entries(schema, v);
    PayloadFieldSizes(schema, v);
    SizesOfEntries(schema, v);
  }

  lemma PayloadFieldSizes(schema: nat, v: Values)
    requires 1 <= schema <= 2 && v.serverPort >= 0
    ensures |Payload(schema, v)| == 1 + Sizes(Entries(schema, v))
  {
    hide EncodePairs, Sizes;
    var entries := Entries(schema, v);
    PairsSize(Numbered(entries), entries, 0);
  }

  /** `encodePayload` throws for invalid settings only. */
  lemma EncodePayloadTotal(isRsa: KeyParser, v: Values)
    ensures EncodePayload(isRsa, v).Some? <==> Valid(isRsa, v)
  {
    hide Valid, Payload;
    if Valid(isRsa, v) {
      CarriesCurrent(isRsa, v);
      PayloadSize(isRsa, SCHEMA_VERSION, v);
    }
  }

  lemma CarriesCurrent(isRsa: KeyParser, v: Values)
    requires Valid(isRsa, v)
    ensures Carries(isRsa, SCHEMA_VERSION, v) && v.serverPort >= 0
  {}

  // ---- Envelopes ----

  function EnvelopeBody(payload: Bytes): Bytes {
    MAGIC + [ENVELOPE_VERSION] + WriteBE(|payload|, 2) + payload
  }

  function Envelope(payload: Bytes): Bytes {
    EnvelopeBody(payload) + WriteBE(Crc.Checksum(EnvelopeBody(payload)), 4)
  }

  /** The source's buffers: a seven-byte header, the payload, and a four-byte checksum. */
  method EncodeEnvelope(isRsa: KeyParser, v: Values) returns (r: Option<Bytes>)
    ensures r == match EncodePayload(isRsa, v) case None => None case Some(payload) => Some(Envelope(payload))
  {
    hide Payload, Valid, Crc.Checksum;
    var payload := EncodePayload(isRsa, v);
    if payload.None? { return None; }
    var header := new byte[7](_ => 0);
    for i := 0 to 4
      invariant header[..i] == MAGIC[..i]
    {
      header[i] := MAGIC[i];
    }
    header[4] := ENVELOPE_VERSION;
    var size := |payload.value|;
    header[5], header[6] := size / 256, size % 256;
    SizeField(size);
    assert header[..] == MAGIC + [ENVELOPE_VERSION] + WriteBE(size, 2);
    var body := header[..] + payload.value;
    var checksum := Crc.Crc32(body);
    return Some(body + WriteBE(checksum, 4));
  }

  lemma SizeField(size: nat)
    requires size < 0x1_0000
    ensures WriteBE(size, 2) == [size / 256, size % 256]
  {
    assert WriteBE(size / 256, 1) == [] + [size / 256];
  }

  /** What `verifyEnvelope` accepts. */
  predicate VerifyEnvelope(isRsa: KeyParser, e: Bytes) {
    && 12 <= |e| <= MAX_ENVELOPE_SIZE
    && e[..4] == MAGIC
    && e[4] == ENVELOPE_VERSION
    && var n := ReadBE(e[5..7]);
       && 0 < n <= MAX_PAYLOAD_SIZE
       && |e| == 7 + n + 4
       && ReadBE(e[7 + n..11 + n]) == Crc.Checksum(e[..7 + n])
       && DecodePayload(isRsa, e[7..7 + n]).Some?
  }

  /** An envelope byte by byte. */
  lemma EnvelopeLayout(payload: Bytes)
    ensures var body := [0x4d, 0x46, 0x50, 0x31, 1] + WriteBE(|payload|, 2) + payload;
            Envelope(payload) == body + WriteBE(Crc.Checksum(body), 4)
  {
    hide Crc.Checksum, WriteBE;
    assert MAGIC + [ENVELOPE_VERSION] == [0x4d, 0x46, 0x50, 0x31, 1];
    assert EnvelopeBody(payload) == [0x4d, 0x46, 0x50, 0x31, 1] + WriteBE(|payload|, 2) + payload;
  }

  lemma EnvelopeParts(payload: Bytes)
    requires |payload| < 0x1_0000
    ensures var e, n := Envelope(payload), |payload|;
            && |e| == 11 + n && e[..4] == MAGIC && e[4] == ENVELOPE_VERSION && ReadBE(e[5..7]) == n
            && e[7..7 + n] == payload && e[..7 + n] == EnvelopeBody(payload)
            && ReadBE(e[7 + n..11 + n]) == Crc.Checksum(EnvelopeBody(payload))
  {
    hide Crc.Checksum, WriteBE, ReadBE;
    Pow256Values();
    var e, n := Envelope(payload), |payload|;
    ReadOfWriteBE(n, 2);
    ReadOfWriteBE(Crc.Checksum(EnvelopeBody(payload)), 4);
    assert e[5..7] == WriteBE(n, 2);
    assert e[7 + n..11 + n] == WriteBE(Crc.Checksum(EnvelopeBody(payload)), 4);
  }

  /** Only the envelope of its own payload is accepted. */
  lemma VerifiedIsEnvelope(isRsa: KeyParser, e: Bytes)
    requires VerifyEnvelope(isRsa, e)
    ensures var payload := e[7..|e| - 4]; DecodePayload(isRsa, payload).Some? && e == Envelope(payload)
  {
    hide Crc.Checksum, WriteBE, ReadBE, DecodePayload;
    var n := |e| - 11;
    WriteOfReadBE(e[5..7]);
    WriteOfReadBE(e[7 + n..11 + n]);
    assert e[..7 + n] == EnvelopeBody(e[7..7 + n]) by {
      assert e[..7 + n] == e[..4] + [e[4]] + e[5..7] + e[7..7 + n];
    }
    assert e == e[..7 + n] + e[7 + n..11 + n];
  }

  /** `verifyEnvelope` accepts exactly the envelopes of the payloads `decodePayload` accepts. */
  lemma EnvelopeExact(isRsa: KeyParser, e: Bytes, payload: Bytes)
    ensures VerifyEnvelope(isRsa, e) && e[7..|e| - 4] == payload
       <==> DecodePayload(isRsa, payload).Some? && e == Envelope(payload)
  {
    hide Crc.Checksum, DecodePayload, Envelope, EnvelopeBody, Payload, Carries;
    if VerifyEnvelope(isRsa, e) {
      VerifiedIsEnvelope(isRsa, e);
    }
    if DecodePayload(isRsa, payload).Some? && e == Envelope(payload) {
      var schema := AcceptedIsCanonical(isRsa, payload);
      PayloadSize(isRsa, schema, DecodePayload(isRsa, payload).value);
      EnvelopeParts(payload);
    }
  }

  /** Every encoded envelope is accepted and decodes to its settings; distinct settings have distinct envelopes. */
  lemma EnvelopeRoundTrip(isRsa: KeyParser, v: Values, w: Values)
    requires Valid(isRsa, v) && Valid(isRsa, w)
    ensures var e := Envelope(Payload(SCHEMA_VERSION, v));
            && VerifyEnvelope(isRsa, e)
            && DecodePayload(isRsa, e[7..|e| - 4]) == Some(v)
            && (e == Envelope(Payload(SCHEMA_VERSION, w)) ==> v == w)
  {
    hide VerifyEnvelope, DecodePayload, Envelope, Payload, Valid;
    CarriesCurrent(isRsa, v);
    CarriesCurrent(isRsa, w);
    PayloadRoundTrip(isRsa, SCHEMA_VERSION, v);
    PayloadRoundTrip(isRsa, SCHEMA_VERSION, w);
    EnvelopeExact(isRsa, Envelope(Payload(SCHEMA_VERSION, v)), Payload(SCHEMA_VERSION, v));
    EnvelopeExact(isRsa, Envelope(Payload(SCHEMA_VERSION, w)), Payload(SCHEMA_VERSION, w));
  }

  // ---- Damage ----

  lemma ChecksumsAgree(isRsa: KeyParser, e: Bytes, d: Bytes)
    requires VerifyEnvelope(isRsa, e) && VerifyEnvelope(isRsa, d) && |d| == |e|
    requires e[|e| - 4..] == d[|e| - 4..]
    ensures Crc.Checksum(e[..|e| - 4]) == Crc.Checksum(d[..|e| - 4])
  {
    hide Crc.Checksum, DecodePayload, ReadBE;
    var n := |e| - 4;
    assert e[n..n + 4] == e[n..] && d[n..n + 4] == d[n..];
  }

  ghost predicate BurstDamage(e: Bytes, damaged: Bytes, from: nat) {
    && |damaged| == |e| >= 4
    && damaged[|e| - 4..] == e[|e| - 4..]
    && damaged[..|e| - 4] != e[..|e| - 4]
    && Crc.WithinBurst(e[..|e| - 4], damaged[..|e| - 4], from)
  }

  /** Damage to an accepted envelope within any 32 consecutive bits of header and payload is always rejected. */
  lemma BurstRejected(isRsa: KeyParser, e: Bytes, damaged: Bytes, from: nat)
    requires VerifyEnvelope(isRsa, e) && BurstDamage(e, damaged, from)
    ensures !VerifyEnvelope(isRsa, damaged)
  {
    hide VerifyEnvelope, Crc.Checksum, Crc.WithinBurst;
    Crc.BurstDetected(e[..|e| - 4], damaged[..|e| - 4], from);
    if VerifyEnvelope(isRsa, damaged) {
      ChecksumsAgree(isRsa, e, damaged);
    }
  }

  /** So is a change confined to four consecutive bytes of header and payload, */
  lemma FourBytesRejected(isRsa: KeyParser, e: Bytes, damaged: Bytes, from: nat)
    requires VerifyEnvelope(isRsa, e) && |damaged| == |e| && damaged != e
    requires from + 4 <= |e| - 4
    requires forall j :: 0 <= j < |e| && damaged[j] != e[j] ==> from <= j < from + 4
    ensures !VerifyEnvelope(isRsa, damaged)
  {
    hide Crc.Checksum, DecodePayload, ReadBE;
    var n := |e| - 4;
    assert damaged[n..] == e[n..];
    assert damaged[..n] != e[..n] by {
      assert damaged == damaged[..n] + damaged[n..] && e == e[..n] + e[n..];
    }
    Crc.FourByteChangeDetected(e[..n], damaged[..n], from);
    if VerifyEnvelope(isRsa, damaged) {
      ChecksumsAgree(isRsa, e, damaged);
    }
  }

  /** and any change confined to the checksum. */
  lemma ChecksumChangeRejected(isRsa: KeyParser, e: Bytes, damaged: Bytes)
    requires VerifyEnvelope(isRsa, e) && |damaged| == |e| && damaged != e
    requires damaged[..|e| - 4] == e[..|e| - 4]
    ensures !VerifyEnvelope(isRsa, damaged)
  {
    hide DecodePayload, Envelope;
    assert e[7..|e| - 4] == e[..|e| - 4][7..] && damaged[7..|e| - 4] == damaged[..|e| - 4][7..];
    if VerifyEnvelope(isRsa, damaged) {
      VerifiedIsEnvelope(isRsa, e);
      VerifiedIsEnvelope(isRsa, damaged);
    }
  }
}
