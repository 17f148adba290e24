/**
 * The device frames of src/device/protocol.js: the cursor parser for keypad frames and the encoders for server frames.
 */
module Protocol {
  import opened Prelude
  import Cbor
  import Utf8

  const MAX_DEVICE_FRAME_SIZE := 512
  const LEGACY_VERSION := 1
  const PROTOCOL_VERSION := 2
  const CONFIGURATION_VERSION := 3

  const AUTH_CHALLENGE := 0
  const AUTH_RESPONSE := 1
  const AUTH_RESULT := 2
  const REGISTRATION := 3
  const KEY_EVENT := 4
  const CONFIGURATION := 5
  const UPDATE_AVAILABLE := 6
  const FIRMWARE_ACCEPTED := 7
  const CONFIGURATION_QUERY := 8
  const CONFIGURATION_REPORT := 9
  const LED_COMMAND := 10
  const LED_APPLIED := 11

  const KEYS: seq<string> := ["Q", "W", "E", "A", "S", "D", "Z", "X", "C", "SHI", "SPC"]

  predicate KnownVersion(version: nat) {
    LEGACY_VERSION <= version <= CONFIGURATION_VERSION
  }

  // ---- Data items ----

  datatype Item = Uint(n: nat) | Blob(s: Bytes) | Text(s: Bytes)

  function EncodeItem(item: Item): (s: Bytes)
    ensures 1 <= |s|
  {
    match item
    case Uint(n) => Cbor.EncodeHead(Cbor.UINT, n)
    case Blob(s) => Cbor.EncodeHead(Cbor.BYTES, |s|) + s
    case Text(s) => Cbor.EncodeHead(Cbor.TEXT, |s|) + s
  }

  function EncodeItems(items: seq<Item>): Bytes {
    if items == [] then [] else EncodeItem(items[0]) + EncodeItems(items[1..])
  }

  /** The deterministic encoding of an array of items (section 4.2.1 of RFC 8949). */
  function EncodeArray(items: seq<Item>): Bytes {
    Cbor.EncodeHead(Cbor.ARRAY, |items|) + EncodeItems(items)
  }

  // ---- Keypad frames ----

  /** What the source accepts in one field of a keypad frame. */
  datatype Field = UintField(max: nat) | BlobField(size: nat) | TextField(max: nat)

  /** The fields behind type and version. */
  function Schema(kind: nat): seq<Field> {
    if kind == AUTH_RESPONSE then [TextField(64), BlobField(32)]
    else if kind == REGISTRATION then [TextField(47), TextField(64)]
    else if kind == KEY_EVENT then [UintField(|KEYS| - 1), UintField(1)]
    else if kind == CONFIGURATION_REPORT then [BlobField(32), BlobField(32)]
    else if kind == LED_APPLIED then [BlobField(32)]
    else []
  }

  /** Proofs and acknowledgements exist in version 3 only; every other keypad message in all three. */
  predicate KeypadMessage(kind: nat, version: nat) {
    || (kind in {AUTH_RESPONSE, REGISTRATION, KEY_EVENT} && KnownVersion(version))
    || (kind in {CONFIGURATION_REPORT, LED_APPLIED} && version == CONFIGURATION_VERSION)
  }

  /** Text the source accepts, on its raw bytes: bounded, well formed, and non-empty without NUL once decoded. */
  predicate LegalText(raw: Bytes, max: nat) {
    1 <= |raw| <= max && Utf8.Valid(raw) && Utf8.Decoded(raw) != [] && 0 !in Utf8.Decoded(raw)
  }

  predicate LegalItem(field: Field, item: Item) {
    match field
    case UintField(max) => item.Uint? && item.n <= max
    case BlobField(size) => item.Blob? && |item.s| == size
    case TextField(max) => item.Text? && LegalText(item.s, max)
  }

  predicate LegalItems(fields: seq<Field>, items: seq<Item>) {
    |items| == |fields| && forall i :: 0 <= i < |items| ==> LegalItem(fields[i], items[i])
  }

  predicate Legal(kind: nat, version: nat, items: seq<Item>) {
    KeypadMessage(kind, version) && LegalItems(Schema(kind), items)
  }

  /** Every version but the first follows the message type in the frame. */
  function Header(kind: nat, version: nat): seq<Item> {
    if version != LEGACY_VERSION then [Uint(kind), Uint(version)] else [Uint(kind)]
  }

  function EncodeFrame(kind: nat, version: nat, items: seq<Item>): Bytes {
    EncodeArray(Header(kind, version) + items)
  }

  // ---- The cursor parser, as a function of the offset ----

  function ReadUint(input: Bytes, offset: nat, max: nat): (r: Option<(nat, nat)>)
    ensures r.Some? ==> r.value.0 <= max && offset < r.value.1 <= |input|
  {
    var (n, stop) :- Cbor.ReadHead(input, offset, Cbor.UINT);
    :- Need(n <= max);
    Some((n, stop))
  }

  function ReadString(input: Bytes, offset: nat, major: nat, min: nat, max: nat): (r: Option<(Bytes, nat)>)
    ensures r.Some? ==> offset < r.value.1 <= |input|
  {
    var (length, start) :- Cbor.ReadHead(input, offset, major);
    :- Need(min <= length <= max && start + length <= |input|);
    Some((input[start..start + length], start + length))
  }

  function ReadText(input: Bytes, offset: nat, max: nat): (r: Option<(Bytes, nat)>)
    ensures r.Some? ==> offset < r.value.1 <= |input|
  {
    var (raw, stop) :- ReadString(input, offset, Cbor.TEXT, 1, max);
    :- Need(Utf8.Valid(raw));
    var text := Utf8.Decoded(raw);
    :- Need(0 < |text| <= max && 0 !in text);
    Some((raw, stop))
  }

  function ReadItem(input: Bytes, offset: nat, field: Field): (r: Option<(Item, nat)>)
    ensures r.Some? ==> offset < r.value.1 <= |input|
  {
    match field
    case UintField(max) =>
      var (n, stop) :- ReadUint(input, offset, max);
      Some((Uint(n), stop))
    case BlobField(size) =>
      var (s, stop) :- ReadString(input, offset, Cbor.BYTES, size, size);
      Some((Blob(s), stop))
    case TextField(max) =>
      var (s, stop) :- ReadText(input, offset, max);
      Some((Text(s), stop))
  }

  function ReadItems(input: Bytes, offset: nat, fields: seq<Field>): (r: Option<(seq<Item>, nat)>)
    decreases |fields|
  {
    if fields == [] then Some(([], offset))
    else
      var (item, next) :- ReadItem(input, offset, fields[0]);
      var (rest, stop) :- ReadItems(input, next, fields[1..]);
      Some(([item] + rest, stop))
  }

  /** The parser behind the array head: type, then version where the frame has one, then the fields. */
  function DecodeBody(input: Bytes, offset: nat, arity: nat): Option<((nat, nat, seq<Item>), nat)> {
    var (kind, o2) :- ReadUint(input, offset, 255);
    var (version, o3) :-
      if arity == 4 || kind == LED_APPLIED then ReadUint(input, o2, 255) else Some((LEGACY_VERSION, o2));
    :- Need(KeypadMessage(kind, version) && arity == |Header(kind, version)| + |Schema(kind)|);
    var (items, o4) :- ReadItems(input, o3, Schema(kind));
    Some(((kind, version, items), o4))
  }

  /** The type, version and fields `decodeDeviceFrame` reads, or `None` where it throws. */
  function Decode(input: Bytes): Option<(nat, nat, seq<Item>)> {
    var size := |input|;
    :- Need(0 < size <= MAX_DEVICE_FRAME_SIZE);
    var (arity, o1) :- Cbor.ReadHead(input, 0, Cbor.ARRAY);
    var (frame, o4) :- DecodeBody(input, o1, arity);
    :- Need(o4 == size);
    Some(frame)
  }

  // ---- Exactness ----

  lemma UintReads(input: Bytes, offset: nat, max: nat, n: nat)
    requires max <= MAX_SAFE_INTEGER
    ensures Cbor.ReadsAs(ReadUint(input, offset, max), input, offset, n <= max, n, EncodeItem(Uint(n)))
  {
    Cbor.HeadReads(input, offset, Cbor.UINT, n);
  }

  lemma StringReads(input: Bytes, offset: nat, major: nat, min: nat, max: nat, s: Bytes)
    requires major < 8 && max <= MAX_SAFE_INTEGER
    ensures Cbor.ReadsAs(ReadString(input, offset, major, min, max), input, offset, min <= |s| <= max, s,
                         Cbor.EncodeHead(major, |s|) + s)
  {
    Cbor.HeadReads(input, offset, major, |s|);
    Cbor.AtSum(input, offset, Cbor.EncodeHead(major, |s|), s);
  }

  lemma TextReads(input: Bytes, offset: nat, max: nat, s: Bytes)
    requires max <= MAX_SAFE_INTEGER
    ensures Cbor.ReadsAs(ReadText(input, offset, max), input, offset, LegalText(s, max), s, EncodeItem(Text(s)))
  {
    StringReads(input, offset, Cbor.TEXT, 1, max, s);
  }

  predicate Bounded(field: Field) {
    match field
    case UintField(max) => max <= 255
    case BlobField(size) => size <= 255
    case TextField(max) => max <= 255
  }

  lemma ItemReads(input: Bytes, offset: nat, field: Field, item: Item)
    requires Bounded(field)
    ensures Cbor.ReadsAs(ReadItem(input, offset, field), input, offset, LegalItem(field, item), item, EncodeItem(item))
  {
    match field {
      case UintField(max) =>
        if item.Uint? { UintReads(input, offset, max, item.n); }
      case BlobField(size) =>
        if item.Blob? { StringReads(input, offset, Cbor.BYTES, size, size, item.s); }
      case TextField(max) =>
        if item.Text? { TextReads(input, offset, max, item.s); }
    }
  }

  lemma LegalTail(fields: seq<Field>, items: seq<Item>)
    requires fields != [] && items != []
    ensures LegalItems(fields, items) <==> LegalItem(fields[0], items[0]) && LegalItems(fields[1..], items[1..])
  {
    if LegalItem(fields[0], items[0]) && LegalItems(fields[1..], items[1..]) {
      forall i | 0 <= i < |items| ensures LegalItem(fields[i], items[i]) {
        if i > 0 {
          assert LegalItem(fields[1..][i - 1], items[1..][i - 1]);
        }
      }
    }
  }

  /** One item in front of others is read exactly when it and they are. */
  lemma ConsReads(
    first: Option<(Item, nat)>, rest: Option<(seq<Item>, nat)>, both: Option<(seq<Item>, nat)>,
    input: Bytes, offset: nat, legal: bool, legalRest: bool, items: seq<Item>, x: Bytes, y: Bytes)
    requires items != []
    requires Cbor.ReadsAs(first, input, offset, legal, items[0], x)
    requires first == Some((items[0], offset + |x|)) ==>
               Cbor.ReadsAs(rest, input, offset + |x|, legalRest, items[1..], y)
    requires first.None? ==> both.None?
    requires first.Some? ==> both == if rest.None? then None else Some(([first.value.0] + rest.value.0, rest.value.1))
    ensures Cbor.ReadsAs(both, input, offset, legal && legalRest, items, x + y)
  {
    Cbor.AtSum(input, offset, x, y);
    assert items == [items[0]] + items[1..];
    if both.Some? && both.value.0 == items {
      assert both.value.0[0] == first.value.0 && both.value.0[1..] == rest.value.0;
    }
  }

  lemma NoItemsRead(input: Bytes, offset: nat, fields: seq<Field>, items: seq<Item>)
    requires offset <= |input| && (fields == [] || items == [])
    ensures Cbor.ReadsAs(ReadItems(input, offset, fields), input, offset, LegalItems(fields, items), items,
                         EncodeItems(items))
  {
    hide ReadItem, EncodeItem, LegalItem;
    var r := ReadItems(input, offset, fields);
    assert fields != [] && r.Some? ==> |r.value.0| > 0;
  }

  lemma {:induction false} ItemsRead(input: Bytes, offset: nat, fields: seq<Field>, items: seq<Item>)
    requires offset <= |input|
    requires forall i :: 0 <= i < |fields| ==> Bounded(fields[i])
    ensures Cbor.ReadsAs(ReadItems(input, offset, fields), input, offset, LegalItems(fields, items), items,
                         EncodeItems(items))
    decreases |fields|
  {
    hide ReadItem, EncodeItem, LegalItem, LegalItems, Cbor.At, Cbor.ReadsAs;
    var r := ReadItems(input, offset, fields);
    if fields == [] || items == [] {
      NoItemsRead(input, offset, fields, items);
    } else {
      ItemReads(input, offset, fields[0], items[0]);
      LegalTail(fields, items);
      var first := ReadItem(input, offset, fields[0]);
      var rest := if first.Some? then ReadItems(input, first.value.1, fields[1..]) else None;
      if first.Some? {
        ItemsRead(input, first.value.1, fields[1..], items[1..]);
      }
      ConsReads(first, rest, r, input, offset, LegalItem(fields[0], items[0]), LegalItems(fields[1..], items[1..]),
                items, EncodeItem(items[0]), EncodeItems(items[1..]));
    }
  }

  lemma EncodeHeader(kind: nat, version: nat, items: seq<Item>)
    ensures var body := if version != LEGACY_VERSION then EncodeItem(Uint(version)) + EncodeItems(items)
            else EncodeItems(items);
            EncodeItems(Header(kind, version) + items) == EncodeItem(Uint(kind)) + body
  {
    var all := Header(kind, version) + items;
    if version != LEGACY_VERSION {
      assert all[1..] == [Uint(version)] + items;
      assert all[1..][1..] == items;
    } else {
      assert all[1..] == items;
    }
  }

  lemma VersionedBodyReads(
      input: Bytes, offset: nat, arity: nat, kind: nat, version: nat, items: seq<Item>, x: Bytes, y: Bytes, z: Bytes)
    requires Cbor.ReadsAs(ReadUint(input, offset, 255), input, offset, kind <= 255, kind, x)
    requires Cbor.ReadsAs(ReadUint(input, offset + |x|, 255), input, offset + |x|, version <= 255, version, y)
    requires offset + |x| + |y| <= |input| ==>
               Cbor.ReadsAs(ReadItems(input, offset + |x| + |y|, Schema(kind)), input, offset + |x| + |y|,
                            LegalItems(Schema(kind), items), items, z)
    requires version != LEGACY_VERSION
    ensures Cbor.ReadsAs(DecodeBody(input, offset, arity), input, offset,
                         Legal(kind, version, items) && arity == 2 + |items|, (kind, version, items), x + (y + z))
  {
    hide ReadUint, ReadItems, LegalItem, Cbor.At;
    Cbor.AtSum(input, offset, x, y + z);
    Cbor.AtSum(input, offset + |x|, y, z);
  }

  lemma LegacyBodyReads(input: Bytes, offset: nat, arity: nat, kind: nat, items: seq<Item>, x: Bytes, z: Bytes)
    requires Cbor.ReadsAs(ReadUint(input, offset, 255), input, offset, kind <= 255, kind, x)
    requires offset + |x| <= |input| ==>
               Cbor.ReadsAs(ReadItems(input, offset + |x|, Schema(kind)), input, offset + |x|,
                            LegalItems(Schema(kind), items), items, z)
    ensures Cbor.ReadsAs(DecodeBody(input, offset, arity), input, offset,
                         Legal(kind, LEGACY_VERSION, items)
                             && arity == 1 + |items|, (kind, LEGACY_VERSION, items), x + z)
  {
    hide ReadUint, ReadItems, LegalItem, Cbor.At;
    Cbor.AtSum(input, offset, x, z);
  }

  lemma BodyReads(input: Bytes, offset: nat, arity: nat, kind: nat, version: nat, items: seq<Item>)
    ensures Cbor.ReadsAs(DecodeBody(input, offset, arity), input, offset,
                         Legal(kind, version, items) && arity == |Header(kind, version)| + |items|,
                         (kind, version, items), EncodeItems(Header(kind, version) + items))
  {
    hide ReadUint, ReadItems, DecodeBody, EncodeItem, EncodeItems, LegalItems, Cbor.At, Cbor.ReadsAs;
    var x, y, z := EncodeItem(Uint(kind)), EncodeItem(Uint(version)), EncodeItems(items);
    UintReads(input, offset, 255, kind);
    EncodeHeader(kind, version, items);
    if version != LEGACY_VERSION {
      UintReads(input, offset + |x|, 255, version);
      if offset + |x| + |y| <= |input| {
        ItemsRead(input, offset + |x| + |y|, Schema(kind), items);
      }
      VersionedBodyReads(input, offset, arity, kind, version, items, x, y, z);
    } else {
      if offset + |x| <= |input| {
        ItemsRead(input, offset + |x|, Schema(kind), items);
      }
      LegacyBodyReads(input, offset, arity, kind, items, x, z);
    }
  }

  lemma {:induction false} ItemsSize(items: seq<Item>)
    requires forall i :: 0 <= i < |items| ==> |EncodeItem(items[i])| <= 80
    ensures |EncodeItems(items)| <= 80 * |items|
  {
    if items != [] {
      ItemsSize(items[1..]);
    }
  }

  lemma FrameSize(kind: nat, version: nat, items: seq<Item>)
    requires Legal(kind, version, items)
    ensures 0 < |EncodeFrame(kind, version, items)| <= MAX_DEVICE_FRAME_SIZE
  {
    var all := Header(kind, version) + items;
    forall i | 0 <= i < |all| ensures |EncodeItem(all[i])| <= 80 {
      if i >= |Header(kind, version)| {
        assert LegalItem(Schema(kind)[i - |Header(kind, version)|], all[i]);
      }
    }
    ItemsSize(all);
  }

  /**
   * `decodeDeviceFrame` accepts a byte string exactly when it is the deterministic encoding of one legal
   * type, version and list of raw fields, and it returns those.
   */
  lemma DecodeExact(input: Bytes, kind: nat, version: nat, items: seq<Item>)
    ensures Decode(input) == Some((kind, version, items))
       <==> Legal(kind, version, items) && input == EncodeFrame(kind, version, items)
  {
    hide EncodeItems, LegalItems, Cbor.ReadHead, Cbor.EncodeHead;
    var arity := |Header(kind, version) + items|;
    var head, body := Cbor.EncodeHead(Cbor.ARRAY, arity), EncodeItems(Header(kind, version) + items);
    Cbor.HeadReads(input, 0, Cbor.ARRAY, arity);
    Cbor.AtSum(input, 0, head, body);
    BodyReads(input, |head|, arity, kind, version, items);
    assert input[0..|input|] == input;
    if Legal(kind, version, items) {
      FrameSize(kind, version, items);
    }
    var r := Cbor.ReadHead(input, 0, Cbor.ARRAY);
    if r.Some? && r.value.0 != arity {
      BodyReads(input, r.value.1, r.value.0, kind, version, items);
    }
  }

  /** Accepted frames are unique: two legal tuples with one encoding are the same tuple. */
  lemma FramesUnique(kind: nat, version: nat, items: seq<Item>, kind': nat, version': nat, items': seq<Item>)
    requires Legal(kind, version, items) && Legal(kind', version', items')
    requires EncodeFrame(kind, version, items) == EncodeFrame(kind', version', items')
    ensures kind == kind' && version == version' && items == items'
  {
    hide EncodeFrame, Legal, Decode;
    var input := EncodeFrame(kind, version, items);
    DecodeExact(input, kind, version, items);
    DecodeExact(input, kind', version', items');
  }

  // ---- The messages handed to the server ----

  /** A decoded keypad message; its text has lost one leading byte order mark. */
  datatype Message =
    | AuthResponse(deviceId: Bytes, hmac: Bytes)
    | Registration(firmware: Bytes, hardware: Bytes)
    | KeyEvent(key: string, state: string)
    | ConfigurationReport(nonce: Bytes, digest: Bytes)
    | LedApplied(nonce: Bytes)

  function Deliver(kind: nat, items: seq<Item>): Message
    requires kind in {AUTH_RESPONSE, REGISTRATION, KEY_EVENT, CONFIGURATION_REPORT, LED_APPLIED}
    requires LegalItems(Schema(kind), items)
  {
    assert forall i :: 0 <= i < |items| ==> LegalItem(Schema(kind)[i], items[i]);
    if kind == AUTH_RESPONSE then
      assert LegalItem(Schema(kind)[1], items[1]);
      AuthResponse(Utf8.Decoded(items[0].s), items[1].s)
    else if kind == REGISTRATION then
      assert LegalItem(Schema(kind)[1], items[1]);
      Registration(Utf8.Decoded(items[0].s), Utf8.Decoded(items[1].s))
    else if kind == KEY_EVENT then
      assert LegalItem(Schema(kind)[1], items[1]);
      KeyEvent(KEYS[items[0].n], if items[1].n == 1 then "down" else "up")
    else if kind == CONFIGURATION_REPORT then
      assert LegalItem(Schema(kind)[1], items[1]);
      ConfigurationReport(items[0].s, items[1].s)
    else
      LedApplied(items[0].s)
  }

  lemma DecodeIsLegal(input: Bytes)
    requires Decode(input).Some?
    ensures var (kind, version, items) := Decode(input).value; Legal(kind, version, items)
  {
    hide Decode, Legal, EncodeFrame;
    var (kind, version, items) := Decode(input).value;
    DecodeExact(input, kind, version, items);
  }

  /** What `decodeDeviceFrame` returns: the protocol version and the message, or nothing where it throws. */
  function Delivered(input: Bytes): Option<(nat, Message)> {
    match Decode(input)
    case None => None
    case Some((kind, version, items)) =>
      DecodeIsLegal(input);
      Some((version, Deliver(kind, items)))
  }

  /** A delivered device ID is not empty. */
  lemma DeliveredId(input: Bytes)
    ensures Delivered(input).Some? && Delivered(input).value.1.AuthResponse? ==> Delivered(input).value.1.deviceId != []
  {
    hide Decode, EncodeFrame;
    if Decode(input).Some? {
      DecodeIsLegal(input);
      var (kind, _, items) := Decode(input).value;
      assert |items| > 0 ==> LegalItem(Schema(kind)[0], items[0]);
    }
  }

  predicate MarkFree(items: seq<Item>) {
    forall i :: 0 <= i < |items| && items[i].Text? ==> !(Utf8.BOM <= items[i].s)
  }

  lemma KeysDistinct(i: nat, j: nat)
    requires i < |KEYS| && j < |KEYS| && KEYS[i] == KEYS[j]
    ensures i == j
  {
    assert |KEYS[9]| == 3 && |KEYS[10]| == 3 && KEYS[9][1] != KEYS[10][1];
    assert forall k :: 0 <= k < 9 ==> |KEYS[k]| == 1;
    assert KEYS[0][0] == 'Q' && KEYS[1][0] == 'W' && KEYS[2][0] == 'E' && KEYS[3][0] == 'A' && KEYS[4][0] == 'S';
    assert KEYS[5][0] == 'D' && KEYS[6][0] == 'Z' && KEYS[7][0] == 'X' && KEYS[8][0] == 'C';
  }

  /** Without byte order marks the message determines type and fields. */
  lemma DeliverInjective(kind: nat, items: seq<Item>, kind': nat, items': seq<Item>)
    requires kind in {AUTH_RESPONSE, REGISTRATION, KEY_EVENT, CONFIGURATION_REPORT, LED_APPLIED}
    requires kind' in {AUTH_RESPONSE, REGISTRATION, KEY_EVENT, CONFIGURATION_REPORT, LED_APPLIED}
    requires LegalItems(Schema(kind), items) && LegalItems(Schema(kind'), items')
    requires MarkFree(items) && MarkFree(items')
    requires Deliver(kind, items) == Deliver(kind', items')
    ensures kind == kind' && items == items'
  {
    hide LegalText;
    assert kind == kind';
    assert LegalItem(Schema(kind)[0], items[0]) && LegalItem(Schema(kind)[0], items'[0]);
    assert |items| == 2 ==> LegalItem(Schema(kind)[1], items[1]) && LegalItem(Schema(kind)[1], items'[1]);
    if kind == KEY_EVENT {
      KeysDistinct(items[0].n, items'[0].n);
    }
  }

  // ---- Which messages have one frame only ----

  /** The other text that decodes like `raw`: with a leading byte order mark, or without it. */
  function Twin(raw: Bytes): Bytes {
    if Utf8.BOM <= raw then raw[3..] else Utf8.BOM + raw
  }

  /** No other text of at most `max` bytes decodes like `raw`: the twin would lose its mark or be too long. */
  predicate OnlyForm(raw: Bytes, max: nat) {
    Utf8.BOM <= Utf8.Decoded(raw) || |Utf8.Decoded(raw)| + 3 > max
  }

  lemma TwinDecodes(raw: Bytes, max: nat)
    requires LegalText(raw, max) && !OnlyForm(raw, max)
    ensures LegalText(Twin(raw), max) && Twin(raw) != raw && Utf8.Decoded(Twin(raw)) == Utf8.Decoded(raw)
  {
    if Utf8.BOM <= raw {
      assert raw == Utf8.BOM + raw[3..];
      Utf8.BomIsValid(raw[3..]);
    } else {
      Utf8.BomIsValid(raw);
      assert (Utf8.BOM + raw)[3..] == raw;
    }
  }

  lemma OnlyFormUnique(raw: Bytes, other: Bytes, max: nat)
    requires LegalText(raw, max) && LegalText(other, max) && Utf8.Decoded(other) == Utf8.Decoded(raw)
    requires OnlyForm(raw, max)
    ensures other == raw
  {
    var d := Utf8.Decoded(raw);
    assert raw == d || raw == Utf8.BOM + d;
    assert other == d || other == Utf8.BOM + d;
  }

  /** Every text of the items is the only one to decode as it does. */
  predicate OnlyForms(kind: nat, items: seq<Item>) {
    forall i :: 0 <= i < |items| && i < |Schema(kind)| && items[i].Text? && Schema(kind)[i].TextField? ==>
      OnlyForm(items[i].s, Schema(kind)[i].max)
  }

  predicate Keypads(kind: nat) {
    kind in {AUTH_RESPONSE, REGISTRATION, KEY_EVENT, CONFIGURATION_REPORT, LED_APPLIED}
  }

  lemma SameMessage(kind: nat, items: seq<Item>, other: seq<Item>)
    requires Keypads(kind) && LegalItems(Schema(kind), items) && LegalItems(Schema(kind), other)
    requires Deliver(kind, other) == Deliver(kind, items) && OnlyForms(kind, items)
    ensures other == items
  {
    hide LegalText, OnlyForm;
    var fields := Schema(kind);
    assert forall i :: 0 <= i < |items| ==> LegalItem(fields[i], items[i]) && LegalItem(fields[i], other[i]);
    if kind == KEY_EVENT {
      KeysDistinct(items[0].n, other[0].n);
    }
    forall i | 0 <= i < |items| ensures other[i] == items[i] {
      if fields[i].TextField? {
        OnlyFormUnique(items[i].s, other[i].s, fields[i].max);
      }
    }
  }

  lemma OtherForm(kind: nat, items: seq<Item>, i: nat)
    requires Keypads(kind) && LegalItems(Schema(kind), items) && i < |items| && items[i].Text?
    requires !OnlyForm(items[i].s, Schema(kind)[i].max)
    ensures var other := items[i := Text(Twin(items[i].s))];
            other != items && LegalItems(Schema(kind), other) && Deliver(kind, other) == Deliver(kind, items)
  {
    hide LegalText, OnlyForm;
    assert LegalItem(Schema(kind)[i], items[i]);
    TwinDecodes(items[i].s, Schema(kind)[i].max);
  }

  /** Exactly when the fields of a message can be told from it. */
  lemma DeliverExactly(kind: nat, items: seq<Item>)
    requires Keypads(kind) && LegalItems(Schema(kind), items)
    ensures OnlyForms(kind, items) <==>
            forall other :: LegalItems(Schema(kind), other) && Deliver(kind, other) == Deliver(kind, items) ==>
                  other == items
  {
    hide OnlyForm, Deliver, LegalItem;
    if OnlyForms(kind, items) {
      forall other | LegalItems(Schema(kind), other) && Deliver(kind, other) == Deliver(kind, items)
        ensures other == items
      {
        SameMessage(kind, items, other);
      }
    } else {
      var i :| 0 <= i < |items| && i < |Schema(kind)| && items[i].Text? && Schema(kind)[i].TextField?
               && !OnlyForm(items[i].s, Schema(kind)[i].max);
      OtherForm(kind, items, i);
    }
  }

  /** The kind of a message shows in the message. */
  lemma SameKind(kind: nat, items: seq<Item>, kind': nat, items': seq<Item>)
    requires Keypads(kind) && Keypads(kind') && LegalItems(Schema(kind), items) && LegalItems(Schema(kind'), items')
    requires Deliver(kind, items) == Deliver(kind', items')
    ensures kind == kind'
  {
    hide LegalItem;
  }

  /**
   * Exactly when an accepted frame is the only one to deliver its message: when every text in it begins, once
   * decoded, with a byte order mark, or is too long to be sent with one more.
   */
  lemma MessageUniqueExactly(input: Bytes)
    requires Decode(input).Some?
    ensures var (kind, version, items) := Decode(input).value;
            OnlyForms(kind, items) <==> forall other :: Delivered(other) == Delivered(input) ==> other == input
  {
    hide Decode, EncodeFrame, OnlyForms, Deliver, LegalItems;
    var (kind, version, items) := Decode(input).value;
    DecodeIsLegal(input);
    DecodeExact(input, kind, version, items);
    DeliverExactly(kind, items);
    if OnlyForms(kind, items) {
      forall other | Delivered(other) == Delivered(input) ensures other == input {
        var (kind', version', items') := Decode(other).value;
        DecodeIsLegal(other);
        SameKind(kind, items, kind', items');
        DecodeExact(other, kind', version', items');
      }
    } else {
      var items' :| LegalItems(Schema(kind), items') && Deliver(kind, items') == Deliver(kind, items)
          && items' != items;
      var other := EncodeFrame(kind, version, items');
      DecodeExact(other, kind, version, items');
      if other == input {
        FramesUnique(kind, version, items, kind, version, items');
        assert false;
      }
      assert Delivered(other) == Delivered(input);
    }
  }

  /** For instance, a marked device ID is another accepted frame for the same message. */
  lemma MarkedTwin(version: nat, deviceId: Bytes, hmac: Bytes)
    requires Legal(AUTH_RESPONSE, version, [Text(deviceId), Blob(hmac)])
    requires !(Utf8.BOM <= deviceId) && |deviceId| <= 61
    ensures var twin := [Text(Utf8.BOM + deviceId), Blob(hmac)];
            && Legal(AUTH_RESPONSE, version, twin)
            && EncodeFrame(AUTH_RESPONSE, version, twin) !=
               EncodeFrame(AUTH_RESPONSE, version, [Text(deviceId), Blob(hmac)])
            && Deliver(AUTH_RESPONSE, twin) == Deliver(AUTH_RESPONSE, [Text(deviceId), Blob(hmac)])
  {
    var items, twin := [Text(deviceId), Blob(hmac)], [Text(Utf8.BOM + deviceId), Blob(hmac)];
    assert LegalItem(Schema(AUTH_RESPONSE)[0], items[0]) && LegalItem(Schema(AUTH_RESPONSE)[1], items[1]);
    Utf8.BomIsValid(deviceId);
    assert (Utf8.BOM + deviceId)[3..] == deviceId;
    if EncodeFrame(AUTH_RESPONSE, version, twin) == EncodeFrame(AUTH_RESPONSE, version, items) {
      FramesUnique(AUTH_RESPONSE, version, twin, AUTH_RESPONSE, version, items);
    }
  }
}
