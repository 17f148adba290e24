/**
 * Every device frame byte by byte: which bytes are read as which message, and where each field of a server frame stands
 * for a keypad that reads it.
 */
module WireFormat {
  import opened Prelude
  import Cbor
  import Utf8
  import opened Protocol
  import opened ServerFrames

  // ---- Items as bytes ----

  /** A text of fewer than 256 bytes behind its head. */
  function TextBytes(s: Bytes): Bytes
    requires |s| < 256
  {
    (if |s| < 24 then [0x60 + |s|] else [0x78, |s|]) + s
  }

  /** Thirty-two bytes behind their head. */
  function Blob32(s: Bytes): Bytes {
    [0x58, 0x20] + s
  }

  /** The first protocol version is not written. */
  function VersionBytes(version: nat): Bytes
    requires 1 <= version <= 3
  {
    if version == 1 then [] else [version]
  }

  /** The head of an array of the given number of fields behind the version, and its type. */
  function Opening(kind: nat, version: nat, fields: nat): Bytes
    requires kind < 24 && 1 <= version <= 3 && fields < 22
  {
    [0x81 + fields + |VersionBytes(version)|, kind] + VersionBytes(version)
  }

  lemma UintByte(n: nat)
    requires n < 24
    ensures EncodeItem(Uint(n)) == [n]
  {
    assert Cbor.EncodeHead(Cbor.UINT, n) == [n] + [];
  }

  lemma OneByte(n: nat)
    requires n < 256
    ensures WriteBE(n, 1) == [n]
  {
    assert WriteBE(n, 1) == WriteBE(n / 256, 0) + [n % 256];
  }

  lemma BlobItem(s: Bytes)
    requires |s| == 32
    ensures EncodeItem(Blob(s)) == Blob32(s)
  {
    OneByte(32);
    assert Cbor.EncodeHead(Cbor.BYTES, 32) == [0x58] + [0x20];
  }

  lemma TextItem(s: Bytes)
    requires |s| < 256
    ensures EncodeItem(Text(s)) == TextBytes(s)
  {
    OneByte(|s|);
    if |s| < 24 {
      assert Cbor.EncodeHead(Cbor.TEXT, |s|) == [0x60 + |s|] + [];
    } else {
      assert Cbor.EncodeHead(Cbor.TEXT, |s|) == [0x78] + [|s|];
    }
  }

  lemma TwoFields(kind: nat, version: nat, a: Item, b: Item)
    requires kind < 24 && 1 <= version <= 3
    ensures EncodeFrame(kind, version, [a, b]) == Opening(kind, version, 2) + EncodeItem(a) + EncodeItem(b)
  {
    hide EncodeItem;
    var items := [a, b];
    EncodeHeader(kind, version, items);
    UintByte(kind);
    UintByte(version);
    assert items[1..] == [b] && [b][1..] == [];
    assert EncodeItems([b]) == EncodeItem(b) + EncodeItems([]);
    assert EncodeItems(items) == EncodeItem(a) + EncodeItems([b]);
    var n := |Header(kind, version) + items|;
    assert Cbor.EncodeHead(Cbor.ARRAY, n) == [0x80 + n] + [];
  }

  lemma OneField(kind: nat, version: nat, a: Item)
    requires kind < 24 && 1 <= version <= 3
    ensures EncodeFrame(kind, version, [a]) == Opening(kind, version, 1) + EncodeItem(a)
  {
    hide EncodeItem;
    var items := [a];
    EncodeHeader(kind, version, items);
    UintByte(kind);
    UintByte(version);
    assert items[1..] == [];
    assert EncodeItems(items) == EncodeItem(a) + [];
    var n := |Header(kind, version) + items|;
    assert Cbor.EncodeHead(Cbor.ARRAY, n) == [0x80 + n] + [];
  }

  // ---- Keypad frames ----

  /** These bytes are read as this text: well formed, bounded, and less one leading byte order mark. */
  predicate Says(raw: Bytes, max: nat, text: Bytes) {
    && 1 <= |raw| <= max && Utf8.Valid(raw) && text != [] && 0 !in text
    && (if [0xef, 0xbb, 0xbf] <= raw then raw == [0xef, 0xbb, 0xbf] + text else raw == text)
  }

  lemma SaysDecoded(raw: Bytes, max: nat, text: Bytes)
    ensures Says(raw, max, text) <==> LegalText(raw, max) && Utf8.Decoded(raw) == text
  {}

  lemma DeliveredFrom(input: Bytes, version: nat, message: Message)
    ensures Delivered(input) == Some((version, message)) <==>
            exists kind, items :: Framed(input, kind, version, items) && Deliver(kind, items) == message
  {
    hide Decode, EncodeFrame, Deliver, LegalItems;
    if Delivered(input) == Some((version, message)) {
      var (kind, _, items) := Decode(input).value;
      DecodeIsLegal(input);
      DecodeExact(input, kind, version, items);
      assert Framed(input, kind, version, items);
    }
    if kind: nat, items: seq<Item> :| Framed(input, kind, version, items) && Deliver(kind, items) == message {
      DecodeExact(input, kind, version, items);
    }
  }

  /** The input is the frame of these legal fields. */
  predicate Framed(input: Bytes, kind: nat, version: nat, items: seq<Item>) {
    Legal(kind, version, items) && input == EncodeFrame(kind, version, items)
  }

  /** Two legal fields, or one, one by one. */
  lemma LegalFields(kind: nat, version: nat, items: seq<Item>)
    requires Legal(kind, version, items)
    ensures |items| == |Schema(kind)| && forall i :: 0 <= i < |items| ==> LegalItem(Schema(kind)[i], items[i])
    ensures |items| == 2 ==> items == [items[0], items[1]]
    ensures |items| == 1 ==> items == [items[0]]
  {}

  ghost predicate IsAuthentication(input: Bytes, version: nat, id: Bytes, hmac: Bytes) {
    && 1 <= version <= 3 && |hmac| == 32
    && exists raw :: Says(raw, 64, id) && input == Opening(1, version, 2) + TextBytes(raw) + Blob32(hmac)
  }

  /** An authentication answer names its device ID first and carries its HMAC behind it. */
  lemma AuthenticationBytes(input: Bytes, version: nat, id: Bytes, hmac: Bytes)
    ensures Delivered(input) == Some((version, AuthResponse(id, hmac))) <==> IsAuthentication(input, version, id, hmac)
  {
    hide EncodeFrame, EncodeItem, Utf8.Valid, TextBytes, Blob32, Opening, Delivered;
    DeliveredFrom(input, version, AuthResponse(id, hmac));
    if kind: nat, items: seq<Item> :|
        Framed(input, kind, version, items) && Deliver(kind, items) == AuthResponse(id, hmac) {
      LegalFields(kind, version, items);
      var raw := items[0].s;
      SaysDecoded(raw, 64, id);
      TwoFields(1, version, items[0], items[1]);
      TextItem(raw);
      BlobItem(hmac);
    }
    if IsAuthentication(input, version, id, hmac) {
      var raw :| Says(raw, 64, id) && input == Opening(1, version, 2) + TextBytes(raw) + Blob32(hmac);
      SaysDecoded(raw, 64, id);
      TwoFields(1, version, Text(raw), Blob(hmac));
      TextItem(raw);
      BlobItem(hmac);
      assert Framed(input, 1, version, [Text(raw), Blob(hmac)]);
      assert Deliver(1, [Text(raw), Blob(hmac)]) == AuthResponse(id, hmac);
    }
  }

  ghost predicate IsRegistration(input: Bytes, version: nat, firmware: Bytes, hardware: Bytes) {
    && 1 <= version <= 3
    && exists f, h :: Says(f, 47, firmware) && Says(h, 64, hardware)
         && input == Opening(3, version, 2) + TextBytes(f) + TextBytes(h)
  }

  /** A registration names its firmware first and its hardware behind it. */
  lemma RegistrationBytes(input: Bytes, version: nat, firmware: Bytes, hardware: Bytes)
    ensures Delivered(input) == Some((version, Registration(firmware, hardware))) <==>
            IsRegistration(input, version, firmware, hardware)
  {
    hide EncodeFrame, EncodeItem, Utf8.Valid, TextBytes, Blob32, Opening, Delivered;
    DeliveredFrom(input, version, Registration(firmware, hardware));
    if kind: nat, items: seq<Item> :|
        Framed(input, kind, version, items) && Deliver(kind, items) == Registration(firmware, hardware) {
      LegalFields(kind, version, items);
      SaysDecoded(items[0].s, 47, firmware);
      SaysDecoded(items[1].s, 64, hardware);
      TwoFields(3, version, items[0], items[1]);
      TextItem(items[0].s);
      TextItem(items[1].s);
    }
    if IsRegistration(input, version, firmware, hardware) {
      var f, h :| Says(f, 47, firmware) && Says(h, 64, hardware)
          && input == Opening(3, version, 2) + TextBytes(f) + TextBytes(h);
      SaysDecoded(f, 47, firmware);
      SaysDecoded(h, 64, hardware);
      TwoFields(3, version, Text(f), Text(h));
      TextItem(f);
      TextItem(h);
      assert Framed(input, 3, version, [Text(f), Text(h)]);
      assert Deliver(3, [Text(f), Text(h)]) == Registration(firmware, hardware);
    }
  }

  ghost predicate IsKey(input: Bytes, version: nat, key: string, state: string) {
    && 1 <= version <= 3
    && exists i: nat, action: byte :: i < 11 && input == Opening(4, version, 2) + [i, action]
         && key == ["Q", "W", "E", "A", "S", "D", "Z", "X", "C", "SHI", "SPC"][i]
         && ((action == 1 && state == "down") || (action == 0 && state == "up"))
  }

  /** A key event is the number of its key, then one if it is pressed and zero if it is released. */
  lemma KeyBytes(input: Bytes, version: nat, key: string, state: string)
    ensures Delivered(input) == Some((version, KeyEvent(key, state))) <==> IsKey(input, version, key, state)
  {
    hide EncodeFrame, EncodeItem, Opening, Delivered;
    DeliveredFrom(input, version, KeyEvent(key, state));
    if kind: nat, items: seq<Item> :|
        Framed(input, kind, version, items) && Deliver(kind, items) == KeyEvent(key, state) {
      LegalFields(kind, version, items);
      var i, action := items[0].n, items[1].n;
      TwoFields(4, version, items[0], items[1]);
      UintByte(i);
      UintByte(action);
      assert Opening(4, version, 2) + [i] + [action] == Opening(4, version, 2) + [i, action];
    }
    if IsKey(input, version, key, state) {
      var i: nat, action: byte :| i < 11 && input == Opening(4, version, 2) + [i, action]
          && key == ["Q", "W", "E", "A", "S", "D", "Z", "X", "C", "SHI", "SPC"][i]
          && ((action == 1 && state == "down") || (action == 0 && state == "up"));
      TwoFields(4, version, Uint(i), Uint(action));
      UintByte(i);
      UintByte(action);
      assert Opening(4, version, 2) + [i] + [action] == Opening(4, version, 2) + [i, action];
      assert Framed(input, 4, version, [Uint(i), Uint(action)]);
      assert Deliver(4, [Uint(i), Uint(action)]) == KeyEvent(key, state);
    }
  }

  /** A report carries the nonce it answers first and its digest behind it, and exists in version 3 only. */
  lemma ReportBytes(input: Bytes, version: nat, nonce: Bytes, digest: Bytes)
    ensures Delivered(input) == Some((version, ConfigurationReport(nonce, digest))) <==>
            version == 3 && |nonce| == 32 && |digest| == 32 && input == [0x84, 9, 3] + Blob32(nonce) + Blob32(digest)
  {
    hide EncodeFrame, EncodeItem, Blob32, Delivered;
    assert Opening(9, 3, 2) == [0x84, 9, 3];
    DeliveredFrom(input, version, ConfigurationReport(nonce, digest));
    if kind: nat, items: seq<Item> :|
        Framed(input, kind, version, items) && Deliver(kind, items) == ConfigurationReport(nonce, digest) {
      LegalFields(kind, version, items);
      TwoFields(9, version, items[0], items[1]);
      BlobItem(nonce);
      BlobItem(digest);
    }
    if |nonce| == 32 && |digest| == 32 && input == [0x84, 9, 3] + Blob32(nonce) + Blob32(digest) {
      TwoFields(9, 3, Blob(nonce), Blob(digest));
      BlobItem(nonce);
      BlobItem(digest);
      assert Framed(input, 9, 3, [Blob(nonce), Blob(digest)]);
      assert Deliver(9, [Blob(nonce), Blob(digest)]) == ConfigurationReport(nonce, digest);
    }
  }

  /** An acknowledgement carries the nonce of its command, and exists in version 3 only. */
  lemma AppliedBytes(input: Bytes, version: nat, nonce: Bytes)
    ensures Delivered(input) == Some((version, LedApplied(nonce))) <==>
            version == 3 && |nonce| == 32 && input == [0x83, 11, 3] + Blob32(nonce)
  {
    hide EncodeFrame, EncodeItem, Blob32, Delivered;
    assert Opening(11, 3, 1) == [0x83, 11, 3];
    DeliveredFrom(input, version, LedApplied(nonce));
    if kind: nat, items: seq<Item> :| Framed(input, kind, version, items) && Deliver(kind, items) == LedApplied(nonce) {
      LegalFields(kind, version, items);
      OneField(11, version, items[0]);
      BlobItem(nonce);
    }
    if |nonce| == 32 && input == [0x83, 11, 3] + Blob32(nonce) {
      OneField(11, 3, Blob(nonce));
      BlobItem(nonce);
      assert Framed(input, 11, 3, [Blob(nonce)]);
      assert Deliver(11, [Blob(nonce)]) == LedApplied(nonce);
    }
  }

  // ---- Server frames, as a keypad reads them ----

  /** Whatever item stands at `offset`. */
  function ReadAny(input: Bytes, offset: nat): (r: Option<(Item, nat)>)
    ensures r.Some? ==> offset < r.value.1 <= |input|
  {
    if offset >= |input| then None
    else if input[offset] / 32 == 0 then
      var (n, stop) :- Cbor.ReadHead(input, offset, 0);
      Some((Uint(n), stop))
    else if input[offset] / 32 == 2 then
      var (s, stop) :- ReadString(input, offset, 2, 0, MAX_SAFE_INTEGER);
      Some((Blob(s), stop))
    else
      var (s, stop) :- ReadString(input, offset, 3, 0, MAX_SAFE_INTEGER);
      Some((Text(s), stop))
  }

  /** So many items up to the end of the input. */
  function ReadMany(input: Bytes, offset: nat, count: nat): Option<seq<Item>>
    decreases count
  {
    if count == 0 then if offset == |input| then Some([]) else None
    else
      var (item, next) :- ReadAny(input, offset);
      var rest :- ReadMany(input, next, count - 1);
      Some([item] + rest)
  }

  /** The items of an array that is the whole input. */
  function ReadArray(input: Bytes): Option<seq<Item>> {
    var (count, start) :- Cbor.ReadHead(input, 0, 4);
    ReadMany(input, start, count)
  }

  lemma AnyReads(input: Bytes, offset: nat, item: Item)
    requires SafeItem(item) && Cbor.At(input, offset, EncodeItem(item))
    ensures ReadAny(input, offset) == Some((item, offset + |EncodeItem(item)|))
  {
    hide Cbor.EncodeHead, Cbor.ReadHead, ReadString, EncodeItem;
    assert EncodeItem(item) == Cbor.EncodeHead(Major(item), Argument(item)) + Content(item) by { HeadOf(item); }
    HeadMajor(Major(item), Argument(item));
    assert input[offset] == Cbor.EncodeHead(Major(item), Argument(item))[0] by {
      assert input[offset..offset + |EncodeItem(item)|][0] == EncodeItem(item)[0];
    }
    if item.Uint? {
      assert EncodeItem(item) == Cbor.EncodeHead(Cbor.UINT, item.n) by { HeadOf(item); }
      Cbor.HeadReads(input, offset, Cbor.UINT, item.n);
    } else {
      StringReads(input, offset, Major(item), 0, MAX_SAFE_INTEGER, item.s);
    }
  }

  lemma HeadOf(item: Item)
    ensures EncodeItem(item) == Cbor.EncodeHead(Major(item), Argument(item)) + Content(item)
  {}

  lemma {:induction false} ManyRead(input: Bytes, offset: nat, items: seq<Item>)
    requires forall i :: 0 <= i < |items| ==> SafeItem(items[i])
    requires Cbor.At(input, offset, EncodeItems(items)) && offset + |EncodeItems(items)| == |input|
    ensures ReadMany(input, offset, |items|) == Some(items)
    decreases |items|
  {
    hide EncodeItem, SafeItem, ReadAny, Cbor.At;
    if items != [] {
      Cbor.AtSum(input, offset, EncodeItem(items[0]), EncodeItems(items[1..]));
      assert |EncodeItems(items)| == |EncodeItem(items[0])| + |EncodeItems(items[1..])|;
      AnyReads(input, offset, items[0]);
      ManyRead(input, offset + |EncodeItem(items[0])|, items[1..]);
      assert items == [items[0]] + items[1..];
    }
  }

  lemma ArrayReads(items: seq<Item>)
    requires |items| < 24 && forall i :: 0 <= i < |items| ==> SafeItem(items[i])
    ensures ReadArray(EncodeArray(items)) == Some(items)
  {
    hide EncodeItems, SafeItem, Cbor.EncodeHead, Cbor.ReadHead, ReadMany;
    var input, head := EncodeArray(items), Cbor.EncodeHead(Cbor.ARRAY, |items|);
    Cbor.HeadReads(input, 0, Cbor.ARRAY, |items|);
    Cbor.AtSum(input, 0, head, EncodeItems(items));
    assert input[0..|input|] == input;
    ManyRead(input, |head|, items);
  }

  /** The version field, which the first version leaves out. */
  function VersionItem(version: nat): seq<Item> {
    if version == 1 then [] else [Uint(version)]
  }

  /** What a keypad reads from each frame, field by field in the order it relies on. */
  function Fields(frame: ServerFrame): seq<Item> {
    match frame
    case AuthChallenge(challenge) => [Uint(0), Uint(1), Blob(challenge)]
    case AuthResult(version, status, deviceId) => [Uint(2)] + VersionItem(version) + [Uint(status), Text(deviceId)]
    case Configuration(version, leds) =>
      [Uint(5)] + VersionItem(version) + Colours(leds)
    case UpdateAvailable(version, firmware, size, digest, url, token) =>
      [Uint(6)] + VersionItem(version) + [Text(firmware), Uint(size), Blob(digest), Text(url), Blob(token)]
    case FirmwareAccepted(version, firmware) => [Uint(7)] + VersionItem(version) + [Text(firmware)]
    case ConfigurationQuery(nonce) => [Uint(8), Uint(3), Uint(1), Blob(nonce)]
    case LedCommand(nonce, leds) => [Uint(10), Uint(3), Blob(nonce)] + Colours(leds)
  }

  /** Red, green and blue of the first light, then of the second. */
  function Colours(leds: seq<nat>): seq<Item> {
    if |leds| != 6 then []
    else [Uint(leds[0]), Uint(leds[1]), Uint(leds[2]), Uint(leds[3]), Uint(leds[4]), Uint(leds[5])]
  }

  lemma InPlace(frame: ServerFrame)
    requires Encodable(frame)
    ensures ServerItems(frame) == Fields(frame)
  {}

  /** A keypad that reads a server frame item by item finds each field, as it was given, in its place. */
  lemma KeypadReads(frame: ServerFrame)
    requires Encode(frame).Some?
    ensures ReadArray(Encode(frame).value) == Some(Fields(frame))
  {
    hide EncodeArray, SafeItem, ServerItems, Fields, ReadArray, Encodable;
    ServerItemsSafe(frame);
    InPlace(frame);
    ArrayReads(ServerItems(frame));
  }
}
