/** The cursor that src/device/protocol.js moves through a keypad frame, proved to read what `Protocol` specifies. */
module FrameCursor {
  import opened Prelude
  import Cbor
  import Utf8
  import opened Protocol

  class Cursor {
    const input: Bytes
    var offset: nat

    constructor (input: Bytes)
      ensures this.input == input && offset == 0
    {
      this.input := input;
      offset := 0;
    }

    ghost predicate Moved<T>(spec: Option<(T, nat)>, r: Option<T>)
      reads this
    {
      match spec
      case None => r.None?
      case Some((t, stop)) => r == Some(t) && offset == stop
    }

    method ReadHead(expectedMajor: nat) returns (r: Option<nat>)
      modifies this
      ensures Moved(Cbor.ReadHead(input, old(offset), expectedMajor), r)
    {
      if offset >= |input| { return None; }
      var initial := input[offset];
      offset := offset + 1;
      var major, additional := initial / 32, initial % 32;
      if major != expectedMajor || additional >= 28 { return None; }
      if additional < 24 { return Some(additional); }
      var width := Cbor.Width(additional);
      if offset + width > |input| { return None; }
      var value := 0;
      ghost var start := offset;
      for index := 0 to width
        invariant offset == start + index
        invariant value == ReadBE(input[start..offset])
      {
        value := value * 256 + input[offset];
        offset := offset + 1;
        assert input[start..offset][..index] == input[start..offset - 1];
      }
      if value > MAX_SAFE_INTEGER || value < Cbor.Minimum(additional) { return None; }
      return Some(value);
    }

    method ReadUint(max: nat) returns (r: Option<nat>)
      modifies this
      ensures Moved(Protocol.ReadUint(input, old(offset), max), r)
    {
      var n := ReadHead(Cbor.UINT);
      if n.None? || n.value > max { return None; }
      return n;
    }

    method ReadBytesWithMajor(major: nat, min: nat, max: nat) returns (r: Option<Bytes>)
      modifies this
      ensures Moved(ReadString(input, old(offset), major, min, max), r)
    {
      var n := ReadHead(major);
      if n.None? || n.value < min || n.value > max || offset + n.value > |input| { return None; }
      var result := input[offset..offset + n.value];
      offset := offset + n.value;
      return Some(result);
    }

    method ReadBytes(min: nat, max: nat) returns (r: Option<Bytes>)
      modifies this
      ensures Moved(ReadString(input, old(offset), Cbor.BYTES, min, max), r)
    {
      r := ReadBytesWithMajor(Cbor.BYTES, min, max);
    }

    /** Returns the decoded text; `raw` is what stood in the frame. */
    method ReadText(max: nat) returns (r: Option<Bytes>, ghost raw: Bytes)
      modifies this
      ensures match Protocol.ReadText(input, old(offset), max)
              case None => r.None?
              case Some((s, stop)) => r == Some(Utf8.Decoded(s)) && raw == s && offset == stop
    {
      raw := [];
      var read := ReadBytesWithMajor(Cbor.TEXT, 1, max);
      if read.None? || !Utf8.Valid(read.value) { return None, raw; }
      raw := read.value;
      var result := Utf8.Decoded(read.value);
      if |result| == 0 || |result| > max || 0 in result { return None, raw; }
      return Some(result), raw;
    }
  }

  lemma OneItem(input: Bytes, offset: nat, a: Field)
    ensures ReadItems(input, offset, [a]) ==
            var (x, o1) :- ReadItem(input, offset, a);
            Some(([x], o1))
  {
    hide ReadItem;
    assert [a][1..] == [];
    var first := ReadItem(input, offset, a);
    if first.Some? {
      assert ReadItems(input, first.value.1, [a][1..]) == Some(([], first.value.1));
      assert [first.value.0] + [] == [first.value.0];
    }
  }

  lemma TwoItems(input: Bytes, offset: nat, a: Field, b: Field)
    ensures ReadItems(input, offset, [a, b]) ==
            var (x, o1) :- ReadItem(input, offset, a);
            var (y, o2) :- ReadItem(input, o1, b);
            Some(([x, y], o2))
  {
    hide ReadItem;
    assert [a, b][1..] == [b];
    var first := ReadItem(input, offset, a);
    if first.Some? {
      OneItem(input, first.value.1, b);
      assert ReadItems(input, first.value.1, [a, b][1..]) == ReadItems(input, first.value.1, [b]);
      var second := ReadItem(input, first.value.1, b);
      assert second.Some? ==> [first.value.0] + [second.value.0] == [first.value.0, second.value.0];
    }
  }

  // ---- decodeDeviceFrame ----

  /** Everything behind the version of a frame whose shape has been checked. */
  method DecodeFields(cursor: Cursor, kind: nat) returns (r: Option<Message>, ghost items: seq<Item>)
    requires kind in {AUTH_RESPONSE, REGISTRATION, KEY_EVENT, CONFIGURATION_REPORT, LED_APPLIED}
    modifies cursor
    ensures match ReadItems(cursor.input, old(cursor.offset), Schema(kind))
            case None => r.None?
            case Some((read, stop)) =>
              items == read && cursor.offset == stop
              && (LegalItems(Schema(kind), read) ==> r == Some(Deliver(kind, read)))
  {
    hide Protocol.ReadUint, ReadString, Protocol.ReadText, LegalText;
    items := [];
    ghost var input, start := cursor.input, cursor.offset;
    if kind == AUTH_RESPONSE {
      TwoItems(input, start, TextField(64), BlobField(32));
      var deviceId, raw := cursor.ReadText(64);
      if deviceId.None? { return None, items; }
      var hmac := cursor.ReadBytes(32, 32);
      if hmac.None? { return None, items; }
      items := [Text(raw), Blob(hmac.value)];
      return Some(Message.AuthResponse(deviceId.value, hmac.value)), items;
    } else if kind == REGISTRATION {
      TwoItems(input, start, TextField(47), TextField(64));
      var firmware, raw := cursor.ReadText(47);
      if firmware.None? { return None, items; }
      var hardware, raw' := cursor.ReadText(64);
      if hardware.None? { return None, items; }
      items := [Text(raw), Text(raw')];
      return Some(Message.Registration(firmware.value, hardware.value)), items;
    } else if kind == KEY_EVENT {
      TwoItems(input, start, UintField(|KEYS| - 1), UintField(1));
      var key := cursor.ReadUint(|KEYS| - 1);
      if key.None? { return None, items; }
      var action := cursor.ReadUint(1);
      if action.None? { return None, items; }
      items := [Uint(key.value), Uint(action.value)];
      return Some(Message.KeyEvent(KEYS[key.value], if action.value == 1 then "down" else "up")), items;
    } else if kind == CONFIGURATION_REPORT {
      TwoItems(input, start, BlobField(32), BlobField(32));
      var nonce := cursor.ReadBytes(32, 32);
      if nonce.None? { return None, items; }
      var digest := cursor.ReadBytes(32, 32);
      if digest.None? { return None, items; }
      items := [Blob(nonce.value), Blob(digest.value)];
      return Some(Message.ConfigurationReport(nonce.value, digest.value)), items;
    } else {
      OneItem(input, start, BlobField(32));
      var nonce := cursor.ReadBytes(32, 32);
      if nonce.None? { return None, items; }
      items := [Blob(nonce.value)];
      return Some(Message.LedApplied(nonce.value)), items;
    }
  }

  method DecodeDeviceFrame(data: Bytes) returns (r: Option<(nat, Message)>)
    ensures r == Delivered(data)
  {
    hide ReadItems, Cbor.ReadHead, Protocol.ReadUint, LegalItems, EncodeFrame;
    if |data| == 0 || |data| > MAX_DEVICE_FRAME_SIZE { return None; }
    var cursor := new Cursor(data);
    var arity := cursor.ReadHead(Cbor.ARRAY);
    if arity.None? { return None; }
    var kind := cursor.ReadUint(255);
    if kind.None? { return None; }
    var version := Some(LEGACY_VERSION);
    if arity.value == 4 || kind.value == LED_APPLIED {
      version := cursor.ReadUint(255);
    }
    if version.None? || !KnownVersion(version.value) { return None; }
    if !KeypadMessage(kind.value, version.value) { return None; }
    var expected := if version.value != LEGACY_VERSION then 2 else 1;
    if arity.value != expected + |Schema(kind.value)| { return None; }
    var message, items := DecodeFields(cursor, kind.value);
    if Decode(data).Some? {
      DecodeIsLegal(data);
    }
    if message.None? || cursor.offset != |data| { return None; }
    assert Decode(data) == Some((kind.value, version.value, items));
    return Some((version.value, message.value));
  }
}
