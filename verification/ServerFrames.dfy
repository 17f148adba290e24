/** The frames the server encodes for keypads in src/device/protocol.js. */
module ServerFrames {
  import opened Prelude
  import Cbor
  import opened Protocol

  datatype ServerFrame =
    | AuthChallenge(challenge: Bytes)
    | AuthResult(version: nat, status: nat, deviceId: Bytes)
    | Configuration(version: nat, channels: seq<nat>)
    | UpdateAvailable(version: nat, firmware: Bytes, size: nat, digest: Bytes, url: Bytes, token: Bytes)
    | FirmwareAccepted(version: nat, firmware: Bytes)
    | ConfigurationQuery(nonce: Bytes)
    | LedCommand(nonce: Bytes, channels: seq<nat>)

  predicate Plain(text: Bytes, max: nat, allowEmpty: bool) {
    (allowEmpty || |text| > 0) && |text| <= max && 0 !in text
  }

  predicate Channels(channels: seq<nat>) {
    |channels| == 6 && forall i :: 0 <= i < 6 ==> channels[i] <= 255
  }

  /** The checks each encoder makes before it encodes. */
  predicate Encodable(frame: ServerFrame) {
    match frame
    case AuthChallenge(challenge) => |challenge| == 32
    case AuthResult(version, status, deviceId) => KnownVersion(version) && status <= 1
        && Plain(deviceId, 64, status == 1)
    case Configuration(version, channels) => KnownVersion(version) && Channels(channels)
    case UpdateAvailable(version, firmware, size, digest, url, token) =>
      KnownVersion(version) && Plain(firmware, 47, false) && size < TWO32 && |digest| == 32 && Plain(url, 191, false)
      && |token| == 32
    case FirmwareAccepted(version, firmware) => KnownVersion(version) && Plain(firmware, 47, false)
    case ConfigurationQuery(nonce) => |nonce| == 32
    case LedCommand(nonce, channels) => |nonce| == 32 && Channels(channels)
  }

  function Uints(ns: seq<nat>): (items: seq<Item>)
    ensures |items| == |ns| && forall i :: 0 <= i < |ns| ==> items[i] == Uint(ns[i])
  {
    seq(|ns|, i requires 0 <= i < |ns| => Uint(ns[i]))
  }

  function ServerItems(frame: ServerFrame): seq<Item> {
    match frame
    case AuthChallenge(challenge) => [Uint(AUTH_CHALLENGE), Uint(1), Blob(challenge)]
    case AuthResult(version, status, deviceId) => Header(AUTH_RESULT, version) + [Uint(status), Text(deviceId)]
    case Configuration(version, channels) => Header(CONFIGURATION, version) + Uints(channels)
    case UpdateAvailable(version, firmware, size, digest, url, token) =>
      Header(UPDATE_AVAILABLE, version) + [Text(firmware), Uint(size), Blob(digest), Text(url), Blob(token)]
    case FirmwareAccepted(version, firmware) => Header(FIRMWARE_ACCEPTED, version) + [Text(firmware)]
    case ConfigurationQuery(nonce) => [Uint(CONFIGURATION_QUERY), Uint(CONFIGURATION_VERSION), Uint(1), Blob(nonce)]
    case LedCommand(nonce, channels) =>
      [Uint(LED_COMMAND), Uint(CONFIGURATION_VERSION), Blob(nonce)] + Uints(channels)
  }

  /** The frame, or `None` where an encoder throws. */
  function Encode(frame: ServerFrame): Option<Bytes> {
    var encoded := EncodeArray(ServerItems(frame));
    if Encodable(frame) && |encoded| <= MAX_DEVICE_FRAME_SIZE then Some(encoded) else None
  }

  // ---- Deterministic encodings are uniquely readable ----

  predicate SafeItem(item: Item) {
    match item
    case Uint(n) => n <= MAX_SAFE_INTEGER
    case Blob(s) => |s| <= MAX_SAFE_INTEGER
    case Text(s) => |s| <= MAX_SAFE_INTEGER
  }

  function Major(item: Item): nat {
    if item.Uint? then Cbor.UINT else if item.Blob? then Cbor.BYTES else Cbor.TEXT
  }

  function Argument(item: Item): nat {
    if item.Uint? then item.n else |item.s|
  }

  function Content(item: Item): Bytes {
    if item.Uint? then [] else item.s
  }

  lemma HeadMajor(major: nat, n: nat)
    requires major < 8
    ensures Cbor.EncodeHead(major, n)[0] / 32 == major
  {}

  lemma ItemInjective(a: Item, b: Item, x: Bytes, y: Bytes)
    requires SafeItem(a) && SafeItem(b)
    requires EncodeItem(a) + x == EncodeItem(b) + y
    ensures a == b && x == y
  {
    hide Cbor.EncodeHead;
    var s := EncodeItem(a) + x;
    HeadMajor(Major(a), Argument(a));
    HeadMajor(Major(b), Argument(b));
    assert s[0] == Cbor.EncodeHead(Major(a), Argument(a))[0];
    assert s[0] == Cbor.EncodeHead(Major(b), Argument(b))[0] by {
      assert s == EncodeItem(b) + y;
    }
    assert Major(a) == Major(b);
    assert s == Cbor.EncodeHead(Major(a), Argument(a)) + (Content(a) + x);
    assert s == Cbor.EncodeHead(Major(b), Argument(b)) + (Content(b) + y);
    Cbor.HeadInjective(Major(a), Argument(a), Argument(b), Content(a) + x, Content(b) + y);
    SplitEqual(Content(a), Content(b), x, y);
  }

  lemma {:induction false} ItemsInjective(a: seq<Item>, b: seq<Item>)
    requires |a| == |b|
    requires forall i :: 0 <= i < |a| ==> SafeItem(a[i]) && SafeItem(b[i])
    requires EncodeItems(a) == EncodeItems(b)
    ensures a == b
  {
    hide EncodeItem, SafeItem;
    if a != [] {
      ItemInjective(a[0], b[0], EncodeItems(a[1..]), EncodeItems(b[1..]));
      ItemsInjective(a[1..], b[1..]);
      assert a == [a[0]] + a[1..] && b == [b[0]] + b[1..];
    }
  }

  lemma ArrayInjective(a: seq<Item>, b: seq<Item>)
    requires |a| <= 23 && |b| <= 23
    requires forall i :: 0 <= i < |a| ==> SafeItem(a[i])
    requires forall i :: 0 <= i < |b| ==> SafeItem(b[i])
    requires EncodeArray(a) == EncodeArray(b)
    ensures a == b
  {
    hide EncodeItems, SafeItem, Cbor.EncodeHead;
    Cbor.HeadInjective(Cbor.ARRAY, |a|, |b|, EncodeItems(a), EncodeItems(b));
    ItemsInjective(a, b);
  }

  lemma ServerItemsSafe(frame: ServerFrame)
    requires Encodable(frame)
    ensures |ServerItems(frame)| <= 9
    ensures forall i :: 0 <= i < |ServerItems(frame)| ==> SafeItem(ServerItems(frame)[i])
  {}

  lemma SameServerKind(a: ServerFrame, b: ServerFrame)
    requires ServerItems(a) == ServerItems(b)
    ensures a.AuthChallenge? <==> b.AuthChallenge?
    ensures a.AuthResult? <==> b.AuthResult?
    ensures a.Configuration? <==> b.Configuration?
    ensures a.UpdateAvailable? <==> b.UpdateAvailable?
    ensures a.FirmwareAccepted? <==> b.FirmwareAccepted?
    ensures a.ConfigurationQuery? <==> b.ConfigurationQuery?
    ensures a.LedCommand? <==> b.LedCommand?
  {
    assert ServerItems(a)[0] == ServerItems(b)[0];
  }

  lemma HeaderInjective(kind: nat, v: nat, w: nat, x: seq<Item>, y: seq<Item>)
    requires |x| == |y|
    requires Header(kind, v) + x == Header(kind, w) + y
    ensures v == w && x == y
  {
    var s, t := Header(kind, v) + x, Header(kind, w) + y;
    assert |Header(kind, v)| == |Header(kind, w)|;
    assert s[|s| - |x|..] == x && t[|t| - |y|..] == y;
    assert |s| > 1 ==> s[1] == t[1];
  }

  /** Frames with the same items are the same frame: type, version and every field. */
  lemma ServerItemsInjective(a: ServerFrame, b: ServerFrame)
    requires Encodable(a) && Encodable(b)
    requires ServerItems(a) == ServerItems(b)
    ensures a == b
  {
    hide Header;
    SameServerKind(a, b);
    var x, y := ServerItems(a), ServerItems(b);
    match a {
      case AuthChallenge(_) =>
        assert x[2] == y[2];
      case AuthResult(version, status, deviceId) =>
        var s, t := [Uint(status), Text(deviceId)], [Uint(b.status), Text(b.deviceId)];
        HeaderInjective(AUTH_RESULT, version, b.version, s, t);
        assert s[0] == t[0] && s[1] == t[1];
      case Configuration(version, channels) =>
        HeaderInjective(CONFIGURATION, version, b.version, Uints(channels), Uints(b.channels));
        UintsInjective(channels, b.channels);
      case UpdateAvailable(version, firmware, size, digest, url, token) =>
        var s := [Text(firmware), Uint(size), Blob(digest), Text(url), Blob(token)];
        var t := [Text(b.firmware), Uint(b.size), Blob(b.digest), Text(b.url), Blob(b.token)];
        HeaderInjective(UPDATE_AVAILABLE, version, b.version, s, t);
        assert s[0] == t[0] && s[1] == t[1] && s[2] == t[2] && s[3] == t[3] && s[4] == t[4];
      case FirmwareAccepted(version, firmware) =>
        HeaderInjective(FIRMWARE_ACCEPTED, version, b.version, [Text(firmware)], [Text(b.firmware)]);
        assert [Text(firmware)][0] == [Text(b.firmware)][0];
      case ConfigurationQuery(_) =>
        assert x[3] == y[3];
      case LedCommand(_, channels) =>
        assert x[2] == y[2];
        assert x[3..] == Uints(channels) && y[3..] == Uints(b.channels);
        UintsInjective(channels, b.channels);
    }
  }

  lemma UintsInjective(a: seq<nat>, b: seq<nat>)
    requires Uints(a) == Uints(b)
    ensures a == b
  {
    assert forall i :: 0 <= i < |a| ==> Uints(a)[i] == Uints(b)[i];
  }

  /** No two server frames share an encoding, whatever their types and versions. */
  lemma ServerFramesUnique(a: ServerFrame, b: ServerFrame)
    requires Encode(a).Some? && Encode(a) == Encode(b)
    ensures a == b
  {
    hide EncodeArray, ServerItems, SafeItem;
    ServerItemsSafe(a);
    ServerItemsSafe(b);
    ArrayInjective(ServerItems(a), ServerItems(b));
    ServerItemsInjective(a, b);
  }

  lemma HeadSize(major: nat, n: nat)
    requires major < 8
    ensures |Cbor.EncodeHead(major, n)| == 1 + Cbor.Width(Cbor.Additional(n))
  {}

  /** An item takes its content and at most two more bytes, or five for a number. */
  lemma ItemSize(item: Item)
    requires Argument(item) < TWO32
    ensures |EncodeItem(item)| <= |Content(item)| + 5
    ensures Argument(item) <= 255 ==> |EncodeItem(item)| <= |Content(item)| + 2
  {
    hide Cbor.EncodeHead;
    HeadSize(Major(item), Argument(item));
  }

  function ContentSize(items: seq<Item>): nat {
    if items == [] then 0 else |Content(items[0])| + ContentSize(items[1..])
  }

  lemma {:induction false} ItemsSizes(items: seq<Item>, bound: nat)
    requires forall i :: 0 <= i < |items| ==> Argument(items[i]) < TWO32
    requires bound >= ContentSize(items) + 5 * |items|
    ensures |EncodeItems(items)| <= bound
  {
    hide EncodeItem;
    if items != [] {
      ItemSize(items[0]);
      ItemsSizes(items[1..], bound - |Content(items[0])| - 5);
    }
  }

  lemma {:induction false} ContentSum(a: seq<Item>, b: seq<Item>)
    ensures ContentSize(a + b) == ContentSize(a) + ContentSize(b)
  {
    if a == [] {
      assert a + b == b;
    } else {
      ContentSum(a[1..], b);
      assert (a + b)[1..] == a[1..] + b;
    }
  }

  lemma {:induction false} UintsContent(items: seq<Item>)
    requires forall i :: 0 <= i < |items| ==> items[i].Uint?
    ensures ContentSize(items) == 0
  {
    if items != [] {
      UintsContent(items[1..]);
    }
  }

  lemma ContentOf(a: Item, b: Item)
    ensures ContentSize([a]) == |Content(a)| && ContentSize([a, b]) == |Content(a)| + |Content(b)|
  {
    assert [a][1..] == [] && [a, b][1..] == [b] && [b][1..] == [];
  }

  lemma UpdateContentBound(frame: ServerFrame)
    requires Encodable(frame) && frame.UpdateAvailable?
    ensures ContentSize(ServerItems(frame)) <= 302
  {
    var head := Header(UPDATE_AVAILABLE, frame.version);
    var texts: seq<Item> := [Text(frame.firmware), Uint(frame.size)];
    var digest: seq<Item> := [Blob(frame.digest)];
    var blobs: seq<Item> := [Text(frame.url), Blob(frame.token)];
    UintsContent(head);
    ContentOf(Text(frame.firmware), Uint(frame.size));
    ContentOf(Blob(frame.digest), Blob(frame.digest));
    ContentOf(Text(frame.url), Blob(frame.token));
    ContentSum(texts, digest);
    ContentSum(texts + digest, blobs);
    ContentSum(head, texts + digest + blobs);
    assert ServerItems(frame) == head + (texts + digest + blobs);
  }

  lemma ContentBound(frame: ServerFrame)
    requires Encodable(frame)
    ensures ContentSize(ServerItems(frame)) <= 302
  {
    match frame {
      case AuthChallenge(challenge) =>
        ContentSum([Uint(AUTH_CHALLENGE), Uint(1)], [Blob(challenge)]);
        UintsContent([Uint(AUTH_CHALLENGE), Uint(1)]);
        ContentOf(Blob(challenge), Uint(0));
        assert ServerItems(frame) == [Uint(AUTH_CHALLENGE), Uint(1)] + [Blob(challenge)];
      case AuthResult(version, status, deviceId) =>
        UintsContent(Header(AUTH_RESULT, version));
        ContentOf(Uint(status), Text(deviceId));
        ContentSum(Header(AUTH_RESULT, version), [Uint(status), Text(deviceId)]);
      case Configuration(version, channels) =>
        UintsContent(ServerItems(frame));
      case UpdateAvailable(_, _, _, _, _, _) =>
        UpdateContentBound(frame);
      case FirmwareAccepted(version, firmware) =>
        UintsContent(Header(FIRMWARE_ACCEPTED, version));
        ContentOf(Text(firmware), Uint(0));
        ContentSum(Header(FIRMWARE_ACCEPTED, version), [Text(firmware)]);
      case ConfigurationQuery(nonce) =>
        var head := [Uint(CONFIGURATION_QUERY), Uint(CONFIGURATION_VERSION), Uint(1)];
        UintsContent(head);
        ContentOf(Blob(nonce), Uint(0));
        ContentSum(head, [Blob(nonce)]);
        assert ServerItems(frame) == head + [Blob(nonce)];
      case LedCommand(nonce, channels) =>
        var head := [Uint(LED_COMMAND), Uint(CONFIGURATION_VERSION)];
        UintsContent(head);
        UintsContent(Uints(channels));
        ContentOf(Blob(nonce), Uint(0));
        ContentSum(head, [Blob(nonce)]);
        ContentSum(head + [Blob(nonce)], Uints(channels));
        assert ServerItems(frame) == head + [Blob(nonce)] + Uints(channels);
    }
  }

  /** The 512-byte limit is never what makes an encoder throw. */
  lemma LimitNeverHit(frame: ServerFrame)
    ensures Encode(frame).Some? <==> Encodable(frame)
  {
    hide EncodeItems;
    if Encodable(frame) {
      var items := ServerItems(frame);
      ServerItemsSafe(frame);
      ContentBound(frame);
      ItemsSizes(items, 302 + 45);
    }
  }

  predicate Spells(text: Bytes, min: nat, max: nat) {
    min <= |text| <= max && forall i :: 0 <= i < |text| ==> text[i] != 0
  }

  predicate SixBytes(leds: seq<nat>) {
    |leds| == 6 && forall i :: 0 <= i < 6 ==> leds[i] < 256
  }

  /** Which fields each encoder takes; the size limit is never what stops it. */
  lemma EncodedExactly(frame: ServerFrame)
    ensures Encode(frame).Some? <==>
            match frame
            case AuthChallenge(challenge) => |challenge| == 32
            case AuthResult(version, status, deviceId) =>
              1 <= version <= 3
                  && (if status == 0 then Spells(deviceId, 1, 64) else status == 1 && Spells(deviceId, 0, 64))
            case Configuration(version, channels) => 1 <= version <= 3 && SixBytes(channels)
            case UpdateAvailable(version, firmware, size, digest, url, token) =>
              && 1 <= version <= 3 && Spells(firmware, 1, 47) && size <= 0xffff_ffff && |digest| == 32
                 && Spells(url, 1, 191)
              && |token| == 32
            case FirmwareAccepted(version, firmware) => 1 <= version <= 3 && Spells(firmware, 1, 47)
            case ConfigurationQuery(nonce) => |nonce| == 32
            case LedCommand(nonce, channels) => |nonce| == 32 && SixBytes(channels)
  {
    hide Encode;
    LimitNeverHit(frame);
  }

  /** No server frame is a keypad frame: echoed back, it is refused. */
  lemma ServerFrameRefused(frame: ServerFrame)
    requires Encode(frame).Some?
    ensures Decode(Encode(frame).value).None?
  {
    hide EncodeArray, SafeItem, Legal, Decode;
    var input := Encode(frame).value;
    if Decode(input).Some? {
      var (kind, version, items) := Decode(input).value;
      DecodeExact(input, kind, version, items);
      KeypadItemsSafe(kind, version, items);
      ServerItemsSafe(frame);
      ServerKind(frame, kind, version);
      assert (Header(kind, version) + items)[0] == Uint(kind);
      ArrayInjective(ServerItems(frame), Header(kind, version) + items);
      assert false;
    }
  }

  lemma ServerKind(frame: ServerFrame, kind: nat, version: nat)
    requires KeypadMessage(kind, version)
    ensures |ServerItems(frame)| > 0 && ServerItems(frame)[0] != Uint(kind)
  {}

  lemma KeypadItemsSafe(kind: nat, version: nat, items: seq<Item>)
    requires Legal(kind, version, items)
    ensures KeypadMessage(kind, version)
    ensures |Header(kind, version) + items| <= 4
    ensures forall i :: 0 <= i < |Header(kind, version) + items| ==> SafeItem((Header(kind, version) + items)[i])
  {
    forall i | 0 <= i < |items| ensures SafeItem(items[i]) {
      assert LegalItem(Schema(kind)[i], items[i]);
    }
  }
}
