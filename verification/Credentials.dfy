/** Device identities, secrets and the entries of `devices.json`, as src/security/device-store.js checks them. */
module Credentials {
  import opened Prelude

  /** An entry: its secret, and rollout settings that registering never touches. */
  datatype Device = Device(secret: Bytes, targetVersion: Option<Bytes>, allowDowngrade: bool, autoUpdate: Option<bool>)

  type Devices = map<Bytes, Device>

  predicate Alphanumeric(c: byte) {
    0x30 <= c <= 0x39 || 0x41 <= c <= 0x5a || 0x61 <= c <= 0x7a
  }

  predicate ValidId(id: Bytes) {
    && 1 <= |id| <= 64
    && Alphanumeric(id[0])
    && forall i :: 1 <= i < |id| ==> Alphanumeric(id[i]) || id[i] in [0x2e, 0x5f, 0x2d]
  }

  predicate HexDigit(c: byte) {
    0x30 <= c <= 0x39 || 0x41 <= c <= 0x46 || 0x61 <= c <= 0x66
  }

  /** A digest in lower-case hexadecimal. */
  predicate LowerHex(text: Bytes) {
    |text| == 64 && forall i :: 0 <= i < 64 ==> 0x30 <= text[i] <= 0x39 || 0x61 <= text[i] <= 0x66
  }

  predicate ValidSecret(s: Bytes) {
    |s| == 64 && forall i :: 0 <= i < 64 ==> HexDigit(s[i])
  }

  predicate ValidDevices(devices: Devices) {
    forall id :: id in devices ==> ValidId(id) && ValidSecret(devices[id].secret)
  }

  function LowerCase(c: byte): byte {
    if 0x41 <= c <= 0x5a then c + 32 else c
  }

  function Lower(s: Bytes): (r: Bytes)
    ensures |r| == |s|
  {
    seq(|s|, i requires 0 <= i < |s| => LowerCase(s[i]))
  }

  lemma LowerTwice(s: Bytes)
    ensures Lower(Lower(s)) == Lower(s)
    ensures ValidSecret(s) ==> ValidSecret(Lower(s))
  {}

  /** The character classes at their bounds: letters and digits, and nothing beside them. */
  lemma ClassBounds()
    ensures forall c :: c in Chars("09AZaz") ==> Alphanumeric(c)
    ensures forall c :: c in Chars("/:@[`{._- ") ==> !Alphanumeric(c)
    ensures forall c :: c in Chars("09AFaf") ==> HexDigit(c)
    ensures forall c :: c in Chars("/:@G`g") ==> !HexDigit(c)
  {
    var a, b, h, g := "09AZaz", "/:@[`{._- ", "09AFaf", "/:@G`g";
    assert a[0] == '0' && a[1] == '9' && a[2] == 'A' && a[3] == 'Z' && a[4] == 'a' && a[5] == 'z';
    assert b[0] == '/' && b[1] == ':' && b[2] == '@' && b[3] == '[' && b[4] == '`' && b[5] == '{' && b[6] == '.';
    assert b[7] == '_' && b[8] == '-' && b[9] == ' ';
    assert h[0] == '0' && h[1] == '9' && h[2] == 'A' && h[3] == 'F' && h[4] == 'a' && h[5] == 'f';
    assert g[0] == '/' && g[1] == ':' && g[2] == '@' && g[3] == 'G' && g[4] == '`' && g[5] == 'g';
  }

  /** An id has up to 64 characters; a dot, an underscore or a dash may be any of them but the first. */
  lemma IdBounds(first: byte, mark: byte)
    requires Alphanumeric(first) && mark in Chars("._-")
    ensures ValidId([first]) && ValidId([first, mark]) && !ValidId([]) && !ValidId([mark])
    ensures ValidId(Repeat(first, 64)) && !ValidId(Repeat(first, 65))
    ensures forall c :: ValidId([first, c]) <==> Alphanumeric(c) || c in Chars("._-")
  {
    var marks := "._-";
    assert marks[0] == '.' && marks[1] == '_' && marks[2] == '-';
    assert Chars("._-") == [0x2e, 0x5f, 0x2d];
    forall c: byte ensures ValidId([first, c]) <==> Alphanumeric(c) || c in [0x2e, 0x5f, 0x2d] {
      assert [first, c][1] == c;
    }
  }

  // ---- Hexadecimal ----

  function DigitValue(c: byte): (v: nat)
    requires HexDigit(c)
    ensures v < 16
  {
    if c <= 0x39 then c - 0x30 else if c <= 0x46 then c - 0x41 + 10 else c - 0x61 + 10
  }

  function Digit(v: nat): (c: byte)
    requires v < 16
    ensures HexDigit(c) && DigitValue(c) == v && LowerCase(c) == c
  {
    if v < 10 then 0x30 + v else 0x61 + v - 10
  }

  function ToHex(s: Bytes): (h: Bytes)
    ensures |h| == 2 * |s|
    ensures forall i :: 0 <= i < |h| ==> HexDigit(h[i]) && LowerCase(h[i]) == h[i]
  {
    seq(2 * |s|, i requires 0 <= i < 2 * |s| => Digit(if i % 2 == 0 then s[i / 2] / 16 else s[i / 2] % 16))
  }

  function FromHex(h: Bytes): (s: Bytes)
    requires |h| % 2 == 0 && forall i :: 0 <= i < |h| ==> HexDigit(h[i])
    ensures |s| == |h| / 2
  {
    seq(|h| / 2, i requires 0 <= i < |h| / 2 => 16 * DigitValue(h[2 * i]) + DigitValue(h[2 * i + 1]))
  }

  lemma HexRoundTrip(s: Bytes)
    ensures FromHex(ToHex(s)) == s
    ensures Lower(ToHex(s)) == ToHex(s)
    ensures |s| == 32 ==> ValidSecret(ToHex(s))
  {
    var h := ToHex(s);
    forall i | 0 <= i < |s| ensures FromHex(h)[i] == s[i] {
      assert h[2 * i] == Digit(s[i] / 16) && h[2 * i + 1] == Digit(s[i] % 16);
    }
  }

  /** Encoding the bytes of a hexadecimal text gives it back in lower case. */
  lemma LowerOfHex(h: Bytes)
    requires |h| % 2 == 0 && forall i :: 0 <= i < |h| ==> HexDigit(h[i])
    ensures ToHex(FromHex(h)) == Lower(h)
  {
    forall i | 0 <= i < |h| ensures ToHex(FromHex(h))[i] == Lower(h)[i] {
      var b := FromHex(h)[i / 2];
      assert b / 16 == DigitValue(h[i / 2 * 2]) && b % 16 == DigitValue(h[i / 2 * 2 + 1]);
      DigitOfValue(h[i]);
    }
  }

  /** A stored secret stands for these bytes exactly if it is their hexadecimal text in either case. */
  lemma SecretMatches(secret: Bytes, key: Bytes)
    requires |key| == 32
    ensures ValidSecret(secret) && FromHex(secret) == key <==> Lower(secret) == ToHex(key)
  {
    hide FromHex, ToHex;
    HexRoundTrip(key);
    if ValidSecret(secret) {
      LowerOfHex(secret);
      if Lower(secret) == ToHex(key) {
        LowerDecodes(secret);
      }
    } else if Lower(secret) == ToHex(key) {
      forall i | 0 <= i < 64 ensures HexDigit(secret[i]) {
        assert HexDigit(Lower(secret)[i]) && Lower(secret)[i] == LowerCase(secret[i]);
      }
    }
  }

  lemma LowerDecodes(h: Bytes)
    requires ValidSecret(h)
    ensures ValidSecret(Lower(h)) && FromHex(Lower(h)) == FromHex(h)
  {}

  lemma DigitOfValue(c: byte)
    requires HexDigit(c)
    ensures Digit(DigitValue(c)) == LowerCase(c)
  {}

  /** The digits of a byte, the higher one first. */
  lemma HexDigits(s: Bytes, i: nat)
    requires i < |s|
    ensures var digits := "0123456789abcdef";
            ToHex(s)[2 * i] == digits[s[i] / 16] as int && ToHex(s)[2 * i + 1] == digits[s[i] % 16] as int
  {
    DigitText(s[i] / 16);
    DigitText(s[i] % 16);
  }

  lemma DigitText(v: nat)
    requires v < 16
    ensures Digit(v) == "0123456789abcdef"[v] as int
  {
    var digits := "0123456789abcdef";
    assert digits[0] == '0' && digits[1] == '1' && digits[2] == '2' && digits[3] == '3' && digits[4] == '4';
    assert digits[5] == '5' && digits[6] == '6' && digits[7] == '7' && digits[8] == '8' && digits[9] == '9';
    assert digits[10] == 'a' && digits[11] == 'b' && digits[12] == 'c' && digits[13] == 'd' && digits[14] == 'e';
  }

  // ---- Registration ----

  function NewDevice(secret: Bytes): Device {
    Device(Lower(secret), None, false, None)
  }

  /** The entries after registering, or `None` where `register` throws: never a replaced secret. */
  function Register(devices: Devices, id: Bytes, secret: Bytes): Option<Devices> {
    if !ValidId(id) || !ValidSecret(secret) then None
    else if id in devices then
      if Lower(devices[id].secret) == Lower(secret) then Some(devices) else None
    else Some(devices[id := NewDevice(secret)])
  }

  /** No entry is lost or changed. */
  predicate Grows(before: Devices, after: Devices) {
    forall id :: id in before ==> id in after && after[id] == before[id]
  }

  lemma RegisterGrows(devices: Devices, id: Bytes, secret: Bytes)
    requires ValidDevices(devices) && Register(devices, id, secret).Some?
    ensures var after := Register(devices, id, secret).value;
            && Grows(devices, after) && ValidDevices(after)
            && after.Keys == devices.Keys + {id} && Lower(after[id].secret) == Lower(secret)
            && Register(after, id, secret) == Some(after)
  {
    LowerTwice(secret);
  }
}
