/** The whole check of a signed release image in src/firmware/verify.js, around the boot2 check. */
module Firmware {
  import opened Prelude
  import opened Semver
  import Boot2
  import Credentials
  import Updater

  const SIGNATURE: nat := 256
  const TRAILER: nat := SIGNATURE + 4
  const MAX_VERSION: nat := 47

  /** SHA-256 in hexadecimal, and the RSA check of a body against a signature. */
  datatype Crypto = Crypto(sha256: Bytes -> Bytes, signed: (Bytes, Bytes) -> bool)

  function Decimal(n: nat): Bytes {
    (if n < 10 then [] else Decimal(n / 10)) + [48 + n % 10]
  }

  function VersionText(v: Version): Bytes {
    Decimal(v.major) + [46] + Decimal(v.minor) + [46] + Decimal(v.patch)
  }

  /** `validateMetadata` on a release of this hardware. */
  predicate ValidMetadata(r: Updater.Release) {
    |VersionText(r.version)| <= MAX_VERSION && TRAILER < r.size <= Boot2.MAX_SIGNED && Credentials.LowerHex(r.sha256)
  }

  predicate FoundAt(s: Bytes, part: Bytes, i: int) {
    0 <= i <= |s| - |part| && s[i..i + |part|] == part
  }

  ghost predicate Contains(s: Bytes, part: Bytes) {
    exists i :: FoundAt(s, part, i)
  }

  function Body(bytes: Bytes): Bytes
    requires |bytes| >= TRAILER
  {
    bytes[..|bytes| - TRAILER]
  }

  /** An image that is what its metadata says, signed, well formed, and names its own version and hardware. */
  ghost predicate Genuine(bytes: Bytes, r: Updater.Release, crypto: Crypto) {
    && ValidMetadata(r) && |bytes| == r.size && crypto.sha256(bytes) == r.sha256
    && ReadLE(bytes[|bytes| - 4..]) == SIGNATURE
    && crypto.signed(Body(bytes), bytes[|bytes| - TRAILER..|bytes| - 4])
    && Boot2.Accepts(Body(bytes))
    && Contains(Body(bytes), VersionText(r.version) + [0]) && Contains(Body(bytes), KEYPAD_HARDWARE + [0])
  }

  /** `Buffer.includes`: the first position, if any. */
  method Includes(s: Bytes, part: Bytes) returns (found: bool)
    ensures found <==> Contains(s, part)
  {
    var i := 0;
    while i + |part| <= |s|
      invariant forall k :: 0 <= k < i ==> !FoundAt(s, part, k)
    {
      if s[i..i + |part|] == part {
        assert FoundAt(s, part, i);
        return true;
      }
      i := i + 1;
    }
    return false;
  }

  method VerifyFirmware(bytes: Bytes, r: Updater.Release, crypto: Crypto) returns (ok: bool)
    ensures ok <==> Genuine(bytes, r, crypto)
  {
    hide Boot2.Accepts, Contains, ReadLE, VersionText, Credentials.LowerHex, Boot2.Laid, Boot2.Summed, Boot2.Print;
    if !ValidMetadata(r) || |bytes| != r.size || crypto.sha256(bytes) != r.sha256 {
      return false;
    }
    if ReadLE(bytes[|bytes| - 4..]) != SIGNATURE {
      return false;
    }
    var body, signature := Body(bytes), bytes[|bytes| - TRAILER..|bytes| - 4];
    if !crypto.signed(body, signature) {
      return false;
    }
    var sound := Boot2.VerifyBoot2(body);
    if !sound {
      return false;
    }
    var version := Includes(body, VersionText(r.version) + [0]);
    var hardware := Includes(body, KEYPAD_HARDWARE + [0]);
    return version && hardware;
  }

  predicate DecimalText(s: Bytes) {
    forall i :: 0 <= i < |s| ==> 48 <= s[i] <= 57
  }

  /** The number that decimal digits write. */
  function DecimalValue(s: Bytes): nat
    requires DecimalText(s)
  {
    if s == [] then 0
    else
      assert 48 <= s[|s| - 1] <= 57;
      10 * DecimalValue(s[..|s| - 1]) + (s[|s| - 1] as int - 48)
  }

  lemma DecimalNext(front: Bytes, digit: nat)
    requires DecimalText(front) && digit < 10
    ensures var s := front + [48 + digit]; DecimalText(s) && DecimalValue(s) == 10 * DecimalValue(front) + digit
  {
    var s := front + [48 + digit];
    assert s[..|s| - 1] == front;
  }

  /** The digits of a number write it, without a leading zero. */
  lemma {:induction false} DecimalExactly(n: nat)
    ensures var s := Decimal(n);
            && |s| > 0 && DecimalText(s) && DecimalValue(s) == n
            && (s[0] == 48 ==> n == 0)
  {
    hide DecimalValue;
    if n >= 10 {
      DecimalExactly(n / 10);
      DecimalNext(Decimal(n / 10), n % 10);
    } else {
      DecimalNext([], n);
      assert DecimalValue([]) == 0 by { NoDigits(); }
    }
  }

  lemma NoDigits()
    ensures DecimalValue([]) == 0
  {}

  /** An image and its signature, laid out as a release. */
  predicate SignedImage(bytes: Bytes, im: Boot2.Image, signature: Bytes, crypto: Crypto) {
    && |signature| == 256 && bytes == Boot2.Print(im) + signature + [0, 1, 0, 0]
    && Boot2.Laid(im) && Boot2.Summed(im) && crypto.signed(Boot2.Print(im), signature)
  }

  /** The image names the version and the hardware, each ended by a zero. */
  ghost predicate Names(im: Boot2.Image, v: Version) {
    && Contains(Boot2.Print(im), Decimal(v.major) + [46] + Decimal(v.minor) + [46] + Decimal(v.patch) + [0])
    && Contains(Boot2.Print(im), Chars("mindflayer-keypad-v1") + [0])
  }

  /** The metadata fits the image: its very size and digest, in 64 lower-case digits. */
  predicate Describes(r: Updater.Release, bytes: Bytes, crypto: Crypto) {
    && |VersionText(r.version)| <= 47 && r.size == |bytes| && r.size <= 0xfe000 + 260
    && crypto.sha256(bytes) == r.sha256 && Credentials.LowerHex(r.sha256)
  }

  lemma LengthField()
    ensures WriteLE(256, 4) == [0, 1, 0, 0]
  {
    LittleEndian(256);
  }

  /**
   * A release is accepted if and only if it is a well-formed boot2 image with a right checksum that names its version
   * and hardware, followed by the signature of exactly that image and the length 256, and its metadata fits.
   */
  lemma GenuineExactly(bytes: Bytes, r: Updater.Release, crypto: Crypto)
    ensures Genuine(bytes, r, crypto) <==>
            Describes(r, bytes, crypto)
            && exists im, signature :: SignedImage(bytes, im, signature, crypto) && Names(im, r.version)
  {
    hide Boot2.Accepts, Contains, ReadLE, WriteLE, Boot2.Laid, Boot2.Summed, Boot2.Print, Credentials.LowerHex, Decimal;
    LengthField();
    var n := |bytes|;
    assert KEYPAD_HARDWARE == Chars("mindflayer-keypad-v1");
    if Genuine(bytes, r, crypto) {
      Boot2.AcceptsExactly(Body(bytes));
      var im :| Boot2.Laid(im) && Boot2.Summed(im) && Body(bytes) == Boot2.Print(im);
      var signature := bytes[n - 260..n - 4];
      WriteOfReadLE(bytes[n - 4..]);
      assert bytes == bytes[..n - 260] + signature + bytes[n - 4..];
      assert SignedImage(bytes, im, signature, crypto) && Names(im, r.version);
    }
    if im, signature :|
        Describes(r, bytes, crypto) && SignedImage(bytes, im, signature, crypto) && Names(im, r.version) {
      Pow256Values();
      ReadOfWriteLE(256, 4);
      PrintedLong(im);
      assert bytes[..n - 260] == Boot2.Print(im) && bytes[n - 260..n - 4] == signature
             && bytes[n - 4..] == [0, 1, 0, 0];
      Boot2.AcceptsExactly(Body(bytes));
    }
  }

  lemma PrintedLong(im: Boot2.Image)
    ensures |Boot2.Print(im)| > 0
  {
    hide WriteLE, Boot2.PrintIrom, Boot2.PrintRam;
  }

  /** The check the cache uses. */
  ghost predicate Checks(check: Updater.Check, crypto: Crypto) {
    forall r, bytes :: check(r, bytes) <==> Genuine(bytes, r, crypto)
  }

  /** No two genuine images share a digest. */
  ghost predicate CollisionFree(crypto: Crypto) {
    forall a, b, r, r' :: Genuine(a, r, crypto) && Genuine(b, r', crypto) && crypto.sha256(a) == crypto.sha256(b) ==>
          a == b
  }

  /** What the cache assumes of its check holds of this one, up to collisions of the digest. */
  lemma CheckBinds(check: Updater.Check, crypto: Crypto)
    requires Checks(check, crypto) && CollisionFree(crypto)
    ensures Updater.Binding(check)
  {
    hide Boot2.Accepts, Contains, ReadLE, ValidMetadata;
  }

  /** A genuine image is a printed boot2 image with a right checksum, followed by its signature and length. */
  lemma GenuineIsImage(bytes: Bytes, r: Updater.Release, crypto: Crypto)
    requires Genuine(bytes, r, crypto)
    ensures exists im :: Boot2.Laid(im) && Boot2.Summed(im)
                         && bytes == Boot2.Print(im) + bytes[|bytes| - TRAILER..|bytes| - 4] + WriteLE(SIGNATURE, 4)
  {
    hide Boot2.Accepts, Contains, ReadLE, WriteLE, ValidMetadata, Boot2.Laid, Boot2.Summed, Boot2.Print;
    var n := |bytes|;
    LongEnough(r);
    Boot2.AcceptsExactly(Body(bytes));
    WriteOfReadLE(bytes[n - 4..]);
    assert bytes == bytes[..n - TRAILER] + bytes[n - TRAILER..n - 4] + bytes[n - 4..];
  }

  lemma LongEnough(r: Updater.Release)
    requires ValidMetadata(r)
    ensures r.size > TRAILER
  {}
}
