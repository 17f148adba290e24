/** The authentication input of src/security/device-auth.js. */
module DeviceAuth {
  import opened Prelude
  import Credentials

  const AUTH_DOMAIN := Chars("mindflayer-device-auth-v1")

  /** HMAC-SHA-256 as an arbitrary function of key and input. */
  type Hmac = (Bytes, Bytes) -> Bytes

  function Prefixed(field: Bytes): Bytes {
    WriteBE(|field|, 4) + field
  }

  function AuthInput(deviceId: Bytes, challenge: Bytes): Bytes {
    Prefixed(AUTH_DOMAIN) + Prefixed(deviceId) + Prefixed(challenge)
  }

  /** The proof expected from a keypad: keyed by its secret, over its id and the challenge. */
  function Proof(hmac: Hmac, secret: Bytes, deviceId: Bytes, challenge: Bytes): Bytes {
    hmac(if Credentials.ValidSecret(secret) then Credentials.FromHex(secret) else [], AuthInput(deviceId, challenge))
  }

  /** The input of a proof byte by byte: three fields, each behind its length in four bytes, the domain first. */
  lemma AuthInputLayout(deviceId: Bytes, challenge: Bytes)
    requires |deviceId| < 256 && |challenge| == 32
    ensures AuthInput(deviceId, challenge) ==
            [0, 0, 0, 25] + Chars("mindflayer-device-auth-v1") + [0, 0, 0, |deviceId|] + deviceId
            + [0, 0, 0, 32] + challenge
  {
    hide WriteBE;
    BigEndian(25);
    BigEndian(|deviceId|);
    BigEndian(32);
    assert |"mindflayer-device-auth-v1"| == 25;
  }

  /** The key of a proof is the secret's bytes, not its text. */
  lemma ProofOfKey(hmac: Hmac, key: Bytes, deviceId: Bytes, challenge: Bytes)
    requires |key| == 32
    ensures Proof(hmac, Credentials.ToHex(key), deviceId, challenge) == hmac(key, AuthInput(deviceId, challenge))
  {
    hide Credentials.ToHex, Credentials.FromHex, AuthInput;
    Credentials.HexRoundTrip(key);
  }

  lemma PrefixedInjective(a: Bytes, b: Bytes, x: Bytes, y: Bytes)
    requires |a| < TWO32 && |b| < TWO32 && Prefixed(a) + x == Prefixed(b) + y
    ensures a == b && x == y
  {
    hide WriteBE, ReadBE;
    Pow256Values();
    assert Prefixed(a) + x == WriteBE(|a|, 4) + (a + x);
    assert Prefixed(b) + y == WriteBE(|b|, 4) + (b + y);
    SplitEqual(WriteBE(|a|, 4), WriteBE(|b|, 4), a + x, b + y);
    ReadOfWriteBE(|a|, 4);
    ReadOfWriteBE(|b|, 4);
    SplitEqual(a, b, x, y);
  }

  /** One input is the input of one id and one challenge: a proof for another of either is over other bytes. */
  lemma AuthInputInjective(id: Bytes, challenge: Bytes, id': Bytes, challenge': Bytes)
    requires |id| < TWO32 && |challenge| < TWO32 && |id'| < TWO32 && |challenge'| < TWO32
    requires AuthInput(id, challenge) == AuthInput(id', challenge')
    ensures id == id' && challenge == challenge'
  {
    hide Prefixed;
    var x, y := Prefixed(id) + Prefixed(challenge), Prefixed(id') + Prefixed(challenge');
    assert AuthInput(id, challenge) == Prefixed(AUTH_DOMAIN) + x;
    assert AuthInput(id', challenge') == Prefixed(AUTH_DOMAIN) + y;
    SplitEqual(Prefixed(AUTH_DOMAIN), Prefixed(AUTH_DOMAIN), x, y);
    PrefixedInjective(id, id', Prefixed(challenge), Prefixed(challenge'));
    assert Prefixed(challenge) + [] == Prefixed(challenge') + [];
    PrefixedInjective(challenge, challenge', [], []);
  }
}
