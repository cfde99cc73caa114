/** The cryptographic operations both programs call, as functions with stated laws, and the share
    encryption built on them. Fresh keys and nonces are parameters. */
module Crypto {
  import opened Basics

  const NONCE_SIZE := 12
  const TAG_SIZE := 16
  /** The longest message AES-GCM seals: 2^32 - 2 blocks of 16 bytes. */
  const MAX_PLAINTEXT := 0xF_FFFF_FFE0

  /** A P-256 private key. */
  datatype PrivKey = PrivKey(scalar: nat)

  /** AES accepts keys of 128, 192 or 256 bits. */
  predicate ValidKey(key: Bytes) {
    |key| == 16 || |key| == 24 || |key| == 32
  }

  predicate ValidNonce(nonce: Bytes) {
    |nonce| == NONCE_SIZE
  }

  datatype Suite = Suite(
    seal: (Bytes, Bytes, Bytes) -> Bytes,
    open: (Bytes, Bytes, Bytes) -> Option<Bytes>,
    pub: PrivKey -> Bytes,
    ecdh: (PrivKey, Bytes) -> Option<Bytes>,
    split: (Bytes, int, int, nat) -> Option<seq<Bytes>>,
    combine: seq<Bytes> -> Option<Bytes>,
    sha256: Bytes -> Bytes)
  {
    /** AES-GCM, sections 7.1 and 7.2 of NIST SP 800-38D: opening undoes sealing, the tag adds 16 bytes,
        and whatever opens is the sealed form of what it opens to. */
    ghost predicate AeadLaws() {
      && (forall k, n, p | ValidKey(k) && ValidNonce(n) && |p| <= MAX_PLAINTEXT ::
            open(k, n, seal(k, n, p)) == Some(p) && |seal(k, n, p)| == |p| + TAG_SIZE)
      && (forall k, n, c | ValidKey(k) && ValidNonce(n) && open(k, n, c).Some? ::
            |open(k, n, c).value| <= MAX_PLAINTEXT && seal(k, n, open(k, n, c).value) == c)
    }

    /** Key agreement is symmetric and yields a 256-bit secret; public keys have a non-empty form. */
    ghost predicate EcdhLaws() {
      && (forall a, b :: ecdh(a, pub(b)).Some? && ecdh(a, pub(b)) == ecdh(b, pub(a)))
      && (forall a, q | ecdh(a, q).Some? :: |ecdh(a, q).value| == 32)
      && (forall a :: pub(a) != [])
    }

    /** Shamir sharing: parameters outside 2 <= t <= n <= 255 are refused, any t or more distinct shares give
        the secret back, and a list with a share twice is refused. */
    ghost predicate ShamirLaws() {
      && (forall secret, n, t, rnd :: split(secret, n, t, rnd).Some? <==> 2 <= t <= n <= 255 && secret != [])
      && (forall secret, n, t, rnd | split(secret, n, t, rnd).Some? :: |split(secret, n, t, rnd).value| == n)
      && (forall secret, n, t, rnd, i: nat | split(secret, n, t, rnd).Some? && i < |split(secret, n, t, rnd).value| ::
            |split(secret, n, t, rnd).value[i]| == |secret| + 1)
      && (forall secret, n, t, rnd, idx |
            split(secret, n, t, rnd).Some? && Indices(idx, |split(secret, n, t, rnd).value|) && |idx| >= t ::
            combine(Pick(split(secret, n, t, rnd).value, idx)) == Some(secret))
      && (forall parts, i, j | 0 <= i < j < |parts| && parts[i] == parts[j] :: combine(parts) == None)
    }

    ghost predicate HashLaw() {
      forall b :: |sha256(b)| == 32
    }

    ghost predicate Lawful() {
      AeadLaws() && EcdhLaws() && ShamirLaws() && HashLaw()
    }
  }

  /** Distinct positions of a list of n items. */
  ghost predicate Indices(idx: seq<nat>, n: nat) {
    Distinct(idx) && forall i | 0 <= i < |idx| :: idx[i] < n
  }

  /** The items at the given positions. */
  ghost function Pick(items: seq<Bytes>, idx: seq<nat>): (r: seq<Bytes>)
    requires Indices(idx, |items|)
  {
    seq(|idx|, i requires 0 <= i < |idx| => items[idx[i]])
  }

  /** What a client sends to a node: the ephemeral public key, the ciphertext and its nonce. */
  datatype Sealed = Sealed(ephemeralPub: Bytes, ciphertext: Bytes, nonce: Bytes)

  /** None stands for an error return or the library's refusal of an oversized message. */
  function SymmetricEncrypt(s: Suite, key: Bytes, plaintext: Bytes, nonce: Bytes): (r: Option<Bytes>) {
    if ValidKey(key) && ValidNonce(nonce) && |plaintext| <= MAX_PLAINTEXT
    then Some(s.seal(key, nonce, plaintext)) else None
  }

  function SymmetricDecrypt(s: Suite, key: Bytes, ciphertext: Bytes, nonce: Bytes): (r: Option<Bytes>) {
    if ValidKey(key) && ValidNonce(nonce) then s.open(key, nonce, ciphertext) else None
  }

  function EciesEncrypt(s: Suite, nodePub: Bytes, plaintext: Bytes, ephemeral: PrivKey, nonce: Bytes)
    : (r: Option<Sealed>)
  {
    match s.ecdh(ephemeral, nodePub)
    case None => None
    case Some(secret) =>
      match SymmetricEncrypt(s, secret, plaintext, nonce)
      case None => None
      case Some(ct) => Some(Sealed(s.pub(ephemeral), ct, nonce))
  }

  /** AES-GCM panics, rather than returning an error, on a nonce that is not 12 bytes long. */
  datatype Decryption = Opened(share: Bytes) | DecryptError | NoncePanic

  function DecryptShare(s: Suite, nodePriv: PrivKey, ephemeralPub: Bytes, ciphertext: Bytes, nonce: Bytes)
    : (r: Decryption)
  {
    match s.ecdh(nodePriv, ephemeralPub)
    case None => DecryptError
    case Some(secret) =>
      if !ValidKey(secret) then DecryptError
      else if !ValidNonce(nonce) then NoncePanic
      else match s.open(secret, nonce, ciphertext)
        case None => DecryptError
        case Some(share) => Opened(share)
  }

  /** The node whose public key the client used reads exactly the share the client sealed. */
  lemma EciesRoundTrip(s: Suite, node: PrivKey, share: Bytes, ephemeral: PrivKey, nonce: Bytes)
    requires s.Lawful() && ValidNonce(nonce) && |share| <= MAX_PLAINTEXT
    ensures var e := EciesEncrypt(s, s.pub(node), share, ephemeral, nonce);
      e.Some? && DecryptShare(s, node, e.value.ephemeralPub, e.value.ciphertext, e.value.nonce) == Opened(share)
  {
    assert s.ecdh(ephemeral, s.pub(node)) == s.ecdh(node, s.pub(ephemeral));
    var secret := s.ecdh(node, s.pub(ephemeral)).value;
    assert s.open(secret, nonce, s.seal(secret, nonce, share)) == Some(share);
  }

  /** What a node makes of a record: it opens to a share exactly when it is that share sealed under the agreed secret,
      and a nonce of the wrong length panics once there is a secret to use it with. */
  lemma DecryptsExactly(s: Suite, node: PrivKey, ephemeralPub: Bytes, ciphertext: Bytes, nonce: Bytes, share: Bytes)
    requires s.Lawful() && |share| <= MAX_PLAINTEXT
    ensures var d := DecryptShare(s, node, ephemeralPub, ciphertext, nonce);
      var secret := s.ecdh(node, ephemeralPub);
      var usable := secret.Some? && |secret.value| in {16, 24, 32};
      && (d == NoncePanic <==> usable && |nonce| != 12)
      && (d == Opened(share) <==> usable && |nonce| == 12 && ciphertext == s.seal(secret.value, nonce, share))
      && (d == DecryptError <==> !usable || (|nonce| == 12 && s.open(secret.value, nonce, ciphertext) == None))
  {}

  /** Ideal key agreement, for one ephemeral key and one list of private keys: all but the addressee's derive
      other secrets. */
  ghost predicate SecretsDiffer(s: Suite, keys: seq<PrivKey>, addressee: PrivKey, ephemeralPub: Bytes) {
    forall k | k in keys && k != addressee :: s.ecdh(k, ephemeralPub) != s.ecdh(addressee, ephemeralPub)
  }

  /** Ideal AEAD, for one ciphertext and the secrets these keys derive: only the addressee's opens it. */
  ghost predicate OneSecretOpens(s: Suite, keys: seq<PrivKey>, addressee: PrivKey, e: Sealed) {
    forall k | k in keys && s.ecdh(k, e.ephemeralPub) != s.ecdh(addressee, e.ephemeralPub) ::
      var secret := s.ecdh(k, e.ephemeralPub);
      secret.Some? ==> s.open(secret.value, e.nonce, e.ciphertext) == None
  }

  ghost predicate IdealFor(s: Suite, keys: seq<PrivKey>, addressee: PrivKey, e: Sealed) {
    SecretsDiffer(s, keys, addressee, e.ephemeralPub) && OneSecretOpens(s, keys, addressee, e)
  }

  /** Then none of the other keys opens it. */
  lemma OthersCannotOpen(s: Suite, keys: seq<PrivKey>, addressee: PrivKey, e: Sealed, k: PrivKey)
    requires IdealFor(s, keys, addressee, e) && k in keys && k != addressee
    ensures !DecryptShare(s, k, e.ephemeralPub, e.ciphertext, e.nonce).Opened?
  {
    assert s.ecdh(k, e.ephemeralPub) != s.ecdh(addressee, e.ephemeralPub);
  }

  const AAD_PREFIX := "soroban-encrypt|"

  function BuildAAD(contractID: string, objectID: string): (aad: string) {
    AAD_PREFIX + contractID + "|" + objectID
  }

  /** The additional data names one pair only, when contract ids are free of the separator. */
  lemma AadInjective(c1: string, o1: string, c2: string, o2: string)
    requires '|' !in c1 && '|' !in c2
    ensures BuildAAD(c1, o1) == "soroban-encrypt|" + c1 + "|" + o1
    ensures BuildAAD(c1, o1) == BuildAAD(c2, o2) <==> c1 == c2 && o1 == o2
  {
    if BuildAAD(c1, o1) == BuildAAD(c2, o2) {
      var n := |AAD_PREFIX|;
      assert BuildAAD(c1, o1)[n..] == c1 + "|" + o1;
      assert BuildAAD(c2, o2)[n..] == c2 + "|" + o2;
      JoinInjective('|', c1, o1, c2, o2);
    }
  }

  /** A separator splits a text uniquely when it does not occur before its first use. */
  lemma JoinInjective(sep: char, a1: string, b1: string, a2: string, b2: string)
    requires sep !in a1 && sep !in a2
    requires a1 + [sep] + b1 == a2 + [sep] + b2
    ensures a1 == a2 && b1 == b2
  {
    var x, y := a1 + [sep] + b1, a2 + [sep] + b2;
    assert x[|a1|] == sep && y[|a2|] == sep;
    assert x[..|a1|] == a1 && y[..|a2|] == a2;
    assert |a1| == |a2|;
    assert x[|a1| + 1..] == b1 && y[|a2| + 1..] == b2;
  }
}
