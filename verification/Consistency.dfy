/** The stated laws can be met together, and so can the hypothesis that a ciphertext opens for nobody but
    its addressee: a small suite that satisfies them all. */
module Consistency {
  import opened Basics
  import opened Crypto

  function Repeat(b: byte, n: nat): (r: Bytes)
    ensures |r| == n
  {
    seq(n, _ => b)
  }

  function Tag(key: Bytes): (tag: Bytes)
    ensures |tag| == TAG_SIZE
  {
    Repeat(if key == [] then 0 else key[0], TAG_SIZE)
  }

  function ToySeal(key: Bytes, nonce: Bytes, p: Bytes): (c: Bytes) {
    p + Tag(key)
  }

  function ToyOpen(key: Bytes, nonce: Bytes, c: Bytes): (p: Option<Bytes>) {
    if TAG_SIZE <= |c| <= MAX_PLAINTEXT + TAG_SIZE && c[|c| - TAG_SIZE..] == Tag(key)
    then Some(c[..|c| - TAG_SIZE]) else None
  }

  function ToyPub(k: PrivKey): (q: Bytes) {
    [(k.scalar % 0x100) as byte]
  }

  function ToyEcdh(k: PrivKey, q: Bytes): (secret: Option<Bytes>) {
    if |q| == 1 then Some(Repeat(((k.scalar % 0x100 + q[0] as int) % 0x100) as byte, 32)) else None
  }

  function ToySplit(secret: Bytes, n: int, t: int, rnd: nat): (shares: Option<seq<Bytes>>) {
    if 2 <= t <= n <= 255 && secret != []
    then Some(seq(n, i requires 0 <= i < n => [i as byte] + secret)) else None
  }

  function ToyCombine(parts: seq<Bytes>): (secret: Option<Bytes>) {
    if parts == [] || parts[0] == [] || exists i, j | 0 <= i < j < |parts| :: parts[i] == parts[j] then None
    else Some(parts[0][1..])
  }

  function Toy(): (s: Suite) {
    Suite((k, n, p) => ToySeal(k, n, p), (k, n, c) => ToyOpen(k, n, c), k => ToyPub(k), (k, q) => ToyEcdh(k, q),
      (secret, n, t, rnd: nat) => ToySplit(secret, n, t, rnd), parts => ToyCombine(parts), b => Repeat(0, 32))
  }

  lemma ToyAead()
    ensures Toy().AeadLaws()
  {
    forall k, n, p | ValidKey(k) && ValidNonce(n) && |p| <= MAX_PLAINTEXT
      ensures ToyOpen(k, n, ToySeal(k, n, p)) == Some(p)
    {
      var c := ToySeal(k, n, p);
      assert c[..|p|] == p && c[|p|..] == Tag(k);
    }
    forall k, n, c | ToyOpen(k, n, c).Some?
      ensures ToySeal(k, n, ToyOpen(k, n, c).value) == c
    {
      assert c == c[..|c| - TAG_SIZE] + c[|c| - TAG_SIZE..];
    }
  }

  lemma ToyShamir()
    ensures Toy().ShamirLaws()
  {
    forall secret, n, t, rnd, idx | ToySplit(secret, n, t, rnd).Some?
      && Indices(idx, |ToySplit(secret, n, t, rnd).value|) && |idx| >= t
      ensures ToyCombine(Pick(ToySplit(secret, n, t, rnd).value, idx)) == Some(secret)
    {
      var parts := Pick(ToySplit(secret, n, t, rnd).value, idx);
      assert forall i | 0 <= i < |idx| :: parts[i][0] as nat == idx[i];
      assert parts[0] == [idx[0] as byte] + secret;
      assert parts[0][1..] == secret;
    }
  }

  lemma ToyEcdhLaws()
    ensures Toy().EcdhLaws()
  {
    hide Repeat;
    forall a: PrivKey, b: PrivKey
      ensures ToyEcdh(a, ToyPub(b)).Some? && ToyEcdh(a, ToyPub(b)) == ToyEcdh(b, ToyPub(a))
    {
      var x, y := a.scalar % 0x100, b.scalar % 0x100;
      assert ToyPub(b)[0] as int == y && ToyPub(a)[0] as int == x && x + y == y + x;
    }
  }

  lemma ToyHash()
    ensures Toy().HashLaw()
  {}

  /** Keys that differ in their low byte derive different secrets, and a tag made under one is no tag under
      another. */
  lemma ToyIdeal(keys: seq<PrivKey>, addressee: PrivKey, share: Bytes, ephemeral: PrivKey, nonce: Bytes)
    requires ValidNonce(nonce) && |share| <= MAX_PLAINTEXT
    requires forall k | k in keys && k != addressee :: k.scalar % 0x100 != addressee.scalar % 0x100
    ensures var e := EciesEncrypt(Toy(), Toy().pub(addressee), share, ephemeral, nonce);
      e.Some? && IdealFor(Toy(), keys, addressee, e.value)
  {
    hide Repeat;
    var s := Toy();
    ToyEcdhLaws();
    var e := EciesEncrypt(s, s.pub(addressee), share, ephemeral, nonce).value;
    var q := s.pub(ephemeral);
    assert s.ecdh(addressee, q) == s.ecdh(ephemeral, s.pub(addressee));
    forall k | k in keys && k != addressee
      ensures s.ecdh(k, q) != s.ecdh(addressee, q) && s.open(s.ecdh(k, q).value, nonce, e.ciphertext) == None
    {
      OtherSecret(k, addressee, q);
      var c := e.ciphertext;
      assert c[|c| - TAG_SIZE..] == Tag(s.ecdh(addressee, q).value);
    }
  }

  lemma OtherSecret(k: PrivKey, a: PrivKey, q: Bytes)
    requires |q| == 1 && k.scalar % 0x100 != a.scalar % 0x100
    ensures ToyEcdh(k, q).Some? && ToyEcdh(a, q).Some? && ToyEcdh(k, q) != ToyEcdh(a, q)
    ensures Tag(ToyEcdh(k, q).value) != Tag(ToyEcdh(a, q).value)
  {
    var x, y := ToyEcdh(k, q).value, ToyEcdh(a, q).value;
    assert x[0] != y[0];
    assert Tag(x)[0] == x[0] && Tag(y)[0] == y[0];
  }

  lemma ToyIsLawful()
    ensures Toy().Lawful()
  {
    hide *;
    ToyAead();
    ToyShamir();
    ToyEcdhLaws();
    ToyHash();
    LawsJoin(Toy());
  }

  /** The laws hold together, and with them a share that only its addressee can read among two keys. */
  lemma LawsAreConsistent(nonce: Bytes) returns (s: Suite, a: PrivKey, b: PrivKey)
    requires ValidNonce(nonce)
    ensures s.Lawful() && a != b
    ensures var e := EciesEncrypt(s, s.pub(a), [], a, nonce); e.Some? && IdealFor(s, [a, b], a, e.value)
  {
    hide Toy, EciesEncrypt, IdealFor;
    s, a, b := Toy(), PrivKey(0), PrivKey(1);
    ToyIsLawful();
    ToyIdeal([a, b], a, [], a, nonce);
  }

  lemma LawsJoin(s: Suite)
    requires s.AeadLaws() && s.EcdhLaws() && s.ShamirLaws() && s.HashLaw()
    ensures s.Lawful()
  {}
}
