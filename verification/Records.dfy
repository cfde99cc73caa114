/** What an encryption leaves at the nodes, byte for byte. */
module Records {
  import opened Basics
  import opened Crypto
  import opened Client
  import opened Recovery
  import opened Retrieve
  import opened Transaction
  import KeyRing
  import Node
  import ShareStore

  /** Every one of the first i nodes stores what it was sent last. */
  ghost predicate SealedFront(sv: Services, nodes: Nodes, job: Job, i: nat)
    requires i <= |job.urls| && i <= |job.shares|
  {
    forall j | 0 <= j < i ::
      job.urls[..i][j] in nodes && HoldsSealed(sv, nodes[job.urls[..i][j]], job, LastVisit(job.urls[..i], j))
  }

  lemma LastVisitOneMore(urls: seq<string>, i: nat, j: nat)
    requires j <= i < |urls|
    ensures LastVisit(urls[..i + 1], j) == if urls[j] == urls[i] then i else LastVisit(urls[..i], j)
  {
    assert urls[..i + 1][..i] == urls[..i];
  }

  /** While its nodes keep their records and keys, the front stays. */
  lemma SealedFrontKept(sv: Services, before: Nodes, after: Nodes, job: Job, i: nat)
    requires i <= |job.urls| && i <= |job.shares| && before.Keys == after.Keys && SealedFront(sv, before, job, i)
    requires forall u | u in job.urls[..i] && u in before :: SameShare(before[u], after[u], JobKey(job))
    ensures SealedFront(sv, after, job, i)
  {
    hide EciesEncrypt, JobKey;
    var urls := job.urls[..i];
    forall j | 0 <= j < i ensures urls[j] in after && HoldsSealed(sv, after[urls[j]], job, LastVisit(urls, j)) {
      assert urls[j] in urls && HoldsSealed(sv, before[urls[j]], job, LastVisit(urls, j));
      assert SameShare(before[urls[j]], after[urls[j]], JobKey(job));
    }
  }

  /** One more record in its place. */
  lemma SealedFrontGrows(sv: Services, before: Nodes, after: Nodes, job: Job, i: nat)
    requires i < |job.urls| && i < |job.shares| && before.Keys == after.Keys && SealedFront(sv, before, job, i)
    requires forall u | u in job.urls[..i] && u in before && u != job.urls[i] ::
      SameShare(before[u], after[u], JobKey(job))
    requires job.urls[i] in after && HoldsSealed(sv, after[job.urls[i]], job, i)
    ensures SealedFront(sv, after, job, i + 1)
  {
    hide EciesEncrypt, JobKey, LastVisit;
    var urls := job.urls[..i + 1];
    forall j | 0 <= j < i + 1
      ensures urls[j] in after && HoldsSealed(sv, after[urls[j]], job, LastVisit(urls, j))
    {
      LastVisitOneMore(job.urls, i, j);
      if urls[j] != job.urls[i] {
        assert job.urls[..i][j] == urls[j] && urls[j] in job.urls[..i];
        assert HoldsSealed(sv, before[urls[j]], job, LastVisit(job.urls[..i], j));
        assert SameShare(before[urls[j]], after[urls[j]], JobKey(job));
      }
    }
  }

  /** One turn of the distribution loop leaves its record and the earlier ones. */
  lemma PlacingSeals(sv: Services, env: Env, net: Net, job: Job, i: nat)
    requires ForeignEnv(env) && JobOk(job) && i < |job.urls| && Placed(sv, net.nodes, job, i)
    requires CalmPlacing(sv, env, net, job, i, JobKey(job)) && PlaceShare(sv, env, net, job, i).ok
    requires SealedFront(sv, net.nodes, job, i)
    ensures SealedFront(sv, PlaceShare(sv, env, net, job, i).net.nodes, job, i + 1)
  {
    hide Act, RunOthers, PostStore, FetchKey, EciesEncrypt, DecryptShare, SoundRings, AllIdle, Calm, NoRotation,
      Held, Standing, SealedFront, JobKey;
    var url, standing := job.urls[i], Standing(job.urls[..i], job.shares);
    var fetched := FetchKey(sv, env, net, url);
    FetchReaches(sv, env, net, url);
    FetchGivesCurrentKey(sv, env, net, url);
    FetchKeepsPlaced(sv, env, net, job, i);
    CalmKeepsFront(sv, env, net, job, i);
    var pub := sv.suite.pub(fetched.net.nodes[url].ring.ring.nodePriv);
    var e := EciesEncrypt(sv.suite, pub, job.shares[i], job.rand.ephemeral(i), job.rand.nonce(i)).value;
    BodyKey(job, e);
    StoreLands(sv, env, fetched.net, url, StoreBody(job, e), job.urls[..i], standing, JobKey(job));
    BodyRoundTrip(job, e);
    SealedFrontGrows(sv, fetched.net.nodes, PostStore(sv, env, fetched.net, url, StoreBody(job, e)).net.nodes, job, i);
  }

  lemma CalmKeepsFront(sv: Services, env: Env, net: Net, job: Job, i: nat)
    requires i <= |job.urls| && i <= |job.shares| && SealedFront(sv, net.nodes, job, i)
    requires Calm(sv, env, net, job.urls[..i], JobKey(job))
    ensures SealedFront(sv, Interfere(sv, env, net).nodes, job, i)
  {
    hide Interfere, SealedFront, SameShare, JobKey;
    SealedFrontKept(sv, net.nodes, Interfere(sv, env, net).nodes, job, i);
  }

  lemma {:induction false} DistributionSealsAll(sv: Services, env: Env, net: Net, job: Job, i: nat, start: nat)
    requires sv.suite.Lawful() && ForeignEnv(env) && JobOk(job) && i <= |job.urls| <= |job.shares|
    requires Placed(sv, net.nodes, job, i) && CalmDistribution(sv, env, net, job, i) && net.tick == start + 3 * i
    requires SealedFront(sv, net.nodes, job, i) && Distribute(sv, env, net, job, i).ok
    ensures SealedFront(sv, Distribute(sv, env, net, job, i).net.nodes, job, |job.urls|)
    decreases |job.urls| - i
  {
    hide PlaceShare, Placed, CalmPlacing, Again, ForeignEnv, SealedFront, CheckFails;
    if i < |job.urls| {
      FirstPlacing(sv, env, net, job, i);
      hide CalmDistribution, Distribute;
      PlacingAddsOne(sv, env, net, job, i, start);
      PlacingSeals(sv, env, net, job, i);
      DistributionSealsAll(sv, env, PlaceShare(sv, env, net, job, i).net, job, i + 1, start);
    }
  }

  /** Metadata is written only when every listed node stores, under the contract and the hash of the encrypted file,
      the share it was sent last: the public half of that share's ephemeral key, the share sealed under the secret
      this key agrees on with the node's, and the nonce. */
  lemma MetadataMeansSealedRecords(sv: Services, env: Env, net: Net, file: Bytes, contractID: string,
      nodesList: string, n: int, t: int, rand: Randomness)
    requires sv.suite.Lawful() && Ready(sv, env, net) && Distributes(file, contractID, nodesList, n, t, rand)
    requires CalmDistribution(sv, env, net,
      Job(TrimAll(SplitCommas(nodesList)[..n]), contractID,
        HexEncode(sv.suite.sha256(sv.suite.seal(rand.key, rand.fileNonce, file))),
        sv.suite.split(rand.key, n, t, rand.poly).value, rand), 0)
    requires Encrypt(sv, env, net, file, contractID, nodesList, n, t, rand).metadata.Some?
    ensures var e := Encrypt(sv, env, net, file, contractID, nodesList, n, t, rand);
      var urls := TrimAll(SplitCommas(nodesList)[..n]);
      forall j | 0 <= j < n ::
        && urls[j] in e.net.nodes
        && var node, k := e.net.nodes[urls[j]], LastVisit(urls, j);
           var secret := sv.suite.ecdh(rand.ephemeral(k), sv.suite.pub(node.ring.ring.nodePriv));
           && secret.Some? && e.file.Some? && |e.file.value| >= 12
           && ShareStore.Lookup(node.store.bucket, contractID + "_" + HexEncode(sv.suite.sha256(e.file.value[12..])))
             == Some(ShareStore.Record(sv.suite.pub(rand.ephemeral(k)),
                  Some(sv.suite.seal(secret.value, rand.nonce(k), sv.suite.split(rand.key, n, t, rand.poly).value[k])),
                  rand.nonce(k)))
  {
    hide Distribute, SplitCommas, HexEncode, SoundRings, AllIdle, CalmDistribution, Placed, TrimSpace, LastVisit;
    var ct := sv.suite.seal(rand.key, rand.fileNonce, file);
    var job := JobOf(sv, file, contractID, nodesList, n, t, rand);
    var e := Encrypt(sv, env, net, file, contractID, nodesList, n, t, rand);
    EncryptDistributes(sv, env, net, file, contractID, nodesList, n, t, rand);
    EmptyPlaced(sv, net, job);
    DistributionSealsAll(sv, env, net, job, 0, net.tick);
    assert (rand.fileNonce + ct)[12..] == ct;
    var urls := TrimAll(SplitCommas(nodesList)[..n]);
    assert job.urls[..|job.urls|] == job.urls == urls;
    forall j | 0 <= j < n
      ensures urls[j] in e.net.nodes && HoldsSealed(sv, e.net.nodes[urls[j]], job, LastVisit(urls, j))
    {
      assert job.urls[..n][j] == urls[j];
    }
  }
}
