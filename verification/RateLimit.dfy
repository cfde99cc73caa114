/** Token buckets per client address and per object, over real time. The limiter of the whole server and
    the one of the retrieve route draw from the same bucket of an address. */
module RateLimit {
  import opened Basics

  /** A limiter's state: the tokens it had when it last granted, and when that was. */
  datatype Bucket = Bucket(tokens: real, last: real)

  function NewBucket(burst: nat): (b: Bucket) {
    Bucket(burst as real, 0.0)
  }

  /** The tokens that come in over a stretch of time. */
  function Refill(r: real, elapsed: real): (tokens: real) {
    elapsed * r
  }

  /** The tokens at a moment: refilled at the rate since the last grant, never above the burst. */
  function Level(b: Bucket, r: real, burst: nat, now: real): (tokens: real) {
    var elapsed := if now < b.last then 0.0 else now - b.last;
    var tokens := b.tokens + Refill(r, elapsed);
    if tokens > burst as real then burst as real else tokens
  }

  datatype Charged = Charged(bucket: Bucket, ok: bool)

  /** A refusal leaves the bucket as it was. */
  function AllowOne(b: Bucket, r: real, burst: nat, now: real): (c: Charged) {
    var tokens := Level(b, r, burst, now) - 1.0;
    if 1 <= burst && tokens >= 0.0 then Charged(Bucket(tokens, now), true) else Charged(b, false)
  }

  class Limiter {
    const r: real
    const burst: nat
    var tokens: real
    var last: real

    constructor (r: real, burst: nat)
      ensures this.r == r && this.burst == burst && State() == NewBucket(burst)
    {
      this.r, this.burst := r, burst;
      tokens, last := burst as real, 0.0;
    }

    ghost function State(): Bucket reads this {
      Bucket(tokens, last)
    }

    method Allow(now: real) returns (ok: bool)
      modifies this
      ensures Charged(State(), ok) == AllowOne(old(State()), r, burst, now)
    {
      var elapsed := if now < last then 0.0 else now - last;
      var t := tokens + elapsed * r;
      if t > burst as real {
        t := burst as real;
      }
      t := t - 1.0;
      ok := 1 <= burst && t >= 0.0;
      if ok {
        last, tokens := now, t;
      }
    }
  }

  /** Buckets by key; a key not seen yet stands for a full one. */
  type Buckets = map<string, Bucket>

  function BucketOf(v: Buckets, burst: nat, key: string): (b: Bucket) {
    if key in v then v[key] else NewBucket(burst)
  }

  datatype StoreCharged = StoreCharged(view: Buckets, ok: bool)

  function Charge(v: Buckets, r: real, burst: nat, key: string, now: real): (c: StoreCharged) {
    var c := AllowOne(BucketOf(v, burst, key), r, burst, now);
    StoreCharged(v[key := c.bucket], c.ok)
  }

  /** Limiters made on first use and shared from then on: ipLimiterStore, and the map behind the
      per-object quota. */
  class LimiterStore {
    const r: real
    const burst: nat
    var limiters: map<string, Limiter>

    constructor (r: real, burst: nat)
      ensures Valid() && View() == map[] && this.r == r && this.burst == burst && limiters == map[]
    {
      this.r, this.burst, limiters := r, burst, map[];
    }

    ghost predicate Valid() reads this {
      && (forall k | k in limiters :: limiters[k].r == r && limiters[k].burst == burst)
      && (forall k, l | k in limiters && l in limiters && k != l :: limiters[k] != limiters[l])
    }

    ghost function View(): Buckets reads this, limiters.Values {
      map k | k in limiters :: limiters[k].State()
    }

    method Get(key: string) returns (lim: Limiter)
      requires Valid()
      modifies this`limiters
      ensures Valid() && key in limiters && limiters[key] == lim
      ensures limiters.Values <= old(limiters.Values) + {lim}
      ensures lim in old(limiters.Values) || fresh(lim)
      ensures View() == old(View())[key := BucketOf(old(View()), burst, key)]
    {
      if key in limiters {
        lim := limiters[key];
        return;
      }
      lim := new Limiter(r, burst);
      limiters := limiters[key := lim];
    }

    method Allow(key: string, now: real) returns (ok: bool)
      requires Valid()
      modifies this`limiters, limiters.Values
      ensures Valid()
      ensures fresh(limiters.Values - old(limiters.Values))
      ensures StoreCharged(View(), ok) == Charge(old(View()), r, burst, key, now)
    {
      hide AllowOne;
      var lim := Get(key);
      label Charging:
      ghost var mid := View();
      ok := lim.Allow(now);
      forall k | k in limiters && k != key ensures View()[k] == mid[k] {
        assert limiters[k] != lim;
        assert limiters[k].State() == old@Charging(limiters[k].State());
      }
      assert mid[key] == BucketOf(old(View()), burst, key) == old@Charging(lim.State());
      assert View() == old(View())[key := lim.State()];
      assert limiters.Values <= old(limiters.Values) + {lim};
    }
  }

  // ---- how much one key is granted in a window ----

  datatype Event = Event(key: string, now: real)

  /** The clock readings lie in the window, in whatever order. */
  ghost predicate Within(es: seq<Event>, from: real, to: real) {
    forall i | 0 <= i < |es| :: from <= es[i].now <= to
  }

  ghost predicate InOrder(es: seq<Event>) {
    forall i, j | 0 <= i < j < |es| :: es[i].now <= es[j].now
  }

  /** How far in all the readings of the key go back, each against the one before; a limiter reads the clock before
      it takes its lock, so two requests can reach it in the wrong order. */
  ghost function Backward(es: seq<Event>, key: string, clock: real): (total: real)
    ensures total >= 0.0
    decreases |es|
  {
    if es == [] then 0.0
    else if es[0].key != key then Backward(es[1..], key, clock)
    else (if es[0].now < clock then clock - es[0].now else 0.0) + Backward(es[1..], key, es[0].now)
  }

  lemma {:induction false} InOrderNeverGoesBack(es: seq<Event>, key: string, clock: real)
    requires InOrder(es) && forall i | 0 <= i < |es| :: clock <= es[i].now
    ensures Backward(es, key, clock) == 0.0
    decreases |es|
  {
    if es != [] {
      InOrderNeverGoesBack(es[1..], key, if es[0].key == key then es[0].now else clock);
    }
  }

  function RunEvents(v: Buckets, r: real, burst: nat, es: seq<Event>): (v': Buckets)
    decreases |es|
  {
    if |es| == 0 then v else RunEvents(Charge(v, r, burst, es[0].key, es[0].now).view, r, burst, es[1..])
  }

  /** How many events of the key were granted. */
  function Granted(v: Buckets, r: real, burst: nat, es: seq<Event>, key: string): (n: nat)
    decreases |es|
  {
    if es == [] then 0
    else
      var c := Charge(v, r, burst, es[0].key, es[0].now);
      (if es[0].key == key && c.ok then 1 else 0) + Granted(c.view, r, burst, es[1..], key)
  }

  /** No bucket is overdrawn. */
  ghost predicate Solvent(v: Buckets) {
    forall k | k in v :: v[k].tokens >= 0.0
  }

  lemma RefillAdds(r: real, d1: real, d2: real)
    ensures Refill(r, d1 + d2) == Refill(r, d1) + Refill(r, d2)
    ensures r >= 0.0 && d1 >= 0.0 ==> Refill(r, d1) >= 0.0
  {}

  lemma RefillGrows(r: real, d1: real, d2: real)
    requires r >= 0.0 && d1 <= d2
    ensures Refill(r, d1) <= Refill(r, d2)
  {
    hide Refill;
    RefillAdds(r, d2 - d1, d1);
    assert d2 - d1 + d1 == d2;
  }

  function Ahead(s: real, t: real): (d: real) {
    if s < t then t - s else 0.0
  }

  /** From one reading to another, later or not, the level rises by no more than the refill of the time ahead. */
  lemma LevelIsBounded(b: Bucket, r: real, burst: nat, s: real, t: real)
    requires r >= 0.0
    ensures Level(b, r, burst, t) <= Level(b, r, burst, s) + Refill(r, Ahead(s, t))
  {
    hide Refill;
    var before, after := Ahead(b.last, s), Ahead(b.last, t);
    RefillGrows(r, after, before + Ahead(s, t));
    RefillAdds(r, before, Ahead(s, t));
    RefillAdds(r, Ahead(s, t), 0.0);
    var x, y := b.tokens + Refill(r, before), b.tokens + Refill(r, after);
    assert Level(b, r, burst, s) == if x > burst as real then burst as real else x;
    assert Level(b, r, burst, t) == if y > burst as real then burst as real else y;
  }

  /** Between two readings a key can be given no more than its level at the first plus the refill. */
  lemma AllowIsPaidFor(b: Bucket, r: real, burst: nat, s: real, t: real)
    requires r >= 0.0 && b.tokens >= 0.0
    ensures var c := AllowOne(b, r, burst, t);
      && c.bucket.tokens >= 0.0
      && Level(c.bucket, r, burst, t) + (if c.ok then 1.0 else 0.0) <= Level(b, r, burst, s) + Refill(r, Ahead(s, t))
  {
    hide Refill;
    LevelIsBounded(b, r, burst, s, t);
    LevelAtMostBurst(b, r, burst, t);
    RefillAdds(r, 0.0, 0.0);
  }

  lemma {:induction false} GrantedWithin(v: Buckets, r: real, burst: nat, es: seq<Event>, key: string, clock: real,
      to: real)
    requires r >= 0.0 && clock <= to && Solvent(v) && forall i | 0 <= i < |es| :: es[i].now <= to
    ensures Granted(v, r, burst, es, key) as real
      <= Level(BucketOf(v, burst, key), r, burst, clock) + Refill(r, to - clock + Backward(es, key, clock))
    decreases |es|
  {
    hide Refill;
    if es == [] {
      RefillAdds(r, to - clock, 0.0);
      RefillAdds(r, Ahead(BucketOf(v, burst, key).last, clock), 0.0);
    } else {
      hide Level, AllowOne;
      var now := es[0].now;
      var c := Charge(v, r, burst, es[0].key, now);
      AllowIsPaidFor(BucketOf(v, burst, es[0].key), r, burst, clock, now);
      if es[0].key == key {
        GrantedWithin(c.view, r, burst, es[1..], key, now, to);
        RefillAdds(r, Ahead(clock, now), to - now + Backward(es[1..], key, now));
        assert Ahead(clock, now) + (to - now + Backward(es[1..], key, now)) == to - clock + Backward(es, key, clock);
      } else {
        GrantedWithin(c.view, r, burst, es[1..], key, clock, to);
      }
    }
  }

  lemma LevelAtMostBurst(b: Bucket, r: real, burst: nat, now: real)
    ensures Level(b, r, burst, now) <= burst as real
  {}

  /** What one limiter lets through in T seconds. */
  ghost function Allowance(r: real, burst: nat, es: seq<Event>, key: string, from: real, T: real): (x: real) {
    burst as real + (T + Backward(es, key, from)) * r
  }

  lemma AllowanceAtLeastBurst(r: real, burst: nat, es: seq<Event>, key: string, from: real, T: real)
    requires r >= 0.0 && T >= 0.0
    ensures Allowance(r, burst, es, key, from, T) >= burst as real
  {
    RefillAdds(r, T + Backward(es, key, from), 0.0);
  }

  /** In any window of T seconds one key is granted at most burst + rate * T requests, and rate times what its
      clock readings go back in all, whatever the others do and whatever happened before. */
  lemma WindowBound(v: Buckets, r: real, burst: nat, es: seq<Event>, key: string, from: real, T: real)
    requires r >= 0.0 && T >= 0.0 && Solvent(v) && Within(es, from, from + T)
    ensures Granted(v, r, burst, es, key) as real <= Allowance(r, burst, es, key, from, T)
    ensures InOrder(es) ==> Granted(v, r, burst, es, key) as real <= burst as real + T * r
  {
    hide Level, Granted, BucketOf, Backward;
    GrantedWithin(v, r, burst, es, key, from, from + T);
    LevelAtMostBurst(BucketOf(v, burst, key), r, burst, from);
    assert from + T - from == T;
    if InOrder(es) {
      InOrderNeverGoesBack(es, key, from);
    }
  }

  /** The term for readings that go back is needed: at rate 1 and burst 3, readings of 10, 9, 10, 9 and 10 are
      all granted, in a window of length 1. */
  lemma BackwardTermIsNeeded()
    ensures var es := [Event("", 10.0), Event("", 9.0), Event("", 10.0), Event("", 9.0), Event("", 10.0)];
      Within(es, 9.0, 10.0) && Granted(map[], 1.0, 3, es, "") as real > 3.0 + 1.0 * 1.0
  {
    hide Charge, Granted, Within;
    var e9, e10 := Event("", 9.0), Event("", 10.0);
    var es := [e10] + ([e9] + ([e10] + ([e9] + [e10])));
    assert [e10, e9, e10, e9, e10] == es;
    FiveGranted(e9, e10);
    AllWithin(e9, e10);
  }

  lemma AllWithin(e9: Event, e10: Event)
    requires e9.now == 9.0 && e10.now == 10.0
    ensures Within([e10] + ([e9] + ([e10] + ([e9] + [e10]))), 9.0, 10.0)
  {}

  lemma FiveGranted(e9: Event, e10: Event)
    requires e9 == Event("", 9.0) && e10 == Event("", 10.0)
    ensures Granted(map[], 1.0, 3, [e10] + ([e9] + ([e10] + ([e9] + [e10]))), "") == 5
  {
    hide *;
    var v1, v2 := map["" := Bucket(2.0, 10.0)], map["" := Bucket(1.0, 9.0)];
    var v3, v4 := map["" := Bucket(1.0, 10.0)], map["" := Bucket(0.0, 9.0)];
    var v5 := map["" := Bucket(0.0, 10.0)];
    FirstReading();
    LaterReading(2.0, 10.0, 9.0, 1.0);
    LaterReading(1.0, 9.0, 10.0, 1.0);
    LaterReading(1.0, 10.0, 9.0, 0.0);
    LaterReading(0.0, 9.0, 10.0, 0.0);
    GrantedNone(v5, 1.0, 3, "");
    GrantedCons(v4, 1.0, 3, e10, [], "");
    assert [e10] + [] == [e10];
    GrantedCons(v3, 1.0, 3, e9, [e10], "");
    GrantedCons(v2, 1.0, 3, e10, [e9] + [e10], "");
    GrantedCons(v1, 1.0, 3, e9, [e10] + ([e9] + [e10]), "");
    GrantedCons(map[], 1.0, 3, e10, [e9] + ([e10] + ([e9] + [e10])), "");
  }

  lemma FirstReading()
    ensures Charge(map[], 1.0, 3, "", 10.0) == StoreCharged(map["" := Bucket(2.0, 10.0)], true)
  {
    OneReading(map[], NewBucket(3), 10.0, Bucket(2.0, 10.0));
  }

  lemma LaterReading(tokens: real, last: real, now: real, left: real)
    requires 1.0 <= tokens + (if now < last then 0.0 else now - last) <= 3.0
    requires left == tokens + (if now < last then 0.0 else now - last) - 1.0
    ensures Charge(map["" := Bucket(tokens, last)], 1.0, 3, "", now)
      == StoreCharged(map["" := Bucket(left, now)], true)
  {
    assert AllowOne(Bucket(tokens, last), 1.0, 3, now) == Charged(Bucket(left, now), true);
    hide AllowOne;
    OneReading(map["" := Bucket(tokens, last)], Bucket(tokens, last), now, Bucket(left, now));
  }

  lemma GrantedNone(v: Buckets, r: real, burst: nat, key: string)
    ensures Granted(v, r, burst, [], key) == 0
  {}

  lemma OneReading(v: Buckets, b: Bucket, now: real, b': Bucket)
    requires BucketOf(v, 3, "") == b && v.Keys <= {""} && AllowOne(b, 1.0, 3, now) == Charged(b', true)
    ensures Charge(v, 1.0, 3, "", now) == StoreCharged(map["" := b'], true)
  {
    hide AllowOne;
    assert v["" := b'] == map["" := b'];
  }

  lemma GrantedCons(v: Buckets, r: real, burst: nat, e: Event, rest: seq<Event>, key: string)
    ensures var c := Charge(v, r, burst, e.key, e.now);
      Granted(v, r, burst, [e] + rest, key)
        == (if e.key == key && c.ok then 1 else 0) + Granted(c.view, r, burst, rest, key)
  {
    assert ([e] + rest)[1..] == rest;
  }

  /** The two stores' buckets are the same, a key not seen yet standing for a full one. */
  ghost predicate SameBuckets(v: Buckets, w: Buckets, burst: nat) {
    forall key :: BucketOf(v, burst, key) == BucketOf(w, burst, key)
  }

  /** The draws that were granted. */
  ghost function GrantedOnly(v: Buckets, r: real, burst: nat, es: seq<Event>): (kept: seq<Event>)
    decreases |es|
  {
    if es == [] then []
    else
      var c := Charge(v, r, burst, es[0].key, es[0].now);
      (if c.ok then [es[0]] else []) + GrantedOnly(c.view, r, burst, es[1..])
  }

  /** A refusal takes nothing: without the refused draws a history leaves the same buckets, and grants the same. */
  lemma {:induction false} RefusalsLeaveNoTrace(v: Buckets, w: Buckets, r: real, burst: nat, es: seq<Event>)
    requires SameBuckets(v, w, burst)
    ensures var kept := GrantedOnly(v, r, burst, es);
      && SameBuckets(RunEvents(v, r, burst, es), RunEvents(w, r, burst, kept), burst)
      && forall key :: Granted(v, r, burst, es, key) == Granted(w, r, burst, kept, key)
    decreases |es|
  {
    if es != [] {
      var e := es[0];
      var c := Charge(v, r, burst, e.key, e.now);
      OneDrawAgrees(v, w, r, burst, e);
      hide AllowOne, SameBuckets, Charge;
      if c.ok {
        var rest := GrantedOnly(c.view, r, burst, es[1..]);
        assert ([e] + rest)[1..] == rest;
        RefusalsLeaveNoTrace(c.view, Charge(w, r, burst, e.key, e.now).view, r, burst, es[1..]);
      } else {
        RefusalsLeaveNoTrace(c.view, w, r, burst, es[1..]);
        assert [] + GrantedOnly(c.view, r, burst, es[1..]) == GrantedOnly(c.view, r, burst, es[1..]);
      }
    }
  }

  lemma OneDrawAgrees(v: Buckets, w: Buckets, r: real, burst: nat, e: Event)
    requires SameBuckets(v, w, burst)
    ensures var c, d := Charge(v, r, burst, e.key, e.now), Charge(w, r, burst, e.key, e.now);
      && c.ok == d.ok && SameBuckets(c.view, d.view, burst)
      && (!c.ok ==> SameBuckets(c.view, w, burst))
  {
    hide AllowOne;
    assert BucketOf(v, burst, e.key) == BucketOf(w, burst, e.key);
    var c, d := Charge(v, r, burst, e.key, e.now), Charge(w, r, burst, e.key, e.now);
    forall key
      ensures BucketOf(c.view, burst, key) == BucketOf(d.view, burst, key)
      ensures !c.ok ==> BucketOf(c.view, burst, key) == BucketOf(w, burst, key)
    {
      RefusedBucketStays(BucketOf(v, burst, e.key), r, burst, e.now);
      assert BucketOf(v, burst, key) == BucketOf(w, burst, key);
    }
  }

  lemma RefusedBucketStays(b: Bucket, r: real, burst: nat, now: real)
    ensures !AllowOne(b, r, burst, now).ok ==> AllowOne(b, r, burst, now).bucket == b
  {}

  /** How often the key is asked for. */
  ghost function Asked(es: seq<Event>, key: string): (n: nat) {
    if es == [] then 0 else (if es[0].key == key then 1 else 0) + Asked(es[1..], key)
  }

  /** With k tokens there, the first k draws are granted, whenever they come and whatever comes between. */
  lemma {:induction false} FirstArePaid(v: Buckets, r: real, burst: nat, es: seq<Event>, key: string, k: nat)
    requires r >= 0.0 && k <= burst && BucketOf(v, burst, key).tokens >= k as real
    ensures Granted(v, r, burst, es, key) >= if Asked(es, key) < k then Asked(es, key) else k
    decreases |es|
  {
    if es != [] && k > 0 {
      var c := Charge(v, r, burst, es[0].key, es[0].now);
      if es[0].key == key {
        RefillAdds(r, Ahead(BucketOf(v, burst, key).last, es[0].now), 0.0);
        assert Level(BucketOf(v, burst, key), r, burst, es[0].now) >= k as real;
        GrantOne(v, r, burst, key, es[0].now);
        FirstArePaid(c.view, r, burst, es[1..], key, k - 1);
      } else {
        FirstArePaid(c.view, r, burst, es[1..], key, k);
      }
    }
  }

  // ---- the quota of one object ----

  const OBJECT_BURST := 5

  function ObjectKey(objectID: string): (key: string) {
    "obj:" + objectID
  }

  /** One token a second and a burst of five, per object. */
  method CheckObjectRateLimit(store: LimiterStore, objectID: string, now: real) returns (ok: bool)
    requires store.Valid() && store.r == 1.0 && store.burst == OBJECT_BURST
    modifies store`limiters, store.limiters.Values
    ensures store.Valid()
    ensures fresh(store.limiters.Values - old(store.limiters.Values))
    ensures StoreCharged(store.View(), ok) == Charge(old(store.View()), 1.0, OBJECT_BURST, ObjectKey(objectID), now)
  {
    ok := store.Allow("obj:" + objectID, now);
  }

  lemma {:induction false} HistoryStaysSolvent(v: Buckets, r: real, burst: nat, es: seq<Event>)
    requires r >= 0.0 && Solvent(v)
    ensures Solvent(RunEvents(v, r, burst, es))
    decreases |es|
  {
    if es != [] {
      hide AllowOne;
      AllowIsPaidFor(BucketOf(v, burst, es[0].key), r, burst, 0.0, es[0].now);
      HistoryStaysSolvent(Charge(v, r, burst, es[0].key, es[0].now).view, r, burst, es[1..]);
    }
  }

  /** After any history of requests for any objects, one object passes its quota at most 5 + T times in any
      T seconds, and as often as its clock readings go back in seconds, independently of what is asked of the
      others meanwhile. */
  lemma ObjectQuota(history: seq<Event>, window: seq<Event>, objectID: string, from: real, T: real)
    requires T >= 0.0 && Within(window, from, from + T)
    ensures var v := RunEvents(map[], 1.0, OBJECT_BURST, history);
      var passed := Granted(v, 1.0, OBJECT_BURST, window, ObjectKey(objectID));
      && passed as real <= 5.0 + T + Backward(window, ObjectKey(objectID), from)
      && (InOrder(window) ==> passed as real <= 5.0 + T)
  {
    hide RunEvents, Granted, Backward;
    HistoryStaysSolvent(map[], 1.0, OBJECT_BURST, history);
    WindowBound(RunEvents(map[], 1.0, OBJECT_BURST, history), 1.0, OBJECT_BURST, window, ObjectKey(objectID), from, T);
  }

  /** Every object has a quota of its own: no two share a bucket, and after any history of requests for others the
      first five for an object pass, whatever is asked meanwhile. */
  lemma FreshObjectPasses(history: seq<Event>, es: seq<Event>, objectID: string, other: string)
    requires Asked(history, ObjectKey(objectID)) == 0
    ensures ObjectKey(objectID) == ObjectKey(other) <==> objectID == other
    ensures var key := ObjectKey(objectID);
      var passed := Granted(RunEvents(map[], 1.0, 5, history), 1.0, 5, es, key);
      passed >= if Asked(es, key) < 5 then Asked(es, key) else 5
  {
    hide RunEvents, Granted, Asked;
    assert ObjectKey(objectID)[4..] == objectID && ObjectKey(other)[4..] == other;
    NotAskedStaysFull(map[], 1.0, 5, history, ObjectKey(objectID));
    FirstArePaid(RunEvents(map[], 1.0, 5, history), 1.0, 5, es, ObjectKey(objectID), 5);
  }

  lemma {:induction false} NotAskedStaysFull(v: Buckets, r: real, burst: nat, es: seq<Event>, key: string)
    requires Asked(es, key) == 0
    ensures BucketOf(RunEvents(v, r, burst, es), burst, key) == BucketOf(v, burst, key)
    decreases |es|
  {
    if es != [] {
      hide AllowOne;
      NotAskedStaysFull(Charge(v, r, burst, es[0].key, es[0].now).view, r, burst, es[1..], key);
    }
  }

  // ---- the address limiter, drawn on twice by /retrieve ----

  /** The client address without the port: the part before the first colon. */
  function IpOf(remoteAddr: string): (host: string) {
    if remoteAddr == "" || remoteAddr[0] == ':' then "" else [remoteAddr[0]] + IpOf(remoteAddr[1..])
  }

  /** The request comes from the host, over whatever port: the address is the host, a colon and a port, or just the
      host. */
  predicate FromHost(remoteAddr: string, host: string) {
    remoteAddr == host
    || (|remoteAddr| > |host| && remoteAddr[..|host|] == host && remoteAddr[|host|] == ':')
  }

  /** Requests share a bucket exactly when they come from one host. */
  lemma {:induction false} IpOfExactly(remoteAddr: string, host: string)
    requires ':' !in host
    ensures IpOf(remoteAddr) == host <==> FromHost(remoteAddr, host)
    decreases |remoteAddr|
  {
    if remoteAddr != "" && remoteAddr[0] != ':' {
      if host == "" {
        assert |IpOf(remoteAddr)| > 0;
      } else {
        var rest, tail := remoteAddr[1..], host[1..];
        IpOfExactly(rest, tail);
        assert remoteAddr == [remoteAddr[0]] + rest && host == [host[0]] + tail;
        assert |rest| > |tail| ==> remoteAddr[|host|] == rest[|tail|] && rest[..|tail|] == remoteAddr[1..|host|];
        assert |remoteAddr| > |host| ==> remoteAddr[..|host|] == [remoteAddr[0]] + remoteAddr[1..|host|];
      }
    } else if remoteAddr != "" && host != "" {
      assert host[0] in host && remoteAddr[0] != host[0];
      assert |remoteAddr| > |host| ==> remoteAddr[..|host|][0] == remoteAddr[0];
    }
  }

  lemma {:induction false} OwnHost(remoteAddr: string)
    ensures ':' !in IpOf(remoteAddr) && FromHost(remoteAddr, IpOf(remoteAddr))
  {
    NoColon(remoteAddr);
    IpOfExactly(remoteAddr, IpOf(remoteAddr));
  }

  lemma {:induction false} NoColon(remoteAddr: string)
    ensures ':' !in IpOf(remoteAddr)
  {
    if remoteAddr != "" && remoteAddr[0] != ':' {
      NoColon(remoteAddr[1..]);
    }
  }

  /** In particular the port does not matter. */
  lemma IpOfHostPort(host: string, port: string)
    requires ':' !in host
    ensures IpOf(host + ":" + port) == host
  {
    var addr := host + ":" + port;
    assert addr[..|host|] == host && addr[|host|] == ':';
    IpOfExactly(addr, host);
  }

  /** What comes before the first colon of an IPv6 address is a bracket and its first group, so all clients with the
      same first group count as one host. */
  lemma BracketedAddressesShare(group: string, rest1: string, rest2: string)
    requires ':' !in group
    ensures IpOf("[" + group + ":" + rest1) == IpOf("[" + group + ":" + rest2) == "[" + group
  {
    IpOfHostPort("[" + group, rest1);
    IpOfHostPort("[" + group, rest2);
  }

  /** The middleware's decision for one request: it draws one token from the bucket of the address. */
  method RateLimitMiddleware(store: LimiterStore, remoteAddr: string, now: real) returns (pass: bool)
    requires store.Valid()
    modifies store`limiters, store.limiters.Values
    ensures store.Valid()
    ensures fresh(store.limiters.Values - old(store.limiters.Values))
    ensures StoreCharged(store.View(), pass) == Charge(old(store.View()), store.r, store.burst, IpOf(remoteAddr), now)
  {
    pass := store.Allow(IpOf(remoteAddr), now);
  }

  type RequestId = nat

  /** One draw per request: its address and the clock reading. */
  datatype Draw = Draw(remoteAddr: string, now: real)

  function DrawEvent(d: Draw): (e: Event) {
    Event(IpOf(d.remoteAddr), d.now)
  }

  ghost function DrawEvents(draws: seq<Draw>): (es: seq<Event>) {
    seq(|draws|, i requires 0 <= i < |draws| => DrawEvent(draws[i]))
  }

  /** How many requests of the host the middleware lets through, over all its ports. */
  ghost function LetThrough(v: Buckets, r: real, burst: nat, draws: seq<Draw>, host: string): (n: nat)
    decreases |draws|
  {
    if draws == [] then 0
    else
      var c := Charge(v, r, burst, IpOf(draws[0].remoteAddr), draws[0].now);
      (if FromHost(draws[0].remoteAddr, host) && c.ok then 1 else 0) + LetThrough(c.view, r, burst, draws[1..], host)
  }

  lemma {:induction false} LetThroughIsGranted(v: Buckets, r: real, burst: nat, draws: seq<Draw>, host: string)
    requires ':' !in host
    ensures LetThrough(v, r, burst, draws, host) == Granted(v, r, burst, DrawEvents(draws), host)
    decreases |draws|
  {
    if draws != [] {
      hide Charge;
      var c := Charge(v, r, burst, IpOf(draws[0].remoteAddr), draws[0].now);
      IpOfExactly(draws[0].remoteAddr, host);
      LetThroughIsGranted(c.view, r, burst, draws[1..], host);
      assert DrawEvents(draws)[1..] == DrawEvents(draws[1..]);
    }
  }

  /** In any window of T seconds the middleware lets through at most burst + rate * T requests of one host, over all
      its ports together, and rate times what their clock readings go back. */
  lemma HostWindowBound(v: Buckets, r: real, burst: nat, draws: seq<Draw>, host: string, from: real, T: real)
    requires r >= 0.0 && T >= 0.0 && Solvent(v) && ':' !in host
    requires forall i | 0 <= i < |draws| :: from <= draws[i].now <= from + T
    ensures LetThrough(v, r, burst, draws, host) as real <= Allowance(r, burst, DrawEvents(draws), host, from, T)
    ensures InOrder(DrawEvents(draws)) ==> LetThrough(v, r, burst, draws, host) as real <= burst as real + T * r
  {
    hide LetThrough, Granted, Allowance;
    LetThroughIsGranted(v, r, burst, draws, host);
    WindowBound(v, r, burst, DrawEvents(draws), host, from, T);
  }

  /** The buckets, and the retrieve requests on their way from the server's limiter to the route's, with their
      addresses. */
  datatype Traffic = Traffic(view: Buckets, waiting: map<RequestId, string>)

  /** Outer is the limiter around the whole server, met by every request; Inner is the one around the
      retrieve route. Other requests may come between the two. */
  datatype Arrival =
    | Outer(q: RequestId, remoteAddr: string, now: real, retrieve: bool)
    | Inner(q: RequestId, now: real)

  /** An arrival that makes sense: requests are new at the first limiter and known at the second. */
  predicate Due(tr: Traffic, a: Arrival) {
    match a
    case Outer(q, _, _, _) => q !in tr.waiting
    case Inner(q, _) => q in tr.waiting
  }

  function ArrivalEvent(tr: Traffic, a: Arrival): (e: Event)
    requires Due(tr, a)
  {
    match a
    case Outer(_, addr, now, _) => Event(IpOf(addr), now)
    case Inner(q, now) => Event(IpOf(tr.waiting[q]), now)
  }

  function ArrivalCharge(tr: Traffic, r: real, burst: nat, a: Arrival): (c: StoreCharged)
    requires Due(tr, a)
  {
    Charge(tr.view, r, burst, ArrivalEvent(tr, a).key, ArrivalEvent(tr, a).now)
  }

  /** A granted retrieve request goes on from the first limiter; the second one lets it through to the
      handler or ends it. */
  function Arrive(tr: Traffic, r: real, burst: nat, a: Arrival): (tr': Traffic)
    requires Due(tr, a)
  {
    var c := ArrivalCharge(tr, r, burst, a);
    match a
    case Outer(q, addr, _, retrieve) =>
      Traffic(c.view, if c.ok && retrieve then tr.waiting[q := addr] else tr.waiting)
    case Inner(q, _) => Traffic(c.view, tr.waiting - {q})
  }

  ghost predicate AllDue(tr: Traffic, r: real, burst: nat, arrivals: seq<Arrival>)
    decreases |arrivals|
  {
    arrivals == [] || (Due(tr, arrivals[0]) && AllDue(Arrive(tr, r, burst, arrivals[0]), r, burst, arrivals[1..]))
  }

  /** How many requests of the address reach the handler. */
  ghost function Reached(tr: Traffic, r: real, burst: nat, arrivals: seq<Arrival>, host: string): (n: nat)
    requires AllDue(tr, r, burst, arrivals)
    decreases |arrivals|
  {
    if arrivals == [] then 0
    else
      var a := arrivals[0];
      (if a.Inner? && FromHost(tr.waiting[a.q], host) && ArrivalCharge(tr, r, burst, a).ok then 1 else 0)
        + Reached(Arrive(tr, r, burst, a), r, burst, arrivals[1..], host)
  }

  /** The draws on the buckets, in order. */
  ghost function Draws(tr: Traffic, r: real, burst: nat, arrivals: seq<Arrival>): (es: seq<Event>)
    requires AllDue(tr, r, burst, arrivals)
    ensures |es| == |arrivals|
    decreases |arrivals|
  {
    if arrivals == [] then []
    else [ArrivalEvent(tr, arrivals[0])] + Draws(Arrive(tr, r, burst, arrivals[0]), r, burst, arrivals[1..])
  }

  /** The retrieve requests of an address between its two limiters. */
  ghost function InFlight(tr: Traffic, host: string): (qs: set<RequestId>) {
    set q | q in tr.waiting && FromHost(tr.waiting[q], host)
  }

  lemma WaitingGrows(view: Buckets, waiting: map<RequestId, string>, q: RequestId, addr: string, host: string)
    requires q !in waiting
    ensures |InFlight(Traffic(view, waiting[q := addr]), host)|
      == |InFlight(Traffic(view, waiting), host)| + (if FromHost(addr, host) then 1 else 0)
  {
    var before, after := InFlight(Traffic(view, waiting), host), InFlight(Traffic(view, waiting[q := addr]), host);
    assert after == if FromHost(addr, host) then before + {q} else before;
  }

  lemma WaitingShrinks(view: Buckets, waiting: map<RequestId, string>, q: RequestId, host: string)
    requires q in waiting
    ensures |InFlight(Traffic(view, waiting - {q}), host)|
      == |InFlight(Traffic(view, waiting), host)| - (if FromHost(waiting[q], host) then 1 else 0)
  {
    var before, after := InFlight(Traffic(view, waiting), host), InFlight(Traffic(view, waiting - {q}), host);
    assert after == if FromHost(waiting[q], host) then before - {q} else before;
  }

  /** Each request that reaches the handler was granted twice, except for the first grant of those that
      were already past the first limiter. */
  lemma {:induction false} ReachedArePaidTwice(tr: Traffic, r: real, burst: nat, arrivals: seq<Arrival>, host: string)
    requires AllDue(tr, r, burst, arrivals) && ':' !in host
    ensures 2 * Reached(tr, r, burst, arrivals, host)
      <= Granted(tr.view, r, burst, Draws(tr, r, burst, arrivals), host) + |InFlight(tr, host)|
    decreases |arrivals|
  {
    if arrivals != [] {
      hide Charge, InFlight, IpOf, FromHost;
      var a := arrivals[0];
      var tr' := Arrive(tr, r, burst, a);
      if a.Inner? {
        IpOfExactly(tr.waiting[a.q], host);
        WaitingShrinks(tr'.view, tr.waiting, a.q, host);
      } else {
        IpOfExactly(a.remoteAddr, host);
        WaitingGrows(tr'.view, tr.waiting, a.q, a.remoteAddr, host);
      }
      SameFlight(tr.view, tr'.view, tr.waiting, host);
      ReachedArePaidTwice(tr', r, burst, arrivals[1..], host);
      assert Draws(tr, r, burst, arrivals)[1..] == Draws(tr', r, burst, arrivals[1..]);
    }
  }

  lemma SameFlight(v1: Buckets, v2: Buckets, waiting: map<RequestId, string>, host: string)
    ensures InFlight(Traffic(v1, waiting), host) == InFlight(Traffic(v2, waiting), host)
  {}

  /** In any window of T seconds, n requests of one address reach the retrieve handler only if
      2 n <= burst + rate * T + f, where f of its requests were between the two limiters when the window opened;
      with none under way that is half of what a single limiter would let through. Clock readings that go back add
      what they add to a single limiter. */
  lemma DoubleChargeBound(tr: Traffic, r: real, burst: nat, arrivals: seq<Arrival>, host: string, from: real, T: real)
    requires r >= 0.0 && T >= 0.0 && Solvent(tr.view) && AllDue(tr, r, burst, arrivals) && ':' !in host
    requires Within(Draws(tr, r, burst, arrivals), from, from + T)
    ensures var es := Draws(tr, r, burst, arrivals);
      var reached := Reached(tr, r, burst, arrivals, host);
      && 2.0 * reached as real <= Allowance(r, burst, es, host, from, T) + |InFlight(tr, host)| as real
      && (InOrder(es) ==> 2.0 * reached as real <= burst as real + T * r + |InFlight(tr, host)| as real)
  {
    hide Reached, Granted, InFlight, Draws, AllDue, Backward;
    WindowBound(tr.view, r, burst, Draws(tr, r, burst, arrivals), host, from, T);
    ReachedArePaidTwice(tr, r, burst, arrivals, host);
  }

  // ---- traffic that can arise ----

  const START := Traffic(map[], map[])

  ghost function RunArrivals(tr: Traffic, r: real, burst: nat, arrivals: seq<Arrival>): (tr': Traffic)
    requires AllDue(tr, r, burst, arrivals)
    decreases |arrivals|
  {
    if arrivals == [] then tr else RunArrivals(Arrive(tr, r, burst, arrivals[0]), r, burst, arrivals[1..])
  }

  lemma {:induction false} ArrivalsStaySolvent(tr: Traffic, r: real, burst: nat, arrivals: seq<Arrival>)
    requires r >= 0.0 && Solvent(tr.view) && AllDue(tr, r, burst, arrivals)
    ensures Solvent(RunArrivals(tr, r, burst, arrivals).view)
    decreases |arrivals|
  {
    if arrivals != [] {
      hide AllowOne;
      var e := ArrivalEvent(tr, arrivals[0]);
      AllowIsPaidFor(BucketOf(tr.view, burst, e.key), r, burst, 0.0, e.now);
      ArrivalsStaySolvent(Arrive(tr, r, burst, arrivals[0]), r, burst, arrivals[1..]);
    }
  }

  /** Arrivals from the start of the limiter on, in order and up to this moment, lead to the traffic. */
  ghost predicate ReachableAt(tr: Traffic, r: real, burst: nat, now: real) {
    exists history :: LeadsTo(history, r, burst, now, tr)
  }

  ghost predicate LeadsTo(history: seq<Arrival>, r: real, burst: nat, now: real, tr: Traffic) {
    && AllDue(START, r, burst, history) && RunArrivals(START, r, burst, history) == tr
    && Within(Draws(START, r, burst, history), 0.0, now) && InOrder(Draws(START, r, burst, history))
  }

  /** The first f requests, all of one address, between the two limiters. */
  ghost function UnderWay(f: nat, addr: string): (waiting: map<RequestId, string>)
    ensures forall q: RequestId :: q in waiting <==> q < f
    ensures forall q | q in waiting :: waiting[q] == addr
  {
    if f == 0 then map[] else UnderWay(f - 1, addr)[f - 1 := addr]
  }

  lemma {:induction false} UnderWayCount(view: Buckets, f: nat, addr: string)
    ensures |InFlight(Traffic(view, UnderWay(f, addr)), IpOf(addr))| == f
  {
    hide IpOf, FromHost;
    OwnHost(addr);
    if f > 0 {
      WaitingGrows(view, UnderWay(f - 1, addr), f - 1, addr, IpOf(addr));
      UnderWayCount(view, f - 1, addr);
    }
  }

  lemma DueCons(tr: Traffic, r: real, burst: nat, a: Arrival, rest: seq<Arrival>, host: string)
    requires Due(tr, a) && AllDue(Arrive(tr, r, burst, a), r, burst, rest)
    ensures AllDue(tr, r, burst, [a] + rest)
    ensures RunArrivals(tr, r, burst, [a] + rest) == RunArrivals(Arrive(tr, r, burst, a), r, burst, rest)
    ensures Reached(tr, r, burst, [a] + rest, host)
      == (if a.Inner? && FromHost(tr.waiting[a.q], host) && ArrivalCharge(tr, r, burst, a).ok then 1 else 0)
        + Reached(Arrive(tr, r, burst, a), r, burst, rest, host)
  {
    assert ([a] + rest)[1..] == rest;
  }

  function TimeOf(a: Arrival): (now: real) {
    a.now
  }

  lemma {:induction false} DrawTimes(tr: Traffic, r: real, burst: nat, arrivals: seq<Arrival>)
    requires AllDue(tr, r, burst, arrivals)
    ensures forall i | 0 <= i < |arrivals| :: Draws(tr, r, burst, arrivals)[i].now == TimeOf(arrivals[i])
    decreases |arrivals|
  {
    if arrivals != [] {
      hide Arrive;
      DrawTimes(Arrive(tr, r, burst, arrivals[0]), r, burst, arrivals[1..]);
      assert forall i | 0 < i < |arrivals| :: arrivals[i] == arrivals[1..][i - 1];
    }
  }

  lemma GrantOne(v: Buckets, r: real, burst: nat, key: string, now: real)
    requires Level(BucketOf(v, burst, key), r, burst, now) >= 1.0
    ensures var c := Charge(v, r, burst, key, now);
      && c.ok
      && c.view == v[key := Bucket(Level(BucketOf(v, burst, key), r, burst, now) - 1.0, now)]
      && Level(BucketOf(c.view, burst, key), r, burst, now) == Level(BucketOf(v, burst, key), r, burst, now) - 1.0
  {
    LevelAtMostBurst(BucketOf(v, burst, key), r, burst, now);
  }

  // ---- a run that leaves f requests under way and the bucket full ----

  /** The moment of the i-th of several requests, one token apart. */
  function Moment(i: nat, gap: real): (now: real) {
    i as real * gap
  }

  /** The bucket of the address after f of them. */
  ghost function SpacedView(burst: nat, f: nat, gap: real, host: string): (v: Buckets) {
    if f == 0 then map[] else map[host := Bucket(burst as real - 1.0, Moment(f - 1, gap))]
  }

  /** The requests i up to f at the first limiter, each a token's time after the one before. */
  ghost function Spaced(i: nat, f: nat, gap: real, addr: string): (arrivals: seq<Arrival>)
    decreases f - i
  {
    if i >= f then [] else [Outer(i, addr, Moment(i, gap), true)] + Spaced(i + 1, f, gap, addr)
  }

  /** By the next moment the bucket is full again. */
  lemma FullAgain(r: real, burst: nat, f: nat, gap: real, host: string)
    requires r > 0.0 && burst >= 1 && gap * r == 1.0
    ensures Level(BucketOf(SpacedView(burst, f, gap, host), burst, host), r, burst, Moment(f, gap)) == burst as real
  {
    GapIsPositive(r, gap);
    if f == 0 {
      assert Moment(0, gap) == 0.0;
    } else {
      assert Moment(f, gap) == Moment(f - 1, gap) + gap;
    }
  }

  lemma GapIsPositive(r: real, gap: real)
    requires r > 0.0 && gap * r == 1.0
    ensures gap > 0.0
  {}

  lemma SpacedStep(r: real, burst: nat, i: nat, gap: real, addr: string)
    requires r > 0.0 && burst >= 1 && gap * r == 1.0
    ensures var ip := IpOf(addr);
      var tr := Traffic(SpacedView(burst, i, gap, ip), UnderWay(i, addr));
      var a := Outer(i, addr, Moment(i, gap), true);
      && Due(tr, a)
      && Arrive(tr, r, burst, a) == Traffic(SpacedView(burst, i + 1, gap, ip), UnderWay(i + 1, addr))
  {
    hide IpOf, Charge, Level, Moment;
    var ip := IpOf(addr);
    var view := SpacedView(burst, i, gap, ip);
    FullAgain(r, burst, i, gap, ip);
    GrantOne(view, r, burst, ip, Moment(i, gap));
    assert view[ip := Bucket(burst as real - 1.0, Moment(i, gap))] == SpacedView(burst, i + 1, gap, ip);
  }

  lemma {:induction false} SpacedPass(r: real, burst: nat, i: nat, f: nat, gap: real, addr: string)
    requires r > 0.0 && burst >= 1 && gap * r == 1.0 && i <= f
    ensures var ip := IpOf(addr);
      var tr := Traffic(SpacedView(burst, i, gap, ip), UnderWay(i, addr));
      && AllDue(tr, r, burst, Spaced(i, f, gap, addr))
      && RunArrivals(tr, r, burst, Spaced(i, f, gap, addr)) == Traffic(SpacedView(burst, f, gap, ip), UnderWay(f, addr))
    decreases f - i
  {
    hide IpOf, Arrive, Moment, SpacedView, UnderWay;
    if i < f {
      var ip := IpOf(addr);
      var tr := Traffic(SpacedView(burst, i, gap, ip), UnderWay(i, addr));
      var a := Outer(i, addr, Moment(i, gap), true);
      SpacedStep(r, burst, i, gap, addr);
      SpacedPass(r, burst, i + 1, f, gap, addr);
      DueCons(tr, r, burst, a, Spaced(i + 1, f, gap, addr), ip);
    }
  }

  lemma {:induction false} SpacedTimes(i: nat, f: nat, gap: real, addr: string)
    requires gap >= 0.0
    ensures |Spaced(i, f, gap, addr)| == if i <= f then f - i else 0
    ensures forall k | 0 <= k < |Spaced(i, f, gap, addr)| :: TimeOf(Spaced(i, f, gap, addr)[k]) == Moment(i + k, gap)
    decreases f - i
  {
    if i < f {
      SpacedTimes(i + 1, f, gap, addr);
    }
  }

  lemma MomentsGrow(i: nat, j: nat, gap: real)
    requires i <= j && gap >= 0.0
    ensures 0.0 <= Moment(i, gap) <= Moment(j, gap)
  {}

  /** So that state arises, with f requests under way and a full bucket. */
  lemma UnderWayArises(r: real, burst: nat, f: nat, gap: real, addr: string) returns (tr: Traffic)
    requires r > 0.0 && burst >= 1 && gap * r == 1.0
    ensures tr == Traffic(SpacedView(burst, f, gap, IpOf(addr)), UnderWay(f, addr))
    ensures ReachableAt(tr, r, burst, Moment(f, gap)) && |InFlight(tr, IpOf(addr))| == f
  {
    hide Draws, AllDue, InFlight, IpOf, Moment;
    var ip := IpOf(addr);
    var history := Spaced(0, f, gap, addr);
    tr := Traffic(SpacedView(burst, f, gap, ip), UnderWay(f, addr));
    GapIsPositive(r, gap);
    SpacedPass(r, burst, 0, f, gap, addr);
    SpacedTimes(0, f, gap, addr);
    DrawTimes(START, r, burst, history);
    forall i, j | 0 <= i <= j <= f ensures 0.0 <= Moment(i, gap) <= Moment(j, gap) {
      MomentsGrow(i, j, gap);
    }
    assert LeadsTo(history, r, burst, Moment(f, gap), tr);
    UnderWayCount(tr.view, f, addr);
  }

  // ---- how much the requests under way add ----

  /** Bringing the requests lo up to hi to the handler at one moment: those below f, already under way, meet the
      second limiter only. */
  ghost function BringIn(lo: nat, hi: nat, f: nat, addr: string, now: real): (arrivals: seq<Arrival>)
    decreases hi - lo
  {
    if lo >= hi then []
    else (if lo < f then [] else [Outer(lo, addr, now, true)]) + ([Inner(lo, now)] + BringIn(lo + 1, hi, f, addr, now))
  }

  /** The tokens that takes. */
  function Cost(lo: nat, hi: nat, f: nat): (tokens: nat)
    requires lo <= hi
  {
    (hi - lo) + if hi <= f then 0 else if lo <= f then hi - f else hi - lo
  }

  function LevelOf(tr: Traffic, r: real, burst: nat, host: string, now: real): (tokens: real) {
    Level(BucketOf(tr.view, burst, host), r, burst, now)
  }

  /** One that is under way takes a token and is through. */
  lemma BringOne(tr: Traffic, r: real, burst: nat, q: RequestId, addr: string, now: real)
    requires q in tr.waiting && tr.waiting[q] == addr && LevelOf(tr, r, burst, IpOf(addr), now) >= 1.0
    ensures var a := Inner(q, now);
      var tr' := Arrive(tr, r, burst, a);
      && ArrivalCharge(tr, r, burst, a).ok
      && tr'.waiting == tr.waiting - {q}
      && LevelOf(tr', r, burst, IpOf(addr), now) == LevelOf(tr, r, burst, IpOf(addr), now) - 1.0
  {
    hide Charge, Level, IpOf;
    GrantOne(tr.view, r, burst, IpOf(addr), now);
  }

  /** A new one takes two. */
  lemma BringNew(tr: Traffic, r: real, burst: nat, q: RequestId, addr: string, now: real)
    requires q !in tr.waiting && LevelOf(tr, r, burst, IpOf(addr), now) >= 2.0
    ensures var mid := Arrive(tr, r, burst, Outer(q, addr, now, true));
      && q in mid.waiting && mid.waiting[q] == addr
      && ArrivalCharge(mid, r, burst, Inner(q, now)).ok
      && var tr' := Arrive(mid, r, burst, Inner(q, now));
         && tr'.waiting == tr.waiting
         && LevelOf(tr', r, burst, IpOf(addr), now) == LevelOf(tr, r, burst, IpOf(addr), now) - 2.0
  {
    hide Charge, Level, IpOf;
    GrantOne(tr.view, r, burst, IpOf(addr), now);
    var mid := Arrive(tr, r, burst, Outer(q, addr, now, true));
    BringOne(mid, r, burst, q, addr, now);
    assert mid.waiting - {q} == tr.waiting;
  }

  /** The requests lo up to hi are as they should be, and there are tokens enough for them. */
  ghost predicate Bringable(tr: Traffic, r: real, burst: nat, lo: nat, hi: nat, f: nat, addr: string, now: real) {
    && lo <= hi && (forall q | lo <= q < hi :: q in tr.waiting <==> q < f)
    && (forall q | lo <= q < hi && q in tr.waiting :: tr.waiting[q] == addr)
    && LevelOf(tr, r, burst, IpOf(addr), now) >= Cost(lo, hi, f) as real
  }

  lemma BringFirstOne(tr: Traffic, r: real, burst: nat, lo: nat, hi: nat, f: nat, addr: string, now: real)
    requires Bringable(tr, r, burst, lo, hi, f, addr, now) && lo < hi && lo < f
    ensures var a := Inner(lo, now);
      && Due(tr, a) && tr.waiting[lo] == addr && ArrivalCharge(tr, r, burst, a).ok
      && Bringable(Arrive(tr, r, burst, a), r, burst, lo + 1, hi, f, addr, now)
  {
    hide Arrive, ArrivalCharge, LevelOf, IpOf;
    assert Cost(lo, hi, f) == Cost(lo + 1, hi, f) + 1;
    BringOne(tr, r, burst, lo, addr, now);
  }

  lemma BringFirstNew(tr: Traffic, r: real, burst: nat, lo: nat, hi: nat, f: nat, addr: string, now: real)
    requires Bringable(tr, r, burst, lo, hi, f, addr, now) && lo < hi && lo >= f
    ensures var a, b := Outer(lo, addr, now, true), Inner(lo, now);
      && Due(tr, a)
      && var mid := Arrive(tr, r, burst, a);
      && Due(mid, b) && mid.waiting[lo] == addr && ArrivalCharge(mid, r, burst, b).ok
      && Bringable(Arrive(mid, r, burst, b), r, burst, lo + 1, hi, f, addr, now)
  {
    hide Arrive, ArrivalCharge, LevelOf, IpOf;
    assert Cost(lo, hi, f) == Cost(lo + 1, hi, f) + 2;
    BringNew(tr, r, burst, lo, addr, now);
  }

  lemma BringInCons(lo: nat, hi: nat, f: nat, addr: string, now: real)
    requires lo < hi
    ensures var rest := [Inner(lo, now)] + BringIn(lo + 1, hi, f, addr, now);
      BringIn(lo, hi, f, addr, now) == if lo < f then rest else [Outer(lo, addr, now, true)] + rest
  {}

  /** With tokens enough, all of them get there. */
  lemma {:induction false} AllBroughtIn(tr: Traffic, r: real, burst: nat, lo: nat, hi: nat, f: nat, addr: string,
      now: real)
    requires Bringable(tr, r, burst, lo, hi, f, addr, now)
    ensures var arrivals := BringIn(lo, hi, f, addr, now);
      AllDue(tr, r, burst, arrivals) && Reached(tr, r, burst, arrivals, IpOf(addr)) == hi - lo
    decreases if lo < hi then hi - lo else 0
  {
    if lo < hi {
      hide Arrive, ArrivalCharge, Bringable, IpOf, FromHost, AllDue, Reached;
      OwnHost(addr);
      BringInCons(lo, hi, f, addr, now);
      hide BringIn;
      var ip := IpOf(addr);
      var inner, rest := Inner(lo, now), BringIn(lo + 1, hi, f, addr, now);
      if lo < f {
        BringFirstOne(tr, r, burst, lo, hi, f, addr, now);
        AllBroughtIn(Arrive(tr, r, burst, inner), r, burst, lo + 1, hi, f, addr, now);
        DueCons(tr, r, burst, inner, rest, ip);
      } else {
        var outer := Outer(lo, addr, now, true);
        BringFirstNew(tr, r, burst, lo, hi, f, addr, now);
        var mid := Arrive(tr, r, burst, outer);
        AllBroughtIn(Arrive(mid, r, burst, inner), r, burst, lo + 1, hi, f, addr, now);
        DueCons(mid, r, burst, inner, rest, ip);
        DueCons(tr, r, burst, outer, [inner] + rest, ip);
      }
    } else {
      assert BringIn(lo, hi, f, addr, now) == [];
    }
  }

  lemma {:induction false} BringInTimes(lo: nat, hi: nat, f: nat, addr: string, now: real)
    ensures forall a | a in BringIn(lo, hi, f, addr, now) :: TimeOf(a) == now
    decreases hi - lo
  {
    if lo < hi {
      BringInTimes(lo + 1, hi, f, addr, now);
    }
  }

  /** The bound with the requests under way is attained by traffic that can arise: with f of them, no more than the
      burst and of the same parity, exactly (burst + f) / 2 can reach the handler in a window of length 0. */
  lemma InFlightBoundIsAttained(r: real, burst: nat, f: nat, addr: string)
    returns (tr: Traffic, now: real, arrivals: seq<Arrival>)
    requires r > 0.0 && burst >= 1 && f <= burst && (burst + f) % 2 == 0
    ensures ReachableAt(tr, r, burst, now) && |InFlight(tr, IpOf(addr))| == f && AllDue(tr, r, burst, arrivals)
    ensures Within(Draws(tr, r, burst, arrivals), now, now)
    ensures Reached(tr, r, burst, arrivals, IpOf(addr)) == (burst + f) / 2
  {
    hide Reached, Draws, AllDue, BringIn, IpOf, InFlight, ReachableAt, Moment, Level, SpacedView;
    var n, gap := (burst + f) / 2, 1.0 / r;
    tr := UnderWayArises(r, burst, f, gap, addr);
    now := Moment(f, gap);
    arrivals := BringIn(0, n, f, addr, now);
    FullAgain(r, burst, f, gap, IpOf(addr));
    AllBroughtIn(tr, r, burst, 0, n, f, addr, now);
    BringInTimes(0, n, f, addr, now);
    DrawTimes(tr, r, burst, arrivals);
    assert forall i | 0 <= i < |arrivals| :: arrivals[i] in arrivals;
  }

  /** Half of what a single limiter would let through, as a bound for traffic that can arise with f requests of the
      address under way, and a window after it. */
  ghost predicate HalfBoundAt(tr: Traffic, r: real, burst: nat, f: nat, arrivals: seq<Arrival>, host: string,
      from: real, to: real)
  {
    from <= to && ReachableAt(tr, r, burst, from) && |InFlight(tr, host)| == f && AllDue(tr, r, burst, arrivals)
      && Within(Draws(tr, r, burst, arrivals), from, to) && ':' !in host ==>
      2.0 * Reached(tr, r, burst, arrivals, host) as real
        <= Allowance(r, burst, Draws(tr, r, burst, arrivals), host, from, to - from)
  }

  /** The bound for all such traffic and all windows. */
  ghost predicate HalfBoundHolds(r: real, burst: nat, f: nat) {
    forall tr, arrivals, host, from, to :: HalfBoundAt(tr, r, burst, f, arrivals, host, from, to)
  }

  /** A single request under way is enough to exceed the half bound: it is granted from a full bucket, and as many
      new ones as are left an even number of tokens follow at the end of the window. */
  lemma ExceedsHalf(r: real, burst: nat, f: nat, gap: real) returns (tr: Traffic, from: real, to: real,
      arrivals: seq<Arrival>)
    requires r > 0.0 && burst >= 1 && f >= 1 && gap * r == 1.0
    ensures ReachableAt(tr, r, burst, from) && |InFlight(tr, "")| == f && AllDue(tr, r, burst, arrivals)
    ensures from <= to == from + if burst % 2 == 1 then 0.0 else gap
    ensures forall i | 0 <= i < |arrivals| :: TimeOf(arrivals[i]) == if i == 0 then from else to
    ensures Reached(tr, r, burst, arrivals, "") == 1 + burst / 2
  {
    hide Draws, AllDue, BringIn, InFlight, Reached, Level, Moment, ReachableAt, SpacedView, BucketOf;
    GapIsPositive(r, gap);
    tr := UnderWayArises(r, burst, f, gap, "");
    from := Moment(f, gap);
    to := from + if burst % 2 == 1 then 0.0 else gap;
    var m := burst / 2;
    var first, rest := Inner(0, from), BringIn(f, f + m, f, "", to);
    FullAgain(r, burst, f, gap, "");
    FirstGrant(tr, r, burst, from, to, gap);
    AllBroughtIn(Arrive(tr, r, burst, first), r, burst, f, f + m, f, "", to);
    DueCons(tr, r, burst, first, rest, "");
    arrivals := [first] + rest;
    BringInTimes(f, f + m, f, "", to);
    assert forall i | 0 < i < |arrivals| :: arrivals[i] == rest[i - 1] && rest[i - 1] in rest;
  }

  /** The second grant of a request under way, from a full bucket, and the level at the end of the window. */
  lemma FirstGrant(tr: Traffic, r: real, burst: nat, from: real, to: real, gap: real)
    requires r > 0.0 && burst >= 1 && gap * r == 1.0 && to == from + if burst % 2 == 1 then 0.0 else gap
    requires 0 in tr.waiting && tr.waiting[0] == "" && LevelOf(tr, r, burst, "", from) == burst as real
    ensures var a := Inner(0, from);
      var tr' := Arrive(tr, r, burst, a);
      && ArrivalCharge(tr, r, burst, a).ok && tr'.waiting == tr.waiting - {0}
      && LevelOf(tr', r, burst, "", to) == 2.0 * (burst / 2) as real
  {
    GapIsPositive(r, gap);
    GrantOne(tr.view, r, burst, "", from);
    var after := Bucket(burst as real - 1.0, from);
    assert BucketOf(Arrive(tr, r, burst, Inner(0, from)).view, burst, "") == after;
    assert (to - from) * r == if burst % 2 == 1 then 0.0 else 1.0;
  }

  lemma HalfBoundFails(r: real, burst: nat, f: nat)
    requires r > 0.0 && burst >= 1 && f >= 1
    ensures !HalfBoundHolds(r, burst, f)
  {
    hide Draws, AllDue, InFlight, Reached, ReachableAt, Backward;
    var gap := 1.0 / r;
    var tr, from, to, arrivals := ExceedsHalf(r, burst, f, gap);
    var es := Draws(tr, r, burst, arrivals);
    DrawTimes(tr, r, burst, arrivals);
    InOrderNeverGoesBack(es, "", from);
    assert (to - from + 0.0) * r == if burst % 2 == 1 then 0.0 else 1.0;
    assert 2.0 * Reached(tr, r, burst, arrivals, "") as real > Allowance(r, burst, es, "", from, to - from);
    assert !HalfBoundAt(tr, r, burst, f, arrivals, "", from, to);
  }

  // ---- without a refill ----

  /** The tokens of the address and its requests under way. */
  ghost function Potential(tr: Traffic, burst: nat, host: string): (x: real) {
    BucketOf(tr.view, burst, host).tokens + |InFlight(tr, host)| as real
  }

  /** Without a refill no arrival adds to them, and one that reaches the handler takes two away. */
  lemma PotentialSinks(tr: Traffic, burst: nat, a: Arrival, host: string)
    requires Due(tr, a) && ':' !in host
    ensures Potential(Arrive(tr, 0.0, burst, a), burst, host)
      + (if a.Inner? && FromHost(tr.waiting[a.q], host) && ArrivalCharge(tr, 0.0, burst, a).ok then 2.0 else 0.0)
      <= Potential(tr, burst, host)
  {
    hide InFlight, IpOf, FromHost;
    var tr' := Arrive(tr, 0.0, burst, a);
    SameFlight(tr.view, tr'.view, tr.waiting, host);
    if a.Inner? {
      IpOfExactly(tr.waiting[a.q], host);
      WaitingShrinks(tr'.view, tr.waiting, a.q, host);
    } else {
      IpOfExactly(a.remoteAddr, host);
      WaitingGrows(tr'.view, tr.waiting, a.q, a.remoteAddr, host);
    }
  }

  lemma {:induction false} RunSinks(tr: Traffic, burst: nat, arrivals: seq<Arrival>, host: string)
    requires AllDue(tr, 0.0, burst, arrivals) && ':' !in host
    ensures Potential(RunArrivals(tr, 0.0, burst, arrivals), burst, host)
      + 2.0 * Reached(tr, 0.0, burst, arrivals, host) as real <= Potential(tr, burst, host)
    decreases |arrivals|
  {
    if arrivals != [] {
      hide Arrive, Potential, ArrivalCharge;
      PotentialSinks(tr, burst, arrivals[0], host);
      RunSinks(Arrive(tr, 0.0, burst, arrivals[0]), burst, arrivals[1..], host);
    }
  }

  /** So without a refill the half bound holds of all traffic that can arise, however much of it is under way. */
  lemma HalfBoundWithoutRefill(tr: Traffic, burst: nat, arrivals: seq<Arrival>, host: string, from: real)
    requires ReachableAt(tr, 0.0, burst, from) && AllDue(tr, 0.0, burst, arrivals) && ':' !in host
    ensures 2.0 * Reached(tr, 0.0, burst, arrivals, host) as real <= burst as real
  {
    hide AllDue, Reached, Draws, RunArrivals;
    var history :| LeadsTo(history, 0.0, burst, from, tr);
    RunSinks(START, burst, history, host);
    ArrivalsStaySolvent(START, 0.0, burst, history);
    RunSinks(tr, burst, arrivals, host);
    ArrivalsStaySolvent(tr, 0.0, burst, arrivals);
    assert InFlight(START, host) == {};
  }

  lemma {:induction false} NothingWithoutBurst(tr: Traffic, r: real, arrivals: seq<Arrival>, host: string)
    requires AllDue(tr, r, 0, arrivals)
    ensures Reached(tr, r, 0, arrivals, host) == 0
    decreases |arrivals|
  {
    if arrivals != [] {
      NothingWithoutBurst(Arrive(tr, r, 0, arrivals[0]), r, arrivals[1..], host);
    }
  }

  lemma ReachableIsSolvent(tr: Traffic, r: real, burst: nat, now: real)
    requires r >= 0.0 && ReachableAt(tr, r, burst, now)
    ensures Solvent(tr.view)
  {
    hide AllDue, Draws, RunArrivals;
    var history :| LeadsTo(history, r, burst, now, tr);
    ArrivalsStaySolvent(START, r, burst, history);
  }

  lemma HalfBoundCase(tr: Traffic, r: real, burst: nat, f: nat, arrivals: seq<Arrival>, host: string, from: real,
      to: real)
    requires r >= 0.0 && (f == 0 || burst == 0 || r == 0.0)
    ensures HalfBoundAt(tr, r, burst, f, arrivals, host, from, to)
  {
    hide Arrive, InFlight, Allowance, RunArrivals, ReachableAt;
    if from <= to && ReachableAt(tr, r, burst, from) && |InFlight(tr, host)| == f && AllDue(tr, r, burst, arrivals)
      && Within(Draws(tr, r, burst, arrivals), from, to) && ':' !in host
    {
      AllowanceAtLeastBurst(r, burst, Draws(tr, r, burst, arrivals), host, from, to - from);
      if r == 0.0 {
        HalfBoundWithoutRefill(tr, burst, arrivals, host, from);
      } else if burst == 0 {
        NothingWithoutBurst(tr, r, arrivals, host);
      } else {
        ReachableIsSolvent(tr, r, burst, from);
        DoubleChargeBound(tr, r, burst, arrivals, host, from, to - from);
      }
    }
  }

  /** So the half bound holds of all traffic that can arise and all windows exactly when no request is under way as
      the window opens, or nothing is ever granted or refilled. */
  lemma HalfBoundExactlyWhen(r: real, burst: nat, f: nat)
    requires r >= 0.0
    ensures HalfBoundHolds(r, burst, f) <==> f == 0 || burst == 0 || r == 0.0
  {
    hide HalfBoundAt;
    if f == 0 || burst == 0 || r == 0.0 {
      forall tr, arrivals, host, from, to
        ensures HalfBoundAt(tr, r, burst, f, arrivals, host, from, to)
      {
        HalfBoundCase(tr, r, burst, f, arrivals, host, from, to);
      }
    } else {
      HalfBoundFails(r, burst, f);
    }
  }
}
