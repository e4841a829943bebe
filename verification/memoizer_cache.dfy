/**
  What memoization buys when the services behave: against a cache that
  answers lookups from the stores it received and a classifier that is a
  function of the payload, every response is the classifier's answer for its
  payload, and a payload seen before is served from the cache.
 */
module MemoizerCache {
  import opened GoTypes
  import opened Messages
  import opened Memoizer
  import opened MemoizerRun

  /** A store-backed cache's answer to a lookup of `k`: the latest value stored under `k`, echoing the lookup's id. */
  function StoredAnswer(evs: seq<Event>, k: Uint64, id: Int64): CacheResp
    decreases |evs|
  {
    if evs == [] then CacheResp(false, 0, id)
    else
      var e := evs[|evs| - 1];
      if e.CacheWrite? && e.creq.key == k then CacheResp(true, e.creq.val, id)
      else StoredAnswer(evs[..|evs| - 1], k, id)
  }

  /** The cache answers each lookup from the stores made before it, or its channel is closed. */
  ghost predicate StoreBackedCache(key: KeyFn, xs: seq<Exchange>) {
    var h := History0(key, xs);
    forall i :: 0 <= i < |xs| && !h.states[i].cacheGone ==>
      || xs[i].cache.Closed?
      || xs[i].cache == Reply(StoredAnswer(Flatten(h.segments[..i]), key(xs[i].req.val), xs[i].req.id))
  }

  /** The classifier answers every request with `f` of its payload, its id and no error. */
  ghost predicate DeterministicClassifier(f: Payload -> Int64, xs: seq<Exchange>) {
    forall i :: 0 <= i < |xs| ==> xs[i].classifier == Reply(MnistResp(f(xs[i].req.val), xs[i].req.id, None))
  }

  /** No two different payloads of the run share a key (a CRC-64 collision would break this). */
  ghost predicate KeysDistinguishPayloads(key: KeyFn, xs: seq<Exchange>) {
    forall i, j :: 0 <= i < |xs| && 0 <= j < |xs| && key(xs[i].req.val) == key(xs[j].req.val) ==>
      xs[i].req.val == xs[j].req.val
  }

  lemma {:induction false} StoredAnswerEchoesId(evs: seq<Event>, k: Uint64, id: Int64)
    ensures StoredAnswer(evs, k, id).id == id
    decreases |evs|
  {
    if evs != [] {
      StoredAnswerEchoesId(evs[..|evs| - 1], k, id);
    }
  }

  /** A store-backed cache can only answer with a value stored under the key. */
  lemma {:induction false} StoredAnswerSound(evs: seq<Event>, k: Uint64, id: Int64, v: Int64)
    requires forall e :: e in evs && e.CacheWrite? && e.creq.key == k ==> e.creq.val == v
    ensures StoredAnswer(evs, k, id).present ==> StoredAnswer(evs, k, id).val == v
    decreases |evs|
  {
    if evs != [] {
      var e := evs[|evs| - 1];
      assert e in evs;
      var p := evs[..|evs| - 1];
      assert forall e' :: e' in p ==> e' in evs;
      StoredAnswerSound(p, k, id, v);
    }
  }

  /** A store-backed cache has an entry for `k` exactly when some store under `k` was made. */
  lemma {:induction false} StoredAnswerPresent(evs: seq<Event>, k: Uint64, id: Int64)
    ensures StoredAnswer(evs, k, id).present <==> exists e :: e in evs && e.CacheWrite? && e.creq.key == k
    decreases |evs|
  {
    if evs != [] {
      var e := evs[|evs| - 1];
      var p := evs[..|evs| - 1];
      assert evs == p + [e];
      StoredAnswerPresent(p, k, id);
      if exists e' :: e' in evs && e'.CacheWrite? && e'.creq.key == k {
        var e' :| e' in evs && e'.CacheWrite? && e'.creq.key == k;
        if e' != e {
          assert e' in p;
        }
      }
    }
  }

  lemma {:induction false} InFlatten(segs: seq<seq<Event>>, e: Event)
    requires e in Flatten(segs)
    ensures exists j :: 0 <= j < |segs| && e in segs[j]
    decreases |segs|
  {
    if e !in segs[0] {
      InFlatten(segs[1..], e);
      var j :| 0 <= j < |segs[1..]| && e in segs[1..][j];
      assert e in segs[j + 1];
    }
  }

  /** Every store made before request `i` holds `f` of a payload whose key it is stored under. */
  lemma EarlierStoresHoldClassifications(key: KeyFn, f: Payload -> Int64, xs: seq<Exchange>, i: nat, e: Event)
    requires DeterministicClassifier(f, xs)
    requires i <= |xs|
    requires e in Flatten(History0(key, xs).segments[..i]) && e.CacheWrite?
    ensures exists j :: 0 <= j < i && e.creq.key == key(xs[j].req.val) && e.creq.val == f(xs[j].req.val)
  {
    var h := History0(key, xs);
    InFlatten(h.segments[..i], e);
    var j :| 0 <= j < i && e in h.segments[..i][j];
    assert e in h.segments[j];
    StepAt(key, Init, xs, j);
    StepStores(key, h.states[j], xs[j]);
  }

  /** Request `i` gets `f` of its payload, its id and no error. */
  lemma AnswerIsClassification(key: KeyFn, f: Payload -> Int64, xs: seq<Exchange>, i: nat)
    requires StoreBackedCache(key, xs) && DeterministicClassifier(f, xs) && KeysDistinguishPayloads(key, xs)
    requires i < |xs|
    ensures Response(History0(key, xs).segments[i]) == MnistResp(f(xs[i].req.val), xs[i].req.id, None)
  {
    var h := History0(key, xs);
    var x := xs[i];
    var k := key(x.req.val);
    var prefix := Flatten(h.segments[..i]);
    StepAt(key, Init, xs, i);
    forall e | e in prefix && e.CacheWrite? && e.creq.key == k
      ensures e.creq.val == f(x.req.val)
    {
      EarlierStoresHoldClassifications(key, f, xs, i, e);
    }
    StoredAnswerSound(prefix, k, x.req.id, f(x.req.val));
    StoredAnswerEchoesId(prefix, k, x.req.id);
    if CacheHit(h.states[i], x) {
      CacheHitAnswersFromCache(key, h.states[i], x);
    } else {
      ClassifierSuccessAnswer(key, h.states[i], x);
    }
  }

  /**
    With a store-backed cache, a deterministic classifier and no key collisions,
    memoization is invisible to the caller: every response is the classifier's
    answer for the request's payload, with the request's id and no error, even
    when the cache's channel closes part-way through.
   */
  lemma MemoizationIsTransparent(key: KeyFn, f: Payload -> Int64, xs: seq<Exchange>)
    requires StoreBackedCache(key, xs) && DeterministicClassifier(f, xs) && KeysDistinguishPayloads(key, xs)
    ensures |Responses(Run(key, xs))| == |xs|
    ensures forall i :: 0 <= i < |xs| ==> Responses(Run(key, xs))[i] == MnistResp(f(xs[i].req.val), xs[i].req.id, None)
  {
    OneResponsePerRequestInOrder(key, xs);
    forall i | 0 <= i < |xs|
      ensures Responses(Run(key, xs))[i] == MnistResp(f(xs[i].req.val), xs[i].req.id, None)
    {
      AnswerIsClassification(key, f, xs, i);
    }
  }

  /** The cache flag is set before request `n` exactly when an earlier lookup found the channel closed. */
  lemma {:induction false} CacheGoneIffSeenClosed(key: KeyFn, xs: seq<Exchange>, n: nat)
    requires n <= |xs|
    ensures History0(key, xs).states[n].cacheGone <==> exists m :: 0 <= m < n && xs[m].cache.Closed?
    decreases n
  {
    if n > 0 {
      CacheGoneIffSeenClosed(key, xs, n - 1);
      StepAt(key, Init, xs, n - 1);
    }
  }

  /** After request `i` with the cache up, a store under its payload's key has been made. */
  lemma StoredAfter(key: KeyFn, xs: seq<Exchange>, i: nat)
    requires StoreBackedCache(key, xs)
    requires i < |xs| && ClassifierSucceeded(xs[i]) && !History0(key, xs).states[i + 1].cacheGone
    ensures exists e :: e in Flatten(History0(key, xs).segments[..i + 1]) && e.CacheWrite? && e.creq.key == key(xs[i].req.val)
  {
    var h := History0(key, xs);
    var x := xs[i];
    var k := key(x.req.val);
    StepAt(key, Init, xs, i);
    FlattenSnoc(h.segments, i);
    var prefix := Flatten(h.segments[..i]);
    if CacheHit(h.states[i], x) {
      StoredAnswerPresent(prefix, k, x.req.id);
      var e :| e in prefix && e.CacheWrite? && e.creq.key == k;
      assert e in Flatten(h.segments[..i + 1]);
    } else {
      StepStores(key, h.states[i], x);
      var e :| e in h.segments[i] && e.CacheWrite?;
      assert e in Flatten(h.segments[..i + 1]);
    }
  }

  lemma StoreStaysInLongerPrefix(segs: seq<seq<Event>>, n: nat, m: nat, e: Event)
    requires n <= m <= |segs|
    requires e in Flatten(segs[..n])
    ensures e in Flatten(segs[..m])
  {
    assert segs[..m] == segs[..n] + segs[n..m];
    FlattenAppend(segs[..n], segs[n..m]);
  }

  lemma StoreBackedAnswerAt(key: KeyFn, xs: seq<Exchange>, j: nat)
    requires StoreBackedCache(key, xs)
    requires j < |xs| && !History0(key, xs).states[j].cacheGone && xs[j].cache.Reply?
    ensures xs[j].cache.value == StoredAnswer(Flatten(History0(key, xs).segments[..j]), key(xs[j].req.val), xs[j].req.id)
  {
  }

  /**
    While the cache stays up, a payload sent again finds its entry, once the
    classifier has answered it successfully once. The classifier may fail on
    every other request, its channel included.
   */
  lemma RepeatIsCacheHit(key: KeyFn, xs: seq<Exchange>, i: nat, j: nat)
    requires StoreBackedCache(key, xs)
    requires i < j < |xs| && xs[i].req.val == xs[j].req.val && ClassifierSucceeded(xs[i])
    requires forall m :: 0 <= m <= j ==> xs[m].cache.Reply?
    ensures CacheHit(History0(key, xs).states[j], xs[j])
  {
    var h := History0(key, xs);
    var x := xs[j];
    var k := key(x.req.val);
    CacheGoneIffSeenClosed(key, xs, i + 1);
    assert !h.states[i + 1].cacheGone by {
      assert forall m :: 0 <= m < i + 1 ==> xs[m].cache.Reply?;
    }
    CacheGoneIffSeenClosed(key, xs, j);
    assert !h.states[j].cacheGone by {
      assert forall m :: 0 <= m < j ==> xs[m].cache.Reply?;
    }
    StoredAfter(key, xs, i);
    var e :| e in Flatten(h.segments[..i + 1]) && e.CacheWrite? && e.creq.key == k;
    StoreStaysInLongerPrefix(h.segments, i + 1, j, e);
    var prefix := Flatten(h.segments[..j]);
    StoredAnswerPresent(prefix, k, x.req.id);
    var a := StoredAnswer(prefix, k, x.req.id);
    assert a.present;
    StoredAnswerEchoesId(prefix, k, x.req.id);
    StoreBackedAnswerAt(key, xs, j);
    assert x.cache.value == a;
  }

  /**
    While the cache stays up, a payload sent again after one classifier success
    for it is answered from the cache: the repeat is a cache hit and the
    classifier is not asked, whatever the classifier does on other requests.
   */
  lemma RepeatIsServedFromCache(key: KeyFn, xs: seq<Exchange>, i: nat, j: nat)
    requires StoreBackedCache(key, xs)
    requires i < j < |xs| && xs[i].req.val == xs[j].req.val && ClassifierSucceeded(xs[i])
    requires forall m :: 0 <= m <= j ==> xs[m].cache.Reply?
    ensures ClassSend(xs[j].req) !in History0(key, xs).segments[j]
  {
    var h := History0(key, xs);
    RepeatIsCacheHit(key, xs, i, j);
    StepAt(key, Init, xs, j);
    StepClassifierTraffic(key, h.states[j], xs[j]);
  }
}
