/**
  The memoizer's whole run: its loop folded over the requests it receives,
  followed by the closes it performs once the inbound channel is closed, and
  the properties of the resulting event trace.
 */
module MemoizerRun {
  import opened GoTypes
  import opened MemErrors
  import opened Messages
  import opened Memoizer

  /** The flags before each request and after the last one, and each request's events. */
  datatype History = History(states: seq<State>, segments: seq<seq<Event>>)

  /** Handles the requests in order, each starting from the flags the previous one left. */
  function Steps(key: KeyFn, s: State, xs: seq<Exchange>): (h: History)
    ensures |h.states| == |xs| + 1 && |h.segments| == |xs|
    ensures h.states[0] == s
    ensures forall i :: 0 <= i < |xs| ==> Step(key, h.states[i], xs[i]) == StepResult(h.states[i + 1], h.segments[i])
    ensures forall i :: 0 <= i < |xs| ==> EndsWithOnlyResponse(h.segments[i])
    decreases |xs|
  {
    if xs == [] then History([s], [])
    else
      var r := Step(key, s, xs[0]);
      var rest := Steps(key, r.state, xs[1..]);
      History([s] + rest.states, [r.events] + rest.segments)
  }

  /** Request `i` of a run is handled by one step from the flags the earlier requests left. */
  lemma StepAt(key: KeyFn, s: State, xs: seq<Exchange>, i: nat)
    requires i < |xs|
    ensures var h := Steps(key, s, xs);
      Step(key, h.states[i], xs[i]) == StepResult(h.states[i + 1], h.segments[i])
  {
  }

  function Flatten(segs: seq<seq<Event>>): seq<Event>
    decreases |segs|
  {
    if segs == [] then [] else segs[0] + Flatten(segs[1..])
  }

  /**
    What happens once the inbound channel is closed: the upstream response
    channels not already seen closed are closed, then the deferred close of the
    caller's response channel runs as the function returns.
   */
  function Shutdown(s: State): (evs: seq<Event>)
    ensures CloseClassResp in evs <==> !s.classGone
    ensures CloseCacheResp in evs <==> !s.cacheGone
    ensures 1 <= |evs| && evs[|evs| - 1] == CloseMemResp
    ensures forall e :: e in evs ==> IsClose(e)
    // each channel is closed at most once, the classifier's before the cache's
    ensures |evs| == 1 + (if s.classGone then 0 else 1) + (if s.cacheGone then 0 else 1)
    ensures !s.classGone ==> evs[0] == CloseClassResp
  {
    (if s.classGone then [] else [CloseClassResp])
    + (if s.cacheGone then [] else [CloseCacheResp])
    + [CloseMemResp]
  }

  /** The history of a run from the initial flags. */
  function History0(key: KeyFn, xs: seq<Exchange>): History {
    Steps(key, Init, xs)
  }

  /** Everything the memoizer does for the inbound requests `xs`, up to its return. */
  function Run(key: KeyFn, xs: seq<Exchange>): seq<Event> {
    var h := History0(key, xs);
    Flatten(h.segments) + Shutdown(h.states[|xs|])
  }

  /** The responses sent to the caller, in the order they were sent. */
  function Responses(evs: seq<Event>): seq<MnistResp>
    decreases |evs|
  {
    if evs == [] then []
    else (if evs[0].Respond? then [evs[0].resp] else []) + Responses(evs[1..])
  }

  lemma {:induction false} FlattenAppend(a: seq<seq<Event>>, b: seq<seq<Event>>)
    ensures Flatten(a + b) == Flatten(a) + Flatten(b)
    decreases |a|
  {
    if a == [] {
      assert a + b == b;
    } else {
      assert (a + b)[0] == a[0];
      assert (a + b)[1..] == a[1..] + b;
      FlattenAppend(a[1..], b);
      calc {
        Flatten(a + b);
        a[0] + Flatten(a[1..] + b);
        a[0] + (Flatten(a[1..]) + Flatten(b));
        (a[0] + Flatten(a[1..])) + Flatten(b);
      }
    }
  }

  lemma FlattenSnoc(segs: seq<seq<Event>>, i: nat)
    requires i < |segs|
    ensures Flatten(segs[..i + 1]) == Flatten(segs[..i]) + segs[i]
  {
    assert segs[..i + 1] == segs[..i] + [segs[i]];
    FlattenAppend(segs[..i], [segs[i]]);
  }

  lemma {:induction false} ResponsesAppend(a: seq<Event>, b: seq<Event>)
    ensures Responses(a + b) == Responses(a) + Responses(b)
    decreases |a|
  {
    if a == [] {
      assert a + b == b;
    } else {
      assert (a + b)[0] == a[0];
      assert (a + b)[1..] == a[1..] + b;
      ResponsesAppend(a[1..], b);
    }
  }

  /** A sequence whose only response is its last event yields exactly that response. */
  lemma {:induction false} ResponsesOfSegment(evs: seq<Event>)
    requires EndsWithOnlyResponse(evs)
    ensures Responses(evs) == [evs[|evs| - 1].resp]
    decreases |evs|
  {
    if |evs| > 1 {
      ResponsesOfSegment(evs[1..]);
    }
  }

  lemma {:induction false} NoResponsesAmongCloses(evs: seq<Event>)
    requires forall e :: e in evs ==> IsClose(e)
    ensures Responses(evs) == []
    decreases |evs|
  {
    if evs != [] {
      assert evs[0] in evs;
      NoResponsesAmongCloses(evs[1..]);
    }
  }

  /** The flags never go back from true to false. */
  lemma {:induction false} FlagsAreSticky(key: KeyFn, s: State, xs: seq<Exchange>, i: nat, j: nat)
    requires i <= j <= |xs|
    ensures var h := Steps(key, s, xs);
      && (h.states[i].cacheGone ==> h.states[j].cacheGone)
      && (h.states[i].classGone ==> h.states[j].classGone)
    decreases j - i
  {
    if i < j {
      FlagsAreSticky(key, s, xs, i, j - 1);
    }
  }

  /** Segments that each end with their only response yield those responses, in order. */
  lemma {:induction false} ResponsesOfSegments(segs: seq<seq<Event>>)
    requires forall i :: 0 <= i < |segs| ==> EndsWithOnlyResponse(segs[i])
    ensures |Responses(Flatten(segs))| == |segs|
    ensures forall i :: 0 <= i < |segs| ==> Responses(Flatten(segs))[i] == Response(segs[i])
    decreases |segs|
  {
    if segs != [] {
      ResponsesOfSegments(segs[1..]);
      ResponsesAppend(segs[0], Flatten(segs[1..]));
      ResponsesOfSegment(segs[0]);
    }
  }

  /** Exactly one response per request, in request order, each carrying its request's id. */
  lemma OneResponsePerRequestInOrder(key: KeyFn, xs: seq<Exchange>)
    ensures var h := History0(key, xs);
      var rs := Responses(Run(key, xs));
      && |rs| == |xs|
      && forall i :: 0 <= i < |xs| ==> rs[i] == Response(h.segments[i]) && rs[i].id == xs[i].req.id
  {
    var h := History0(key, xs);
    ResponsesOfSegments(h.segments);
    ResponsesAppend(Flatten(h.segments), Shutdown(h.states[|xs|]));
    NoResponsesAmongCloses(Shutdown(h.states[|xs|]));
    forall i | 0 <= i < |xs|
      ensures Response(h.segments[i]).id == xs[i].req.id
    {
      StepAt(key, Init, xs, i);
    }
  }

  /** Once a lookup has found the cache's channel closed, no later request touches the cache. */
  lemma CacheSilentOnceGone(key: KeyFn, xs: seq<Exchange>, i: nat, j: nat)
    requires i < j < |xs|
    requires History0(key, xs).states[i + 1].cacheGone
    ensures forall e :: e in History0(key, xs).segments[j] ==> !IsCacheEvent(e)
  {
    var h := History0(key, xs);
    FlagsAreSticky(key, Init, xs, i + 1, j);
    StepAt(key, Init, xs, j);
    StepCacheTraffic(key, h.states[j], xs[j]);
  }

  /** Every store in the run caches a classifier success for the same request, under its payload's key. */
  lemma StoresCacheClassifierSuccesses(key: KeyFn, xs: seq<Exchange>, i: nat, e: Event)
    requires i < |xs|
    requires e in History0(key, xs).segments[i] && e.CacheWrite?
    ensures ClassifierSucceeded(xs[i])
    ensures !CacheHit(History0(key, xs).states[i], xs[i])
    ensures e.creq == CacheReq(true, key(xs[i].req.val), xs[i].classifier.value.val, xs[i].req.id)
    ensures |Responses(Run(key, xs))| == |xs|
    ensures Responses(Run(key, xs))[i] == xs[i].classifier.value
  {
    var h := History0(key, xs);
    StepAt(key, Init, xs, i);
    StepStores(key, h.states[i], xs[i]);
    OneResponsePerRequestInOrder(key, xs);
  }

  /** Requests with equal payloads use equal cache keys, whatever else differs. */
  lemma KeysDependOnPayloadOnly(key: KeyFn, xs: seq<Exchange>, i: nat, j: nat, e1: Event, e2: Event)
    requires i < |xs| && j < |xs| && xs[i].req.val == xs[j].req.val
    requires e1 in History0(key, xs).segments[i] && IsCacheEvent(e1)
    requires e2 in History0(key, xs).segments[j] && IsCacheEvent(e2)
    ensures e1.creq.key == e2.creq.key
  {
    var h := History0(key, xs);
    StepAt(key, Init, xs, i);
    StepAt(key, Init, xs, j);
    StepCacheTraffic(key, h.states[i], xs[i]);
    StepCacheTraffic(key, h.states[j], xs[j]);
  }

  /** The classifier keeps being asked after its channel was seen closed. */
  lemma ClassifierStillAskedAfterCrash(key: KeyFn, xs: seq<Exchange>, i: nat)
    requires i < |xs|
    requires History0(key, xs).states[i].classGone && !CacheHit(History0(key, xs).states[i], xs[i])
    ensures ClassSend(xs[i].req) in History0(key, xs).segments[i]
  {
    var h := History0(key, xs);
    StepAt(key, Init, xs, i);
    StepClassifierTraffic(key, h.states[i], xs[i]);
  }

  /** A Go channel, once closed, stays closed: after the classifier's channel was seen closed, every later receive finds it closed. */
  ghost predicate ClassifierStaysClosed(key: KeyFn, xs: seq<Exchange>) {
    var h := History0(key, xs);
    forall i :: 0 <= i < |xs| && h.states[i].classGone ==> xs[i].classifier.Closed?
  }

  /** Once the classifier is gone, every request the cache cannot answer gets a crash error. */
  lemma CrashesPersist(key: KeyFn, xs: seq<Exchange>, i: nat)
    requires ClassifierStaysClosed(key, xs)
    requires i < |xs| && History0(key, xs).states[i].classGone
    ensures var h := History0(key, xs);
      || CacheHit(h.states[i], xs[i])
      || Response(h.segments[i]) == Failure(0, xs[i].req.id, MemErrSerCrash, CrashDesc, None)
  {
    var h := History0(key, xs);
    StepAt(key, Init, xs, i);
    if !CacheHit(h.states[i], xs[i]) {
      ClassifierCrashAnswer(key, h.states[i], xs[i]);
    }
  }

  /** The final flags: a channel counts as gone exactly when some request observed it closed. */
  lemma {:induction false} FinalFlags(key: KeyFn, s: State, xs: seq<Exchange>)
    ensures var h := Steps(key, s, xs);
      && (h.states[|xs|].cacheGone <==> s.cacheGone || exists i :: 0 <= i < |xs| && xs[i].cache.Closed?)
      && (h.states[|xs|].classGone <==>
            s.classGone || exists i :: 0 <= i < |xs| && !CacheHit(h.states[i], xs[i]) && xs[i].classifier.Closed?)
    decreases |xs|
  {
    if xs != [] {
      var h := Steps(key, s, xs);
      var r := Step(key, s, xs[0]);
      var t := Steps(key, r.state, xs[1..]);
      FinalFlags(key, r.state, xs[1..]);
      assert h.states == [s] + t.states;
      assert forall i :: 0 <= i < |xs| - 1 ==> xs[1..][i] == xs[i + 1] && t.states[i] == h.states[i + 1];
      if s.cacheGone || exists i :: 0 <= i < |xs| && xs[i].cache.Closed? {
        if !s.cacheGone && !xs[0].cache.Closed? {
          var i :| 0 <= i < |xs| && xs[i].cache.Closed?;
          assert xs[1..][i - 1].cache.Closed?;
        }
      }
      if s.classGone || exists i :: 0 <= i < |xs| && !CacheHit(h.states[i], xs[i]) && xs[i].classifier.Closed? {
        if !s.classGone && !(!CacheHit(s, xs[0]) && xs[0].classifier.Closed?) {
          var i :| 0 <= i < |xs| && !CacheHit(h.states[i], xs[i]) && xs[i].classifier.Closed?;
          assert !CacheHit(t.states[i - 1], xs[1..][i - 1]) && xs[1..][i - 1].classifier.Closed?;
        }
      }
    }
  }

  lemma {:induction false} NoClosesBeforeShutdown(key: KeyFn, s: State, xs: seq<Exchange>)
    ensures forall e :: e in Flatten(Steps(key, s, xs).segments) ==> !IsClose(e)
    decreases |xs|
  {
    if xs != [] {
      var r := Step(key, s, xs[0]);
      NoClosesBeforeShutdown(key, r.state, xs[1..]);
      assert Steps(key, s, xs).segments == [r.events] + Steps(key, r.state, xs[1..]).segments;
    }
  }

  /**
    At shutdown the classifier's and the cache's response channels are closed
    exactly when no request ever saw them closed, and the caller's response
    channel is closed last.
   */
  lemma ShutdownClosesUnobservedChannels(key: KeyFn, xs: seq<Exchange>)
    ensures var h := History0(key, xs);
      var trace := Run(key, xs);
      && (CloseClassResp in trace <==>
            forall i :: 0 <= i < |xs| ==> !(!CacheHit(h.states[i], xs[i]) && xs[i].classifier.Closed?))
      && (CloseCacheResp in trace <==> forall i :: 0 <= i < |xs| ==> !xs[i].cache.Closed?)
      && trace[|trace| - 1] == CloseMemResp
      && (forall k :: 0 <= k < |trace| && IsClose(trace[k]) ==> |Flatten(h.segments)| <= k)
      && AtMostOnce(trace, (e: Event) => e == CloseClassResp)
      && AtMostOnce(trace, (e: Event) => e == CloseCacheResp)
      && AtMostOnce(trace, (e: Event) => e == CloseMemResp)
  {
    var h := History0(key, xs);
    FinalFlags(key, Init, xs);
    NoClosesBeforeShutdown(key, Init, xs);
    var trace := Run(key, xs);
    var body := Flatten(h.segments);
    var tail := Shutdown(h.states[|xs|]);
    assert trace == body + tail;
    assert CloseClassResp in trace <==> CloseClassResp in tail;
    assert CloseCacheResp in trace <==> CloseCacheResp in tail;
    assert forall e :: e in body ==> !IsClose(e);
    ClosesOnlyInTail(body, tail, CloseClassResp);
    ClosesOnlyInTail(body, tail, CloseCacheResp);
    ClosesOnlyInTail(body, tail, CloseMemResp);
  }

  /** A close that the body never performs and the shutdown performs at most once happens at most once. */
  lemma ClosesOnlyInTail(body: seq<Event>, tail: seq<Event>, c: Event)
    requires IsClose(c)
    requires forall e :: e in body ==> !IsClose(e)
    requires AtMostOnce(tail, (e: Event) => e == c)
    ensures AtMostOnce(body + tail, (e: Event) => e == c)
  {
    var t := body + tail;
    forall i, j | 0 <= i < j < |t| && t[i] == c
      ensures t[j] != c
    {
      if |body| <= i {
        assert t[i] == tail[i - |body|] && t[j] == tail[j - |body|];
      }
    }
  }
}
