/**
  The memoizer's loop written the way the Go function runs it: two mutable
  flags, a pass over the inbound requests, and the closes after the loop.
 */
module MemoizerLoop {
  import opened GoTypes
  import opened MemErrors
  import opened Messages
  import opened Memoizer
  import opened MemoizerRun

  /** One pass of the loop body: handles `x` and returns the updated flags and what it did. */
  method HandleRequest(key: KeyFn, cacheGone0: bool, classGone0: bool, x: Exchange)
    returns (cacheGone: bool, classGone: bool, evs: seq<Event>)
    ensures StepResult(State(cacheGone, classGone), evs) == Step(key, State(cacheGone0, classGone0), x)
  {
    cacheGone, classGone := cacheGone0, classGone0;
    evs := [];
    var req := x.req;
    var k := key(req.val);
    var cresp := ZeroCacheResp;
    if !cacheGone {
      evs := evs + [CacheLookup(CacheReq(false, k, 0, req.id))];
      match x.cache
      case Closed => cacheGone := true;
      case Reply(v) => cresp := v;
    }
    if cacheGone || !cresp.present || cresp.id != req.id {
      evs := evs + [ClassSend(req)];
      match x.classifier
      case Closed =>
        var ans := Failure(ZeroMnistResp.val, req.id, MemErrSerCrash, CrashDesc, None);
        evs := evs + [Respond(ans)];
        classGone := true;
      case Reply(resp) =>
        if resp.err.Some? {
          var ans := Failure(resp.val, req.id, MemErrSerErr, ErrorDesc, resp.err);
          evs := evs + [Respond(ans)];
        } else if req.id != resp.id {
          var ans := Failure(resp.val, req.id, MemErrSerCorrupt, CorruptDesc, None);
          evs := evs + [Respond(ans)];
        } else {
          if !cacheGone {
            evs := evs + [CacheWrite(CacheReq(true, k, resp.val, resp.id))];
          }
          evs := evs + [Respond(resp)];
        }
    } else {
      evs := evs + [Respond(MnistResp(cresp.val, cresp.id, None))];
    }
  }

  /** Runs the memoizer over the inbound requests and returns everything it does. */
  method Serve(key: KeyFn, xs: seq<Exchange>) returns (trace: seq<Event>)
    ensures trace == Run(key, xs)
    ensures |Responses(trace)| == |xs|
    ensures forall i :: 0 <= i < |xs| ==> Responses(trace)[i].id == xs[i].req.id
  {
    ghost var h := History0(key, xs);
    var cacheGone := false;
    var classGone := false;
    trace := [];
    var i := 0;
    while i < |xs|
      invariant i <= |xs|
      invariant State(cacheGone, classGone) == h.states[i]
      invariant trace == Flatten(h.segments[..i])
    {
      var evs;
      cacheGone, classGone, evs := HandleRequest(key, cacheGone, classGone, xs[i]);
      trace := trace + evs;
      StepAt(key, Init, xs, i);
      FlattenSnoc(h.segments, i);
      i := i + 1;
    }
    assert h.segments[..|xs|] == h.segments;
    if !classGone {
      trace := trace + [CloseClassResp];
    }
    if !cacheGone {
      trace := trace + [CloseCacheResp];
    }
    trace := trace + [CloseMemResp];
    OneResponsePerRequestInOrder(key, xs);
  }
}
