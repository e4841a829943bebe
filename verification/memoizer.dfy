/**
  The memoizer's handling of one request. Each blocking channel exchange is
  replaced by the answer the other side gives (or the channel's closure), so
  handling a request is a pure function from the two sticky flags, the request
  and those answers to the new flags and the events the memoizer performs.
 */
module Memoizer {
  import opened GoTypes
  import opened MemErrors
  import opened Messages

  /** The result of a receive: the channel was closed, or a value arrived. */
  datatype Outcome<+T> = Closed | Reply(value: T)

  /**
    One request taken from the inbound channel, together with what the cache
    answers to a lookup for it and what the classifier answers if asked. An
    answer the memoizer never waits for is ignored.
   */
  datatype Exchange = Exchange(req: MnistReq, cache: Outcome<CacheResp>, classifier: Outcome<MnistResp>)

  /** The two sticky flags: the cache's and the classifier's response channels were seen closed. */
  datatype State = State(cacheGone: bool, classGone: bool)

  const Init := State(false, false)

  /** What the memoizer does, in the order it does it. */
  datatype Event =
    | CacheLookup(creq: CacheReq)   // a lookup sent to the cache, then its answer awaited
    | CacheWrite(creq: CacheReq)    // a store sent to the cache, no answer awaited
    | ClassSend(req: MnistReq)      // a request forwarded to the classifier, then its answer awaited
    | Respond(resp: MnistResp)      // a response sent to the caller
    | CloseClassResp                // the classifier's response channel closed at shutdown
    | CloseCacheResp                // the cache's response channel closed at shutdown
    | CloseMemResp                  // the caller's response channel closed at shutdown

  datatype StepResult = StepResult(state: State, events: seq<Event>)

  /** The checksum that turns a payload into a cache key (CRC-64 with the ECMA table). */
  type KeyFn = Payload -> Uint64

  const CrashDesc := "Classifier crashed"
  const ErrorDesc := "Classifier error"
  const CorruptDesc := "Bad messageID from classifier"

  /** The cache is consulted first, at most once, only while it is up, and always under the payload's key. */
  lemma StepCacheTraffic(key: KeyFn, s: State, x: Exchange)
    ensures var evs := Step(key, s, x).events;
      && (!s.cacheGone ==> evs[0] == CacheLookup(LookupReq(key, x.req)))
      && (s.cacheGone ==> forall e :: e in evs ==> !IsCacheEvent(e))
      && (forall e :: e in evs && IsCacheEvent(e) ==> e.creq.key == key(x.req.val) && e.creq.id == x.req.id)
      && AtMostOnce(evs, (e: Event) => e.CacheLookup?)
      && AtMostOnce(evs, (e: Event) => e.CacheWrite?)
  {
    if CacheHit(s, x) {
      CacheHitAnswersFromCache(key, s, x);
    } else {
      StepMissEvents(key, s, x);
    }
  }

  /** The classifier is asked, once and with the request unchanged, exactly when the cache gave no usable answer. */
  lemma StepClassifierTraffic(key: KeyFn, s: State, x: Exchange)
    ensures var evs := Step(key, s, x).events;
      && (ClassSend(x.req) in evs <==> !CacheHit(s, x))
      && (forall e :: e in evs && e.ClassSend? ==> e.req == x.req)
      && AtMostOnce(evs, (e: Event) => e.ClassSend?)
  {
    if CacheHit(s, x) {
      CacheHitAnswersFromCache(key, s, x);
    } else {
      StepMissEvents(key, s, x);
    }
  }

  /**
    Without a usable cache answer the events are, in order: the lookup (while
    the cache was up), the one classifier request, the store (only for a
    classifier success while the cache is still up), and the response.
   */
  lemma StepMissEvents(key: KeyFn, s: State, x: Exchange)
    requires !CacheHit(s, x)
    ensures var r := Step(key, s, x);
      r.events ==
        (if s.cacheGone then [] else [CacheLookup(LookupReq(key, x.req))])
        + [ClassSend(x.req)]
        + (if !r.state.cacheGone && ClassifierSucceeded(x)
           then [CacheWrite(CacheReq(true, key(x.req.val), x.classifier.value.val, x.req.id))]
           else [])
        + [Respond(Response(r.events))]
  {
  }

  /** No two events of the sequence satisfy `p`. */
  predicate AtMostOnce(evs: seq<Event>, p: Event -> bool) {
    forall i, j :: 0 <= i < j < |evs| && p(evs[i]) ==> !p(evs[j])
  }

  /** A store follows exactly a classifier success while the cache is up, and stores that answer. */
  lemma StepStores(key: KeyFn, s: State, x: Exchange)
    ensures var r := Step(key, s, x);
      && ((exists e :: e in r.events && e.CacheWrite?) <==>
            !r.state.cacheGone && !CacheHit(s, x) && ClassifierSucceeded(x))
      && (forall e :: e in r.events && e.CacheWrite? ==>
            && e.creq == CacheReq(true, key(x.req.val), x.classifier.value.val, x.req.id)
            && Response(r.events) == x.classifier.value)
  {
    var r := Step(key, s, x);
    if !r.state.cacheGone && !CacheHit(s, x) && ClassifierSucceeded(x) {
      var w := CacheWrite(CacheReq(true, key(x.req.val), x.classifier.value.val, x.req.id));
      assert r.events == [CacheLookup(LookupReq(key, x.req)), ClassSend(x.req), w, Respond(x.classifier.value)];
      assert r.events[2] == w;
    }
  }

  /** A usable cache answer: the cache is up, answered, has the entry, and echoes the request id. */
  predicate CacheHit(s: State, x: Exchange) {
    !s.cacheGone && x.cache.Reply? && x.cache.value.present && x.cache.value.id == x.req.id
  }

  /** The classifier answered without an error and with the request's id. */
  predicate ClassifierSucceeded(x: Exchange) {
    x.classifier.Reply? && x.classifier.value.err.None? && x.classifier.value.id == x.req.id
  }

  predicate IsCacheEvent(e: Event) {
    e.CacheLookup? || e.CacheWrite?
  }

  predicate IsClose(e: Event) {
    e.CloseClassResp? || e.CloseCacheResp? || e.CloseMemResp?
  }

  /** The lookup the memoizer sends for a request. */
  function LookupReq(key: KeyFn, req: MnistReq): CacheReq {
    CacheReq(false, key(req.val), 0, req.id)
  }

  /** A response carrying a MemErr built at the failure site. */
  function Failure(val: Int64, id: Int64, cause: MemErrCause, desc: string, serErr: Option<ErrorValue>): MnistResp {
    MnistResp(val, id, Some(MemErrorValue(CreateMemErr(cause, desc, serErr))))
  }

  /** The events hold exactly one response, and it is the last event. */
  predicate EndsWithOnlyResponse(evs: seq<Event>) {
    && 1 <= |evs|
    && evs[|evs| - 1].Respond?
    && forall i :: 0 <= i < |evs| - 1 ==> !evs[i].Respond?
  }

  /** The response that ends a step's events. */
  function Response(evs: seq<Event>): MnistResp
    requires EndsWithOnlyResponse(evs)
  {
    evs[|evs| - 1].resp
  }

  /** Handles one request: one iteration of the memoizer's loop. */
  function Step(key: KeyFn, s: State, x: Exchange): (r: StepResult)
    // exactly one response, last, answering this request
    ensures EndsWithOnlyResponse(r.events)
    ensures Response(r.events).id == x.req.id
    ensures forall e :: e in r.events ==> !IsClose(e)
    // the flags only ever become true, and only on observing a closed channel
    ensures r.state.cacheGone == (s.cacheGone || x.cache.Closed?)
    ensures r.state.classGone == (s.classGone || (!CacheHit(s, x) && x.classifier.Closed?))
  {
    var k := key(x.req.val);
    var lookup := if s.cacheGone then [] else [CacheLookup(CacheReq(false, k, 0, x.req.id))];
    var cacheGone := s.cacheGone || x.cache.Closed?;
    var cresp := if cacheGone then ZeroCacheResp else x.cache.value;
    if cacheGone || !cresp.present || cresp.id != x.req.id then
      var asked := lookup + [ClassSend(x.req)];
      match x.classifier
      case Closed =>
        var ans := Failure(ZeroMnistResp.val, x.req.id, MemErrSerCrash, CrashDesc, None);
        StepResult(State(cacheGone, true), asked + [Respond(ans)])
      case Reply(resp) =>
        if resp.err.Some? then
          var ans := Failure(resp.val, x.req.id, MemErrSerErr, ErrorDesc, resp.err);
          StepResult(State(cacheGone, s.classGone), asked + [Respond(ans)])
        else if x.req.id != resp.id then
          var ans := Failure(resp.val, x.req.id, MemErrSerCorrupt, CorruptDesc, None);
          StepResult(State(cacheGone, s.classGone), asked + [Respond(ans)])
        else
          var store := if cacheGone then [] else [CacheWrite(CacheReq(true, k, resp.val, resp.id))];
          StepResult(State(cacheGone, s.classGone), asked + store + [Respond(resp)])
    else
      StepResult(State(cacheGone, s.classGone), lookup + [Respond(MnistResp(cresp.val, cresp.id, None))])
  }

  /** A usable cache answer is returned as is, with no error, and nothing else happens. */
  lemma CacheHitAnswersFromCache(key: KeyFn, s: State, x: Exchange)
    requires CacheHit(s, x)
    ensures Step(key, s, x) ==
              StepResult(s, [CacheLookup(LookupReq(key, x.req)), Respond(MnistResp(x.cache.value.val, x.req.id, None))])
  {
  }

  /** A closed classifier channel yields a crash error and marks the classifier gone. */
  lemma ClassifierCrashAnswer(key: KeyFn, s: State, x: Exchange)
    requires !CacheHit(s, x) && x.classifier.Closed?
    ensures var r := Step(key, s, x);
      && r.state.classGone
      && Response(r.events) == Failure(0, x.req.id, MemErrSerCrash, CrashDesc, None)
      && GetErrCause(Response(r.events).err.value) == MemErrSerCrash
  {
  }

  /** A classifier error is wrapped, its value passed through, and nothing is stored. */
  lemma ClassifierErrorAnswer(key: KeyFn, s: State, x: Exchange)
    requires !CacheHit(s, x) && x.classifier.Reply? && x.classifier.value.err.Some?
    ensures var r := Step(key, s, x);
      && r.state.classGone == s.classGone
      && Response(r.events) == Failure(x.classifier.value.val, x.req.id, MemErrSerErr, ErrorDesc, x.classifier.value.err)
      && GetErrCause(Response(r.events).err.value) == MemErrSerErr
      && forall e :: e in r.events ==> !e.CacheWrite?
  {
  }

  /** An answer for another request id is reported as corrupt and nothing is stored. */
  lemma ClassifierCorruptAnswer(key: KeyFn, s: State, x: Exchange)
    requires !CacheHit(s, x) && x.classifier.Reply? && x.classifier.value.err.None? && x.classifier.value.id != x.req.id
    ensures var r := Step(key, s, x);
      && r.state.classGone == s.classGone
      && Response(r.events) == Failure(x.classifier.value.val, x.req.id, MemErrSerCorrupt, CorruptDesc, None)
      && GetErrCause(Response(r.events).err.value) == MemErrSerCorrupt
      && forall e :: e in r.events ==> !e.CacheWrite?
  {
  }

  /** A classifier success is forwarded unchanged. */
  lemma ClassifierSuccessAnswer(key: KeyFn, s: State, x: Exchange)
    requires !CacheHit(s, x) && ClassifierSucceeded(x)
    ensures var r := Step(key, s, x);
      && r.state.classGone == s.classGone
      && Response(r.events) == x.classifier.value
      && Response(r.events).err.None?
  {
  }

  /**
    Losing the cache is absorbed: a lookup that finds the cache's channel closed
    leads to the same response and classifier flag as never having had a cache.
   */
  lemma CacheLossIsAbsorbed(key: KeyFn, s: State, x: Exchange)
    requires x.cache.Closed?
    ensures var r := Step(key, s, x);
      var g := Step(key, s.(cacheGone := true), x);
      && Response(r.events) == Response(g.events)
      && r.state == g.state
  {
  }

  /** Every error the caller sees comes from the classifier path and names a service failure. */
  lemma ErrorsComeFromClassifier(key: KeyFn, s: State, x: Exchange)
    ensures var r := Step(key, s, x);
      Response(r.events).err.Some? ==>
        && ClassSend(x.req) in r.events
        && Response(r.events).err.value.MemErrorValue?
        && GetErrCause(Response(r.events).err.value) in {MemErrSerErr, MemErrSerCrash, MemErrSerCorrupt}
  {
  }
}
