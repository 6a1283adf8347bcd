/** From recorded chunks to replayed bytes: finalizers offer what their tees recorded, the
    queue may strip it, the writer commits it, retention evicts it, and a replay reads what
    is left. All of it interleaved. */
module EndToEnd {
  import opened Domain
  import opened Store
  import opened Capture
  import L = Ledger
  import R = Replay
  import M = RouteMachine
  import C = Settings

  /** A finished exchange: its set-up and the chunks its tees had recorded. */
  datatype Recording = Recording(setup: Setup, request: seq<Body>, response: seq<Body>)

  function Written(rec: Recording): CaptureWrite {
    WriteOf(rec.setup, rec.request, rec.response)
  }

  /** `latest` names, for each id, the recording whose write was committed last. */
  datatype Pipeline = Pipeline(
    queue: L.Queue,
    recordings: seq<Recording>,
    db: Tables,
    latest: map<RequestId, nat>)

  datatype Action =
    | Finalized(rec: Recording)
    | Queue(a: L.Action)
    | Write(fault: bool)
    | Store(s: Statement)

  predicate Enabled(p: Pipeline, a: Action) {
    match a
    case Finalized(rec) => L.Offerable(Written(rec))
    case Queue(q) => !q.Offer? && !q.Finish? && L.Enabled(p.queue, q)
    case Write(_) => p.queue.writing != []
    case Store(s) => !s.Insert?
  }

  function Step(p: Pipeline, a: Action): Pipeline
    requires Enabled(p, a)
  {
    match a
    case Finalized(rec) =>
      p.(queue := L.Step(p.queue, L.Offer(Written(rec))), recordings := p.recordings + [rec])
    case Queue(q) =>
      p.(queue := L.Step(p.queue, q))
    case Write(fault) =>
      var e := p.queue.writing[0];
      var ok := !fault && Storable(p.db, e.write);
      Pipeline(
        L.Step(p.queue, L.Finish(ok)), p.recordings,
        Execute(p.db, Insert(e.write, fault)),
        if ok then p.latest[e.write.record.requestId := e.ticket] else p.latest)
    case Store(s) =>
      p.(db := Execute(p.db, s))
  }

  function Start(capacity: nat): Pipeline {
    Pipeline(L.Start(capacity), [], EMPTY, map[])
  }

  /** What a handler knows about its request when it leaves. */
  datatype Facts = Facts(
    id: RequestId,
    routeId: string,
    verb: string,
    path: string,
    redactedQuery: Option<string>,
    denyStatus: int,
    status: int,
    origin: string,
    failed: bool,
    slow: bool,
    capture: C.CaptureConfig,
    cap: nat,
    requestCapturable: bool,
    responseCapturable: bool,
    capturedAtHead: nat,
    requestHeaders: seq<Header>,
    responseHeaders: seq<Header>,
    decisions: seq<DecisionInsert>,
    now: int)

  function RecordOf(f: Facts, routed: bool, status: int, upstream: Option<string>, isError: bool, isSlow: bool,
                    dropped: bool)
    : RequestInsert
  {
    RequestInsert(f.id, if routed then Some(f.routeId) else None, f.verb, f.path, f.redactedQuery, status, upstream,
                  isError, isSlow, dropped, f.now)
  }

  /** The finalizer of an exit that captures nothing. */
  function MetadataOnly(f: Facts, record: RequestInsert, decisions: seq<DecisionInsert>): Setup {
    Setup(record, f.requestHeaders, f.responseHeaders, false, decisions, false, 0, false, 0)
  }

  /** What each exit of the handler hands to its finalizer. */
  function SetupOf(exit: M.Exit, f: Facts): Setup {
    match exit
    case NoRoute => MetadataOnly(f, RecordOf(f, false, 404, None, false, false, false), [])
    case ConcurrencyLimit => MetadataOnly(f, RecordOf(f, true, 503, None, true, false, true), [])
    case PreviewFailed => MetadataOnly(f, RecordOf(f, true, 403, None, false, false, false), [])
    case Denied =>
      var isError := 500 <= f.denyStatus <= 599;
      MetadataOnly(f, RecordOf(f, true, f.denyStatus, None, isError, f.slow, false), f.decisions)
    case NoUpstream => MetadataOnly(f, RecordOf(f, true, 503, None, true, false, true), f.decisions)
    case Upstream =>
      var should := C.ShouldCapture(f.capture.policy, f.failed, f.slow);
      var responseEnabled := should && f.capture.responseBytes > 0 && f.responseCapturable;
      Setup(
        RecordOf(f, true, f.status, Some(f.origin), f.failed, f.slow, false),
        f.requestHeaders, f.responseHeaders, should, f.decisions,
        f.capture.policy != C.Off && f.capture.requestBody && f.requestCapturable, f.cap,
        responseEnabled, ResponseLimit(responseEnabled, f.cap, f.capturedAtHead, f.capture.responseBytes))
  }

  lemma SetupsAreProper(exit: M.Exit, f: Facts, request: seq<Body>, response: seq<Body>)
    ensures var w := WriteOf(SetupOf(exit, f), request, response);
      && L.Offerable(w)
      && w.record.requestId == f.id && (w.decisions == f.decisions || w.decisions == [])
      && (w.capture.Some? <==> exit == M.Upstream && C.ShouldCapture(f.capture.policy, f.failed, f.slow))
  {
  }

  /** What each exit records: its status, whether it is an error, whether it is slow, whether its capture
      counts as dropped, its route, its upstream and its decisions. */
  lemma ExitRecords(exit: M.Exit, f: Facts)
    ensures var setup := SetupOf(exit, f);
      && setup.record.requestId == f.id && setup.record.verb == f.verb && setup.record.path == f.path
      && setup.record.redactedQuery == f.redactedQuery && setup.record.createdAt == f.now
      && (exit == M.NoRoute ==> setup.record.status == 404)
      && (exit == M.PreviewFailed ==> setup.record.status == 403)
      && (exit == M.ConcurrencyLimit || exit == M.NoUpstream ==> setup.record.status == 503)
      && (exit == M.Denied ==> setup.record.status == f.denyStatus)
      && (exit == M.Upstream ==> setup.record.status == f.status)
      && (setup.record.isError <==>
            || exit == M.ConcurrencyLimit || exit == M.NoUpstream
            || (exit == M.Denied && 500 <= f.denyStatus <= 599) || (exit == M.Upstream && f.failed))
      && (setup.record.isSlow <==> f.slow && (exit == M.Denied || exit == M.Upstream))
      && (setup.record.captureDropped <==> exit == M.ConcurrencyLimit || exit == M.NoUpstream)
      && setup.record.routeId == (if exit == M.NoRoute then None else Some(f.routeId))
      && setup.record.upstream == (if exit == M.Upstream then Some(f.origin) else None)
      && setup.requestHeaders == f.requestHeaders && setup.responseHeaders == f.responseHeaders
      && setup.decisions ==
           if exit == M.Denied || exit == M.NoUpstream || exit == M.Upstream then f.decisions else []
  {
  }

  /** What each exit captures: nothing before an upstream answered, and then by policy, content and limits. */
  lemma ExitCaptures(exit: M.Exit, f: Facts)
    ensures var setup := SetupOf(exit, f);
      && (setup.shouldCapture <==> exit == M.Upstream && C.ShouldCapture(f.capture.policy, f.failed, f.slow))
      && (setup.requestEnabled <==>
            exit == M.Upstream && f.capture.policy != C.Off && f.capture.requestBody && f.requestCapturable)
      && (setup.responseEnabled <==> setup.shouldCapture && f.capture.responseBytes > 0 && f.responseCapturable)
      && (exit == M.Upstream ==> setup.requestLimit == f.cap)
      && (setup.responseEnabled ==>
            setup.responseLimit ==
              Min(if f.capturedAtHead <= f.cap then f.cap - f.capturedAtHead else 0, f.capture.responseBytes))
  {
  }

  /** In every interleaving of a route's requests: what a handler that has left offers, whichever
      exit it took, is a write the queue's bookkeeping is right about; it holds a capture only if
      the handler got an upstream and reported its result, and the policy asks for one. */
  lemma ExitsOfferProperly(cfg: M.Config, trace: seq<M.Machine>, actions: seq<M.Action>, k: nat, who: nat,
                           f: Facts, request: seq<Body>, response: seq<Body>)
    requires M.ValidConfig(cfg) && M.Behaviour(cfg, trace, actions) && k <= |actions|
    requires who < |trace[k].handlers| && trace[k].handlers[who].pc.Streaming?
    ensures var h := trace[k].handlers[who];
      var w := WriteOf(SetupOf(h.pc.exit, f), request, response);
      && L.Offerable(w) && h.offers == 0 && h.metrics == 1
      && w.record.requestId == f.id && (w.decisions == f.decisions || w.decisions == [])
      && (w.capture.Some? <==> h.reports == 1 && C.ShouldCapture(f.capture.policy, f.failed, f.slow))
  {
    M.InvariantThroughout(cfg, trace, actions, k);
    assert M.Local(cfg, trace[k].handlers[who]);
    SetupsAreProper(trace[k].handlers[who].pc.exit, f, request, response);
  }

  /** A captured exchange stays within the cap exactly when the budget of its exit says so. */
  lemma ExitWithinBudget(f: Facts, head: seq<Body>, later: seq<Body>, response: seq<Body>)
    requires f.capturedAtHead == CapturedBytes(SetupOf(M.Upstream, f), head)
    ensures var setup := SetupOf(M.Upstream, f);
      var stored := StoredBytes(WriteOf(setup, head + later, response));
      && (stored <= f.cap <==>
            FitsCap(setup, f.cap, f.capture.responseBytes, |Concat(head)|, |Concat(later)|, |Concat(response)|))
      && stored <= 2 * f.cap
  {
    WithinCapExactly(SetupOf(M.Upstream, f), f.cap, f.capture.responseBytes, head, later, response);
  }

  // ----- every stored row is some recording's --------------------------------------------------------

  /** The rows of an id are those of its latest recording, whole or stripped. */
  predicate RowsFrom(db: Tables, id: RequestId, w: CaptureWrite) {
    && id in db.requests
    && (db.requests[id] == w.record || db.requests[id] == L.Fallback(w).record)
    && (id in db.captures <==> w.capture.Some? && db.requests[id] == w.record)
    && (id in db.captures ==> CaptureFrom(db.captures[id], w))
  }

  predicate Parallel(p: Pipeline) {
    |p.recordings| == |p.queue.offered|
    && forall t :: 0 <= t < |p.recordings| ==> p.queue.offered[t] == Written(p.recordings[t])
  }

  predicate Parented(db: Tables) {
    forall id :: id in db.captures ==> id in db.requests
  }

  predicate Traced(p: Pipeline) {
    && Parented(p.db)
    && forall id :: id in p.db.requests ==> TracedAt(p, id)
  }

  predicate Invariant(p: Pipeline) {
    L.Authentic(p.queue) && Parallel(p) && Traced(p)
  }

  lemma StatementKeepsRows(db: Tables, s: Statement, id: RequestId, w: CaptureWrite)
    requires RowsFrom(db, id, w)
    requires s.Insert? ==> s.w.record.requestId != id
    ensures id in Execute(db, s).requests ==> RowsFrom(Execute(db, s), id, w)
  {
  }

  lemma CommitWritesRows(db: Tables, e: L.Entry, w: CaptureWrite)
    requires L.Offerable(w) && (e.write == w || e.write == L.Fallback(w))
    ensures RowsFrom(AfterInsert(db, e.write), w.record.requestId, w)
  {
  }

  /** The rows of one id after a step come from its latest recording. */
  predicate TracedAt(p: Pipeline, id: RequestId) {
    id in p.latest && p.latest[id] < |p.recordings| && RowsFrom(p.db, id, Written(p.recordings[p.latest[id]]))
  }

  lemma WriteKeepsTraced(p: Pipeline, fault: bool, id: RequestId)
    requires Enabled(p, Write(fault)) && Invariant(p)
    requires id in Step(p, Write(fault)).db.requests
    ensures TracedAt(Step(p, Write(fault)), id)
  {
    var e := p.queue.writing[0];
    assert L.Genuine(p.queue.offered, e);
    if !fault && Storable(p.db, e.write) {
      if id == e.write.record.requestId {
        CommitWritesRows(p.db, e, Written(p.recordings[e.ticket]));
      } else {
        assert TracedAt(p, id);
        StatementKeepsRows(p.db, Insert(e.write, fault), id, Written(p.recordings[p.latest[id]]));
      }
    } else {
      assert TracedAt(p, id);
    }
  }

  lemma OtherKeepsTraced(p: Pipeline, a: Action, id: RequestId)
    requires Enabled(p, a) && Invariant(p) && !a.Write?
    requires id in Step(p, a).db.requests
    ensures TracedAt(Step(p, a), id)
  {
    assert TracedAt(p, id);
    if a.Store? {
      StatementKeepsRows(p.db, a.s, id, Written(p.recordings[p.latest[id]]));
    }
  }

  lemma StatementKeepsParents(db: Tables, s: Statement)
    requires Parented(db)
    ensures Parented(Execute(db, s))
  {
  }

  lemma StepKeepsParents(p: Pipeline, a: Action)
    requires Enabled(p, a) && Parented(p.db)
    ensures Parented(Step(p, a).db)
  {
    match a
    case Write(fault) => StatementKeepsParents(p.db, Insert(p.queue.writing[0].write, fault));
    case Store(s) => StatementKeepsParents(p.db, s);
    case _ =>
  }

  lemma StepKeepsTraced(p: Pipeline, a: Action)
    requires Enabled(p, a) && Invariant(p)
    ensures Traced(Step(p, a))
  {
    StepKeepsParents(p, a);
    forall id | id in Step(p, a).db.requests
      ensures TracedAt(Step(p, a), id)
    {
      if a.Write? {
        WriteKeepsTraced(p, a.fault, id);
      } else {
        OtherKeepsTraced(p, a, id);
      }
    }
  }

  lemma StepKeepsInvariant(p: Pipeline, a: Action)
    requires Enabled(p, a) && Invariant(p)
    ensures Invariant(Step(p, a))
  {
    StepKeepsTraced(p, a);
    match a
    case Finalized(rec) => L.StepKeepsAuthentic(p.queue, L.Offer(Written(rec)));
    case Queue(q) => L.StepKeepsAuthentic(p.queue, q);
    case Write(fault) =>
      L.StepKeepsAuthentic(p.queue, L.Finish(!fault && Storable(p.db, p.queue.writing[0].write)));
    case Store(_) =>
  }

  predicate Behaviour(trace: seq<Pipeline>, actions: seq<Action>, capacity: nat) {
    && |trace| == |actions| + 1
    && trace[0] == Start(capacity)
    && forall i :: 0 <= i < |actions| ==> Enabled(trace[i], actions[i]) && trace[i + 1] == Step(trace[i], actions[i])
  }

  lemma {:induction false} InvariantThroughout(trace: seq<Pipeline>, actions: seq<Action>, capacity: nat, k: nat)
    requires Behaviour(trace, actions, capacity) && k <= |actions|
    ensures Invariant(trace[k])
  {
    if k > 0 {
      InvariantThroughout(trace, actions, capacity, k - 1);
      StepKeepsInvariant(trace[k - 1], actions[k - 1]);
    }
  }

  // ----- which bytes a replay may carry ----------------------------------------------------------------

  function CaptureOf(db: Tables, id: RequestId): Option<CaptureRow> {
    if id in db.captures then Some(db.captures[id]) else None
  }

  /** The request body was captured whole, kept by the queue, and is still stored. */
  predicate WholeBodyStored(db: Tables, id: RequestId, rec: Recording) {
    && rec.setup.shouldCapture && rec.setup.requestEnabled && rec.request != []
    && |Concat(rec.request)| <= rec.setup.requestLimit
    && id in db.captures && !db.captures[id].bodyEvicted
  }

  /** The request body was captured past its limit, kept by the queue, and is still stored. */
  predicate CutBodyStored(db: Tables, id: RequestId, rec: Recording) {
    && rec.setup.shouldCapture && rec.setup.requestEnabled && rec.request != []
    && |Concat(rec.request)| > rec.setup.requestLimit
    && id in db.captures && !db.captures[id].bodyEvicted
  }

  /** In every reachable state and for every method: a replayed body is every byte recorded when
      the latest record of that id was finalized, and it is carried exactly when it was captured
      whole and is still stored. Otherwise POST, PUT and PATCH are refused; any other method is
      refused exactly when a cut body is stored, and else replayed with none. */
  lemma ReplayCarriesWholeBody(trace: seq<Pipeline>, actions: seq<Action>, capacity: nat, k: nat, id: RequestId,
                               verb: string)
    requires Behaviour(trace, actions, capacity) && k <= |actions|
    requires id in trace[k].db.requests
    ensures id in trace[k].latest && trace[k].latest[id] < |trace[k].recordings|
    ensures var p := trace[k];
      var rec := p.recordings[p.latest[id]];
      var replayed := R.ReplayBody(verb, CaptureOf(p.db, id));
      && (replayed.Ok? && replayed.value.Some? ==> replayed.value.value == Concat(rec.request))
      && (replayed == Ok(Some(Concat(rec.request))) <==> WholeBodyStored(p.db, id, rec))
      && (R.RequiresBody(verb) ==> (replayed.Err? <==> !WholeBodyStored(p.db, id, rec)))
      && (!R.RequiresBody(verb) ==>
            && (replayed.Err? <==> CutBodyStored(p.db, id, rec))
            && (replayed == Ok(None) <==> !WholeBodyStored(p.db, id, rec) && !CutBodyStored(p.db, id, rec)))
  {
    InvariantThroughout(trace, actions, capacity, k);
    assert TracedAt(trace[k], id);
  }
}
