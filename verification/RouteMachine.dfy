/** All requests of one route at once. Every read or write of a shared atomic, every permit
    and every await is a step of its own, so handlers interleave at every point where the
    scheduler lets them. */
module RouteMachine {
  import opened Domain
  import opened Upstreams

  datatype Config = Config(limit: nat, upstreams: nat, threshold: nat, cooldown: int, retries: nat)

  /** What configuration validation guarantees of a route. */
  predicate ValidConfig(c: Config) {
    && 1 <= c.limit <= 100_000
    && 1 <= c.upstreams
    && 1 <= c.threshold <= 100
    && c.retries <= 3
  }

  datatype Exit = NoRoute | ConcurrencyLimit | PreviewFailed | Denied | NoUpstream | Upstream

  datatype Pc =
    | Arrived
    | Routed
    | Admitted
    | Previewed
    | Selecting(left: nat, now: int)
    | Loading(index: nat, left: nat, now: int)
    | Dispatching(index: nat, left: nat)
    | Reporting(index: nat, failed: bool)
    | Tripped(index: nat, at: nat)
    | Marked(index: nat)
    | Cleared(index: nat)
    | Recorded
    | Streaming(exit: Exit)
    | Offered(exit: Exit)
    | Done(exit: Exit)
    | Cancelled

  /** A request; the counters, `targets` and the log position of a trip are history. */
  datatype Handler = Handler(
    pc: Pc,
    retryEligible: bool,
    permit: bool,
    metrics: nat,
    offers: nat,
    dispatches: nat,
    reports: nat,
    targets: set<nat>)

  /** Operations on the shared atomics, in the order they took effect. */
  datatype Op = Take(index: nat) | Bump(index: nat) | Reset(index: nat) | Mark(index: nat) | Unmark(index: nat)

  datatype Shared = Shared(free: nat, cursor: nat, failures: seq<nat>, until: seq<int>, log: seq<Op>)

  datatype Attempt = Answered(serverError: bool) | TimedOut | TransportFailed | NotBuilt

  datatype Choice =
    | Route(matched: bool)
    | Acquire
    | Preview(ok: bool)
    | Evaluate(denied: bool, now: int)
    | Claim
    | Load
    | Try(result: Attempt)
    | Report
    | StoreUntil(at: int)
    | StoreFailures
    | Respond
    | EndOfBody
    | DropBody
    | Cancel

  predicate CanMove(h: Handler, c: Choice) {
    match c
    case Route(_) => h.pc.Arrived?
    case Acquire => h.pc.Routed?
    case Preview(_) => h.pc.Admitted?
    case Evaluate(_, _) => h.pc.Previewed?
    case Claim => h.pc.Selecting? && h.pc.left > 0
    case Load => h.pc.Loading?
    case Try(_) => h.pc.Dispatching?
    case Report => h.pc.Reporting?
    case StoreUntil(_) => h.pc.Tripped? || h.pc.Cleared?
    case StoreFailures => h.pc.Marked?
    case Respond => h.pc.Recorded?
    case EndOfBody => h.pc.Streaming?
    case DropBody => h.pc.Streaming? || h.pc.Offered?
    case Cancel => h.pc.Admitted? || h.pc.Previewed? || h.pc.Dispatching?
  }

  function Attempts(cfg: Config, h: Handler): nat {
    if h.retryEligible then cfg.retries + 1 else 1
  }

  /** Records the metric and hands the response to the body with its finalizer. */
  function Leave(h: Handler, exit: Exit): Handler {
    h.(pc := Streaming(exit), metrics := h.metrics + 1)
  }

  function Release(s: Shared, h: Handler): Shared {
    if h.permit then s.(free := s.free + 1) else s
  }

  function Skip(h: Handler, left: nat, now: int): Handler {
    if left == 0 then Leave(h, NoUpstream) else h.(pc := Selecting(left, now))
  }

  function Finished(h: Handler): Handler {
    h.(pc := Recorded, reports := h.reports + 1)
  }

  /** Access to a vector by an index shown below to be in range always. */
  function Read<T>(v: seq<T>, i: nat, default: T): T {
    if i < |v| then v[i] else default
  }

  function Write<T>(v: seq<T>, i: nat, x: T): seq<T> {
    if i < |v| then v[i := x] else v
  }

  /** An operation takes effect and is logged; `until` is the value a mark stores. */
  function Perform(s: Shared, op: Op, until: int): Shared {
    var logged := s.(log := s.log + [op]);
    match op
    case Take(_) => logged.(cursor := s.cursor + 1)
    case Bump(i) => logged.(failures := Write(s.failures, i, Read(s.failures, i, 0) + 1))
    case Reset(i) => logged.(failures := Write(s.failures, i, 0))
    case Mark(i) => logged.(until := Write(s.until, i, until))
    case Unmark(i) => logged.(until := Write(s.until, i, 0))
  }

  /** One step of one handler, and what it does to the shared state. */
  function Move(cfg: Config, s: Shared, h: Handler, c: Choice): (Shared, Handler)
    requires CanMove(h, c)
  {
    match c
    case Route(matched) =>
      (s, if matched then h.(pc := Routed) else Leave(h, NoRoute))
    case Acquire =>
      if s.free > 0 then (s.(free := s.free - 1), h.(pc := Admitted, permit := true))
      else (s, Leave(h, ConcurrencyLimit))
    case Preview(ok) =>
      (s, if ok then h.(pc := Previewed) else Leave(h, PreviewFailed))
    case Evaluate(denied, now) =>
      (s, if denied then Leave(h, Denied) else Skip(h, cfg.upstreams, now))
    case Claim =>
      var index := if cfg.upstreams == 0 then 0 else Index(cfg.upstreams, s.cursor);
      (Perform(s, Take(index), 0), h.(pc := Loading(index, h.pc.left - 1, h.pc.now)))
    case Load =>
      (s, if Read(s.until, h.pc.index, 0) <= h.pc.now then h.(pc := Dispatching(h.pc.index, Attempts(cfg, h)))
          else Skip(h, h.pc.left, h.pc.now))
    case Try(result) =>
      var sent := if result.NotBuilt? then h
        else h.(dispatches := h.dispatches + 1, targets := h.targets + {h.pc.index});
      (s, if result.Answered? then sent.(pc := Reporting(h.pc.index, result.serverError))
          else if h.pc.left > 1 then sent.(pc := Dispatching(h.pc.index, h.pc.left - 1))
          else sent.(pc := Reporting(h.pc.index, true)))
    case Report =>
      var i := h.pc.index;
      if h.pc.failed then
        (Perform(s, Bump(i), 0),
         if Read(s.failures, i, 0) + 1 >= cfg.threshold then h.(pc := Tripped(i, |s.log| + 1)) else Finished(h))
      else
        (Perform(s, Reset(i), 0), h.(pc := Cleared(i)))
    case StoreUntil(at) =>
      var i := h.pc.index;
      if h.pc.Tripped? then
        (Perform(s, Mark(i), SaturatingAdd(at, cfg.cooldown)), h.(pc := Marked(i)))
      else
        (Perform(s, Unmark(i), 0), Finished(h))
    case StoreFailures =>
      (Perform(s, Reset(h.pc.index), 0), Finished(h))
    case Respond =>
      (s, Leave(h, Upstream))
    case EndOfBody =>
      (s, h.(pc := Offered(h.pc.exit), offers := h.offers + 1))
    case DropBody =>
      (Release(s, h),
       h.(pc := Done(h.pc.exit), permit := false, offers := if h.pc.Streaming? then h.offers + 1 else h.offers))
    case Cancel =>
      (Release(s, h), h.(pc := Cancelled, permit := false))
  }

  /** The indexes a handler works with exist. */
  predicate Placed(cfg: Config, h: Handler) {
    match h.pc
    case Selecting(left, _) => 1 <= left <= cfg.upstreams
    case Loading(index, left, _) => index < cfg.upstreams && left < cfg.upstreams
    case Dispatching(index, left) => index < cfg.upstreams && 1 <= left
    case Reporting(index, _) => index < cfg.upstreams
    case Tripped(index, _) => index < cfg.upstreams
    case Marked(index) => index < cfg.upstreams
    case Cleared(index) => index < cfg.upstreams
    case _ => true
  }

  // ----- what each handler has done so far ------------------------------------------------------------

  predicate Untouched(h: Handler) {
    h.metrics == 0 && h.offers == 0 && h.dispatches == 0 && h.reports == 0 && h.targets == {}
  }

  /** Dispatched within its attempts, to one upstream, nothing reported yet. */
  predicate Sent(cfg: Config, h: Handler, index: nat, left: nat) {
    && h.permit && h.metrics == 0 && h.offers == 0 && h.reports == 0
    && h.dispatches + left <= Attempts(cfg, h)
    && h.targets <= {index}
  }

  /** A handler that left the pipeline: one metric, and dispatches only if it got that far. */
  predicate Left(cfg: Config, h: Handler, exit: Exit) {
    && h.metrics == 1
    && h.dispatches <= Attempts(cfg, h)
    && |h.targets| <= 1
    && (if exit == Upstream then h.reports == 1 else h.reports == 0 && h.dispatches == 0 && h.targets == {})
  }

  predicate Local(cfg: Config, h: Handler) {
    Placed(cfg, h) &&
    match h.pc
    case Arrived => !h.permit && Untouched(h)
    case Routed => !h.permit && Untouched(h)
    case Admitted => h.permit && Untouched(h)
    case Previewed => h.permit && Untouched(h)
    case Selecting(_, _) => h.permit && Untouched(h)
    case Loading(_, _, _) => h.permit && Untouched(h)
    case Dispatching(index, left) => Sent(cfg, h, index, left)
    case Reporting(index, _) => Sent(cfg, h, index, 0)
    case Tripped(index, _) => Sent(cfg, h, index, 0)
    case Marked(index) => Sent(cfg, h, index, 0)
    case Cleared(index) => Sent(cfg, h, index, 0)
    case Recorded =>
      h.permit && h.metrics == 0 && h.offers == 0 && h.reports == 1
      && h.dispatches <= Attempts(cfg, h) && |h.targets| <= 1
    case Streaming(exit) => h.offers == 0 && Left(cfg, h, exit)
    case Offered(exit) => h.offers == 1 && Left(cfg, h, exit)
    case Done(exit) => !h.permit && h.offers == 1 && Left(cfg, h, exit)
    case Cancelled => !h.permit && h.metrics == 0 && h.offers == 0
  }

  lemma OneTarget(targets: set<nat>, index: nat)
    requires targets <= {index}
    ensures |targets| <= 1
  {
    if x :| x in targets {
      assert targets == {index};
    } else {
      assert targets == {};
    }
  }

  lemma AdmissionKeepsLocal(cfg: Config, s: Shared, h: Handler, c: Choice)
    requires CanMove(h, c) && Local(cfg, h)
    requires c.Route? || c.Acquire? || c.Preview? || c.Evaluate? || c.Claim? || c.Load?
    ensures Local(cfg, Move(cfg, s, h, c).1)
  {
  }

  lemma AttemptKeepsLocal(cfg: Config, s: Shared, h: Handler, result: Attempt)
    requires CanMove(h, Try(result)) && Local(cfg, h)
    ensures Local(cfg, Move(cfg, s, h, Try(result)).1)
  {
    assert h.targets + {h.pc.index} <= {h.pc.index};
  }

  lemma RecordingKeepsLocal(cfg: Config, s: Shared, h: Handler, c: Choice)
    requires CanMove(h, c) && Local(cfg, h)
    requires c.Report? || c.StoreUntil? || c.StoreFailures?
    ensures Local(cfg, Move(cfg, s, h, c).1)
  {
    OneTarget(h.targets, h.pc.index);
  }

  lemma DepartureKeepsLocal(cfg: Config, s: Shared, h: Handler, c: Choice)
    requires CanMove(h, c) && Local(cfg, h)
    requires c.Respond? || c.EndOfBody? || c.DropBody? || c.Cancel?
    ensures Local(cfg, Move(cfg, s, h, c).1)
  {
  }

  lemma MoveKeepsLocal(cfg: Config, s: Shared, h: Handler, c: Choice)
    requires CanMove(h, c) && Local(cfg, h)
    ensures Local(cfg, Move(cfg, s, h, c).1)
  {
    if c.Respond? || c.EndOfBody? || c.DropBody? || c.Cancel? {
      DepartureKeepsLocal(cfg, s, h, c);
    } else if c.Try? {
      AttemptKeepsLocal(cfg, s, h, c.result);
    } else if c.Report? || c.StoreUntil? || c.StoreFailures? {
      RecordingKeepsLocal(cfg, s, h, c);
    } else {
      AdmissionKeepsLocal(cfg, s, h, c);
    }
  }

  // ----- permits and health counters, seen from one step ---------------------------------------------

  predicate Holds(h: Handler) {
    h.permit
  }

  /** Tripped the threshold of upstream `i`, and has not stored its reset yet. */
  predicate OwesReset(i: nat, h: Handler) {
    (h.pc.Tripped? || h.pc.Marked?) && h.pc.index == i
  }

  lemma MoveConservesPermits(cfg: Config, s: Shared, h: Handler, c: Choice)
    requires CanMove(h, c) && Local(cfg, h)
    requires |s.failures| == |s.until| == cfg.upstreams
    ensures var (s', h') := Move(cfg, s, h, c); s'.free + One(Holds(h')) == s.free + One(Holds(h))
  {
  }

  /** A step that raises a counter to the threshold also makes its handler owe a reset. */
  lemma MoveBoundsFailures(cfg: Config, s: Shared, h: Handler, c: Choice, i: nat, others: nat)
    requires CanMove(h, c) && Local(cfg, h) && cfg.threshold >= 1
    requires |s.failures| == |s.until| == cfg.upstreams && i < cfg.upstreams
    requires s.failures[i] <= cfg.threshold - 1 + One(OwesReset(i, h)) + others
    ensures var (s', h') := Move(cfg, s, h, c);
      |s'.failures| == |s'.until| == cfg.upstreams
      && s'.failures[i] <= cfg.threshold - 1 + One(OwesReset(i, h')) + others
  {
  }

  // ----- the log ---------------------------------------------------------------------------------------

  /** Failures counted on upstream `i` since a reset was last stored there. */
  function SinceReset(log: seq<Op>, i: nat): nat {
    if log == [] then 0
    else
      match log[|log| - 1]
      case Bump(j) => SinceReset(log[..|log| - 1], i) + One(i == j)
      case Reset(j) => if i == j then 0 else SinceReset(log[..|log| - 1], i)
      case _ => SinceReset(log[..|log| - 1], i)
  }

  function Takes(log: seq<Op>): nat {
    if log == [] then 0 else Takes(log[..|log| - 1]) + One(log[|log| - 1].Take?)
  }

  /** How often index `i` was claimed. */
  function Claimed(log: seq<Op>, i: nat): nat {
    if log == [] then 0 else Claimed(log[..|log| - 1], i) + One(log[|log| - 1] == Take(i))
  }

  predicate Sized(cfg: Config, s: Shared) {
    |s.failures| == |s.until| == cfg.upstreams && s.cursor == Takes(s.log)
  }

  predicate Logged(cfg: Config, s: Shared) {
    && Sized(cfg, s)
    && forall i :: 0 <= i < cfg.upstreams ==> LoggedAt(cfg, s, i)
  }

  lemma LogOne(log: seq<Op>, op: Op, i: nat)
    ensures Takes(log + [op]) == Takes(log) + One(op.Take?)
    ensures Claimed(log + [op], i) == Claimed(log, i) + One(op == Take(i))
    ensures SinceReset(log + [op], i) == if op == Reset(i) then 0 else SinceReset(log, i) + One(op == Bump(i))
  {
    assert (log + [op])[..|log|] == log;
  }

  predicate LoggedAt(cfg: Config, s: Shared, i: nat)
    requires i < |s.failures| && cfg.upstreams > 0
  {
    Claimed(s.log, i) == Share(cfg.upstreams, s.cursor, i) && s.failures[i] == SinceReset(s.log, i)
  }

  lemma PerformKeepsLogAt(cfg: Config, s: Shared, op: Op, until: int, i: nat)
    requires i < cfg.upstreams == |s.failures| && LoggedAt(cfg, s, i)
    requires op.Take? ==> op.index == Index(cfg.upstreams, s.cursor)
    ensures |Perform(s, op, until).failures| == cfg.upstreams
    ensures LoggedAt(cfg, Perform(s, op, until), i)
  {
    LogOne(s.log, op, i);
  }

  lemma PerformKeepsSizes(cfg: Config, s: Shared, op: Op, until: int)
    requires Sized(cfg, s)
    ensures Sized(cfg, Perform(s, op, until))
  {
    LogOne(s.log, op, 0);
  }

  lemma PerformKeepsLog(cfg: Config, s: Shared, op: Op, until: int)
    requires Logged(cfg, s)
    requires op.Take? ==> cfg.upstreams > 0 && op.index == Index(cfg.upstreams, s.cursor)
    ensures Logged(cfg, Perform(s, op, until))
  {
    PerformKeepsSizes(cfg, s, op, until);
    forall i: nat | i < cfg.upstreams
      ensures LoggedAt(cfg, Perform(s, op, until), i)
    {
      assert LoggedAt(cfg, s, i);
      PerformKeepsLogAt(cfg, s, op, until, i);
    }
  }

  lemma MoveKeepsLog(cfg: Config, s: Shared, h: Handler, c: Choice)
    requires CanMove(h, c) && Placed(cfg, h) && Logged(cfg, s)
    ensures Logged(cfg, Move(cfg, s, h, c).0)
  {
    match c
    case Claim =>
      PerformKeepsLog(cfg, s, Take(Index(cfg.upstreams, s.cursor)), 0);
    case Report =>
      PerformKeepsLog(cfg, s, if h.pc.failed then Bump(h.pc.index) else Reset(h.pc.index), 0);
    case StoreUntil(at) =>
      PerformKeepsLog(cfg, s, if h.pc.Tripped? then Mark(h.pc.index) else Unmark(h.pc.index),
                      if h.pc.Tripped? then SaturatingAdd(at, cfg.cooldown) else 0);
    case StoreFailures =>
      PerformKeepsLog(cfg, s, Reset(h.pc.index), 0);
    case _ =>
      forall i: nat | i < cfg.upstreams
        ensures LoggedAt(cfg, Move(cfg, s, h, c).0, i)
      {
        assert LoggedAt(cfg, s, i);
      }
  }

  /** A handler trips exactly when its own failure brings the failures since the last reset
      to the threshold. */
  lemma TripsAtThreshold(cfg: Config, s: Shared, h: Handler)
    requires CanMove(h, Choice.Report) && Placed(cfg, h) && Logged(cfg, s)
    ensures var (s', h') := Move(cfg, s, h, Choice.Report);
      h'.pc.Tripped? <==> h.pc.failed && SinceReset(s'.log, h.pc.index) >= cfg.threshold
  {
    MoveKeepsLog(cfg, s, h, Choice.Report);
    assert LoggedAt(cfg, Move(cfg, s, h, Choice.Report).0, h.pc.index);
  }

  /** A tripped handler saw the threshold reached when its own failure was counted. */
  predicate Justified(cfg: Config, log: seq<Op>, h: Handler) {
    h.pc.Tripped? ==>
      && 1 <= h.pc.at <= |log| && log[h.pc.at - 1] == Bump(h.pc.index)
      && SinceReset(log[..h.pc.at], h.pc.index) >= cfg.threshold
  }

  lemma MoveExtendsLog(cfg: Config, s: Shared, h: Handler, c: Choice)
    requires CanMove(h, c)
    ensures s.log <= Move(cfg, s, h, c).0.log
  {
  }

  lemma JustifiedLater(cfg: Config, log: seq<Op>, longer: seq<Op>, h: Handler)
    requires Justified(cfg, log, h) && log <= longer
    ensures Justified(cfg, longer, h)
  {
    if h.pc.Tripped? {
      assert longer[..h.pc.at] == log[..h.pc.at];
    }
  }

  lemma TripIsJustified(cfg: Config, s: Shared, h: Handler)
    requires CanMove(h, Choice.Report) && Placed(cfg, h) && Logged(cfg, s)
    ensures var (s', h') := Move(cfg, s, h, Choice.Report); Justified(cfg, s'.log, h')
  {
    TripsAtThreshold(cfg, s, h);
    var s' := Move(cfg, s, h, Choice.Report).0;
    assert s'.log[..|s'.log|] == s'.log;
  }

  lemma MoveKeepsJustified(cfg: Config, s: Shared, h: Handler, c: Choice)
    requires CanMove(h, c) && Placed(cfg, h) && Logged(cfg, s)
    ensures var (s', h') := Move(cfg, s, h, c); Justified(cfg, s'.log, h')
  {
    if c.Report? {
      TripIsJustified(cfg, s, h);
    }
  }

  /** Without a reset in between, failures only accumulate. */
  lemma {:induction false} NoResetNoLoss(log: seq<Op>, from: nat, i: nat)
    requires from <= |log|
    requires forall k :: from <= k < |log| ==> log[k] != Reset(i)
    ensures SinceReset(log, i) >= SinceReset(log[..from], i)
  {
    if from < |log| {
      var before := log[..|log| - 1];
      NoResetNoLoss(before, from, i);
      assert before[..from] == log[..from];
      assert log == before + [log[|log| - 1]];
      LogOne(before, log[|log| - 1], i);
    } else {
      assert log[..from] == log;
    }
  }

  /** Operation `p` was counted as at least the threshold-th failure, and no reset was stored since. */
  predicate TripStands(log: seq<Op>, i: nat, threshold: nat, p: nat) {
    p < |log| && log[p] == Bump(i) && SinceReset(log[..p + 1], i) >= threshold && Reset(i) !in log[p + 1..]
  }

  lemma StandingTripCounts(log: seq<Op>, i: nat, threshold: nat, p: nat)
    requires TripStands(log, i, threshold, p)
    ensures SinceReset(log, i) >= threshold
  {
    assert forall k :: p + 1 <= k < |log| ==> log[k] == log[p + 1..][k - p - 1];
    NoResetNoLoss(log, p + 1, i);
  }

  lemma TripStandsLater(before: seq<Op>, op: Op, i: nat, threshold: nat, p: nat)
    requires TripStands(before, i, threshold, p) && op != Reset(i)
    ensures TripStands(before + [op], i, threshold, p)
  {
    assert (before + [op])[..p + 1] == before[..p + 1];
    assert (before + [op])[p + 1..] == before[p + 1..] + [op];
  }

  lemma {:induction false} CountHasTrip(log: seq<Op>, i: nat, threshold: nat) returns (p: nat)
    requires threshold >= 1 && SinceReset(log, i) >= threshold
    ensures TripStands(log, i, threshold, p)
  {
    var before, op := log[..|log| - 1], log[|log| - 1];
    if op == Bump(i) {
      p := |log| - 1;
      assert log[..p + 1] == log;
    } else {
      p := CountHasTrip(before, i, threshold);
      TripStandsLater(before, op, i, threshold, p);
      assert before + [op] == log;
    }
  }

  /** A threshold of failures stands exactly when some trip does. */
  lemma CountStandsExactly(log: seq<Op>, i: nat, threshold: nat)
    requires threshold >= 1
    ensures SinceReset(log, i) >= threshold <==> exists p :: 0 <= p < |log| && TripStands(log, i, threshold, p)
  {
    if p :| 0 <= p < |log| && TripStands(log, i, threshold, p) {
      StandingTripCounts(log, i, threshold, p);
    }
    if SinceReset(log, i) >= threshold {
      var p := CountHasTrip(log, i, threshold);
    }
  }

  /** From a trip on, only that trip and later ones matter. */
  lemma StandsSince(log: seq<Op>, i: nat, threshold: nat, own: nat)
    requires threshold >= 1 && own < |log| && log[own] == Bump(i) && SinceReset(log[..own + 1], i) >= threshold
    ensures SinceReset(log, i) >= threshold <==> exists p :: own <= p < |log| && TripStands(log, i, threshold, p)
  {
    CountStandsExactly(log, i, threshold);
    if SinceReset(log, i) >= threshold {
      var p :| 0 <= p < |log| && TripStands(log, i, threshold, p);
      if p < own {
        assert log[own + 1..] == log[p + 1..][own - p..];
        assert TripStands(log, i, threshold, own);
      }
    }
  }

  // ----- all handlers -------------------------------------------------------------------------------------

  datatype Machine = Machine(shared: Shared, handlers: seq<Handler>)

  datatype Action = Arrive(retryEligible: bool) | Act(who: nat, choice: Choice)

  function Start(cfg: Config): Machine {
    Machine(Shared(cfg.limit, 0, Zeros(cfg.upstreams), seq(cfg.upstreams, _ => 0), []), [])
  }

  function Zeros(n: nat): (zeros: seq<nat>)
    ensures |zeros| == n && forall i :: 0 <= i < n ==> zeros[i] == 0
  {
    if n == 0 then [] else Zeros(n - 1) + [0]
  }

  function NewHandler(retryEligible: bool): Handler {
    Handler(Arrived, retryEligible, false, 0, 0, 0, 0, {})
  }

  predicate Enabled(m: Machine, a: Action) {
    match a
    case Arrive(_) => true
    case Act(who, choice) => who < |m.handlers| && CanMove(m.handlers[who], choice)
  }

  function Step(cfg: Config, m: Machine, a: Action): Machine
    requires Enabled(m, a)
  {
    match a
    case Arrive(retryEligible) => m.(handlers := m.handlers + [NewHandler(retryEligible)])
    case Act(who, choice) =>
      var (s, h) := Move(cfg, m.shared, m.handlers[who], choice);
      Machine(s, m.handlers[who := h])
  }

  function Count(hs: seq<Handler>, p: Handler -> bool): nat {
    if hs == [] then 0 else Count(hs[..|hs| - 1], p) + One(p(hs[|hs| - 1]))
  }

  lemma {:induction false} CountUpdate(hs: seq<Handler>, who: nat, h: Handler, p: Handler -> bool)
    requires who < |hs|
    ensures Count(hs[who := h], p) + One(p(hs[who])) == Count(hs, p) + One(p(h))
    ensures Count(hs, p) >= One(p(hs[who]))
  {
    var last := |hs| - 1;
    if who < last {
      CountUpdate(hs[..last], who, h, p);
      assert hs[who := h][..last] == hs[..last][who := h];
    } else {
      assert hs[who := h][..last] == hs[..last];
    }
  }

  lemma CountAppend(hs: seq<Handler>, h: Handler, p: Handler -> bool)
    ensures Count(hs + [h], p) == Count(hs, p) + One(p(h))
  {
    assert (hs + [h])[..|hs|] == hs;
  }

  lemma {:induction false} CountSmaller(hs: seq<Handler>, p: Handler -> bool, q: Handler -> bool)
    requires forall i :: 0 <= i < |hs| && p(hs[i]) ==> q(hs[i])
    ensures Count(hs, p) <= Count(hs, q)
  {
    if hs != [] {
      CountSmaller(hs[..|hs| - 1], p, q);
    }
  }

  predicate Shaped(cfg: Config, m: Machine) {
    Logged(cfg, m.shared) && forall k :: 0 <= k < |m.handlers| ==> Local(cfg, m.handlers[k])
  }

  /** Free permits and permits held make up the route's limit. */
  predicate PermitsConserved(cfg: Config, m: Machine) {
    m.shared.free + Count(m.handlers, Holds) == cfg.limit
  }

  /** A counter is below the threshold, apart from handlers that tripped it and still owe
      their reset. */
  predicate FailuresBounded(cfg: Config, m: Machine)
    requires |m.shared.failures| == cfg.upstreams
  {
    forall i: nat :: i < cfg.upstreams ==>
      m.shared.failures[i] <= cfg.threshold - 1 + Count(m.handlers, h => OwesReset(i, h))
  }

  predicate AllJustified(cfg: Config, m: Machine) {
    forall k :: 0 <= k < |m.handlers| ==> Justified(cfg, m.shared.log, m.handlers[k])
  }

  predicate Invariant(cfg: Config, m: Machine) {
    Shaped(cfg, m) && PermitsConserved(cfg, m) && FailuresBounded(cfg, m) && AllJustified(cfg, m)
  }

  lemma StepKeepsJustified(cfg: Config, m: Machine, a: Action)
    requires Enabled(m, a) && Shaped(cfg, m) && AllJustified(cfg, m)
    ensures AllJustified(cfg, Step(cfg, m, a))
  {
    var m' := Step(cfg, m, a);
    if a.Act? {
      forall k | 0 <= k < |m'.handlers|
        ensures Justified(cfg, m'.shared.log, m'.handlers[k])
      {
        if k == a.who {
          assert Local(cfg, m.handlers[k]);
          MoveKeepsJustified(cfg, m.shared, m.handlers[k], a.choice);
        } else {
          assert Justified(cfg, m.shared.log, m.handlers[k]);
          MoveExtendsLog(cfg, m.shared, m.handlers[a.who], a.choice);
          JustifiedLater(cfg, m.shared.log, m'.shared.log, m.handlers[k]);
        }
      }
    }
  }

  lemma StepKeepsShape(cfg: Config, m: Machine, a: Action)
    requires ValidConfig(cfg) && Enabled(m, a) && Shaped(cfg, m)
    ensures Shaped(cfg, Step(cfg, m, a))
  {
    if a.Act? {
      MoveKeepsLocal(cfg, m.shared, m.handlers[a.who], a.choice);
      MoveKeepsLog(cfg, m.shared, m.handlers[a.who], a.choice);
    }
  }

  lemma StepKeepsPermits(cfg: Config, m: Machine, a: Action)
    requires ValidConfig(cfg) && Enabled(m, a) && Shaped(cfg, m) && PermitsConserved(cfg, m)
    ensures PermitsConserved(cfg, Step(cfg, m, a))
  {
    match a
    case Arrive(e) =>
      CountAppend(m.handlers, NewHandler(e), Holds);
    case Act(who, choice) =>
      MoveConservesPermits(cfg, m.shared, m.handlers[who], choice);
      CountUpdate(m.handlers, who, Move(cfg, m.shared, m.handlers[who], choice).1, Holds);
  }

  lemma StepKeepsFailures(cfg: Config, m: Machine, a: Action)
    requires ValidConfig(cfg) && Enabled(m, a) && Shaped(cfg, m) && FailuresBounded(cfg, m)
    ensures Shaped(cfg, Step(cfg, m, a)) && FailuresBounded(cfg, Step(cfg, m, a))
  {
    StepKeepsShape(cfg, m, a);
    forall i: nat | i < cfg.upstreams
      ensures Step(cfg, m, a).shared.failures[i]
              <= cfg.threshold - 1 + Count(Step(cfg, m, a).handlers, h => OwesReset(i, h))
    {
      var owes := h => OwesReset(i, h);
      match a
      case Arrive(e) =>
        CountAppend(m.handlers, NewHandler(e), owes);
      case Act(who, choice) =>
        var h' := Move(cfg, m.shared, m.handlers[who], choice).1;
        CountUpdate(m.handlers, who, h', owes);
        MoveBoundsFailures(cfg, m.shared, m.handlers[who], choice, i,
                           Count(m.handlers, owes) - One(owes(m.handlers[who])));
    }
  }

  predicate Follows(cfg: Config, trace: seq<Machine>, actions: seq<Action>) {
    && |trace| == |actions| + 1
    && forall i :: 0 <= i < |actions| ==>
      Enabled(trace[i], actions[i]) && trace[i + 1] == Step(cfg, trace[i], actions[i])
  }

  predicate Behaviour(cfg: Config, trace: seq<Machine>, actions: seq<Action>) {
    Follows(cfg, trace, actions) && trace[0] == Start(cfg)
  }

  lemma StartSound(cfg: Config)
    requires ValidConfig(cfg)
    ensures Invariant(cfg, Start(cfg))
  {
    forall i: nat | i < cfg.upstreams
      ensures LoggedAt(cfg, Start(cfg).shared, i)
    {
    }
  }

  lemma StepKeepsInvariant(cfg: Config, m: Machine, a: Action)
    requires ValidConfig(cfg) && Enabled(m, a) && Invariant(cfg, m)
    ensures Invariant(cfg, Step(cfg, m, a))
  {
    StepKeepsPermits(cfg, m, a);
    StepKeepsFailures(cfg, m, a);
    StepKeepsJustified(cfg, m, a);
  }

  lemma {:induction false} InvariantThroughout(cfg: Config, trace: seq<Machine>, actions: seq<Action>, k: nat)
    requires ValidConfig(cfg) && Behaviour(cfg, trace, actions) && k <= |actions|
    ensures Invariant(cfg, trace[k])
  {
    if k == 0 {
      StartSound(cfg);
    } else {
      InvariantThroughout(cfg, trace, actions, k - 1);
      StepKeepsInvariant(cfg, trace[k - 1], actions[k - 1]);
    }
  }

  // ----- what holds in every interleaving --------------------------------------------------------------------

  /** Every request that ran to completion recorded one metric and offered one write, held on
      to no permit, dispatched at most its attempts to at most one upstream, reported health
      at most once, and dispatched nothing unless it left through the upstream exit. */
  lemma CompletedOnce(cfg: Config, trace: seq<Machine>, actions: seq<Action>, k: nat, who: nat)
    requires ValidConfig(cfg) && Behaviour(cfg, trace, actions) && k <= |actions|
    requires who < |trace[k].handlers| && trace[k].handlers[who].pc.Done?
    ensures var h := trace[k].handlers[who];
      && h.metrics == 1 && h.offers == 1 && !h.permit
      && h.dispatches <= (if h.retryEligible then cfg.retries + 1 else 1) <= 4
      && |h.targets| <= 1
      && h.reports == One(h.pc.exit == Upstream)
      && (h.pc.exit != Upstream ==> h.dispatches == 0)
  {
    InvariantThroughout(cfg, trace, actions, k);
    assert Local(cfg, trace[k].handlers[who]);
  }

  /** At every step free and held permits make up the limit, every index in use is in range,
      and no failure counter can overflow 32 bits. */
  lemma AlwaysWithinLimits(cfg: Config, trace: seq<Machine>, actions: seq<Action>, k: nat)
    requires ValidConfig(cfg) && Behaviour(cfg, trace, actions) && k <= |actions|
    ensures var m := trace[k];
      && m.shared.free + Count(m.handlers, Holds) == cfg.limit
      && (forall who :: 0 <= who < |m.handlers| ==> Placed(cfg, m.handlers[who]))
      && |m.shared.failures| == |m.shared.until| == cfg.upstreams
      && forall i :: 0 <= i < cfg.upstreams ==>
        m.shared.failures[i] <= cfg.threshold - 1 + cfg.limit < 0x1_0000_0000
  {
    InvariantThroughout(cfg, trace, actions, k);
    var m := trace[k];
    forall i: nat | i < cfg.upstreams
      ensures m.shared.failures[i] <= cfg.threshold - 1 + cfg.limit
    {
      var owes := h => OwesReset(i, h);
      assert m.shared.failures[i] <= cfg.threshold - 1 + Count(m.handlers, owes);
      CountSmaller(m.handlers, owes, Holds);
    }
  }

  /** Whoever is about to mark an upstream counted its own failure as at least the
      threshold-th since the last reset. A threshold of failures still stands exactly when that
      trip, or a later one, has seen no reset; MarkCanFollowReset shows that it need not. */
  lemma MarkIsJustified(cfg: Config, trace: seq<Machine>, actions: seq<Action>, k: nat, who: nat)
    requires ValidConfig(cfg) && Behaviour(cfg, trace, actions) && k <= |actions|
    requires who < |trace[k].handlers| && trace[k].handlers[who].pc.Tripped?
    ensures var pc, log := trace[k].handlers[who].pc, trace[k].shared.log;
      && 1 <= pc.at <= |log| && log[pc.at - 1] == Bump(pc.index)
      && SinceReset(log[..pc.at], pc.index) >= cfg.threshold
      && (SinceReset(log, pc.index) >= cfg.threshold <==>
            exists p :: pc.at - 1 <= p < |log| && TripStands(log, pc.index, cfg.threshold, p))
  {
    InvariantThroughout(cfg, trace, actions, k);
    var pc, log := trace[k].handlers[who].pc, trace[k].shared.log;
    assert Justified(cfg, log, trace[k].handlers[who]);
    StandsSince(log, pc.index, cfg.threshold, pc.at - 1);
  }

  /** However scans interleave, no upstream is claimed more than once more than another. */
  lemma ClaimsAreFair(cfg: Config, trace: seq<Machine>, actions: seq<Action>, k: nat, i: nat, j: nat)
    requires ValidConfig(cfg) && Behaviour(cfg, trace, actions) && k <= |actions|
    requires i < cfg.upstreams && j < cfg.upstreams
    ensures Claimed(trace[k].shared.log, i) <= Claimed(trace[k].shared.log, j) + 1
  {
    InvariantThroughout(cfg, trace, actions, k);
    assert LoggedAt(cfg, trace[k].shared, i) && LoggedAt(cfg, trace[k].shared, j);
    ShareFair(cfg.upstreams, trace[k].shared.cursor, i, j);
  }

  // ----- every request gets through ---------------------------------------------------------------------------

  /** An upper bound on the steps a handler still takes itself. */
  function Rank(cfg: Config, pc: Pc): nat {
    var scan := 7 + cfg.retries + 2 * cfg.upstreams;
    match pc
    case Arrived => scan + 4
    case Routed => scan + 3
    case Admitted => scan + 2
    case Previewed => scan + 1
    case Selecting(left, _) => 7 + cfg.retries + 2 * left
    case Loading(_, left, _) => 8 + cfg.retries + 2 * left
    case Dispatching(_, left) => 6 + left
    case Reporting(_, _) => 6
    case Tripped(_, _) => 5
    case Marked(_) => 4
    case Cleared(_) => 4
    case Recorded => 3
    case Streaming(_) => 2
    case Offered(_) => 1
    case Done(_) => 0
    case Cancelled => 0
  }

  lemma AdmissionLowersRank(cfg: Config, s: Shared, h: Handler, c: Choice)
    requires CanMove(h, c) && Placed(cfg, h)
    requires c.Route? || c.Acquire? || c.Preview? || c.Evaluate? || c.Claim? || c.Load?
    ensures Rank(cfg, Move(cfg, s, h, c).1.pc) < Rank(cfg, h.pc)
  {
  }

  lemma ServiceLowersRank(cfg: Config, s: Shared, h: Handler, c: Choice)
    requires CanMove(h, c) && Placed(cfg, h)
    requires c.Try? || c.Report? || c.StoreUntil? || c.StoreFailures?
    ensures Rank(cfg, Move(cfg, s, h, c).1.pc) < Rank(cfg, h.pc)
  {
  }

  lemma MoveLowersRank(cfg: Config, s: Shared, h: Handler, c: Choice)
    requires CanMove(h, c) && Placed(cfg, h)
    ensures Rank(cfg, Move(cfg, s, h, c).1.pc) < Rank(cfg, h.pc)
  {
    if c.Try? || c.Report? || c.StoreUntil? || c.StoreFailures? {
      ServiceLowersRank(cfg, s, h, c);
    } else if !c.Respond? && !c.EndOfBody? && !c.DropBody? && !c.Cancel? {
      AdmissionLowersRank(cfg, s, h, c);
    }
  }

  /** A handler that is not through can take a step whatever the others do. */
  lemma NeverStuck(cfg: Config, h: Handler) returns (c: Choice)
    requires Placed(cfg, h) && !h.pc.Done? && !h.pc.Cancelled?
    ensures CanMove(h, c)
  {
    match h.pc
    case Arrived => c := Route(true);
    case Routed => c := Acquire;
    case Admitted => c := Preview(true);
    case Previewed => c := Evaluate(false, 0);
    case Selecting(_, _) => c := Claim;
    case Loading(_, _, _) => c := Load;
    case Dispatching(_, _) => c := Try(TimedOut);
    case Reporting(_, _) => c := Choice.Report;
    case Tripped(_, _) => c := StoreUntil(0);
    case Marked(_) => c := StoreFailures;
    case Cleared(_) => c := StoreUntil(0);
    case Recorded => c := Respond;
    case Streaming(_) => c := EndOfBody;
    case Offered(_) => c := DropBody;
  }

  function OwnSteps(actions: seq<Action>, who: nat): nat {
    if actions == [] then 0
    else
      var last := actions[|actions| - 1];
      OwnSteps(actions[..|actions| - 1], who) + One(last.Act? && last.who == who)
  }

  lemma OwnStepsMore(actions: seq<Action>, k: nat, who: nat)
    requires k < |actions|
    ensures OwnSteps(actions[..k + 1], who)
            == OwnSteps(actions[..k], who) + One(actions[k].Act? && actions[k].who == who)
  {
    assert actions[..k + 1][..k] == actions[..k];
  }

  /** What a step does to a handler's rank and count of steps. */
  lemma StepLowersRank(cfg: Config, m: Machine, a: Action, who: nat, bound: nat, own: nat)
    requires Enabled(m, a) && Shaped(cfg, m)
    requires bound >= Rank(cfg, Arrived)
    requires if who < |m.handlers| then own + Rank(cfg, m.handlers[who].pc) <= bound else own == 0
    ensures var next, more := Step(cfg, m, a), own + One(a.Act? && a.who == who);
      if who < |next.handlers| then more + Rank(cfg, next.handlers[who].pc) <= bound else more == 0
  {
    if a.Act? && a.who == who {
      assert Local(cfg, m.handlers[who]);
      MoveLowersRank(cfg, m.shared, m.handlers[who], a.choice);
    }
  }

  /** However requests interleave, each takes at most eleven steps of its own, plus one for each
      retry and two for each upstream, until it is through. */
  lemma {:induction false} LeavesWithin(cfg: Config, trace: seq<Machine>, actions: seq<Action>, k: nat, who: nat)
    requires ValidConfig(cfg) && Behaviour(cfg, trace, actions) && k <= |actions|
    ensures if who < |trace[k].handlers|
      then OwnSteps(actions[..k], who) + Rank(cfg, trace[k].handlers[who].pc) <= 11 + cfg.retries + 2 * cfg.upstreams
      else OwnSteps(actions[..k], who) == 0
  {
    if k > 0 {
      LeavesWithin(cfg, trace, actions, k - 1, who);
      InvariantThroughout(cfg, trace, actions, k - 1);
      OwnStepsMore(actions, k - 1, who);
      StepLowersRank(cfg, trace[k - 1], actions[k - 1], who, 11 + cfg.retries + 2 * cfg.upstreams,
                     OwnSteps(actions[..k - 1], who));
    }
  }

  // ----- the retry loop on its own ---------------------------------------------------------------------------

  const U32_MAX: nat := 0xFFFF_FFFF

  /** Tries until an answer comes or the attempts are used up; reports that answer, or the
      error of the last attempt. */
  method RequestWithRetries(retries: nat, attempt: nat -> Attempt) returns (result: Attempt, made: nat)
    ensures 1 <= made <= retries + 1
    ensures result == attempt(made - 1)
    ensures forall k :: 0 <= k < made - 1 ==> !attempt(k).Answered?
    ensures result.Answered? || made == (if retries < U32_MAX then retries + 1 else U32_MAX)
  {
    var attempts := if retries < U32_MAX then retries + 1 else U32_MAX;
    made := 0;
    result := TransportFailed;
    while made < attempts
      invariant 0 <= made <= attempts
      invariant forall k :: 0 <= k < made ==> !attempt(k).Answered?
      invariant made > 0 ==> result == attempt(made - 1)
    {
      result := attempt(made);
      made := made + 1;
      if result.Answered? {
        return;
      }
    }
  }

  // ----- a scan among other requests' steps -----------------------------------------------------------------------

  predicate Healthy(m: Machine, u: nat, now: int) {
    Read(m.shared.until, u, 0) <= now
  }

  predicate TurnedAway(pc: Pc) {
    (pc.Streaming? || pc.Offered? || pc.Done?) && pc.exit == NoUpstream
  }

  /** Has been given an upstream. */
  predicate InService(pc: Pc) {
    || pc.Dispatching? || pc.Reporting? || pc.Tripped? || pc.Marked? || pc.Cleared? || pc.Recorded? || pc.Cancelled?
    || ((pc.Streaming? || pc.Offered? || pc.Done?) && pc.exit == Upstream)
  }

  /** States `i` to `j` of a run, where handler `who` starts a whole scan in state `i`. */
  predicate Window(cfg: Config, trace: seq<Machine>, actions: seq<Action>, who: nat, i: nat, j: nat, now: int) {
    && Follows(cfg, trace, actions) && i <= j <= |actions|
    && cfg.upstreams > 0
    && who < |trace[i].handlers| && trace[i].handlers[who].pc == Selecting(cfg.upstreams, now)
  }

  /** Step `k` hands upstream `u` to a request other than `who`. */
  predicate GoesToOther(cfg: Config, trace: seq<Machine>, actions: seq<Action>, who: nat, k: nat, u: nat)
    requires k < |actions| && k < |trace| && cfg.upstreams > 0
  {
    actions[k].Act? && actions[k].who != who && actions[k].choice == Claim
    && Index(cfg.upstreams, trace[k].shared.cursor) == u
  }

  /** A step that is not handler `who`'s leaves it alone, and moves the cursor only by a claim. */
  lemma OthersLeave(cfg: Config, m: Machine, a: Action, who: nat)
    requires Enabled(m, a) && who < |m.handlers| && (a.Act? ==> a.who != who)
    ensures var next := Step(cfg, m, a);
      && who < |next.handlers| && next.handlers[who] == m.handlers[who]
      && next.shared.cursor == m.shared.cursor + One(a.Act? && a.choice == Claim)
  {
  }

  /** Where a scan can be while upstream `u`, healthy and `d` turns from where the scan began, has
      been handed to nobody else. */
  predicate StillAhead(cfg: Config, start: nat, d: nat, u: nat, now: int, cursor: nat, pc: Pc) {
    match pc
    case Selecting(left, t) =>
      t == now && left <= cfg.upstreams && start + (cfg.upstreams - left) <= cursor <= start + d
    case Loading(index, left, t) =>
      && t == now && left <= cfg.upstreams && start + (cfg.upstreams - left) <= cursor
      && (cursor <= start + d || index == u)
    case _ => InService(pc)
  }

  lemma MoveStillAhead(cfg: Config, s: Shared, h: Handler, c: Choice, start: nat, d: nat, u: nat, now: int)
    requires CanMove(h, c) && d < cfg.upstreams && Index(cfg.upstreams, start + d) == u
    requires Read(s.until, u, 0) <= now && StillAhead(cfg, start, d, u, now, s.cursor, h.pc)
    ensures var (s', h') := Move(cfg, s, h, c); StillAhead(cfg, start, d, u, now, s'.cursor, h'.pc)
  {
  }

  lemma StepStillAhead(cfg: Config, m: Machine, a: Action, who: nat, start: nat, d: nat, u: nat, now: int)
    requires Enabled(m, a) && who < |m.handlers| && d < cfg.upstreams && Index(cfg.upstreams, start + d) == u
    requires Healthy(m, u, now) && StillAhead(cfg, start, d, u, now, m.shared.cursor, m.handlers[who].pc)
    requires a.Act? && a.who != who && a.choice == Claim ==> Index(cfg.upstreams, m.shared.cursor) != u
    ensures var next := Step(cfg, m, a);
      who < |next.handlers| && StillAhead(cfg, start, d, u, now, next.shared.cursor, next.handlers[who].pc)
  {
    if a.Act? && a.who == who {
      MoveStillAhead(cfg, m.shared, m.handlers[who], a.choice, start, d, u, now);
    } else {
      OthersLeave(cfg, m, a, who);
    }
  }

  lemma {:induction false} StillAheadThroughout(cfg: Config, trace: seq<Machine>, actions: seq<Action>, who: nat,
                                                i: nat, j: nat,
                                                now: int, u: nat, d: nat)
    requires Window(cfg, trace, actions, who, i, j, now)
    requires d < cfg.upstreams && Index(cfg.upstreams, trace[i].shared.cursor + d) == u
    requires forall k :: i <= k <= j ==> Healthy(trace[k], u, now)
    requires forall k :: i <= k < j ==> !GoesToOther(cfg, trace, actions, who, k, u)
    ensures who < |trace[j].handlers|
    ensures StillAhead(cfg, trace[i].shared.cursor, d, u, now, trace[j].shared.cursor, trace[j].handlers[who].pc)
    decreases j
  {
    if i < j {
      StillAheadThroughout(cfg, trace, actions, who, i, j - 1, now, u, d);
      assert !GoesToOther(cfg, trace, actions, who, j - 1, u) && Healthy(trace[j - 1], u, now);
      StepStillAhead(cfg, trace[j - 1], actions[j - 1], who, trace[i].shared.cursor, d, u, now);
    }
  }

  /** A scan misses an upstream that is healthy throughout only if another request was handed
      that very upstream during the scan. */
  lemma MissedOnlyByOverlap(cfg: Config, trace: seq<Machine>, actions: seq<Action>, who: nat, i: nat, j: nat,
                            now: int, u: nat)
    requires Window(cfg, trace, actions, who, i, j, now) && u < cfg.upstreams
    requires who < |trace[j].handlers| && TurnedAway(trace[j].handlers[who].pc)
    requires forall k :: i <= k <= j ==> Healthy(trace[k], u, now)
    ensures exists k :: i <= k < j && GoesToOther(cfg, trace, actions, who, k, u)
  {
    if forall k :: i <= k < j ==> !GoesToOther(cfg, trace, actions, who, k, u) {
      var d := Distance(cfg.upstreams, trace[i].shared.cursor, u);
      StillAheadThroughout(cfg, trace, actions, who, i, j, now, u, d);
      assert false;
    }
  }

  // ----- exactly when a scan is turned away

  /** No upstream changes between healthy and unhealthy. */
  predicate SteadyHealth(cfg: Config, trace: seq<Machine>, i: nat, j: nat, now: int)
    requires i <= j < |trace|
  {
    forall k, u: nat :: i <= k <= j && u < cfg.upstreams ==> (Healthy(trace[k], u, now) <==> Healthy(trace[i], u, now))
  }

  /** Step `k` hands handler `who` a healthy upstream. */
  predicate ServedAt(cfg: Config, trace: seq<Machine>, actions: seq<Action>, who: nat, k: nat, now: int)
    requires k < |actions| && k < |trace| && cfg.upstreams > 0
  {
    actions[k] == Act(who, Claim) && Healthy(trace[k], Index(cfg.upstreams, trace[k].shared.cursor), now)
  }

  ghost predicate Served(cfg: Config, trace: seq<Machine>, actions: seq<Action>, who: nat, i: nat, j: nat, now: int)
    requires j <= |actions| && j < |trace| && cfg.upstreams > 0
  {
    exists k :: i <= k < j && ServedAt(cfg, trace, actions, who, k, now)
  }

  lemma ServedMore(cfg: Config, trace: seq<Machine>, actions: seq<Action>, who: nat, i: nat, j: nat, now: int)
    requires i < j <= |actions| && j < |trace| && cfg.upstreams > 0
    ensures Served(cfg, trace, actions, who, i, j, now) <==>
      Served(cfg, trace, actions, who, i, j - 1, now) || ServedAt(cfg, trace, actions, who, j - 1, now)
  {
    if Served(cfg, trace, actions, who, i, j, now) {
      var k :| i <= k < j && ServedAt(cfg, trace, actions, who, k, now);
      assert k == j - 1 || k < j - 1;
    }
  }

  /** What a scan's position says about whether it has been served. */
  predicate Tells(cfg: Config, until: seq<int>, pc: Pc, now: int, served: bool) {
    match pc
    case Selecting(_, t) => t == now && !served
    case Loading(index, _, t) => t == now && index < cfg.upstreams && (served <==> Read(until, index, 0) <= now)
    case _ => (InService(pc) && served) || (TurnedAway(pc) && !served)
  }

  /** A step of the scan itself never changes health. */
  lemma MoveTells(cfg: Config, s: Shared, h: Handler, c: Choice, now: int, served: bool)
    requires CanMove(h, c) && cfg.upstreams > 0 && Tells(cfg, s.until, h.pc, now, served)
    ensures var (s', h') := Move(cfg, s, h, c);
      Tells(cfg, s'.until, h'.pc, now,
            served || (c == Claim && Read(s.until, Index(cfg.upstreams, s.cursor), 0) <= now))
  {
  }

  lemma StepTells(cfg: Config, m: Machine, a: Action, who: nat, now: int, served: bool)
    requires Enabled(m, a) && who < |m.handlers| && cfg.upstreams > 0
    requires Tells(cfg, m.shared.until, m.handlers[who].pc, now, served)
    requires forall u: nat :: u < cfg.upstreams ==> (Healthy(Step(cfg, m, a), u, now) <==> Healthy(m, u, now))
    ensures var next := Step(cfg, m, a);
      && who < |next.handlers|
      && Tells(cfg, next.shared.until, next.handlers[who].pc, now,
               served || (a == Act(who, Claim) && Healthy(m, Index(cfg.upstreams, m.shared.cursor), now)))
  {
    if a.Act? && a.who == who {
      MoveTells(cfg, m.shared, m.handlers[who], a.choice, now, served);
    } else {
      OthersLeave(cfg, m, a, who);
      if m.handlers[who].pc.Loading? {
        assert Healthy(Step(cfg, m, a), m.handlers[who].pc.index, now) <==> Healthy(m, m.handlers[who].pc.index, now);
      }
    }
  }

  lemma {:induction false} TellsThroughout(cfg: Config, trace: seq<Machine>, actions: seq<Action>, who: nat, i: nat,
                                           j: nat, now: int)
    requires Window(cfg, trace, actions, who, i, j, now) && SteadyHealth(cfg, trace, i, j, now)
    ensures who < |trace[j].handlers|
    ensures Tells(cfg, trace[j].shared.until, trace[j].handlers[who].pc, now,
                  Served(cfg, trace, actions, who, i, j, now))
    decreases j
  {
    if i < j {
      TellsThroughout(cfg, trace, actions, who, i, j - 1, now);
      ServedMore(cfg, trace, actions, who, i, j, now);
      assert trace[j] == Step(cfg, trace[j - 1], actions[j - 1]);
      forall u: nat | u < cfg.upstreams
        ensures Healthy(trace[j], u, now) <==> Healthy(trace[j - 1], u, now)
      {
        assert Healthy(trace[j], u, now) <==> Healthy(trace[i], u, now);
        assert Healthy(trace[j - 1], u, now) <==> Healthy(trace[i], u, now);
      }
      StepTells(cfg, trace[j - 1], actions[j - 1], who, now, Served(cfg, trace, actions, who, i, j - 1, now));
    }
  }

  /** A finished scan was turned away exactly when every healthy upstream that came up during it
      went to another request, and then each healthy upstream did. */
  lemma TurnedAwayExactly(cfg: Config, trace: seq<Machine>, actions: seq<Action>, who: nat, i: nat, j: nat, now: int)
    requires Window(cfg, trace, actions, who, i, j, now) && SteadyHealth(cfg, trace, i, j, now)
    requires who < |trace[j].handlers| && !trace[j].handlers[who].pc.Selecting? && !trace[j].handlers[who].pc.Loading?
    ensures TurnedAway(trace[j].handlers[who].pc) <==> !Served(cfg, trace, actions, who, i, j, now)
    ensures TurnedAway(trace[j].handlers[who].pc) ==>
      forall u: nat :: u < cfg.upstreams && Healthy(trace[i], u, now) ==>
        exists k :: i <= k < j && GoesToOther(cfg, trace, actions, who, k, u)
  {
    TellsThroughout(cfg, trace, actions, who, i, j, now);
    if TurnedAway(trace[j].handlers[who].pc) {
      forall u: nat | u < cfg.upstreams && Healthy(trace[i], u, now)
        ensures exists k :: i <= k < j && GoesToOther(cfg, trace, actions, who, k, u)
      {
        MissedOnlyByOverlap(cfg, trace, actions, who, i, j, now, u);
      }
    }
  }

  // ----- scans that do not overlap

  /** No other request claims an upstream between states `i` and `j`. */
  predicate NoOtherClaims(actions: seq<Action>, who: nat, i: nat, j: nat)
    requires j <= |actions|
  {
    forall k :: i <= k < j && actions[k].Act? && actions[k].choice == Claim ==> actions[k].who == who
  }

  /** The rest of the scan decides as the whole sequential scan does. */
  predicate ScansOn(healthy: seq<bool>, whole: (Option<nat>, nat), cursor: nat, pc: Pc, now: int)
    requires |healthy| > 0
  {
    match pc
    case Selecting(left, t) => t == now && left > 0 && whole == Scan(healthy, cursor, left)
    case Loading(index, left, t) =>
      && t == now && index < |healthy|
      && whole == if healthy[index] then (Some(index), cursor) else Scan(healthy, cursor, left)
    case Dispatching(index, _) => whole.0 == Some(index)
    case _ => if TurnedAway(pc) then whole.0 == None else InService(pc) && whole.0.Some?
  }

  lemma MoveScansOn(cfg: Config, s: Shared, h: Handler, c: Choice, healthy: seq<bool>, whole: (Option<nat>, nat),
                    now: int)
    requires CanMove(h, c) && |healthy| == cfg.upstreams > 0
    requires forall u: nat :: u < cfg.upstreams ==> (healthy[u] <==> Read(s.until, u, 0) <= now)
    requires ScansOn(healthy, whole, s.cursor, h.pc, now)
    ensures var (s', h') := Move(cfg, s, h, c); ScansOn(healthy, whole, s'.cursor, h'.pc, now)
  {
  }

  lemma StepScansOn(cfg: Config, m: Machine, a: Action, who: nat, healthy: seq<bool>, whole: (Option<nat>, nat),
                    now: int)
    requires Enabled(m, a) && who < |m.handlers| && cfg.upstreams > 0 && FlagsOf(cfg, healthy, m, now)
    requires a.Act? && a.choice == Claim ==> a.who == who
    requires ScansOn(healthy, whole, m.shared.cursor, m.handlers[who].pc, now)
    ensures var next := Step(cfg, m, a);
      who < |next.handlers| && ScansOn(healthy, whole, next.shared.cursor, next.handlers[who].pc, now)
  {
    if a.Act? && a.who == who {
      forall u: nat | u < cfg.upstreams
        ensures healthy[u] <==> Read(m.shared.until, u, 0) <= now
      {
        assert healthy[u] <==> Healthy(m, u, now);
      }
      MoveScansOn(cfg, m.shared, m.handlers[who], a.choice, healthy, whole, now);
    } else {
      OthersLeave(cfg, m, a, who);
    }
  }

  /** The flags are those of this state. */
  predicate FlagsOf(cfg: Config, healthy: seq<bool>, m: Machine, now: int) {
    |healthy| == cfg.upstreams && forall u: nat :: u < cfg.upstreams ==> (healthy[u] <==> Healthy(m, u, now))
  }

  lemma FlagsStay(cfg: Config, trace: seq<Machine>, i: nat, j: nat, k: nat, now: int, healthy: seq<bool>)
    requires i <= k <= j < |trace| && SteadyHealth(cfg, trace, i, j, now) && FlagsOf(cfg, healthy, trace[i], now)
    ensures FlagsOf(cfg, healthy, trace[k], now)
  {
    forall u: nat | u < cfg.upstreams
      ensures healthy[u] <==> Healthy(trace[k], u, now)
    {
      assert Healthy(trace[k], u, now) <==> Healthy(trace[i], u, now);
    }
  }

  lemma {:induction false} ScansOnThroughout(cfg: Config, trace: seq<Machine>, actions: seq<Action>, who: nat,
                                             i: nat, j: nat, now: int, healthy: seq<bool>)
    requires Window(cfg, trace, actions, who, i, j, now) && SteadyHealth(cfg, trace, i, j, now)
    requires NoOtherClaims(actions, who, i, j) && FlagsOf(cfg, healthy, trace[i], now)
    ensures who < |trace[j].handlers|
    ensures ScansOn(healthy, Scan(healthy, trace[i].shared.cursor, cfg.upstreams), trace[j].shared.cursor,
                    trace[j].handlers[who].pc, now)
    decreases j
  {
    if i < j {
      ScansOnThroughout(cfg, trace, actions, who, i, j - 1, now, healthy);
      FlagsStay(cfg, trace, i, j, j - 1, now, healthy);
      StepScansOn(cfg, trace[j - 1], actions[j - 1], who, healthy,
                  Scan(healthy, trace[i].shared.cursor, cfg.upstreams), now);
    }
  }

  /** Whatever else other requests do meanwhile, a scan during which none of them claims decides
      as the sequential scan: turned away exactly when no upstream is healthy, otherwise
      dispatched to the first healthy one cyclically from the cursor. */
  lemma LoneScanExact(cfg: Config, trace: seq<Machine>, actions: seq<Action>, who: nat, i: nat, j: nat, now: int)
    requires Window(cfg, trace, actions, who, i, j, now) && SteadyHealth(cfg, trace, i, j, now)
    requires NoOtherClaims(actions, who, i, j) && |trace[i].shared.until| == cfg.upstreams
    requires who < |trace[j].handlers| && !trace[j].handlers[who].pc.Selecting? && !trace[j].handlers[who].pc.Loading?
    ensures var pc, healthy := trace[j].handlers[who].pc, Flags(trace[i].shared.until, now);
      var ring := Ring(healthy, Index(cfg.upstreams, trace[i].shared.cursor));
      && (TurnedAway(pc) <==> true !in healthy)
      && (pc.Dispatching? ==> ring != [] && pc.index == ring[0])
  {
    var healthy := Flags(trace[i].shared.until, now);
    ScansOnThroughout(cfg, trace, actions, who, i, j, now, healthy);
    WholeScan(healthy, trace[i].shared.cursor);
    assert TurnedAway(trace[j].handlers[who].pc) <==> Scan(healthy, trace[i].shared.cursor, |healthy|).0.None?;
    if true in healthy {
      var u :| 0 <= u < |healthy| && healthy[u];
    }
  }

  // ----- what interleaving does break ----------------------------------------------------------------------------

  ghost predicate Reachable(cfg: Config, m: Machine) {
    exists trace, actions :: Behaviour(cfg, trace, actions) && trace[|actions|] == m
  }

  lemma StartReachable(cfg: Config)
    ensures Reachable(cfg, Start(cfg))
  {
    assert Behaviour(cfg, [Start(cfg)], []);
  }

  lemma FollowsMore(cfg: Config, trace: seq<Machine>, actions: seq<Action>, a: Action)
    requires Follows(cfg, trace, actions) && Enabled(trace[|actions|], a)
    ensures Follows(cfg, trace + [Step(cfg, trace[|actions|], a)], actions + [a])
  {
    var longer, more := trace + [Step(cfg, trace[|actions|], a)], actions + [a];
    forall i | 0 <= i < |more|
      ensures Enabled(longer[i], more[i]) && longer[i + 1] == Step(cfg, longer[i], more[i])
    {
      if i < |actions| {
        assert longer[i] == trace[i] && longer[i + 1] == trace[i + 1] && more[i] == actions[i];
      }
    }
  }

  lemma StepReachable(cfg: Config, m: Machine, a: Action) returns (next: Machine)
    requires Reachable(cfg, m) && Enabled(m, a)
    ensures next == Step(cfg, m, a) && Reachable(cfg, next)
  {
    next := Step(cfg, m, a);
    var trace, actions :| Behaviour(cfg, trace, actions) && trace[|actions|] == m;
    FollowsMore(cfg, trace, actions, a);
    assert Behaviour(cfg, trace + [next], actions + [a]);
  }

  /** A run from one state to another in which no upstream's health ever changes. */
  predicate SteadyRun(cfg: Config, trace: seq<Machine>, actions: seq<Action>, from: Machine, to: Machine) {
    && Follows(cfg, trace, actions) && trace[0] == from && trace[|actions|] == to
    && forall i :: 0 <= i < |trace| ==> trace[i].shared.until == from.shared.until
  }

  ghost predicate Steadily(cfg: Config, from: Machine, to: Machine) {
    exists trace, actions :: SteadyRun(cfg, trace, actions, from, to)
  }

  lemma StepSteadily(cfg: Config, from: Machine, m: Machine, a: Action) returns (next: Machine)
    requires Steadily(cfg, from, m) && Enabled(m, a) && Step(cfg, m, a).shared.until == from.shared.until
    ensures next == Step(cfg, m, a) && Steadily(cfg, from, next)
  {
    next := Step(cfg, m, a);
    var trace, actions :| SteadyRun(cfg, trace, actions, from, m);
    FollowsMore(cfg, trace, actions, a);
    assert SteadyRun(cfg, trace + [next], actions + [a], from, next);
  }

  /** A handler that has started its scan, without history. */
  function Scanning(cfg: Config, now: int): Handler {
    Handler(Selecting(cfg.upstreams, now), false, true, 0, 0, 0, 0, {})
  }

  /** A new request runs up to its scan. */
  lemma NewScan(cfg: Config, m: Machine, now: int) returns (next: Machine)
    requires Reachable(cfg, m) && m.shared.free > 0 && cfg.upstreams > 0
    ensures Reachable(cfg, next)
    ensures next.handlers == m.handlers + [Scanning(cfg, now)] && next.shared == m.shared.(free := m.shared.free - 1)
  {
    var who := |m.handlers|;
    next := StepReachable(cfg, m, Arrive(false));
    next := StepReachable(cfg, next, Act(who, Route(true)));
    next := StepReachable(cfg, next, Act(who, Acquire));
    next := StepReachable(cfg, next, Act(who, Preview(true)));
    next := StepReachable(cfg, next, Act(who, Evaluate(false, now)));
  }

  /** A new request runs up to reporting its result for the upstream the cursor is at. */
  lemma NewReport(cfg: Config, m: Machine, now: int, failed: bool) returns (next: Machine)
    requires Reachable(cfg, m) && m.shared.free > 0 && cfg.upstreams == |m.shared.until| > 0
    requires m.shared.until[Index(cfg.upstreams, m.shared.cursor)] <= now
    ensures Reachable(cfg, next)
    ensures |next.handlers| == |m.handlers| + 1 && next.handlers[..|m.handlers|] == m.handlers
    ensures next.handlers[|m.handlers|].pc == Reporting(Index(cfg.upstreams, m.shared.cursor), failed)
    ensures next.shared.free == m.shared.free - 1 && next.shared.cursor == m.shared.cursor + 1
    ensures next.shared.failures == m.shared.failures && next.shared.until == m.shared.until
  {
    var who := |m.handlers|;
    next := NewScan(cfg, m, now);
    next := StepReachable(cfg, next, Act(who, Claim));
    next := StepReachable(cfg, next, Act(who, Load));
    next := StepReachable(cfg, next, Act(who, Try(Answered(failed))));
  }

  /** A claim that falls on an unhealthy upstream, up to the end of its load. */
  lemma ClaimAndSkip(cfg: Config, from: Machine, m: Machine, who: nat) returns (next: Machine)
    requires Steadily(cfg, from, m) && m.shared.until == from.shared.until
    requires cfg.upstreams == |m.shared.until| > 0 && who < |m.handlers|
    requires m.handlers[who].pc.Selecting? && m.handlers[who].pc.left > 0
    requires m.shared.until[Index(cfg.upstreams, m.shared.cursor)] > m.handlers[who].pc.now
    ensures Steadily(cfg, from, next)
    ensures next.shared.until == m.shared.until && next.shared.cursor == m.shared.cursor + 1
    ensures |next.handlers| == |m.handlers|
    ensures forall k :: 0 <= k < |m.handlers| && k != who ==> next.handlers[k] == m.handlers[k]
    ensures var pc := m.handlers[who].pc;
      next.handlers[who].pc == if pc.left == 1 then Streaming(NoUpstream) else Selecting(pc.left - 1, pc.now)
  {
    next := StepSteadily(cfg, from, m, Act(who, Claim));
    next := StepSteadily(cfg, from, next, Act(who, Load));
  }

  /** Overlapping scans share the cursor: from any state where two handlers start scanning with
      the cursor on the unhealthy one of two upstreams, one of them can meet it twice and
      answer 503 while the other upstream is healthy throughout. */
  lemma OverlapCanMiss(cfg: Config, m: Machine, a: nat, b: nat, now: int) returns (end: Machine)
    requires cfg.upstreams == 2 == |m.shared.until|
    requires m.shared.until[0] > now >= m.shared.until[1] && Index(2, m.shared.cursor) == 0
    requires a < |m.handlers| && b < |m.handlers| && a != b
    requires m.handlers[a].pc == m.handlers[b].pc == Selecting(2, now)
    ensures Steadily(cfg, m, end)
    ensures a < |end.handlers| && end.handlers[a].pc == Streaming(NoUpstream)
  {
    assert SteadyRun(cfg, [m], [], m, m);
    end := ClaimAndSkip(cfg, m, m, a);
    assert Index(2, end.shared.cursor) == 1;
    end := StepSteadily(cfg, m, end, Act(b, Claim));
    assert Index(2, end.shared.cursor) == 0;
    end := ClaimAndSkip(cfg, m, end, a);
  }

  /** Such a state exists: one failure marks upstream 0, a second request moves the cursor on,
      two more start their scans. */
  lemma OverlappingScansCanMiss() returns (cfg: Config, m: Machine, end: Machine)
    ensures ValidConfig(cfg) && Reachable(cfg, m) && Steadily(cfg, m, end)
    ensures |m.shared.until| == 2 && m.shared.until[1] <= 1
    ensures 2 < |m.handlers| && m.handlers[2].pc == Selecting(2, 1)
    ensures 2 < |end.handlers| && end.handlers[2].pc == Streaming(NoUpstream)
  {
    cfg := Config(4, 2, 1, 10, 0);
    StartReachable(cfg);
    m := MarkedFirst(cfg);
    m := NewReport(cfg, m, 1, false);
    assert Index(2, 1) == 1 && Index(2, 2) == 0;
    m := NewScan(cfg, m, 1);
    m := NewScan(cfg, m, 1);
    end := OverlapCanMiss(cfg, m, 2, 3, 1);
  }

  /** One request fails and, with a threshold of one, puts upstream 0 out of rotation. */
  lemma MarkedFirst(cfg: Config) returns (m: Machine)
    requires ValidConfig(cfg) && cfg.upstreams == 2 && cfg.threshold == 1 && cfg.cooldown == 10
    ensures Reachable(cfg, m) && |m.handlers| == 1 && m.shared.free == cfg.limit - 1
    ensures m.shared.cursor == 1 && m.shared.until == [10, 0]
  {
    StartReachable(cfg);
    m := NewReport(cfg, Start(cfg), 0, true);
    m := StepReachable(cfg, m, Act(0, Choice.Report));
    m := StepReachable(cfg, m, Act(0, StoreUntil(0)));
  }

  /** One failure has tripped the threshold; a success is about to be recorded. */
  lemma TripAndSuccess(cfg: Config) returns (m: Machine)
    requires cfg == Config(2, 1, 1, 10, 0)
    ensures Reachable(cfg, m) && |m.handlers| == 2 && |m.shared.until| == 1
    ensures m.handlers[0].pc.Tripped? && m.handlers[0].pc.index == 0 && m.handlers[1].pc == Reporting(0, false)
  {
    StartReachable(cfg);
    m := NewReport(cfg, Start(cfg), 0, true);
    m := NewReport(cfg, m, 0, false);
    m := StepReachable(cfg, m, Act(0, Choice.Report));
  }

  /** A success first stores the reset, then takes the mark off. */
  lemma SuccessResets(cfg: Config, m: Machine, b: nat, i: nat) returns (next: Machine)
    requires Reachable(cfg, m) && b < |m.handlers| && m.handlers[b].pc == Reporting(i, false)
    ensures Reachable(cfg, next) && next.handlers == m.handlers[b := m.handlers[b].(pc := Cleared(i))]
    ensures |next.shared.until| == |m.shared.until| && SinceReset(next.shared.log, i) == 0
  {
    next := StepReachable(cfg, m, Act(b, Choice.Report));
    LogOne(m.shared.log, Reset(i), i);
  }

  lemma SuccessUnmarks(cfg: Config, m: Machine, b: nat, i: nat) returns (next: Machine)
    requires Reachable(cfg, m) && b < |m.handlers| && m.handlers[b].pc == Cleared(i)
    ensures Reachable(cfg, next) && next.handlers == m.handlers[b := Finished(m.handlers[b])]
    ensures |next.shared.until| == |m.shared.until| && SinceReset(next.shared.log, i) == SinceReset(m.shared.log, i)
  {
    next := StepReachable(cfg, m, Act(b, StoreUntil(0)));
    LogOne(m.shared.log, Unmark(i), i);
  }

  /** A handler that has tripped can store its mark after another handler's success cleared
      the upstream: it goes out of rotation with no failure since the reset. */
  lemma MarkCanFollowReset() returns (cfg: Config, m: Machine, end: Machine)
    ensures ValidConfig(cfg) && Reachable(cfg, m) && Reachable(cfg, end)
    ensures |m.handlers| > 0 && m.handlers[0].pc.Tripped? && m.handlers[0].pc.index == 0
    ensures Enabled(m, Act(0, StoreUntil(1))) && end == Step(cfg, m, Act(0, StoreUntil(1)))
    ensures SinceReset(m.shared.log, 0) == 0 < cfg.threshold
    ensures end.shared.until == [11]
  {
    cfg := Config(2, 1, 1, 10, 0);
    m := TripAndSuccess(cfg);
    m := SuccessResets(cfg, m, 1, 0);
    m := SuccessUnmarks(cfg, m, 1, 0);
    end := StepReachable(cfg, m, Act(0, StoreUntil(1)));
  }
}
