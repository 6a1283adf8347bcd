/** What a request's end tells about the choices made on its way, in every interleaving: which exit it
    takes, which stages it passed, what its attempts reported, and what a report does to health. */
module RouteHistory {
  import opened Domain
  import opened Upstreams
  import opened RouteMachine

  // ----- something happened before -----------------------------------------------------------------------

  /** `p` held at some step before state `k`. */
  ghost predicate Ever(trace: seq<Machine>, actions: seq<Action>, k: nat, p: (Machine, Action) -> bool)
    requires k <= |actions| && k <= |trace|
  {
    exists i :: 0 <= i < k && p(trace[i], actions[i])
  }

  lemma EverMore(trace: seq<Machine>, actions: seq<Action>, k: nat, p: (Machine, Action) -> bool)
    requires k < |actions| && k < |trace|
    ensures Ever(trace, actions, k + 1, p) <==> Ever(trace, actions, k, p) || p(trace[k], actions[k])
  {
    if Ever(trace, actions, k + 1, p) {
      var i :| 0 <= i < k + 1 && p(trace[i], actions[i]);
      assert i < k || i == k;
    }
  }

  /** Handler `who` makes a choice. */
  function Makes(who: nat, c: Choice): (Machine, Action) -> bool {
    (m: Machine, a: Action) => a == Act(who, c)
  }

  // ----- the exit follows the choice ---------------------------------------------------------------------

  /** The handler has left through this exit. */
  predicate GoneBy(pc: Pc, exit: Exit) {
    (pc.Streaming? || pc.Offered? || pc.Done?) && pc.exit == exit
  }

  /** What sends a handler out through each exit. */
  function SentOut(who: nat, exit: Exit): (Machine, Action) -> bool {
    (m: Machine, a: Action) =>
      a.Act? && a.who == who && who < |m.handlers| && Sends(m.shared, m.handlers[who], a.choice, exit)
  }

  predicate Sends(s: Shared, h: Handler, c: Choice, exit: Exit) {
    match exit
    case NoRoute => c == Route(false)
    case ConcurrencyLimit => c == Acquire && s.free == 0
    case PreviewFailed => c == Preview(false)
    case Denied => c.Evaluate? && c.denied
    case NoUpstream => c == Load && h.pc.Loading? && h.pc.left == 0 && Read(s.until, h.pc.index, 0) > h.pc.now
    case Upstream => c == Respond
  }

  lemma MoveGoneBy(cfg: Config, s: Shared, h: Handler, c: Choice, exit: Exit)
    requires CanMove(h, c) && cfg.upstreams > 0
    ensures GoneBy(Move(cfg, s, h, c).1.pc, exit) <==> GoneBy(h.pc, exit) || Sends(s, h, c, exit)
  {
  }

  lemma StepGoneBy(cfg: Config, m: Machine, a: Action, who: nat, exit: Exit)
    requires Enabled(m, a) && cfg.upstreams > 0
    ensures var next := Step(cfg, m, a);
      && (who < |m.handlers| ==> who < |next.handlers|)
      && (who < |next.handlers| ==>
            (GoneBy(next.handlers[who].pc, exit) <==>
               (who < |m.handlers| && GoneBy(m.handlers[who].pc, exit)) || SentOut(who, exit)(m, a)))
  {
    if a.Act? && a.who == who {
      MoveGoneBy(cfg, m.shared, m.handlers[who], a.choice, exit);
    }
  }

  /** A request has left through an exit exactly when the choice behind that exit was made: an
      unmatched route, no free permit, a failed preview, a denial, a scan at its end on an unhealthy
      upstream, or an upstream's result. */
  lemma {:induction false} ExitFollowsChoice(cfg: Config, trace: seq<Machine>, actions: seq<Action>, k: nat, who: nat,
                                             exit: Exit)
    requires ValidConfig(cfg) && Behaviour(cfg, trace, actions) && k <= |actions|
    ensures who < |trace[k].handlers| ==>
      (GoneBy(trace[k].handlers[who].pc, exit) <==> Ever(trace, actions, k, SentOut(who, exit)))
    ensures who >= |trace[k].handlers| ==> !Ever(trace, actions, k, SentOut(who, exit))
  {
    if k > 0 {
      ExitFollowsChoice(cfg, trace, actions, k - 1, who, exit);
      EverMore(trace, actions, k - 1, SentOut(who, exit));
      StepGoneBy(cfg, trace[k - 1], actions[k - 1], who, exit);
    }
  }

  lemma StepRank(cfg: Config, m: Machine, a: Action, who: nat)
    requires Enabled(m, a) && Shaped(cfg, m) && who < |m.handlers|
    ensures who < |Step(cfg, m, a).handlers|
    ensures Rank(cfg, Step(cfg, m, a).handlers[who].pc) <= Rank(cfg, m.handlers[who].pc)
  {
    if a.Act? && a.who == who {
      assert Local(cfg, m.handlers[who]);
      MoveLowersRank(cfg, m.shared, m.handlers[who], a.choice);
    }
  }

  lemma {:induction false} RankNeverRises(cfg: Config, trace: seq<Machine>, actions: seq<Action>, i: nat, k: nat,
                                          who: nat)
    requires ValidConfig(cfg) && Behaviour(cfg, trace, actions) && i <= k <= |actions| && who < |trace[i].handlers|
    ensures who < |trace[k].handlers|
    ensures Rank(cfg, trace[k].handlers[who].pc) <= Rank(cfg, trace[i].handlers[who].pc)
    decreases k
  {
    if i < k {
      RankNeverRises(cfg, trace, actions, i, k - 1, who);
      InvariantThroughout(cfg, trace, actions, k - 1);
      StepRank(cfg, trace[k - 1], actions[k - 1], who);
    }
  }

  /** A denied request never claims an upstream, is never sent to one, and leaves with the denial. */
  lemma DeniedGoesNowhere(cfg: Config, trace: seq<Machine>, actions: seq<Action>, i: nat, k: nat, who: nat, now: int)
    requires ValidConfig(cfg) && Behaviour(cfg, trace, actions) && i < k <= |actions|
    requires actions[i] == Act(who, Evaluate(true, now))
    ensures who < |trace[k].handlers|
    ensures var h := trace[k].handlers[who]; GoneBy(h.pc, Denied) && h.dispatches == 0 && h.targets == {}
    ensures forall j :: 0 <= j < k ==> actions[j] != Act(who, Claim)
  {
    assert Enabled(trace[i], actions[i]);
    RankNeverRises(cfg, trace, actions, i, k, who);
    assert SentOut(who, Denied)(trace[i], actions[i]);
    ExitFollowsChoice(cfg, trace, actions, k, who, Denied);
    InvariantThroughout(cfg, trace, actions, k);
    assert Local(cfg, trace[k].handlers[who]);
    forall j | 0 <= j < k
      ensures actions[j] != Act(who, Claim)
    {
      DeniedClaimsNothing(cfg, trace, actions, i, j, who, now);
    }
  }

  lemma DeniedClaimsNothing(cfg: Config, trace: seq<Machine>, actions: seq<Action>, i: nat, j: nat, who: nat, now: int)
    requires ValidConfig(cfg) && Behaviour(cfg, trace, actions) && i < |actions| && j < |actions|
    requires actions[i] == Act(who, Evaluate(true, now))
    ensures actions[j] != Act(who, Claim)
  {
    assert Enabled(trace[i], actions[i]) && Enabled(trace[j], actions[j]);
    if j < i {
      InvariantThroughout(cfg, trace, actions, j);
      if actions[j] == Act(who, Claim) {
        assert Local(cfg, trace[j].handlers[who]);
        RankNeverRises(cfg, trace, actions, j, i, who);
      }
    } else if i < j {
      assert SentOut(who, Denied)(trace[i], actions[i]);
      ExitFollowsChoice(cfg, trace, actions, j, who, Denied);
    }
  }

  // ----- the stages behind it --------------------------------------------------------------------------------

  /** The handler got a permit. */
  function GotPermit(who: nat): (Machine, Action) -> bool {
    (m: Machine, a: Action) => a == Act(who, Acquire) && m.shared.free > 0
  }

  /** Policy let the request through; `now` is when its scan starts. */
  function LetThrough(who: nat): (Machine, Action) -> bool {
    (m: Machine, a: Action) => a.Act? && a.who == who && a.choice.Evaluate? && !a.choice.denied
  }

  /** How far a handler has come. */
  function Stage(pc: Pc): nat {
    match pc
    case Arrived => 0
    case Cancelled => 0
    case Routed => 1
    case Admitted => 2
    case Previewed => 3
    case Streaming(exit) => StageOfExit(exit)
    case Offered(exit) => StageOfExit(exit)
    case Done(exit) => StageOfExit(exit)
    case _ => 4
  }

  function StageOfExit(exit: Exit): nat {
    match exit
    case NoRoute => 0
    case ConcurrencyLimit => 1
    case PreviewFailed => 2
    case Denied => 3
    case NoUpstream => 4
    case Upstream => 4
  }

  ghost predicate StagesPassed(trace: seq<Machine>, actions: seq<Action>, k: nat, who: nat, pc: Pc)
    requires k <= |actions| && k <= |trace|
  {
    && (Stage(pc) >= 1 ==> Ever(trace, actions, k, Makes(who, Route(true))))
    && (Stage(pc) >= 2 ==> Ever(trace, actions, k, GotPermit(who)))
    && (Stage(pc) >= 3 ==> Ever(trace, actions, k, Makes(who, Preview(true))))
    && (Stage(pc) >= 4 ==> Ever(trace, actions, k, LetThrough(who)))
    && (pc.Selecting? ==> Ever(trace, actions, k, Makes(who, Evaluate(false, pc.now))))
    && (pc.Loading? ==> Ever(trace, actions, k, Makes(who, Evaluate(false, pc.now))))
  }

  /** A step of the handler never skips a stage. */
  lemma MoveStage(cfg: Config, s: Shared, h: Handler, c: Choice)
    requires CanMove(h, c) && cfg.upstreams > 0
    ensures var pc := Move(cfg, s, h, c).1.pc;
      && (Stage(pc) >= 1 ==> Stage(h.pc) >= 1 || c == Route(true))
      && (Stage(pc) >= 2 ==> Stage(h.pc) >= 2 || (c == Acquire && s.free > 0))
      && (Stage(pc) >= 3 ==> Stage(h.pc) >= 3 || c == Preview(true))
      && (Stage(pc) >= 4 ==> Stage(h.pc) >= 4 || (c.Evaluate? && !c.denied))
      && (pc.Selecting? ==> (h.pc.Loading? && h.pc.now == pc.now) || c == Evaluate(false, pc.now))
      && (pc.Loading? ==> h.pc.Selecting? && h.pc.now == pc.now)
  {
  }

  lemma StagesMore(cfg: Config, trace: seq<Machine>, actions: seq<Action>, k: nat, who: nat, was: Pc, pc: Pc)
    requires k < |actions| && k < |trace| && StagesPassed(trace, actions, k, who, was)
    requires Stage(pc) >= 1 ==> Stage(was) >= 1 || actions[k] == Act(who, Route(true))
    requires Stage(pc) >= 2 ==> Stage(was) >= 2 || GotPermit(who)(trace[k], actions[k])
    requires Stage(pc) >= 3 ==> Stage(was) >= 3 || actions[k] == Act(who, Preview(true))
    requires Stage(pc) >= 4 ==> Stage(was) >= 4 || LetThrough(who)(trace[k], actions[k])
    requires pc.Selecting? ==>
      (was.Selecting? && was.now == pc.now) || (was.Loading? && was.now == pc.now)
      || actions[k] == Act(who, Evaluate(false, pc.now))
    requires pc.Loading? ==> (was.Selecting? && was.now == pc.now) || (was.Loading? && was.now == pc.now)
    ensures StagesPassed(trace, actions, k + 1, who, pc)
  {
    EverMore(trace, actions, k, Makes(who, Route(true)));
    EverMore(trace, actions, k, GotPermit(who));
    EverMore(trace, actions, k, Makes(who, Preview(true)));
    EverMore(trace, actions, k, LetThrough(who));
    if pc.Selecting? || pc.Loading? {
      EverMore(trace, actions, k, Makes(who, Evaluate(false, pc.now)));
    }
  }

  /** No request comes further than its choices let it: past routing only when a route matched, past
      admission only with a permit that was free, to policy only with a readable preview, and to any
      upstream only when policy let it through, at the time its scan uses. */
  lemma {:induction false} NoStageSkipped(cfg: Config, trace: seq<Machine>, actions: seq<Action>, k: nat, who: nat)
    requires ValidConfig(cfg) && Behaviour(cfg, trace, actions) && k <= |actions| && who < |trace[k].handlers|
    ensures StagesPassed(trace, actions, k, who, trace[k].handlers[who].pc)
  {
    if k > 0 {
      var m, a := trace[k - 1], actions[k - 1];
      assert trace[k] == Step(cfg, m, a);
      if who < |m.handlers| {
        NoStageSkipped(cfg, trace, actions, k - 1, who);
        if a.Act? && a.who == who {
          MoveStage(cfg, m.shared, m.handlers[who], a.choice);
        }
        StagesMore(cfg, trace, actions, k - 1, who, m.handlers[who].pc, trace[k].handlers[who].pc);
      }
    }
  }

  /** And the choices do let it: what each of them leads to. */
  lemma StagesLead(cfg: Config, trace: seq<Machine>, actions: seq<Action>, k: nat, who: nat)
    requires ValidConfig(cfg) && Behaviour(cfg, trace, actions)
    requires k < |actions| && actions[k].Act? && actions[k].who == who
    ensures who < |trace[k].handlers| && who < |trace[k + 1].handlers|
    ensures var c, pc, free := actions[k].choice, trace[k + 1].handlers[who].pc, trace[k].shared.free;
      && (c == Route(true) ==> pc == Routed)
      && (c == Acquire && free > 0 ==> pc == Admitted && trace[k + 1].handlers[who].permit)
      && (c == Preview(true) ==> pc == Previewed)
      && (c.Evaluate? && !c.denied ==> pc == Selecting(cfg.upstreams, c.now))
  {
    assert trace[k + 1] == Step(cfg, trace[k], actions[k]);
  }

  // ----- attempts and what they report ------------------------------------------------------------------------

  /** The outcomes of a handler's attempts, in order. */
  function Tries(actions: seq<Action>, who: nat): seq<Attempt> {
    if actions == [] then []
    else
      var last := actions[|actions| - 1];
      Tries(actions[..|actions| - 1], who)
      + if last.Act? && last.who == who && last.choice.Try? then [last.choice.result] else []
  }

  lemma TriesMore(actions: seq<Action>, k: nat, who: nat)
    requires k < |actions|
    ensures Tries(actions[..k + 1], who) == Tries(actions[..k], who) +
      if actions[k].Act? && actions[k].who == who && actions[k].choice.Try? then [actions[k].choice.result] else []
  {
    assert actions[..k + 1][..k] == actions[..k];
  }

  function Allowed(cfg: Config, retryEligible: bool): nat {
    if retryEligible then cfg.retries + 1 else 1
  }

  predicate Unanswered(tries: seq<Attempt>) {
    forall k :: 0 <= k < |tries| ==> !tries[k].Answered?
  }

  /** Attempts stopped at the first answer, or when none was left. */
  predicate Concluded(tries: seq<Attempt>, allowed: nat) {
    && tries != [] && Unanswered(tries[..|tries| - 1]) && |tries| <= allowed
    && (tries[|tries| - 1].Answered? || |tries| == allowed)
  }

  /** The last attempt was answered, and not with a server error. */
  predicate Succeeded(tries: seq<Attempt>) {
    tries != [] && tries[|tries| - 1] == Answered(false)
  }

  function Sendings(tries: seq<Attempt>): nat {
    if tries == [] then 0 else Sendings(tries[..|tries| - 1]) + One(!tries[|tries| - 1].NotBuilt?)
  }

  predicate TriesFit(cfg: Config, h: Handler, tries: seq<Attempt>) {
    && h.dispatches == Sendings(tries)
    && match h.pc
       case Dispatching(_, left) => Unanswered(tries) && |tries| + left == Allowed(cfg, h.retryEligible)
       case Reporting(_, failed) =>
         Concluded(tries, Allowed(cfg, h.retryEligible)) && (failed <==> !Succeeded(tries))
       case Tripped(_, _) => Concluded(tries, Allowed(cfg, h.retryEligible)) && !Succeeded(tries)
       case Marked(_) => Concluded(tries, Allowed(cfg, h.retryEligible)) && !Succeeded(tries)
       case Cleared(_) => Concluded(tries, Allowed(cfg, h.retryEligible)) && Succeeded(tries)
       case Recorded => Concluded(tries, Allowed(cfg, h.retryEligible))
       case Streaming(exit) => if exit == Upstream then Concluded(tries, Allowed(cfg, h.retryEligible)) else tries == []
       case Offered(exit) => if exit == Upstream then Concluded(tries, Allowed(cfg, h.retryEligible)) else tries == []
       case Done(exit) => if exit == Upstream then Concluded(tries, Allowed(cfg, h.retryEligible)) else tries == []
       case Cancelled => true
       case _ => tries == []
  }

  lemma OneMoreTry(tries: seq<Attempt>, result: Attempt)
    ensures (tries + [result])[..|tries|] == tries
    ensures Sendings(tries + [result]) == Sendings(tries) + One(!result.NotBuilt?)
    ensures Unanswered(tries + [result]) <==> Unanswered(tries) && !result.Answered?
  {
    assert (tries + [result])[..|tries|] == tries;
    if Unanswered(tries + [result]) {
      assert forall k :: 0 <= k < |tries| ==> (tries + [result])[k] == tries[k];
      assert (tries + [result])[|tries|] == result;
    }
  }

  lemma LastTry(tries: seq<Attempt>, result: Attempt, allowed: nat)
    requires Unanswered(tries) && |tries| < allowed
    ensures Concluded(tries + [result], allowed) <==> result.Answered? || |tries| + 1 == allowed
    ensures Succeeded(tries + [result]) <==> result == Answered(false)
  {
    OneMoreTry(tries, result);
  }

  lemma TryFits(cfg: Config, s: Shared, h: Handler, result: Attempt, tries: seq<Attempt>)
    requires CanMove(h, Try(result)) && Placed(cfg, h) && TriesFit(cfg, h, tries)
    ensures TriesFit(cfg, Move(cfg, s, h, Try(result)).1, tries + [result])
  {
    OneMoreTry(tries, result);
    LastTry(tries, result, Allowed(cfg, h.retryEligible));
    TryMoves(cfg, s, h, result);
  }

  lemma TryMoves(cfg: Config, s: Shared, h: Handler, result: Attempt)
    requires CanMove(h, Try(result)) && Placed(cfg, h)
    ensures var next := Move(cfg, s, h, Try(result)).1;
      && next.dispatches == h.dispatches + One(!result.NotBuilt?) && next.retryEligible == h.retryEligible
      && next.pc ==
           if result.Answered? then Reporting(h.pc.index, result.serverError)
           else if h.pc.left > 1 then Dispatching(h.pc.index, h.pc.left - 1)
           else Reporting(h.pc.index, true)
  {
  }

  lemma OtherMovesFit(cfg: Config, s: Shared, h: Handler, c: Choice, tries: seq<Attempt>)
    requires CanMove(h, c) && !c.Try? && TriesFit(cfg, h, tries)
    ensures TriesFit(cfg, Move(cfg, s, h, c).1, tries)
  {
  }

  /** However requests interleave: a request that got an upstream made attempts up to the first answer
      or as many as it may, one without retries and one more than the retries with; it reports a
      failure exactly when the last of them was not answered or answered with a server error; and it
      was sent out once for each attempt that could be built. */
  lemma {:induction false} AttemptsTellReport(cfg: Config, trace: seq<Machine>, actions: seq<Action>, k: nat, who: nat)
    requires ValidConfig(cfg) && Behaviour(cfg, trace, actions) && k <= |actions|
    ensures if who < |trace[k].handlers| then TriesFit(cfg, trace[k].handlers[who], Tries(actions[..k], who))
            else Tries(actions[..k], who) == []
  {
    if k > 0 {
      AttemptsTellReport(cfg, trace, actions, k - 1, who);
      TriesMore(actions, k - 1, who);
      InvariantThroughout(cfg, trace, actions, k - 1);
      StepFits(cfg, trace[k - 1], actions[k - 1], who, Tries(actions[..k - 1], who));
    }
  }

  lemma StepFits(cfg: Config, m: Machine, a: Action, who: nat, tries: seq<Attempt>)
    requires Enabled(m, a) && Shaped(cfg, m)
    requires if who < |m.handlers| then TriesFit(cfg, m.handlers[who], tries) else tries == []
    ensures var next := Step(cfg, m, a);
      var more := tries + if a.Act? && a.who == who && a.choice.Try? then [a.choice.result] else [];
      if who < |next.handlers| then TriesFit(cfg, next.handlers[who], more) else more == []
  {
    assert tries + [] == tries;
    if a.Act? && a.who == who {
      assert Local(cfg, m.handlers[who]);
      if a.choice.Try? {
        TryFits(cfg, m.shared, m.handlers[who], a.choice.result, tries);
      } else {
        OtherMovesFit(cfg, m.shared, m.handlers[who], a.choice, tries);
      }
    }
  }

  // ----- a report among other requests' steps ----------------------------------------------------------------

  function HealthOf(s: Shared, i: nat): Health {
    Health(Read(s.failures, i, 0), Read(s.until, i, 0))
  }

  /** A step writes to the health of upstream `i`. */
  predicate Writes(m: Machine, a: Action, i: nat) {
    && a.Act? && a.who < |m.handlers|
    && (a.choice.Report? || a.choice.StoreUntil? || a.choice.StoreFailures?)
    && match m.handlers[a.who].pc
       case Reporting(j, _) => i == j
       case Tripped(j, _) => i == j
       case Marked(j) => i == j
       case Cleared(j) => i == j
       case _ => false
  }

  /** Where the recording of a result stands, from health `h` on; `at` is when it stores a mark. */
  predicate Recording(cfg: Config, h: Health, i: nat, report: Report, now: Health, pc: Pc) {
    match pc
    case Reporting(j, f) => j == i && f == report.failed && now == h
    case Tripped(j, _) =>
      j == i && report.failed && now == Health(h.failures + 1, h.unhealthyUntil) && h.failures + 1 >= cfg.threshold
    case Marked(j) =>
      j == i && report.failed && h.failures + 1 >= cfg.threshold
      && now == Health(h.failures + 1, SaturatingAdd(report.at, cfg.cooldown))
    case Cleared(j) => j == i && !report.failed && now == Health(0, h.unhealthyUntil)
    case _ => now == Record(h, report, cfg.threshold, cfg.cooldown)
  }

  lemma MoveRecords(cfg: Config, s: Shared, h: Handler, c: Choice, was: Health, i: nat, report: Report)
    requires CanMove(h, c) && i < |s.failures| && i < |s.until| && InReport(h.pc)
    requires Recording(cfg, was, i, report, HealthOf(s, i), h.pc)
    requires c.StoreUntil? ==> c.at == report.at
    ensures var (s', h') := Move(cfg, s, h, c);
      && |s'.failures| == |s.failures| && |s'.until| == |s.until|
      && Recording(cfg, was, i, report, HealthOf(s', i), h'.pc)
  {
  }

  /** A step that does not write upstream `i`'s health leaves it alone. */
  lemma OthersKeepHealth(cfg: Config, m: Machine, a: Action, i: nat)
    requires Enabled(m, a) && !Writes(m, a, i)
    ensures HealthOf(Step(cfg, m, a).shared, i) == HealthOf(m.shared, i)
    ensures |Step(cfg, m, a).shared.failures| == |m.shared.failures|
    ensures |Step(cfg, m, a).shared.until| == |m.shared.until|
  {
  }

  predicate InReport(pc: Pc) {
    pc.Reporting? || pc.Tripped? || pc.Marked? || pc.Cleared?
  }

  /** Handler `who` is recording, and the step is its own or leaves the upstream's health alone. */
  predicate RecordsQuietly(m: Machine, a: Action, who: nat, u: nat, report: Report) {
    && who < |m.handlers| && InReport(m.handlers[who].pc)
    && (a.Act? && a.who == who && a.choice.StoreUntil? ==> a.choice.at == report.at)
    && (a.Act? && a.who != who ==> !Writes(m, a, u))
  }

  /** States `i` to `j` of a run in which handler `who` records a result for upstream `u`, storing at
      the time of the report if it stores one, and nobody else writes that upstream's health. */
  predicate ReportWindow(cfg: Config, trace: seq<Machine>, actions: seq<Action>, who: nat, i: nat, j: nat, u: nat,
                         report: Report)
  {
    && Follows(cfg, trace, actions) && i < j <= |actions|
    && who < |trace[i].handlers| && trace[i].handlers[who].pc == Reporting(u, report.failed)
    && u < |trace[i].shared.failures| && u < |trace[i].shared.until|
    && forall k :: i <= k < j ==> RecordsQuietly(trace[k], actions[k], who, u, report)
  }

  lemma StepRecords(cfg: Config, m: Machine, a: Action, who: nat, was: Health, u: nat, report: Report)
    requires Enabled(m, a) && RecordsQuietly(m, a, who, u, report)
    requires u < |m.shared.failures| && u < |m.shared.until|
    requires Recording(cfg, was, u, report, HealthOf(m.shared, u), m.handlers[who].pc)
    ensures var next := Step(cfg, m, a);
      && who < |next.handlers| && u < |next.shared.failures| && u < |next.shared.until|
      && Recording(cfg, was, u, report, HealthOf(next.shared, u), next.handlers[who].pc)
  {
    if a.Act? && a.who == who {
      MoveRecords(cfg, m.shared, m.handlers[who], a.choice, was, u, report);
    } else {
      OthersKeepHealth(cfg, m, a, u);
    }
  }

  lemma {:induction false} RecordingThroughout(cfg: Config, trace: seq<Machine>, actions: seq<Action>, who: nat, i: nat,
                                               j: nat, k: nat, u: nat, report: Report)
    requires ReportWindow(cfg, trace, actions, who, i, j, u, report) && i <= k <= j
    ensures who < |trace[k].handlers| && u < |trace[k].shared.failures| && u < |trace[k].shared.until|
    ensures Recording(cfg, HealthOf(trace[i].shared, u), u, report, HealthOf(trace[k].shared, u),
                      trace[k].handlers[who].pc)
    decreases k
  {
    if i < k {
      RecordingThroughout(cfg, trace, actions, who, i, j, k - 1, u, report);
      var m, a, was := trace[k - 1], actions[k - 1], HealthOf(trace[i].shared, u);
      assert RecordsQuietly(m, a, who, u, report);
      StepRecords(cfg, m, a, who, was, u, report);
    }
  }

  /** Whatever else happens meanwhile, a result recorded while nobody else writes that upstream's
      health changes it as one sequential record does: its counter, its mark and its reset. */
  lemma LoneReportIsRecord(cfg: Config, trace: seq<Machine>, actions: seq<Action>, who: nat, i: nat, j: nat, u: nat,
                           report: Report)
    requires ReportWindow(cfg, trace, actions, who, i, j, u, report)
    requires who < |trace[j].handlers| && trace[j].handlers[who].pc == Recorded
    ensures HealthOf(trace[j].shared, u)
            == Record(HealthOf(trace[i].shared, u), report, cfg.threshold, cfg.cooldown)
  {
    RecordingThroughout(cfg, trace, actions, who, i, j, j, u, report);
  }
}
