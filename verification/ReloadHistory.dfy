/** What the reload machine's state says about the actions that led to it: which configuration is
    published, which is current, what every request's snapshot is, and where each reload stands. */
module ReloadHistory {
  import opened Domain
  import opened Reload
  import opened Settings

  /** The reload an action belongs to. */
  function By(a: Action): Option<nat> {
    match a
    case Begin => None
    case Snapshot => None
    case _ => Some(a.r)
  }

  /** The last of the first `k` actions of reload `r`. */
  function LastBy(actions: seq<Action>, k: nat, r: nat): Option<Action>
    requires k <= |actions|
  {
    if k == 0 then None
    else if By(actions[k - 1]) == Some(r) then Some(actions[k - 1])
    else LastBy(actions, k - 1, r)
  }

  /** The configuration reload `r` last read among the first `k` actions. */
  function ReadBy(actions: seq<Action>, k: nat, r: nat): Option<AppConfig>
    requires k <= |actions|
  {
    if k == 0 then None
    else if actions[k - 1].Load? && actions[k - 1].r == r then Some(actions[k - 1].c)
    else ReadBy(actions, k - 1, r)
  }

  function Count(actions: seq<Action>, k: nat, p: Action -> bool): nat
    requires k <= |actions|
  {
    if k == 0 then 0 else Count(actions, k - 1, p) + One(p(actions[k - 1]))
  }

  predicate Begins(a: Action) {
    a.Begin?
  }

  predicate TakesSnapshot(a: Action) {
    a.Snapshot?
  }

  // ----- where a reload stands --------------------------------------------------------------------------

  /** What its last own action left: a reload that has not acted is reading, one that locked or
      swapped still carries what it read, and a failed, rejected or committed one is over. */
  predicate Told(actions: seq<Action>, k: nat, r: nat, stage: Reloader)
    requires k <= |actions|
  {
    match LastBy(actions, k, r)
    case None => stage.Reading?
    case Some(Load(_, c)) => stage == Loaded(c)
    case Some(Lock(_)) => stage.Holding? && ReadBy(actions, k, r) == Some(stage.c)
    case Some(Swap(_, _)) => stage.Swapped? && ReadBy(actions, k, r) == Some(stage.c)
    case Some(_) => stage.Finished?
  }

  /** Reload `r` stands where its own actions left it, and carries what it read; one that has not
      begun has not acted. */
  predicate StandsAt(s: System, actions: seq<Action>, k: nat, r: nat)
    requires k <= |actions|
  {
    if r >= |s.reloaders| then LastBy(actions, k, r) == None
    else
      && Told(actions, k, r, s.reloaders[r])
      && (!s.reloaders[r].Reading? && !s.reloaders[r].Finished? ==> ReadBy(actions, k, r) == Some(s.reloaders[r].c))
  }

  ghost predicate AllTold(s: System, actions: seq<Action>, k: nat)
    requires k <= |actions|
  {
    |s.reloaders| == Count(actions, k, Begins) && forall r: nat :: StandsAt(s, actions, k, r)
  }

  lemma StepStands(s: System, actions: seq<Action>, k: nat, r: nat)
    requires k < |actions| && Enabled(s, actions[k]) && StandsAt(s, actions, k, r)
    ensures StandsAt(Step(s, actions[k]), actions, k + 1, r)
  {
  }

  lemma StepTold(s: System, actions: seq<Action>, k: nat)
    requires k < |actions| && Enabled(s, actions[k]) && AllTold(s, actions, k)
    ensures AllTold(Step(s, actions[k]), actions, k + 1)
  {
    var next, after := Step(s, actions[k]), k + 1;
    forall r: nat
      ensures StandsAt(next, actions, after, r)
    {
      StepStands(s, actions, k, r);
    }
  }

  lemma {:induction false} StagesTold(trace: seq<System>, actions: seq<Action>, k: nat)
    requires Behaviour(trace, actions) && k <= |actions|
    ensures AllTold(trace[k], actions, k)
  {
    if k > 0 {
      StagesTold(trace, actions, k - 1);
      StepTold(trace[k - 1], actions, k - 1);
    }
  }

  predicate Ends(a: Action, r: nat) {
    a == Fail(r) || a == Reject(r) || a == Commit(r)
  }

  /** A reload that failed, was rejected or committed does nothing afterwards. */
  lemma {:induction false} OverForGood(trace: seq<System>, actions: seq<Action>, i: nat, j: nat, r: nat)
    requires Behaviour(trace, actions) && i < j <= |actions| && Ends(actions[i], r)
    ensures r < |trace[j].reloaders| && trace[j].reloaders[r].Finished?
    ensures j < |actions| ==> By(actions[j]) != Some(r)
    decreases j
  {
    if j > i + 1 {
      OverForGood(trace, actions, i, j - 1, r);
    }
    assert trace[j] == Step(trace[j - 1], actions[j - 1]);
  }

  /** A reload may lock exactly when it has read a configuration, has not locked yet, and no reload is
      between locking and its end. */
  lemma LockExactly(trace: seq<System>, actions: seq<Action>, k: nat, r: nat)
    requires Behaviour(trace, actions) && k <= |actions| && r < |trace[k].reloaders|
    ensures Enabled(trace[k], Lock(r)) <==>
      && (match LastBy(actions, k, r) case Some(Load(_, _)) => true case _ => false)
      && forall q :: 0 <= q < |trace[k].reloaders| ==>
        !trace[k].reloaders[q].Holding? && !trace[k].reloaders[q].Swapped?
  {
    StagesTold(trace, actions, k);
    assert StandsAt(trace[k], actions, k, r);
    InvariantThroughout(trace, actions, k);
  }

  /** The lock is never stuck: while it is held, its holder can end, by rejecting, or by swapping any
      state built from what it read that changes nothing fixed, and then committing. */
  lemma HolderCanEnd(trace: seq<System>, actions: seq<Action>, k: nat, g: GatewayState)
    requires Behaviour(trace, actions) && k <= |actions| && trace[k].lock.Some?
    ensures var r := trace[k].lock.value;
      && r < |trace[k].reloaders| && ReadBy(actions, k, r).Some?
      && if trace[k].reloaders[r].Swapped? then Enabled(trace[k], Commit(r))
         else
           && Enabled(trace[k], Reject(r))
           && (Enabled(trace[k], Swap(r, g)) <==>
                 && ReadBy(actions, k, r).value.fixed == trace[k].current.fixed
                 && Represents(g, ReadBy(actions, k, r).value))
  {
    StagesTold(trace, actions, k);
    InvariantThroughout(trace, actions, k);
    assert StandsAt(trace[k], actions, k, trace[k].lock.value);
  }

  // ----- what is published ----------------------------------------------------------------------------------

  /** The state the last of the first `k` actions that swapped put in place, with the configuration
      its reload had read; the startup's before any. */
  function PublishedBy(start: Published, actions: seq<Action>, k: nat): Published
    requires k <= |actions|
  {
    if k == 0 then start
    else
      match actions[k - 1]
      case Swap(r, g) =>
        Published(g, match ReadBy(actions, k - 1, r) case Some(c) => c case None => start.c)
      case _ => PublishedBy(start, actions, k - 1)
  }

  /** The configuration read by the reload that committed last; the startup's before any. */
  function CommittedBy(start: AppConfig, actions: seq<Action>, k: nat): AppConfig
    requires k <= |actions|
  {
    if k == 0 then start
    else
      match actions[k - 1]
      case Commit(r) => (match ReadBy(actions, k - 1, r) case Some(c) => c case None => start)
      case _ => CommittedBy(start, actions, k - 1)
  }

  /** Through all interleavings: published is what was swapped in last, current what was committed
      last, and a reload publishes exactly what it read. */
  lemma {:induction false} PublishedIsHistory(trace: seq<System>, actions: seq<Action>, k: nat)
    requires Behaviour(trace, actions) && k <= |actions|
    ensures trace[k].live == PublishedBy(trace[0].live, actions, k)
    ensures trace[k].current == CommittedBy(trace[0].startup, actions, k)
  {
    if k > 0 {
      PublishedIsHistory(trace, actions, k - 1);
      StagesTold(trace, actions, k - 1);
      assert By(actions[k - 1]).Some? ==> StandsAt(trace[k - 1], actions, k - 1, By(actions[k - 1]).value);
      assert trace[k] == Step(trace[k - 1], actions[k - 1]);
    }
  }

  /** When a reload commits, the configuration it read is current, the published state represents it,
      and the lock is free. */
  lemma CommitPublishes(trace: seq<System>, actions: seq<Action>, i: nat)
    requires Behaviour(trace, actions) && i < |actions| && actions[i].Commit?
    ensures ReadBy(actions, i, actions[i].r).Some?
    ensures trace[i + 1].current == trace[i + 1].live.c == ReadBy(actions, i, actions[i].r).value
    ensures Represents(trace[i + 1].live.g, trace[i + 1].current) && trace[i + 1].lock.None?
  {
    StagesTold(trace, actions, i);
    assert StandsAt(trace[i], actions, i, actions[i].r);
    InvariantThroughout(trace, actions, i + 1);
    assert trace[i + 1] == Step(trace[i], actions[i]);
  }

  // ----- what a request holds ----------------------------------------------------------------------------

  /** One snapshot per request that took one, and the one taken at step `i` is, ever after, the state
      published at that moment. */
  lemma {:induction false} SnapshotsAreLive(trace: seq<System>, actions: seq<Action>, i: nat, k: nat)
    requires Behaviour(trace, actions) && i < k <= |actions| && actions[i].Snapshot?
    ensures |trace[i].snapshots| == Count(actions, i, TakesSnapshot)
    ensures |trace[k].snapshots| > |trace[i].snapshots|
    ensures trace[k].snapshots[|trace[i].snapshots|] == PublishedBy(trace[0].live, actions, i)
    decreases k
  {
    SnapshotsCounted(trace, actions, i);
    PublishedIsHistory(trace, actions, i);
    if k > i + 1 {
      SnapshotsAreLive(trace, actions, i, k - 1);
    }
    assert trace[k] == Step(trace[k - 1], actions[k - 1]);
  }

  lemma {:induction false} SnapshotsCounted(trace: seq<System>, actions: seq<Action>, k: nat)
    requires Behaviour(trace, actions) && k <= |actions|
    ensures |trace[k].snapshots| == Count(actions, k, TakesSnapshot)
  {
    if k > 0 {
      SnapshotsCounted(trace, actions, k - 1);
      assert trace[k] == Step(trace[k - 1], actions[k - 1]);
    }
  }
}
