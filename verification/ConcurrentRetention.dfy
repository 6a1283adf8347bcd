/** Retention runs interleaved, statement by statement, with the capture writer, with
    replays and with each other. A run only tracks the total it once read. */
module ConcurrentRetention {
  import opened Domain
  import opened Store
  import opened Retention

  /** A row of the candidate query: the bytes are those of the moment it ran. */
  datatype Pending = Pending(id: RequestId, bytes: nat)

  datatype Phase =
    | Pruning
    | Counting
    | Selecting(total: int)
    | Evicting(total: int, pending: seq<Pending>)
    | Finished(total: int)
    | Failed

  /** `inserted` is history: the body bytes committed since this run read its total. */
  datatype Run = Run(cap: nat, phase: Phase, inserted: nat)

  datatype System = System(db: Tables, runs: seq<Run>)

  /** A statement of another task, or the next statement of run `r`. */
  datatype Action =
    | Other(s: Statement)
    | Advance(r: nat, cutoff: int, batch: seq<RequestId>)

  function BytesAt(captures: Captures, id: RequestId): nat {
    if id in captures then BodyBytes(captures[id]) else 0
  }

  function PendingOf(captures: Captures, batch: seq<RequestId>): seq<Pending> {
    if batch == [] then [] else [Pending(batch[0], BytesAt(captures, batch[0]))] + PendingOf(captures, batch[1..])
  }

  /** With a new running total: stop, go on, or query again. A sum beyond 64 bits is an
      error of the query that computes it. */
  function AfterUpdate(cap: nat, total: int, rest: seq<Pending>): Phase {
    if total > I64_MAX then Failed
    else if total <= Min(cap, I64_MAX) then Finished(total)
    else if rest == [] then Selecting(total)
    else Evicting(total, rest)
  }

  predicate Enabled(sys: System, a: Action) {
    match a
    case Other(s) => true
    case Advance(r, cutoff, batch) =>
      && r < |sys.runs|
      && !sys.runs[r].phase.Finished? && !sys.runs[r].phase.Failed?
      && (sys.runs[r].phase.Selecting? ==> OrderedPrefix(Candidates(sys.db.captures), BATCH_LIMIT, batch))
      && (sys.runs[r].phase.Evicting? ==> sys.runs[r].phase.pending != [])
  }

  /** The statement an action issues, if it changes the store. */
  function Issued(sys: System, a: Action): Option<Statement>
    requires Enabled(sys, a)
  {
    match a
    case Other(s) => Some(s)
    case Advance(r, cutoff, batch) =>
      match sys.runs[r].phase
      case Pruning => Some(Prune(cutoff))
      case Evicting(_, pending) => Some(Evict(pending[0].id))
      case _ => None
  }

  ghost function NextPhase(sys: System, r: nat, batch: seq<RequestId>): Phase
    requires Enabled(sys, Advance(r, 0, batch))
  {
    var cap := sys.runs[r].cap;
    match sys.runs[r].phase
    case Pruning => Counting
    case Counting => AfterUpdate(cap, TotalBytes(sys.db.captures), [])
    case Selecting(total) =>
      if batch == [] then Finished(total) else Evicting(total, PendingOf(sys.db.captures, batch))
    case Evicting(total, pending) => AfterUpdate(cap, SaturatingSub(total, Max(pending[0].bytes, 0)), pending[1..])
  }

  function InsertedBytes(t: Tables, s: Statement): nat {
    match s
    case Insert(w, fault) =>
      if fault || !Storable(t, w) || w.capture.None? then 0
      else BodyBytes(CaptureRowOf(w.capture.value, w.record.createdAt))
    case _ => 0
  }

  function Credit(run: Run, bytes: nat): Run {
    if run.phase.Pruning? || run.phase.Counting? then run else run.(inserted := run.inserted + bytes)
  }

  function CreditAll(runs: seq<Run>, bytes: nat): (credited: seq<Run>)
    ensures |credited| == |runs|
    ensures forall r :: 0 <= r < |runs| ==> credited[r] == Credit(runs[r], bytes)
  {
    if runs == [] then [] else [Credit(runs[0], bytes)] + CreditAll(runs[1..], bytes)
  }

  ghost function Step(sys: System, a: Action): System
    requires Enabled(sys, a)
  {
    var issued := Issued(sys, a);
    var db := if issued.Some? then Execute(sys.db, issued.value) else sys.db;
    match a
    case Other(s) => System(db, CreditAll(sys.runs, InsertedBytes(sys.db, s)))
    case Advance(r, cutoff, batch) =>
      System(db, sys.runs[r := sys.runs[r].(phase := NextPhase(sys, r, batch))])
  }

  // ----- the bound -----------------------------------------------------------------------

  function Deficit(captures: Captures, p: Pending): nat {
    if p.bytes <= BytesAt(captures, p.id) then 0 else p.bytes - BytesAt(captures, p.id)
  }

  /** Bytes the run still plans to subtract that are no longer there to evict. */
  function Deficits(captures: Captures, pending: seq<Pending>): nat {
    if pending == [] then 0 else Deficit(captures, pending[0]) + Deficits(captures, pending[1..])
  }

  predicate DistinctIds(pending: seq<Pending>) {
    forall i, j :: 0 <= i < j < |pending| ==> pending[i].id != pending[j].id
  }

  /** What a run's stale total still guarantees about the bytes really stored. */
  ghost predicate Bounded(captures: Captures, run: Run) {
    match run.phase
    case Pruning => run.inserted == 0
    case Counting => run.inserted == 0
    case Selecting(total) => run.cap < total <= I64_MAX && TotalBytes(captures) <= total + run.inserted
    case Evicting(total, pending) =>
      && DistinctIds(pending) && pending != []
      && run.cap < total <= I64_MAX
      && TotalBytes(captures) + Deficits(captures, pending) <= total + run.inserted
    case Finished(_) => TotalBytes(captures) <= run.cap + run.inserted
    case Failed => true
  }

  lemma {:induction false} DeficitsElsewhere(before: Captures, after: Captures, id: RequestId, pending: seq<Pending>)
    requires before - {id} == after - {id}
    requires forall i :: 0 <= i < |pending| ==> pending[i].id != id
    ensures Deficits(after, pending) == Deficits(before, pending)
  {
    if pending != [] {
      BytesElsewhere(before, after, id, pending[0].id);
      DeficitsElsewhere(before, after, id, pending[1..]);
    }
  }

  lemma BytesElsewhere(before: Captures, after: Captures, id: RequestId, other: RequestId)
    requires before - {id} == after - {id} && other != id
    ensures BytesAt(after, other) == BytesAt(before, other)
  {
    assert other in before <==> other in before - {id};
    assert other in after <==> other in after - {id};
    if other in before {
      assert (before - {id})[other] == (after - {id})[other];
    }
  }

  lemma TotalSplit(captures: Captures, id: RequestId)
    ensures TotalBytes(captures) == BytesAt(captures, id) + TotalBytes(captures - {id})
  {
    if id in captures {
      TotalRemove(captures, id);
    } else {
      assert captures - {id} == captures;
    }
  }

  /** Changing one row raises total plus deficits by at most the bytes the row ends with. */
  lemma {:induction false} OneRowChange(before: Captures, after: Captures, id: RequestId, pending: seq<Pending>)
    requires before - {id} == after - {id}
    requires DistinctIds(pending)
    ensures TotalBytes(after) + Deficits(after, pending)
            <= TotalBytes(before) + Deficits(before, pending) + BytesAt(after, id)
  {
    TotalSplit(before, id);
    TotalSplit(after, id);
    if pending != [] {
      if pending[0].id == id {
        DeficitsElsewhere(before, after, id, pending[1..]);
      } else {
        BytesElsewhere(before, after, id, pending[0].id);
        OneRowChange(before, after, id, pending[1..]);
      }
    }
  }

  lemma {:induction false} RemovalChange(captures: Captures, gone: set<RequestId>, pending: seq<Pending>)
    requires DistinctIds(pending)
    ensures TotalBytes(captures - gone) + Deficits(captures - gone, pending)
            <= TotalBytes(captures) + Deficits(captures, pending)
    decreases |gone|
  {
    if id :| id in gone {
      RemovalChange(captures, gone - {id}, pending);
      assert captures - gone == (captures - (gone - {id})) - {id};
      OneRowChange(captures - (gone - {id}), captures - gone, id, pending);
    } else {
      assert captures - gone == captures;
    }
  }

  /** No statement raises total plus deficits by more than the body bytes it commits. */
  lemma StatementChange(t: Tables, s: Statement, pending: seq<Pending>)
    requires DistinctIds(pending)
    ensures var after := Execute(t, s).captures;
      TotalBytes(after) + Deficits(after, pending)
      <= TotalBytes(t.captures) + Deficits(t.captures, pending) + InsertedBytes(t, s)
  {
    match s
    case Insert(w, fault) =>
      if !fault && Storable(t, w) {
        var id := w.record.requestId;
        assert t.captures - {id} == AfterInsert(t, w).captures - {id};
        OneRowChange(t.captures, AfterInsert(t, w).captures, id, pending);
      }
    case Prune(cutoff) =>
      RemovalChange(t.captures, ExpiredIds(t, cutoff), pending);
    case Evict(id) =>
      assert t.captures - {id} == EvictSet(t.captures, {id}) - {id};
      OneRowChange(t.captures, EvictSet(t.captures, {id}), id, pending);
    case AddReplay(_, _) =>
  }

  lemma StatementKeepsBound(t: Tables, s: Statement, run: Run)
    requires Bounded(t.captures, run)
    ensures Bounded(Execute(t, s).captures, Credit(run, InsertedBytes(t, s)))
  {
    StatementChange(t, s, if run.phase.Evicting? then run.phase.pending else []);
  }

  // ----- the acting run --------------------------------------------------------------------

  lemma {:induction false} FreshBatch(captures: Captures, batch: seq<RequestId>)
    ensures |PendingOf(captures, batch)| == |batch|
    ensures forall i :: 0 <= i < |batch| ==> PendingOf(captures, batch)[i].id == batch[i]
    ensures Deficits(captures, PendingOf(captures, batch)) == 0
  {
    if batch != [] {
      FreshBatch(captures, batch[1..]);
      assert PendingOf(captures, batch)[1..] == PendingOf(captures, batch[1..]);
    }
  }

  /** Evicting the next pending row pays for the bytes subtracted from the total. */
  lemma EvictionPays(captures: Captures, pending: seq<Pending>, total: int, inserted: nat)
    requires DistinctIds(pending) && pending != []
    requires TotalBytes(captures) + Deficits(captures, pending) <= total + inserted
    ensures var after := EvictSet(captures, {pending[0].id});
      TotalBytes(after) + Deficits(after, pending[1..]) <= total - pending[0].bytes + inserted
  {
    var id := pending[0].id;
    var after := EvictSet(captures, {id});
    assert captures - {id} == after - {id};
    TotalSplit(captures, id);
    TotalSplit(after, id);
    DeficitsElsewhere(captures, after, id, pending[1..]);
  }

  lemma SelectingKeepsBound(sys: System, r: nat, cutoff: int, batch: seq<RequestId>)
    requires Enabled(sys, Advance(r, cutoff, batch)) && sys.runs[r].phase.Selecting?
    requires EvictedHaveNoBodies(sys.db.captures)
    requires Bounded(sys.db.captures, sys.runs[r])
    ensures var next := Step(sys, Advance(r, cutoff, batch)); Bounded(next.db.captures, next.runs[r])
  {
    if batch == [] {
      assert |Candidates(sys.db.captures)| == 0;
      NoCandidatesNoBytes(sys.db.captures);
    } else {
      FreshBatch(sys.db.captures, batch);
    }
  }

  lemma EvictingKeepsBound(sys: System, r: nat, cutoff: int, batch: seq<RequestId>)
    requires Enabled(sys, Advance(r, cutoff, batch)) && sys.runs[r].phase.Evicting?
    requires Bounded(sys.db.captures, sys.runs[r])
    ensures var next := Step(sys, Advance(r, cutoff, batch)); Bounded(next.db.captures, next.runs[r])
  {
    var phase := sys.runs[r].phase;
    EvictionPays(sys.db.captures, phase.pending, phase.total, sys.runs[r].inserted);
    TotalAfter(phase.total, phase.pending[0].bytes);
  }

  lemma AdvanceKeepsBound(sys: System, r: nat, cutoff: int, batch: seq<RequestId>)
    requires Enabled(sys, Advance(r, cutoff, batch))
    requires EvictedHaveNoBodies(sys.db.captures)
    requires Bounded(sys.db.captures, sys.runs[r])
    ensures var next := Step(sys, Advance(r, cutoff, batch)); Bounded(next.db.captures, next.runs[r])
  {
    if sys.runs[r].phase.Selecting? {
      SelectingKeepsBound(sys, r, cutoff, batch);
    } else if sys.runs[r].phase.Evicting? {
      EvictingKeepsBound(sys, r, cutoff, batch);
    }
  }

  lemma TotalAfter(total: int, bytes: nat)
    requires 0 <= total <= I64_MAX
    ensures total - bytes <= SaturatingSub(total, Max(bytes, 0)) <= total
  {
  }

  ghost predicate Invariant(sys: System) {
    Integrity(sys.db) && forall r :: 0 <= r < |sys.runs| ==> Bounded(sys.db.captures, sys.runs[r])
  }

  lemma StepKeepsInvariant(sys: System, a: Action)
    requires Enabled(sys, a) && Invariant(sys)
    ensures Invariant(Step(sys, a))
  {
    var next := Step(sys, a);
    if Issued(sys, a).Some? {
      ExecuteKeepsIntegrity(sys.db, Issued(sys, a).value);
    }
    forall r | 0 <= r < |next.runs|
      ensures Bounded(next.db.captures, next.runs[r])
    {
      assert Bounded(sys.db.captures, sys.runs[r]);
      if a.Advance? && a.r == r {
        AdvanceKeepsBound(sys, r, a.cutoff, a.batch);
      } else if Issued(sys, a).Some? {
        StatementKeepsBound(sys.db, Issued(sys, a).value, sys.runs[r]);
        assert a.Advance? ==> InsertedBytes(sys.db, Issued(sys, a).value) == 0;
      }
    }
  }

  ghost predicate Behaviour(trace: seq<System>, actions: seq<Action>) {
    && |trace| == |actions| + 1
    && Integrity(trace[0].db)
    && (forall r :: 0 <= r < |trace[0].runs| ==> trace[0].runs[r].phase.Pruning? && trace[0].runs[r].inserted == 0)
    && forall i :: 0 <= i < |actions| ==> Enabled(trace[i], actions[i]) && trace[i + 1] == Step(trace[i], actions[i])
  }

  lemma {:induction false} InvariantThroughout(trace: seq<System>, actions: seq<Action>, i: nat)
    requires Behaviour(trace, actions) && i <= |actions|
    ensures Invariant(trace[i])
  {
    if i > 0 {
      InvariantThroughout(trace, actions, i - 1);
      StepKeepsInvariant(trace[i - 1], actions[i - 1]);
    }
  }

  /** However statements interleave, once a run has finished the stored body bytes are at
      most its cap plus the bytes committed since it read its total. */
  lemma FinishedRunBound(trace: seq<System>, actions: seq<Action>, i: nat, r: nat)
    requires Behaviour(trace, actions) && i <= |actions|
    requires r < |trace[i].runs| && trace[i].runs[r].phase.Finished?
    ensures TotalBytes(trace[i].db.captures) <= trace[i].runs[r].cap + trace[i].runs[r].inserted
  {
    InvariantThroughout(trace, actions, i);
    assert Bounded(trace[i].db.captures, trace[i].runs[r]);
  }
}
