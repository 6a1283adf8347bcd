/** What a retention run does next, and that it comes to an end: every statement of a run in every
    interleaving, and runs that nobody disturbs. */
module RetentionRuns {
  import opened Domain
  import opened Store
  import opened Retention
  import opened ConcurrentRetention

  /** Step `i` is the next statement of run `r`. */
  ghost predicate Advances(trace: seq<System>, actions: seq<Action>, i: nat, r: nat) {
    Behaviour(trace, actions) && i < |actions| && actions[i].Advance? && actions[i].r == r
  }

  /** First the requests older than the cutoff go, and only they. */
  lemma PrunesFirst(trace: seq<System>, actions: seq<Action>, i: nat, r: nat)
    requires Advances(trace, actions, i, r) && trace[i].runs[r].phase.Pruning?
    ensures r < |trace[i + 1].runs| && trace[i + 1].runs[r].phase == Counting
    ensures forall id :: id in trace[i + 1].db.requests <==>
      id in trace[i].db.requests && trace[i].db.requests[id].createdAt >= actions[i].cutoff
    ensures forall id :: id in trace[i + 1].db.captures <==>
      id in trace[i].db.captures &&
      !(id in trace[i].db.requests && trace[i].db.requests[id].createdAt < actions[i].cutoff)
  {
    assert trace[i + 1] == Step(trace[i], actions[i]);
  }

  /** Then the stored bytes are summed up: the run fails exactly when the sum exceeds 64 bits, ends
      exactly when it is at most the cap, and otherwise goes on with exactly that sum. */
  lemma CountingDecides(trace: seq<System>, actions: seq<Action>, i: nat, r: nat)
    requires Advances(trace, actions, i, r) && trace[i].runs[r].phase.Counting?
    ensures r < |trace[i + 1].runs| && trace[i + 1].db == trace[i].db
    ensures var total, next := TotalBytes(trace[i].db.captures), trace[i + 1].runs[r].phase;
      && (next.Failed? <==> total > I64_MAX)
      && (next.Finished? <==> total <= I64_MAX && total <= trace[i].runs[r].cap)
      && (total <= I64_MAX && total > trace[i].runs[r].cap ==> next == Selecting(total))
  {
    assert trace[i + 1] == Step(trace[i], actions[i]);
  }

  /** A batch is up to a hundred of the oldest candidates, each with the bytes it holds. */
  ghost predicate IsBatch(captures: Captures, pending: seq<Pending>) {
    && |pending| == (if |Candidates(captures)| <= 100 then |Candidates(captures)| else 100)
    && DistinctIds(pending)
    && (forall k :: 0 <= k < |pending| ==>
          Evictable(captures, pending[k].id) && pending[k].bytes == BodyBytes(captures[pending[k].id]))
    && (forall j, k :: 0 <= j < k < |pending| ==> !Older(captures, pending[k].id, pending[j].id))
    && (forall k, id :: 0 <= k < |pending| && Evictable(captures, id) && Older(captures, id, pending[k].id) ==>
          exists j :: 0 <= j < |pending| && pending[j].id == id)
  }

  /** The candidate query: the run ends exactly when nothing is left to evict, and otherwise has the
      batch in hand. It never fails and changes nothing. */
  lemma SelectingDecides(trace: seq<System>, actions: seq<Action>, i: nat, r: nat)
    requires Advances(trace, actions, i, r) && trace[i].runs[r].phase.Selecting?
    ensures r < |trace[i + 1].runs| && trace[i + 1].db == trace[i].db
    ensures var total, next := trace[i].runs[r].phase.total, trace[i + 1].runs[r].phase;
      if forall id :: !Evictable(trace[i].db.captures, id)
      then next == Finished(total)
      else next.Evicting? && next.total == total && IsBatch(trace[i].db.captures, next.pending)
  {
    assert trace[i + 1] == Step(trace[i], actions[i]);
    var captures, batch := trace[i].db.captures, actions[i].batch;
    if batch == [] {
      assert |Candidates(captures)| == 0;
      forall id
        ensures !Evictable(captures, id)
      {
        assert id !in Candidates(captures);
      }
    } else {
      assert batch[0] in Candidates(captures);
      FreshBatch(captures, batch);
      BatchIsBatch(captures, batch);
    }
  }

  lemma {:induction false} PendingBytes(captures: Captures, batch: seq<RequestId>, k: nat)
    requires k < |batch|
    ensures k < |PendingOf(captures, batch)| && PendingOf(captures, batch)[k].bytes == BytesAt(captures, batch[k])
  {
    FreshBatch(captures, batch);
    if k > 0 {
      PendingBytes(captures, batch[1..], k - 1);
    }
  }

  lemma BatchIsBatch(captures: Captures, batch: seq<RequestId>)
    requires OrderedPrefix(Candidates(captures), BATCH_LIMIT, batch)
    ensures IsBatch(captures, PendingOf(captures, batch))
  {
    FreshBatch(captures, batch);
    var pending := PendingOf(captures, batch);
    forall k | 0 <= k < |pending|
      ensures Evictable(captures, pending[k].id) && pending[k].bytes == BodyBytes(captures[pending[k].id])
    {
      assert batch[k] in Candidates(captures);
      PendingBytes(captures, batch, k);
    }
    forall k, id | 0 <= k < |pending| && Evictable(captures, id) && Older(captures, id, pending[k].id)
      ensures exists j :: 0 <= j < |pending| && pending[j].id == id
    {
      var j := OlderIsSelected(captures, batch, k, id);
      assert pending[j].id == id;
    }
  }

  lemma OlderIsSelected(captures: Captures, batch: seq<RequestId>, k: nat, id: RequestId) returns (j: nat)
    requires OrderedPrefix(Candidates(captures), BATCH_LIMIT, batch) && k < |batch|
    requires Evictable(captures, id) && Older(captures, id, batch[k])
    ensures j < |batch| && batch[j] == id
  {
    assert id in Candidates(captures) && batch[k] in Candidates(captures);
    assert id in batch;
    j :| 0 <= j < |batch| && batch[j] == id;
  }

  /** The next row of the batch is evicted, nothing else changes, and its bytes are taken off: the
      run ends exactly when what is left is at most the cap, goes on with the rest of the batch, or
      asks again. It never fails. */
  lemma EvictingDecides(trace: seq<System>, actions: seq<Action>, i: nat, r: nat)
    requires Advances(trace, actions, i, r) && trace[i].runs[r].phase.Evicting?
    ensures trace[i].runs[r].phase.pending != [] && r < |trace[i + 1].runs|
    ensures trace[i + 1].db ==
      trace[i].db.(captures := EvictSet(trace[i].db.captures, {trace[i].runs[r].phase.pending[0].id}))
    ensures var phase, next := trace[i].runs[r].phase, trace[i + 1].runs[r].phase;
      var left := phase.total - phase.pending[0].bytes;
      && (next.Finished? <==> left <= trace[i].runs[r].cap)
      && (left > trace[i].runs[r].cap ==>
            next == if |phase.pending| == 1 then Selecting(left) else Evicting(left, phase.pending[1..]))
  {
    InvariantThroughout(trace, actions, i);
    assert Bounded(trace[i].db.captures, trace[i].runs[r]);
    assert trace[i + 1] == Step(trace[i], actions[i]);
  }

  /** A run that has ended stays as it is, and no step changes another run's phase or cap. */
  lemma OthersLeavePhase(trace: seq<System>, actions: seq<Action>, i: nat, r: nat)
    requires Behaviour(trace, actions) && i < |actions| && r < |trace[i].runs|
    requires actions[i].Other? || actions[i].r != r
    ensures r < |trace[i + 1].runs|
    ensures trace[i + 1].runs[r].phase == trace[i].runs[r].phase && trace[i + 1].runs[r].cap == trace[i].runs[r].cap
  {
    assert trace[i + 1] == Step(trace[i], actions[i]);
  }

  /** A statement of another task takes effect as a whole. */
  lemma StatementsExecute(trace: seq<System>, actions: seq<Action>, i: nat)
    requires Behaviour(trace, actions) && i < |actions| && actions[i].Other?
    ensures trace[i + 1].db == Execute(trace[i].db, actions[i].s)
  {
    assert trace[i + 1] == Step(trace[i], actions[i]);
  }

  // ----- what a run is credited with ----------------------------------------------------------------------

  function Length(body: Option<Body>): nat {
    if body.Some? then |body.value| else 0
  }

  /** Body bytes step `i` commits. */
  function CommittedBytes(trace: seq<System>, actions: seq<Action>, i: nat): nat
    requires i < |actions| && i < |trace|
  {
    match actions[i]
    case Other(Insert(w, fault)) =>
      if !fault && Storable(trace[i].db, w) && w.capture.Some?
      then Length(w.capture.value.requestBody) + Length(w.capture.value.responseBody)
      else 0
    case _ => 0
  }

  function CommittedSince(trace: seq<System>, actions: seq<Action>, from: nat, k: nat): nat
    requires k <= |actions| && k < |trace|
    decreases k
  {
    if k <= from then 0 else CommittedSince(trace, actions, from, k - 1) + CommittedBytes(trace, actions, k - 1)
  }

  /** At `k`, run `r` has read its total and credits exactly the body bytes committed since `from`. */
  predicate Credited(trace: seq<System>, actions: seq<Action>, from: nat, k: nat, r: nat) {
    && k <= |actions| && k < |trace| && r < |trace[k].runs|
    && !trace[k].runs[r].phase.Pruning? && !trace[k].runs[r].phase.Counting?
    && trace[k].runs[r].inserted == CommittedSince(trace, actions, from, k)
  }

  lemma CreditExact(trace: seq<System>, actions: seq<Action>, from: nat, k: nat, r: nat)
    requires Behaviour(trace, actions) && from <= k < |actions| && Credited(trace, actions, from, k, r)
    ensures Credited(trace, actions, from, k + 1, r)
  {
    assert trace[k + 1] == Step(trace[k], actions[k]);
  }

  lemma CreditStarts(trace: seq<System>, actions: seq<Action>, c: nat, r: nat)
    requires Advances(trace, actions, c, r) && trace[c].runs[r].phase.Counting?
    ensures Credited(trace, actions, c + 1, c + 1, r)
  {
    InvariantThroughout(trace, actions, c);
    assert Bounded(trace[c].db.captures, trace[c].runs[r]);
    CountingDecides(trace, actions, c, r);
    assert trace[c + 1] == Step(trace[c], actions[c]);
  }

  lemma CreditSteps(trace: seq<System>, actions: seq<Action>, from: nat, r: nat)
    requires Behaviour(trace, actions)
    ensures forall i: nat :: from <= i < |actions| && Credited(trace, actions, from, i, r) ==>
      Credited(trace, actions, from, i + 1, r)
  {
    forall i: nat | from <= i < |actions| && Credited(trace, actions, from, i, r)
      ensures Credited(trace, actions, from, i + 1, r)
    {
      CreditExact(trace, actions, from, i, r);
    }
  }

  lemma {:induction false} CreditGoesOn(trace: seq<System>, actions: seq<Action>, from: nat, k: nat, r: nat)
    requires from <= k <= |actions| && Credited(trace, actions, from, from, r)
    requires forall i: nat :: from <= i < |actions| && Credited(trace, actions, from, i, r) ==>
      Credited(trace, actions, from, i + 1, r)
    ensures Credited(trace, actions, from, k, r)
    decreases k
  {
    if k > from {
      CreditGoesOn(trace, actions, from, k - 1, r);
    }
  }

  /** From the step at which a run read its total, `inserted` is exactly the body bytes committed
      since. */
  lemma InsertedExactly(trace: seq<System>, actions: seq<Action>, c: nat, k: nat, r: nat)
    requires Advances(trace, actions, c, r) && trace[c].runs[r].phase.Counting? && c < k <= |actions|
    ensures r < |trace[k].runs| && !trace[k].runs[r].phase.Pruning? && !trace[k].runs[r].phase.Counting?
    ensures trace[k].runs[r].inserted == CommittedSince(trace, actions, c + 1, k)
  {
    CreditStarts(trace, actions, c, r);
    CreditSteps(trace, actions, c + 1, r);
    CreditGoesOn(trace, actions, c + 1, k, r);
  }

  /** So once a run has finished, the stored bytes are at most its cap plus those. */
  lemma FinishedRunHolds(trace: seq<System>, actions: seq<Action>, c: nat, k: nat, r: nat)
    requires Advances(trace, actions, c, r) && trace[c].runs[r].phase.Counting? && c < k <= |actions|
    requires r < |trace[k].runs| && trace[k].runs[r].phase.Finished?
    ensures TotalBytes(trace[k].db.captures) <= trace[k].runs[r].cap + CommittedSince(trace, actions, c + 1, k)
  {
    InsertedExactly(trace, actions, c, k, r);
    FinishedRunBound(trace, actions, k, r);
  }

  // ----- a run nobody disturbs ----------------------------------------------------------------------------------

  /** Only run `r` acts. */
  ghost predicate Alone(trace: seq<System>, actions: seq<Action>, r: nat) {
    && Behaviour(trace, actions) && r < |trace[0].runs|
    && forall i :: 0 <= i < |actions| ==> actions[i].Advance? && actions[i].r == r
  }

  /** The steps an undisturbed run still takes at most. */
  ghost function Rank(captures: Captures, phase: Phase): nat {
    match phase
    case Pruning => 2 * |Candidates(captures)| + 3
    case Counting => 2 * |Candidates(captures)| + 2
    case Selecting(_) => 2 * |Candidates(captures)| + 1
    case Evicting(_, _) => 2 * |Candidates(captures)|
    case _ => 0
  }

  /** What an undisturbed run knows: its total is exact and its batch is still all there. */
  ghost predicate Exact(captures: Captures, phase: Phase) {
    match phase
    case Selecting(total) => total == TotalBytes(captures)
    case Evicting(total, pending) =>
      && total == TotalBytes(captures) && DistinctIds(pending) && pending != []
      && forall k :: 0 <= k < |pending| ==>
        Evictable(captures, pending[k].id) && pending[k].bytes == BodyBytes(captures[pending[k].id])
    case Finished(total) => total == TotalBytes(captures)
    case Failed => TotalBytes(captures) > I64_MAX
    case _ => true
  }

  lemma PruneFewer(t: Tables, cutoff: int)
    ensures |Candidates(Execute(t, Prune(cutoff)).captures)| <= |Candidates(t.captures)|
  {
    var after := Execute(t, Prune(cutoff)).captures;
    assert Candidates(after).Keys <= Candidates(t.captures).Keys;
    SubsetSmaller(Candidates(after).Keys, Candidates(t.captures).Keys);
    assert |Candidates(after)| == |Candidates(after).Keys|;
    assert |Candidates(t.captures)| == |Candidates(t.captures).Keys|;
  }

  /** One eviction of an undisturbed batch. */
  lemma EvictExactly(captures: Captures, total: int, pending: seq<Pending>)
    requires Exact(captures, Evicting(total, pending))
    ensures var after := EvictSet(captures, {pending[0].id});
      && |Candidates(after)| < |Candidates(captures)|
      && TotalBytes(after) == total - pending[0].bytes
      && (|pending| > 1 ==> Exact(after, Evicting(total - pending[0].bytes, pending[1..])))
  {
    var id := pending[0].id;
    assert id in Candidates(captures);
    FewerCandidates(captures, {id}, id);
    EvictLowersTotal(captures, id);
    var after := EvictSet(captures, {id});
    forall k | 0 <= k < |pending[1..]|
      ensures Evictable(after, pending[1..][k].id) && pending[1..][k].bytes == BodyBytes(after[pending[1..][k].id])
    {
      assert pending[1..][k] == pending[k + 1] && pending[k + 1].id != id;
      EvictSetEffect(captures, {id}, pending[k + 1].id, id);
    }
  }

  lemma AloneEvicts(trace: seq<System>, actions: seq<Action>, i: nat, r: nat)
    requires Advances(trace, actions, i, r) && trace[i].runs[r].phase.Evicting?
    requires Exact(trace[i].db.captures, trace[i].runs[r].phase)
    ensures r < |trace[i + 1].runs| && Exact(trace[i + 1].db.captures, trace[i + 1].runs[r].phase)
    ensures Rank(trace[i + 1].db.captures, trace[i + 1].runs[r].phase)
            < Rank(trace[i].db.captures, trace[i].runs[r].phase)
  {
    EvictingDecides(trace, actions, i, r);
    InvariantThroughout(trace, actions, i);
    assert Bounded(trace[i].db.captures, trace[i].runs[r]);
    var phase := trace[i].runs[r].phase;
    EvictExactly(trace[i].db.captures, phase.total, phase.pending);
    assert trace[i + 1] == Step(trace[i], actions[i]);
  }

  lemma AloneSelects(trace: seq<System>, actions: seq<Action>, i: nat, r: nat)
    requires Advances(trace, actions, i, r) && trace[i].runs[r].phase.Selecting?
    requires Exact(trace[i].db.captures, trace[i].runs[r].phase)
    ensures r < |trace[i + 1].runs| && Exact(trace[i + 1].db.captures, trace[i + 1].runs[r].phase)
    ensures Rank(trace[i + 1].db.captures, trace[i + 1].runs[r].phase)
            < Rank(trace[i].db.captures, trace[i].runs[r].phase)
  {
    SelectingDecides(trace, actions, i, r);
    if id :| Evictable(trace[i].db.captures, id) {
      assert id in Candidates(trace[i].db.captures);
      assert |Candidates(trace[i].db.captures)| > 0;
    }
  }

  lemma AloneAdvances(trace: seq<System>, actions: seq<Action>, i: nat, r: nat)
    requires Advances(trace, actions, i, r) && Exact(trace[i].db.captures, trace[i].runs[r].phase)
    ensures r < |trace[i + 1].runs| && Exact(trace[i + 1].db.captures, trace[i + 1].runs[r].phase)
    ensures Rank(trace[i + 1].db.captures, trace[i + 1].runs[r].phase)
            < Rank(trace[i].db.captures, trace[i].runs[r].phase)
  {
    assert trace[i + 1] == Step(trace[i], actions[i]);
    if trace[i].runs[r].phase.Pruning? {
      PruneFewer(trace[i].db, actions[i].cutoff);
    } else if trace[i].runs[r].phase.Counting? {
      CountingDecides(trace, actions, i, r);
    } else if trace[i].runs[r].phase.Selecting? {
      AloneSelects(trace, actions, i, r);
    } else {
      AloneEvicts(trace, actions, i, r);
    }
  }

  lemma {:induction false} AloneEnds(trace: seq<System>, actions: seq<Action>, r: nat, k: nat)
    requires Alone(trace, actions, r) && k <= |actions|
    ensures r < |trace[k].runs| && Exact(trace[k].db.captures, trace[k].runs[r].phase)
    ensures k + Rank(trace[k].db.captures, trace[k].runs[r].phase) <= 2 * |Candidates(trace[0].db.captures)| + 3
  {
    if k > 0 {
      AloneEnds(trace, actions, r, k - 1);
      AloneAdvances(trace, actions, k - 1, r);
    }
  }

  /** A run that has neither finished nor failed can issue its next statement. */
  lemma CanAdvance(trace: seq<System>, actions: seq<Action>, k: nat, r: nat) returns (a: Action)
    requires Behaviour(trace, actions) && k <= |actions| && r < |trace[k].runs|
    requires !trace[k].runs[r].phase.Finished? && !trace[k].runs[r].phase.Failed?
    ensures a.Advance? && a.r == r && Enabled(trace[k], a)
  {
    InvariantThroughout(trace, actions, k);
    assert Bounded(trace[k].db.captures, trace[k].runs[r]);
    var batch := Answer(Candidates(trace[k].db.captures), BATCH_LIMIT);
    a := Advance(r, 0, batch);
  }

  /** The query always has an answer. */
  lemma {:induction false} Answer(times: map<RequestId, int>, limit: nat) returns (ids: seq<RequestId>)
    ensures OrderedPrefix(times, limit, ids)
    decreases limit
  {
    if limit == 0 || times == map[] {
      return [];
    }
    EarliestExists(times);
    var first :| first in times && forall other :: other in times ==> times[first] <= times[other];
    var rest := Answer(times - {first}, limit - 1);
    assert times == (times - {first})[first := times[first]];
    ids := [first] + rest;
    AnswerMore(times, limit, first, rest);
  }

  lemma AnswerMore(times: map<RequestId, int>, limit: nat, first: RequestId, rest: seq<RequestId>)
    requires limit > 0 && first in times && forall other :: other in times ==> times[first] <= times[other]
    requires OrderedPrefix(times - {first}, limit - 1, rest) && |times| == |times - {first}| + 1
    ensures OrderedPrefix(times, limit, [first] + rest)
  {
    var ids, less := [first] + rest, times - {first};
    forall i | 0 <= i < |rest|
      ensures rest[i] in less && rest[i] in times && rest[i] != first && times[rest[i]] == less[rest[i]]
    {
    }
    forall i, id | 0 <= i < |ids| && id in times && id !in ids
      ensures times[ids[i]] <= times[id]
    {
      assert id != first && id !in rest && id in less;
    }
  }

  /** An undisturbed run goes on until it has ended, after at most twice as many statements as there
      were candidates, and three. It ends with the stored bytes at most its cap and its own total
      exact, unless the sum it read exceeded 64 bits. */
  lemma AloneEndsWell(trace: seq<System>, actions: seq<Action>, r: nat)
    requires Alone(trace, actions, r)
    requires forall a: Action :: a.Advance? && a.r == r ==> !Enabled(trace[|actions|], a)
    ensures r < |trace[|actions|].runs| && |actions| <= 2 * |Candidates(trace[0].db.captures)| + 3
    ensures var end := trace[|actions|];
      if end.runs[r].phase.Failed? then TotalBytes(end.db.captures) > I64_MAX
      else end.runs[r].phase.Finished? && end.runs[r].phase.total == TotalBytes(end.db.captures) <= end.runs[r].cap
  {
    AloneEnds(trace, actions, r, |actions|);
    AloneBelowCap(trace, actions, r, |actions|);
    if !trace[|actions|].runs[r].phase.Finished? && !trace[|actions|].runs[r].phase.Failed? {
      var a := CanAdvance(trace, actions, |actions|, r);
      assert false;
    }
  }

  lemma {:induction false} AloneBelowCap(trace: seq<System>, actions: seq<Action>, r: nat, k: nat)
    requires Alone(trace, actions, r) && k <= |actions|
    ensures r < |trace[k].runs|
    ensures trace[k].runs[r].inserted == 0
    ensures trace[k].runs[r].phase.Finished? ==> TotalBytes(trace[k].db.captures) <= trace[k].runs[r].cap
  {
    if k > 0 {
      AloneBelowCap(trace, actions, r, k - 1);
      assert trace[k] == Step(trace[k - 1], actions[k - 1]);
    }
    if trace[k].runs[r].phase.Finished? {
      FinishedRunBound(trace, actions, k, r);
    }
  }

  // ----- the bound is attained ---------------------------------------------------------------------------------

  function Zeroes(n: nat): (body: Body)
    ensures |body| == n
  {
    seq(n, _ => 0)
  }

  function PlainRecord(id: RequestId, at: int): RequestInsert {
    RequestInsert(id, None, "GET", "/", None, 200, None, false, false, false, at)
  }

  function PlainRow(n: nat, at: int): CaptureRow {
    CaptureRow(Some(Zeroes(n)), None, false, false, None, None, false, at)
  }

  function PlainWrite(id: RequestId, n: nat, at: int): CaptureWrite {
    CaptureWrite(PlainRecord(id, at), [], [], Some(CaptureInsert(Some(Zeroes(n)), None, false, false, None, None)), [])
  }

  /** One byte stored first, then `cap` more. */
  function TwoRows(cap: nat): Tables {
    Tables(map["a" := PlainRecord("a", 0), "b" := PlainRecord("b", 1)], {}, {},
           map["a" := PlainRow(1, 0), "b" := PlainRow(cap, 1)], [], map[])
  }

  /** After the write of `n` bytes, before and after the oldest body goes. */
  function ThreeRows(cap: nat, n: nat, first: CaptureRow): Captures {
    map["a" := first, "b" := PlainRow(cap, 1), "c" := PlainRow(n, 2)]
  }

  lemma RowsTotal(cap: nat, n: nat)
    ensures TotalBytes(TwoRows(cap).captures) == cap + 1
    ensures TotalBytes(ThreeRows(cap, n, EvictRow(PlainRow(1, 0)))) == cap + n
  {
    var none: Captures := map[];
    var a, b, c := PlainRow(1, 0), PlainRow(cap, 1), PlainRow(n, 2);
    TotalUpdate(none, "a", a);
    assert none - {"a"} == none;
    TotalUpdate(none["a" := a], "b", b);
    assert none["a" := a] - {"b"} == none["a" := a];
    assert TwoRows(cap).captures == none["a" := a]["b" := b];
    var gone := none["a" := EvictRow(a)];
    TotalUpdate(none, "a", EvictRow(a));
    TotalUpdate(gone, "b", b);
    assert gone - {"b"} == gone;
    TotalUpdate(gone["b" := b], "c", c);
    assert gone["b" := b] - {"c"} == gone["b" := b];
    assert ThreeRows(cap, n, EvictRow(a)) == gone["b" := b]["c" := c];
  }

  /** Any answer of the query starts with the oldest. */
  lemma RowsAnswer(captures: Captures, cap: nat, n: nat) returns (batch: seq<RequestId>)
    requires captures == ThreeRows(cap, n, PlainRow(1, 0))
    ensures OrderedPrefix(Candidates(captures), BATCH_LIMIT, batch) && batch != [] && batch[0] == "a"
    ensures PendingOf(captures, batch) != [] && PendingOf(captures, batch)[0] == Pending.Pending("a", 1)
  {
    var times := Candidates(captures);
    batch := Answer(times, BATCH_LIMIT);
    assert "a" in times && times["a"] == 0;
    assert forall id :: id in times && id != "a" ==> times[id] > 0;
    assert |times| > 0;
    assert batch[0] == "a" by {
      if "a" in batch {
        var i :| 0 <= i < |batch| && batch[i] == "a";
      }
    }
  }

  lemma PruneNothing(cap: nat)
    ensures Execute(TwoRows(cap), Prune(0)) == TwoRows(cap)
  {
    var t := TwoRows(cap);
    assert ExpiredIds(t, 0) == {};
    assert t.requests - {} == t.requests && t.captures - {} == t.captures;
  }

  lemma WriteThird(cap: nat, n: nat)
    ensures Storable(TwoRows(cap), PlainWrite("c", n, 2))
    ensures Execute(TwoRows(cap), Insert(PlainWrite("c", n, 2), false)).captures == ThreeRows(cap, n, PlainRow(1, 0))
    ensures InsertedBytes(TwoRows(cap), Insert(PlainWrite("c", n, 2), false)) == n
  {
    var t := TwoRows(cap);
    assert t.captures - {"c"} == t.captures;
  }

  lemma EvictFirst(cap: nat, n: nat)
    ensures EvictSet(ThreeRows(cap, n, PlainRow(1, 0)), {"a"}) == ThreeRows(cap, n, EvictRow(PlainRow(1, 0)))
  {
  }

  function OneRun(db: Tables, cap: nat, phase: Phase, inserted: nat): System {
    System(db, [Run(cap, phase, inserted)])
  }

  ghost predicate Reached(s: System) {
    exists trace: seq<System>, actions: seq<Action> :: Behaviour(trace, actions) && trace[|actions|] == s
  }

  lemma ReachedNext(s: System, a: Action)
    requires Reached(s) && Enabled(s, a)
    ensures Reached(Step(s, a))
  {
    var trace: seq<System>, actions: seq<Action> :| Behaviour(trace, actions) && trace[|actions|] == s;
    var longer, more := trace + [Step(s, a)], actions + [a];
    forall i | 0 <= i < |more|
      ensures Enabled(longer[i], more[i]) && longer[i + 1] == Step(longer[i], more[i])
    {
      if i < |actions| {
        assert longer[i] == trace[i] && longer[i + 1] == trace[i + 1] && more[i] == actions[i];
      }
    }
    assert Behaviour(longer, more) && longer[|more|] == Step(s, a);
  }

  lemma StartsWith(cap: nat)
    ensures Reached(OneRun(TwoRows(cap), cap, Pruning, 0))
  {
    var trace: seq<System>, actions: seq<Action> := [OneRun(TwoRows(cap), cap, Pruning, 0)], [];
    assert Integrity(TwoRows(cap));
    assert Behaviour(trace, actions) && trace[|actions|] == OneRun(TwoRows(cap), cap, Pruning, 0);
  }

  lemma PruneStep(db: Tables, cap: nat)
    requires Reached(OneRun(db, cap, Pruning, 0)) && Execute(db, Prune(0)) == db
    ensures Reached(OneRun(db, cap, Counting, 0))
  {
    ReachedNext(OneRun(db, cap, Pruning, 0), Advance(0, 0, []));
  }

  lemma CountStep(db: Tables, cap: nat)
    requires Reached(OneRun(db, cap, Counting, 0)) && TotalBytes(db.captures) == cap + 1 <= I64_MAX
    ensures Reached(OneRun(db, cap, Selecting(cap + 1), 0))
  {
    ReachedNext(OneRun(db, cap, Counting, 0), Advance(0, 0, []));
  }

  lemma WriteStep(db: Tables, cap: nat, w: CaptureWrite, n: nat)
    requires Reached(OneRun(db, cap, Selecting(cap + 1), 0))
    requires InsertedBytes(db, Insert(w, false)) == n
    ensures Reached(OneRun(Execute(db, Insert(w, false)), cap, Selecting(cap + 1), n))
  {
    ReachedNext(OneRun(db, cap, Selecting(cap + 1), 0), Other(Insert(w, false)));
  }

  lemma SelectStep(db: Tables, cap: nat, n: nat, batch: seq<RequestId>)
    requires Reached(OneRun(db, cap, Selecting(cap + 1), n))
    requires batch != [] && OrderedPrefix(Candidates(db.captures), BATCH_LIMIT, batch)
    ensures Reached(OneRun(db, cap, Phase.Evicting(cap + 1, PendingOf(db.captures, batch)), n))
  {
    ReachedNext(OneRun(db, cap, Selecting(cap + 1), n), Advance(0, 0, batch));
  }

  lemma EvictStep(db: Tables, cap: nat, n: nat, pending: seq<Pending>)
    requires cap < I64_MAX && pending != [] && pending[0].bytes == 1
    requires Reached(OneRun(db, cap, Phase.Evicting(cap + 1, pending), n))
    ensures Reached(OneRun(Execute(db, Evict(pending[0].id)), cap, Finished(cap), n))
  {
    ReachedNext(OneRun(db, cap, Phase.Evicting(cap + 1, pending), n), Advance(0, 0, []));
  }

  lemma WriteComesBetween(cap: nat, n: nat) returns (db: Tables)
    requires cap < I64_MAX
    ensures db.captures == ThreeRows(cap, n, PlainRow(1, 0))
    ensures Reached(OneRun(db, cap, Selecting(cap + 1), n))
  {
    StartsWith(cap);
    PruneNothing(cap);
    PruneStep(TwoRows(cap), cap);
    RowsTotal(cap, n);
    CountStep(TwoRows(cap), cap);
    WriteThird(cap, n);
    WriteStep(TwoRows(cap), cap, PlainWrite("c", n, 2), n);
    db := Execute(TwoRows(cap), Insert(PlainWrite("c", n, 2), false));
  }

  /** Whatever the cap and whatever is written meanwhile, a run can end with the stored bytes at its cap
      plus exactly those: no smaller bound holds. */
  lemma BoundIsAttained(cap: nat, n: nat) returns (end: System)
    requires cap < I64_MAX
    ensures Reached(end) && |end.runs| == 1
    ensures end.runs[0] == Run(cap, Finished(cap), n) && TotalBytes(end.db.captures) == cap + n
  {
    var db := WriteComesBetween(cap, n);
    var batch := RowsAnswer(db.captures, cap, n);
    SelectStep(db, cap, n, batch);
    EvictStep(db, cap, n, PendingOf(db.captures, batch));
    EvictFirst(cap, n);
    RowsTotal(cap, n);
    end := OneRun(Execute(db, Evict("a")), cap, Finished(cap), n);
  }
}
