/** What size-based retention means: byte totals, the eviction candidates a query
    returns, and oldest-first eviction one capture at a time. */
module Retention {
  import opened Domain
  import opened Store

  type Captures = map<RequestId, CaptureRow>

  function Length(body: Option<Body>): nat {
    match body
    case Some(bytes) => |bytes|
    case None => 0
  }

  function BodyBytes(row: CaptureRow): nat {
    Length(row.requestBody) + Length(row.responseBody)
  }

  /** SELECT SUM of the body lengths. */
  ghost function TotalBytes(captures: Captures): nat {
    if captures == map[] then 0
    else
      var id :| id in captures;
      BodyBytes(captures[id]) + TotalBytes(captures - {id})
  }

  lemma {:induction false} TotalRemove(captures: Captures, id: RequestId)
    requires id in captures
    ensures TotalBytes(captures) == BodyBytes(captures[id]) + TotalBytes(captures - {id})
    decreases |captures|
  {
    var picked :| picked in captures &&
      TotalBytes(captures) == BodyBytes(captures[picked]) + TotalBytes(captures - {picked});
    if picked != id {
      TotalRemove(captures - {picked}, id);
      TotalRemove(captures - {id}, picked);
      assert captures - {picked} - {id} == captures - {id} - {picked};
    }
  }

  lemma TotalUpdate(captures: Captures, id: RequestId, row: CaptureRow)
    ensures TotalBytes(captures[id := row]) == BodyBytes(row) + TotalBytes(captures - {id})
  {
    TotalRemove(captures[id := row], id);
    assert captures[id := row] - {id} == captures - {id};
  }

  lemma {:induction false} TotalPointwise(less: Captures, more: Captures)
    requires less.Keys == more.Keys
    requires forall id :: id in less ==> BodyBytes(less[id]) <= BodyBytes(more[id])
    ensures TotalBytes(less) <= TotalBytes(more)
    decreases |less|
  {
    if id :| id in less {
      TotalRemove(less, id);
      TotalRemove(more, id);
      TotalPointwise(less - {id}, more - {id});
    } else {
      assert more == map[];
    }
  }

  lemma EvictLowersTotal(captures: Captures, id: RequestId)
    requires id in captures
    ensures TotalBytes(EvictSet(captures, {id})) == TotalBytes(captures) - BodyBytes(captures[id])
  {
    assert EvictSet(captures, {id}) == captures[id := EvictRow(captures[id])];
    TotalUpdate(captures, id, EvictRow(captures[id]));
    TotalRemove(captures, id);
  }

  lemma EvictTwice(captures: Captures, first: set<RequestId>, second: set<RequestId>)
    ensures EvictSet(EvictSet(captures, first), second) == EvictSet(captures, first + second)
  {
  }

  lemma MoreEvictionsFewerBytes(captures: Captures, few: set<RequestId>, many: set<RequestId>)
    requires few <= many
    ensures TotalBytes(EvictSet(captures, many)) <= TotalBytes(EvictSet(captures, few))
  {
    TotalPointwise(EvictSet(captures, many), EvictSet(captures, few));
  }

  // ----- ORDER BY .. LIMIT ------------------------------------------------------------

  function Elements<T(==)>(s: seq<T>): set<T> {
    set x | x in s
  }

  /** A result of ORDER BY time ASC LIMIT `limit`; rows with equal times come in any order. */
  predicate OrderedPrefix(times: map<RequestId, int>, limit: nat, ids: seq<RequestId>) {
    && |ids| == (if |times| <= limit then |times| else limit)
    && Distinct(ids)
    && (forall i :: 0 <= i < |ids| ==> ids[i] in times)
    && (forall i, j :: 0 <= i < j < |ids| ==> times[ids[i]] <= times[ids[j]])
    && (forall i, id :: 0 <= i < |ids| && id in times && id !in ids ==> times[ids[i]] <= times[id])
  }

  lemma {:induction false} EarliestExists(times: map<RequestId, int>)
    requires times != map[]
    ensures exists id :: id in times && forall other :: other in times ==> times[id] <= times[other]
    decreases |times|
  {
    var id :| id in times;
    if times - {id} != map[] {
      EarliestExists(times - {id});
      var rest :| rest in times - {id} && forall other :: other in times - {id} ==> times[rest] <= times[other];
      var best := if times[id] <= times[rest] then id else rest;
      assert forall other :: other in times ==> other == id || other in times - {id};
      assert best in times && forall other :: other in times ==> times[best] <= times[other];
    } else {
      assert forall other :: other in times ==> other == id || other in times - {id};
    }
  }

  /** Any database answer to ORDER BY time ASC LIMIT `limit`. */
  method OrderByTime(times: map<RequestId, int>, limit: nat) returns (ids: seq<RequestId>)
    ensures OrderedPrefix(times, limit, ids)
  {
    ids := [];
    var rest := times;
    while |ids| < limit && rest != map[]
      invariant |ids| <= limit && |ids| + |rest| == |times|
      invariant rest.Keys <= times.Keys && forall id :: id in rest ==> rest[id] == times[id]
      invariant forall id :: id in times ==> (id in rest <==> id !in ids)
      invariant Distinct(ids)
      invariant forall i :: 0 <= i < |ids| ==> ids[i] in times && ids[i] !in rest
      invariant forall i, j :: 0 <= i < j < |ids| ==> times[ids[i]] <= times[ids[j]]
      invariant forall i, id :: 0 <= i < |ids| && id in rest ==> times[ids[i]] <= times[id]
      decreases |rest|
    {
      EarliestExists(rest);
      var id :| id in rest && forall other :: other in rest ==> rest[id] <= rest[other];
      ids := ids + [id];
      assert rest == (rest - {id})[id := rest[id]];
      rest := rest - {id};
    }
  }

  // ----- eviction, one capture at a time ------------------------------------------------

  const BATCH_LIMIT: nat := 100

  /** The rows the candidate query ranges over. */
  predicate Evictable(captures: Captures, id: RequestId) {
    && id in captures
    && !captures[id].bodyEvicted
    && (captures[id].requestBody.Some? || captures[id].responseBody.Some?)
  }

  /** Those rows, with the time the query orders them by. */
  function Candidates(captures: Captures): map<RequestId, int> {
    map id | id in captures && Evictable(captures, id) :: captures[id].createdAt
  }

  predicate Older(captures: Captures, id: RequestId, other: RequestId) {
    id in captures && other in captures && captures[id].createdAt < captures[other].createdAt
  }

  ghost predicate Oldest(captures: Captures, id: RequestId) {
    Evictable(captures, id) && forall other :: Evictable(captures, other) ==> !Older(captures, other, id)
  }

  ghost function AfterFirst(captures: Captures, ids: seq<RequestId>, k: nat): Captures
    requires k <= |ids|
  {
    EvictSet(captures, Elements(ids[..k]))
  }

  /** `ids` evicts, one at a time, a capture no other candidate is older than, and only
      while the stored bytes still exceed the cap. */
  ghost predicate EvictionOrder(captures: Captures, ids: seq<RequestId>, cap: int) {
    forall k :: 0 <= k < |ids| ==> EvictsNext(captures, ids, cap, k)
  }

  ghost predicate EvictsNext(captures: Captures, ids: seq<RequestId>, cap: int, k: nat)
    requires k < |ids|
  {
    Oldest(AfterFirst(captures, ids, k), ids[k]) && TotalBytes(AfterFirst(captures, ids, k)) > cap
  }

  /** A complete one-at-a-time eviction: it stops as soon as the cap is met. */
  ghost predicate EvictionRun(captures: Captures, ids: seq<RequestId>, cap: int) {
    && EvictionOrder(captures, ids, cap)
    && TotalBytes(AfterFirst(captures, ids, |ids|)) <= cap
  }

  lemma EvictSetEffect(captures: Captures, gone: set<RequestId>, id: RequestId, other: RequestId)
    ensures Evictable(EvictSet(captures, gone), id) <==> Evictable(captures, id) && id !in gone
    ensures Older(EvictSet(captures, gone), id, other) <==> Older(captures, id, other)
  {
  }

  /** Without candidates nothing is stored, so eviction can always reach a cap. */
  lemma NoCandidatesNoBytes(captures: Captures)
    requires EvictedHaveNoBodies(captures)
    requires Candidates(captures) == map[]
    ensures TotalBytes(captures) == 0
  {
    forall id | id in captures
      ensures BodyBytes(captures[id]) == 0
    {
      assert id !in Candidates(captures);
    }
    TotalPointwise(captures, EvictSet(captures, captures.Keys));
    AllEvictedNoBytes(EvictSet(captures, captures.Keys));
  }

  lemma {:induction false} AllEvictedNoBytes(captures: Captures)
    requires forall id :: id in captures ==> BodyBytes(captures[id]) == 0
    ensures TotalBytes(captures) == 0
    decreases |captures|
  {
    if id :| id in captures {
      TotalRemove(captures, id);
      AllEvictedNoBytes(captures - {id});
    }
  }

  lemma ExtendOrder(captures: Captures, ids: seq<RequestId>, id: RequestId, cap: int)
    requires EvictionOrder(captures, ids, cap)
    requires Oldest(AfterFirst(captures, ids, |ids|), id)
    requires TotalBytes(AfterFirst(captures, ids, |ids|)) > cap
    ensures EvictionOrder(captures, ids + [id], cap)
    ensures AfterFirst(captures, ids + [id], |ids| + 1) == EvictSet(AfterFirst(captures, ids, |ids|), {id})
  {
    forall k | 0 <= k < |ids + [id]|
      ensures EvictsNext(captures, ids + [id], cap, k)
    {
      assert (ids + [id])[..k] == ids[..k];
      assert k < |ids| ==> EvictsNext(captures, ids, cap, k);
    }
    assert (ids + [id])[..|ids| + 1] == ids + [id];
    assert Elements(ids + [id]) == Elements(ids) + {id};
    assert ids[..|ids|] == ids;
    EvictTwice(captures, Elements(ids), {id});
  }

  /** After part of a batch, its next row is the oldest left. */
  lemma BatchHeadIsOldest(captures: Captures, batch: seq<RequestId>, i: nat)
    requires OrderedPrefix(Candidates(captures), BATCH_LIMIT, batch) && i < |batch|
    ensures Oldest(EvictSet(captures, Elements(batch[..i])), batch[i])
    ensures batch[i] in captures && EvictSet(captures, Elements(batch[..i]))[batch[i]] == captures[batch[i]]
  {
    var left := EvictSet(captures, Elements(batch[..i]));
    assert batch[i] in Candidates(captures) && batch[i] !in batch[..i];
    forall other | Evictable(left, other)
      ensures !Older(left, other, batch[i])
    {
      EvictSetEffect(captures, Elements(batch[..i]), other, batch[i]);
      assert other in Candidates(captures) && other !in batch[..i];
      if other in batch {
        var j :| 0 <= j < |batch| && batch[j] == other;
      }
    }
  }

  /** One more row of a batch, in terms of everything evicted so far. */
  lemma EvictNextOfBatch(start: Captures, done: seq<RequestId>, batch: seq<RequestId>, count: nat, cap: int)
    requires OrderedPrefix(Candidates(EvictSet(start, Elements(done))), BATCH_LIMIT, batch) && count < |batch|
    requires EvictionOrder(start, done + batch[..count], cap)
    requires TotalBytes(EvictSet(start, Elements(done + batch[..count]))) > cap
    ensures batch[count] in start
    ensures EvictionOrder(start, done + batch[..count + 1], cap)
    ensures var now := EvictSet(start, Elements(done + batch[..count]));
      var next := EvictSet(start, Elements(done + batch[..count + 1]));
      && next == EvictSet(now, {batch[count]})
      && TotalBytes(next) == TotalBytes(now) - BodyBytes(EvictSet(start, Elements(done))[batch[count]])
  {
    var ids, id := done + batch[..count], batch[count];
    var snapshot := EvictSet(start, Elements(done));
    assert Elements(ids) == Elements(done) + Elements(batch[..count]);
    EvictTwice(start, Elements(done), Elements(batch[..count]));
    BatchHeadIsOldest(snapshot, batch, count);
    assert ids[..|ids|] == ids;
    ExtendOrder(start, ids, id, cap);
    EvictLowersTotal(EvictSet(start, Elements(ids)), id);
    assert done + batch[..count + 1] == ids + [id];
    assert (ids + [id])[..|ids| + 1] == ids + [id];
  }

  /** The rows `ids` of `start` have been evicted in order, and `total` is what is left. */
  ghost predicate Evicting(start: Captures, ids: seq<RequestId>, cap: int, captures: Captures, total: int) {
    && captures == EvictSet(start, Elements(ids))
    && EvictionOrder(start, ids, cap)
    && total == TotalBytes(captures) <= I64_MAX
  }

  /** `batch` answers the candidates query on the rows left after `done`. */
  ghost predicate Batch(start: Captures, done: seq<RequestId>, snapshot: Captures, batch: seq<RequestId>) {
    snapshot == EvictSet(start, Elements(done)) && OrderedPrefix(Candidates(snapshot), BATCH_LIMIT, batch)
  }

  lemma EvictingNext(start: Captures, done: seq<RequestId>, batch: seq<RequestId>, count: nat, cap: int,
                     captures: Captures, total: int)
    requires OrderedPrefix(Candidates(EvictSet(start, Elements(done))), BATCH_LIMIT, batch) && count < |batch|
    requires Evicting(start, done + batch[..count], cap, captures, total) && total > cap
    ensures batch[count] in start
    ensures var bytes := BodyBytes(EvictSet(start, Elements(done))[batch[count]]);
      Evicting(start, done + batch[..count + 1], cap, EvictSet(captures, {batch[count]}),
               SaturatingSub(total, Max(bytes, 0)))
  {
    EvictNextOfBatch(start, done, batch, count, cap);
  }

  lemma FewerCandidates(captures: Captures, gone: set<RequestId>, id: RequestId)
    requires id in gone && id in Candidates(captures)
    ensures |Candidates(EvictSet(captures, gone))| < |Candidates(captures)|
  {
    var after := Candidates(EvictSet(captures, gone));
    assert after.Keys <= Candidates(captures).Keys - {id};
    SubsetSmaller(after.Keys, Candidates(captures).Keys - {id});
    assert |after| == |after.Keys| && |Candidates(captures)| == |Candidates(captures).Keys|;
  }

  lemma {:induction false} SubsetSmaller<T>(a: set<T>, b: set<T>)
    requires a <= b
    ensures |a| <= |b|
    decreases |b|
  {
    if x :| x in a {
      SubsetSmaller(a - {x}, b - {x});
    }
  }

  // ----- two runs differ only inside one timestamp ---------------------------------------

  lemma EvictedWasEvictable(captures: Captures, ids: seq<RequestId>, cap: int, k: nat)
    requires EvictionOrder(captures, ids, cap) && k < |ids|
    ensures Evictable(captures, ids[k]) && ids[k] !in ids[..k]
  {
    assert EvictsNext(captures, ids, cap, k);
    EvictSetEffect(captures, Elements(ids[..k]), ids[k], ids[k]);
  }

  lemma OlderGoesFirst(captures: Captures, ids: seq<RequestId>, cap: int, k: nat, id: RequestId)
    requires EvictionOrder(captures, ids, cap) && k < |ids|
    requires Evictable(captures, id) && Older(captures, id, ids[k])
    ensures id in ids[..k]
  {
    assert EvictsNext(captures, ids, cap, k);
    EvictSetEffect(captures, Elements(ids[..k]), id, ids[k]);
  }

  /** Whatever is strictly older than a capture evicted by one complete run is evicted by
      every complete run, whichever way ties were broken and however it was batched. */
  lemma RunsAgreeUpToTies(captures: Captures, one: seq<RequestId>, two: seq<RequestId>, cap: int,
                          k: nat, id: RequestId)
    requires EvictionRun(captures, one, cap) && EvictionRun(captures, two, cap)
    requires k < |one| && Evictable(captures, id) && Older(captures, id, one[k])
    ensures id in two
  {
    assert EvictsNext(captures, one, cap, k);
    if id !in two {
      forall j | 0 <= j < |two|
        ensures two[j] in one[..k]
      {
        EvictedWasEvictable(captures, two, cap, j);
        if Older(captures, id, two[j]) {
          OlderGoesFirst(captures, two, cap, j, id);
        }
        OlderGoesFirst(captures, one, cap, k, two[j]);
      }
      assert two[..|two|] == two;
      MoreEvictionsFewerBytes(captures, Elements(two), Elements(one[..k]));
      assert false;
    }
  }

  ghost predicate DistinctTimes(captures: Captures) {
    forall a, b :: Evictable(captures, a) && Evictable(captures, b) && a != b ==>
      Older(captures, a, b) || Older(captures, b, a)
  }

  lemma OneOldest(captures: Captures, gone: set<RequestId>, a: RequestId, b: RequestId)
    requires DistinctTimes(captures)
    requires Oldest(EvictSet(captures, gone), a) && Oldest(EvictSet(captures, gone), b)
    ensures a == b
  {
    EvictSetEffect(captures, gone, a, b);
    EvictSetEffect(captures, gone, b, a);
  }

  /** With distinct timestamps every complete run is the same sequence. */
  lemma RunsAgreeWithoutTies(captures: Captures, one: seq<RequestId>, two: seq<RequestId>, cap: int)
    requires EvictionRun(captures, one, cap) && EvictionRun(captures, two, cap)
    requires DistinctTimes(captures)
    ensures one == two
  {
    SamePrefix(captures, one, two, cap, |one|);
    SamePrefix(captures, two, one, cap, |two|);
    assert one[..|one|] == one && two[..|two|] == two;
  }

  lemma {:induction false} SamePrefix(captures: Captures, one: seq<RequestId>, two: seq<RequestId>, cap: int, k: nat)
    requires EvictionRun(captures, one, cap) && EvictionRun(captures, two, cap)
    requires DistinctTimes(captures)
    requires k <= |one|
    ensures k <= |two| && one[..k] == two[..k]
  {
    if k > 0 {
      SamePrefix(captures, one, two, cap, k - 1);
      assert EvictsNext(captures, one, cap, k - 1);
      if k - 1 == |two| {
        assert false;
      }
      assert EvictsNext(captures, two, cap, k - 1);
      OneOldest(captures, Elements(one[..k - 1]), one[k - 1], two[k - 1]);
      assert one[..k] == one[..k - 1] + [one[k - 1]];
      assert two[..k] == two[..k - 1] + [two[k - 1]];
    }
  }
}
