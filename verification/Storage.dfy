/** The storage handle: the insert transaction, the request listing and the retention
    loop, as statements that update the tables in place. */
module StorageHandle {
  import opened Domain
  import opened Store
  import opened Retention

  datatype ListFilters = ListFilters(
    failed: bool,
    slow: bool,
    routeId: Option<string>,
    since: Option<int>,
    limit: nat)

  /** The WHERE clause the listing builds. */
  predicate Selected(r: RequestInsert, f: ListFilters) {
    && (f.failed ==> r.isError)
    && (f.slow ==> r.isSlow)
    && (f.routeId.Some? ==> r.routeId == f.routeId)
    && (f.since.Some? ==> r.createdAt >= f.since.value)
  }

  function Clamp(n: nat, low: nat, high: nat): nat
    requires low <= high
  {
    if n < low then low else if n > high then high else n
  }

  /** A row is listed exactly when it passes every filter that is set. */
  lemma SelectedExactly(r: RequestInsert, f: ListFilters)
    ensures !Selected(r, f) <==>
      || (f.failed && !r.isError) || (f.slow && !r.isSlow)
      || (f.routeId.Some? && r.routeId != Some(f.routeId.value))
      || (f.since.Some? && r.createdAt < f.since.value)
  {
  }

  /** A listing has at least one row to give and at most a thousand. */
  lemma LimitExactly(n: nat)
    ensures 1 <= Clamp(n, 1, 1000) <= 1000
    ensures 1 <= n <= 1000 ==> Clamp(n, 1, 1000) == n
    ensures n == 0 ==> Clamp(n, 1, 1000) == 1
    ensures n > 1000 ==> Clamp(n, 1, 1000) == 1000
  {
  }

  datatype RetentionOutcome = RetentionOutcome(deletedRequests: nat, evictedCaptures: nat)

  class Storage {
    var db: Tables

    constructor ()
      ensures db == EMPTY
    {
      db := EMPTY;
    }

    /** Runs the transaction statement by statement; `faultAt` is the statement an I/O
        error interrupts, if it is that short. Only a commit makes the work visible. */
    method InsertRequest(w: CaptureWrite, faultAt: nat) returns (ok: bool)
      modifies this
      ensures db == if ok then AfterInsert(old(db), w) else old(db)
      ensures ok <==> Storable(old(db), w) && faultAt >= StatementCount(w)
      ensures db == Execute(old(db), Statement.Insert(w, faultAt < StatementCount(w)))
    {
      var id := w.record.requestId;
      var before := db;
      ghost var base := DeleteRequests(before, {id});
      var tx := DeleteRequests(before, {id});
      var inserted := InsertRequestRow(tx, w.record);
      if faultAt < 2 || inserted.None? {
        return false;
      }
      tx := inserted.value;
      ghost var withRow := tx;
      var headersOk;
      tx, headersOk := InsertHeaders(tx, w, faultAt);
      if !headersOk {
        return false;
      }
      var done := 2 + |w.requestHeaders| + |w.responseHeaders|;
      if w.capture.Some? {
        var captured := InsertCapture(tx, id, CaptureRowOf(w.capture.value, w.record.createdAt));
        if faultAt == done || captured.None? {
          return false;
        }
        tx := captured.value;
        done := done + 1;
      }
      ghost var withCapture := tx;
      var i := 0;
      while i < |w.decisions|
        invariant 0 <= i <= |w.decisions|
        invariant done + i <= faultAt
        invariant tx == withCapture.(decisions := base.decisions + w.decisions[..i])
        invariant forall k :: 0 <= k < i ==> w.decisions[k].requestId in tx.requests
      {
        var added := InsertDecision(tx, w.decisions[i]);
        if faultAt == done + i || added.None? {
          assert added.None? ==> w.decisions[i] in w.decisions && !Storable(before, w);
          return false;
        }
        tx := added.value;
        i := i + 1;
        assert w.decisions[..i] == w.decisions[..i - 1] + [w.decisions[i - 1]];
      }
      assert w.decisions[..i] == w.decisions;
      if faultAt == done + i {
        return false;
      }
      assert tx == AfterInsert(before, w);
      db := tx;
      return true;
    }

    /** The two header loops of the transaction. */
    method InsertHeaders(start: Tables, w: CaptureWrite, faultAt: nat) returns (tx: Tables, ok: bool)
      requires faultAt >= 2
      requires w.record.requestId in start.requests
      requires forall h :: h in start.requestHeaders ==> h.requestId != w.record.requestId
      requires forall h :: h in start.responseHeaders ==> h.requestId != w.record.requestId
      ensures ok <==>
        && Distinct(w.requestHeaders) && Distinct(w.responseHeaders)
        && faultAt >= 2 + |w.requestHeaders| + |w.responseHeaders|
      ensures ok ==> tx == start.(
        requestHeaders := start.requestHeaders + HeaderRows(w.record.requestId, w.requestHeaders),
        responseHeaders := start.responseHeaders + HeaderRows(w.record.requestId, w.responseHeaders))
    {
      var id := w.record.requestId;
      tx := start;
      var i := 0;
      while i < |w.requestHeaders|
        invariant 0 <= i <= |w.requestHeaders| && 2 + i <= faultAt
        invariant Distinct(w.requestHeaders[..i])
        invariant tx == start.(requestHeaders := start.requestHeaders + HeaderRows(id, w.requestHeaders[..i]))
      {
        var added := InsertRequestHeader(tx, RowOf(id, w.requestHeaders[i]));
        NextHeader(id, w.requestHeaders, i);
        if faultAt == 2 + i || added.None? {
          return tx, false;
        }
        tx := added.value;
        i := i + 1;
      }
      assert w.requestHeaders[..i] == w.requestHeaders;
      ghost var half := tx;
      var j := 0;
      while j < |w.responseHeaders|
        invariant 0 <= j <= |w.responseHeaders| && 2 + i + j <= faultAt
        invariant Distinct(w.responseHeaders[..j])
        invariant tx == half.(responseHeaders := start.responseHeaders + HeaderRows(id, w.responseHeaders[..j]))
      {
        var added := InsertResponseHeader(tx, RowOf(id, w.responseHeaders[j]));
        NextHeader(id, w.responseHeaders, j);
        if faultAt == 2 + i + j || added.None? {
          return tx, false;
        }
        tx := added.value;
        j := j + 1;
      }
      assert w.responseHeaders[..j] == w.responseHeaders;
      ok := true;
    }

    /** One statement; `fault` is an I/O error of it. */
    method InsertReplayRun(replayId: string, row: ReplayRow, fault: bool) returns (ok: bool)
      modifies this
      ensures db == if fault then old(db) else Execute(old(db), AddReplay(replayId, row))
      ensures ok <==> !fault && replayId !in old(db).replays && row.originalRequestId in old(db).requests
      ensures ok ==> db.replays == old(db).replays[replayId := row]
    {
      var added := InsertReplay(db, replayId, row);
      ok := !fault && added.Some?;
      if ok {
        db := added.value;
      }
    }

    /** ORDER BY created_at_ms DESC LIMIT: matching rows, newest first, none newer left out. */
    method ListRequests(f: ListFilters) returns (ids: seq<RequestId>)
      ensures Distinct(ids) && |ids| <= Clamp(f.limit, 1, 1000)
      ensures forall i :: 0 <= i < |ids| ==> ids[i] in db.requests && Selected(db.requests[ids[i]], f)
      ensures forall i, j :: 0 <= i < j < |ids| ==>
        db.requests[ids[i]].createdAt >= db.requests[ids[j]].createdAt
      ensures forall i, id :: 0 <= i < |ids| && id in db.requests && Selected(db.requests[id], f) && id !in ids ==>
        db.requests[ids[i]].createdAt >= db.requests[id].createdAt
      ensures |ids| < Clamp(f.limit, 1, 1000) ==>
        forall id :: id in db.requests && Selected(db.requests[id], f) ==> id in ids
    {
      var times := map id | id in db.requests && Selected(db.requests[id], f) :: -db.requests[id].createdAt;
      ids := OrderByTime(times, Clamp(f.limit, 1, 1000));
      forall i | 0 <= i < |ids|
        ensures ids[i] in db.requests && Selected(db.requests[ids[i]], f)
      {
        assert ids[i] in times;
      }
      if |ids| == |times| {
        AllListed(times, ids);
      }
    }

    method TotalCaptureBytes() returns (total: nat)
      ensures total == TotalBytes(db.captures)
    {
      total := 0;
      var rest := db.captures;
      while rest != map[]
        invariant total + TotalBytes(rest) == TotalBytes(db.captures)
        decreases |rest|
      {
        var id :| id in rest;
        TotalRemove(rest, id);
        total := total + BodyBytes(rest[id]);
        assert |rest - {id}| < |rest| by {
          assert rest == (rest - {id})[id := rest[id]];
        }
        rest := rest - {id};
      }
    }

    /** The batched loop, undisturbed: it stops at the cap with an exact running total,
        having done one complete oldest-first eviction. */
    method EvictCaptureBodies(startTotal: int, maxTotalCaptureBytes: nat)
      returns (total: int, evicted: nat, ghost ids: seq<RequestId>)
      requires EvictedHaveNoBodies(db.captures)
      requires startTotal == TotalBytes(db.captures) <= I64_MAX
      modifies this
      ensures db == old(db).(captures := EvictSet(old(db).captures, Elements(ids)))
      ensures EvictionRun(old(db).captures, ids, Min(maxTotalCaptureBytes, I64_MAX))
      ensures total == TotalBytes(db.captures)
      ensures evicted == |ids|
    {
      var cap := Min(maxTotalCaptureBytes, I64_MAX);
      ghost var start := db.captures;
      total, evicted, ids := startTotal, 0, [];
      assert Elements(ids) == {} && EvictSet(start, {}) == start;
      while total > cap
        invariant db == old(db).(captures := EvictSet(start, Elements(ids)))
        invariant EvictionOrder(start, ids, cap)
        invariant total == TotalBytes(db.captures) <= I64_MAX && evicted == |ids|
        decreases |Candidates(EvictSet(start, Elements(ids)))|
      {
        var snapshot := db.captures;
        var batch := OrderByTime(Candidates(snapshot), BATCH_LIMIT);
        if batch == [] {
          EmptyBatchNoBytes(start, ids);
          break;
        }
        ghost var done := ids;
        var count;
        total, count, ids := EvictBatch(snapshot, batch, total, cap, start, ids);
        evicted := evicted + count;
        ProgressOfBatch(start, done, batch, count);
      }
      assert ids[..|ids|] == ids;
    }

    /** The candidates of one query, evicted until the running total meets the cap. */
    method EvictBatch(snapshot: Captures, batch: seq<RequestId>, startTotal: int, cap: int,
                      ghost start: Captures, ghost done: seq<RequestId>)
      returns (total: int, count: nat, ghost ids: seq<RequestId>)
      requires snapshot == db.captures && Batch(start, done, snapshot, batch) && batch != []
      requires Evicting(start, done, cap, snapshot, startTotal) && startTotal > cap
      modifies this
      ensures 1 <= count <= |batch| && ids == done + batch[..count]
      ensures db == old(db).(captures := db.captures) && Evicting(start, ids, cap, db.captures, total)
    {
      assert done + batch[..0] == done;
      total := EvictRow(snapshot, batch, 0, startTotal, cap, start, done);
      count := 1;
      while count < |batch| && total > cap
        invariant 1 <= count <= |batch|
        invariant db == old(db).(captures := db.captures)
        invariant Evicting(start, done + batch[..count], cap, db.captures, total)
      {
        total := EvictRow(snapshot, batch, count, total, cap, start, done);
        count := count + 1;
      }
      ids := done + batch[..count];
    }

    /** One row of a batch, its bytes taken off the running total. */
    method EvictRow(snapshot: Captures, batch: seq<RequestId>, count: nat, total: int, cap: int,
                    ghost start: Captures, ghost done: seq<RequestId>) returns (left: int)
      requires Batch(start, done, snapshot, batch) && count < |batch|
      requires Evicting(start, done + batch[..count], cap, db.captures, total) && total > cap
      modifies this
      ensures db == old(db).(captures := db.captures)
      ensures Evicting(start, done + batch[..count + 1], cap, db.captures, left)
    {
      EvictingNext(start, done, batch, count, cap, db.captures, total);
      db := db.(captures := EvictSet(db.captures, {batch[count]}));
      left := SaturatingSub(total, Max(BodyBytes(snapshot[batch[count]]), 0));
    }

    /** One retention pass: expired requests go with all their rows, then bodies are
        evicted down to the cap. A total beyond a 64-bit sum fails after the delete. */
    method RunRetention(cutoff: int, maxTotalCaptureBytes: nat)
      returns (outcome: Option<RetentionOutcome>, ghost ids: seq<RequestId>)
      requires Integrity(db)
      modifies this
      ensures Integrity(db)
      ensures var kept := Execute(old(db), Prune(cutoff));
        && db == kept.(captures := EvictSet(kept.captures, Elements(ids)))
        && (outcome.None? <==> TotalBytes(kept.captures) > I64_MAX)
        && (outcome.None? ==> ids == [])
        && (outcome.Some? ==>
              && EvictionRun(kept.captures, ids, Min(maxTotalCaptureBytes, I64_MAX))
              && TotalBytes(db.captures) <= maxTotalCaptureBytes
              && outcome.value.evictedCaptures == |ids|
              && outcome.value.deletedRequests ==
                   |set id | id in old(db).requests && old(db).requests[id].createdAt < cutoff|)
    {
      var gone := ExpiredIds(db, cutoff);
      ExecuteKeepsIntegrity(db, Prune(cutoff));
      db := DeleteRequests(db, gone);
      ghost var kept := db;
      var total := TotalCaptureBytes();
      ids := [];
      assert EvictSet(kept.captures, Elements(ids)) == kept.captures;
      if total > I64_MAX {
        return None, ids;
      }
      var left, evicted;
      left, evicted, ids := EvictCaptureBodies(total, maxTotalCaptureBytes);
      assert ids[..|ids|] == ids;
      return Some(RetentionOutcome(|gone|, evicted)), ids;
    }
  }

  lemma EmptyBatchNoBytes(start: Captures, done: seq<RequestId>)
    requires EvictedHaveNoBodies(start)
    requires OrderedPrefix(Candidates(EvictSet(start, Elements(done))), BATCH_LIMIT, [])
    ensures TotalBytes(EvictSet(start, Elements(done))) == 0
  {
    var now := EvictSet(start, Elements(done));
    assert |Candidates(now)| == 0;
    NoCandidatesNoBytes(now);
  }

  lemma ProgressOfBatch(start: Captures, done: seq<RequestId>, batch: seq<RequestId>, count: nat)
    requires 1 <= count <= |batch|
    requires OrderedPrefix(Candidates(EvictSet(start, Elements(done))), BATCH_LIMIT, batch)
    ensures |Candidates(EvictSet(start, Elements(done + batch[..count])))|
            < |Candidates(EvictSet(start, Elements(done)))|
  {
    assert Elements(done + batch[..count]) == Elements(done) + Elements(batch[..count]);
    EvictTwice(start, Elements(done), Elements(batch[..count]));
    assert batch[0] in batch[..count];
    FewerCandidates(EvictSet(start, Elements(done)), Elements(batch[..count]), batch[0]);
  }

  lemma NextHeader(id: RequestId, headers: seq<Header>, i: nat)
    requires i < |headers| && Distinct(headers[..i])
    ensures HeaderRows(id, headers[..i + 1]) == HeaderRows(id, headers[..i]) + {RowOf(id, headers[i])}
    ensures RowOf(id, headers[i]) in HeaderRows(id, headers[..i]) <==> !Distinct(headers[..i + 1])
    ensures RowOf(id, headers[i]) in HeaderRows(id, headers[..i]) ==> !Distinct(headers)
  {
    assert headers[..i + 1] == headers[..i] + [headers[i]];
    if RowOf(id, headers[i]) in HeaderRows(id, headers[..i]) {
      var h :| h in headers[..i] && RowOf(id, h) == RowOf(id, headers[i]);
      var j :| 0 <= j < i && headers[..i][j] == h;
      assert headers[..i + 1][j] == headers[..i + 1][i];
    } else {
      forall j | 0 <= j < i
        ensures headers[j] != headers[i]
      {
        assert headers[..i][j] in headers[..i];
      }
    }
  }

  lemma AllListed(times: map<RequestId, int>, ids: seq<RequestId>)
    requires Distinct(ids) && |ids| == |times|
    requires forall i :: 0 <= i < |ids| ==> ids[i] in times
    ensures forall id :: id in times ==> id in ids
  {
    DistinctCount(ids);
    SubsetFull(Elements(ids), times.Keys);
  }

  lemma {:induction false} DistinctCount<T>(s: seq<T>)
    requires Distinct(s)
    ensures |Elements(s)| == |s|
  {
    if s != [] {
      DistinctCount(s[1..]);
      assert Elements(s) == {s[0]} + Elements(s[1..]);
    }
  }

  lemma {:induction false} SubsetFull<T>(a: set<T>, b: set<T>)
    requires a <= b && |a| == |b|
    ensures a == b
    decreases |a|
  {
    if x :| x in a {
      SubsetFull(a - {x}, b - {x});
      assert a == a - {x} + {x} && b == b - {x} + {x};
    }
  }
}
