/** What each statement does to the store, row by row. */
module StoreLaws {
  import opened Domain
  import opened Store
  import opened Retention

  /** The request is older than the cutoff. */
  predicate Expired(t: Tables, id: RequestId, cutoff: int) {
    id in t.requests && t.requests[id].createdAt < cutoff
  }

  /** Retention by age removes the requests older than the cutoff, every row that belongs to one of
      them, and nothing else. */
  lemma PruneExact(t: Tables, cutoff: int)
    ensures var after := Execute(t, Prune(cutoff));
      && (forall id :: id in after.requests <==> id in t.requests && t.requests[id].createdAt >= cutoff)
      && (forall id :: id in after.requests ==> after.requests[id] == t.requests[id])
      && (forall id :: id in after.captures <==> id in t.captures && !Expired(t, id, cutoff))
      && (forall id :: id in after.captures ==> after.captures[id] == t.captures[id])
      && (forall h :: h in after.requestHeaders <==> h in t.requestHeaders && !Expired(t, h.requestId, cutoff))
      && (forall h :: h in after.responseHeaders <==> h in t.responseHeaders && !Expired(t, h.requestId, cutoff))
      && (forall d :: d in after.decisions <==> d in t.decisions && !Expired(t, d.requestId, cutoff))
      && (forall r :: r in after.replays <==>
            r in t.replays && !Expired(t, t.replays[r].originalRequestId, cutoff))
      && (forall r :: r in after.replays ==> after.replays[r] == t.replays[r])
  {
  }

  /** Evicting clears the two bodies of one capture and marks it; digests, truncation flags and time
      stay, and so does every other row. */
  lemma EvictExact(t: Tables, id: RequestId)
    ensures var after := Execute(t, Evict(id));
      && after.captures.Keys == t.captures.Keys
      && (forall other :: other in t.captures && other != id ==> after.captures[other] == t.captures[other])
      && (id in t.captures ==>
            var was, row := t.captures[id], after.captures[id];
            && row.requestBody == None && row.responseBody == None && row.bodyEvicted
            && row.requestSha == was.requestSha && row.responseSha == was.responseSha
            && row.requestTruncated == was.requestTruncated && row.responseTruncated == was.responseTruncated
            && row.createdAt == was.createdAt)
      && after.requests == t.requests && after.replays == t.replays && after.decisions == t.decisions
      && after.requestHeaders == t.requestHeaders && after.responseHeaders == t.responseHeaders
  {
  }

  /** The rows of other ids stay. */
  lemma InsertKeepsOthers(t: Tables, w: CaptureWrite, id: RequestId)
    requires id != w.record.requestId
    ensures var after := AfterInsert(t, w);
      && (id in after.requests <==> id in t.requests) && (id in t.requests ==> after.requests[id] == t.requests[id])
      && (id in after.captures <==> id in t.captures) && (id in t.captures ==> after.captures[id] == t.captures[id])
  {
  }

  /** A committed write stores its record, and its capture field by field as not evicted. */
  lemma InsertStores(t: Tables, w: CaptureWrite)
    ensures var id, after := w.record.requestId, AfterInsert(t, w);
      && id in after.requests && after.requests[id] == w.record
      && (id in after.captures <==> w.capture.Some?)
      && (w.capture.Some? ==>
            var c, row := w.capture.value, after.captures[id];
            && row.requestBody == c.requestBody && row.responseBody == c.responseBody
            && row.requestTruncated == c.requestTruncated && row.responseTruncated == c.responseTruncated
            && row.requestSha == c.requestSha && row.responseSha == c.responseSha
            && !row.bodyEvicted && row.createdAt == w.record.createdAt)
  {
  }

  /** Header, decision and replay rows: the old ones of the id go, the written ones come. */
  lemma InsertReplacesChildren(t: Tables, w: CaptureWrite)
    ensures var id, after := w.record.requestId, AfterInsert(t, w);
      && (forall h :: h in after.requestHeaders <==>
            if h.requestId == id then Header(h.name, h.value) in w.requestHeaders else h in t.requestHeaders)
      && (forall h :: h in after.responseHeaders <==>
            if h.requestId == id then Header(h.name, h.value) in w.responseHeaders else h in t.responseHeaders)
      && (forall d :: d in after.decisions <==> d in w.decisions || (d in t.decisions && d.requestId != id))
      && (forall r :: r in after.replays <==> r in t.replays && t.replays[r].originalRequestId != id)
      && (forall r :: r in after.replays ==> after.replays[r] == t.replays[r])
  {
    RowsWritten(w.record.requestId, w.requestHeaders);
    RowsWritten(w.record.requestId, w.responseHeaders);
  }

  lemma RowsWritten(id: RequestId, headers: seq<Header>)
    ensures forall h :: h in HeaderRows(id, headers) <==> h.requestId == id && Header(h.name, h.value) in headers
  {
    forall h
      ensures h in HeaderRows(id, headers) <==> h.requestId == id && Header(h.name, h.value) in headers
    {
      if h.requestId == id && Header(h.name, h.value) in headers {
        assert RowOf(id, Header(h.name, h.value)) == h;
      }
      if h in HeaderRows(id, headers) {
        var x :| x in headers && RowOf(id, x) == h;
        assert x == Header(h.name, h.value);
      }
    }
  }

  /** A write takes effect exactly when it neither fails nor breaks a key. */
  lemma InsertExact(t: Tables, w: CaptureWrite, fault: bool)
    ensures Execute(t, Insert(w, fault)) == if !fault && Storable(t, w) then AfterInsert(t, w) else t
  {
  }

  /** A replay row is added beside everything else, or refused. */
  lemma ReplayExact(t: Tables, replayId: string, row: ReplayRow)
    ensures var after := Execute(t, AddReplay(replayId, row));
      if replayId !in t.replays && row.originalRequestId in t.requests
      then after == t.(replays := t.replays[replayId := row])
      else after == t
  {
  }

  /** The bytes of a capture are those of both bodies. */
  lemma BodyBytesExact(row: CaptureRow)
    ensures row.requestBody == None && row.responseBody == None ==> BodyBytes(row) == 0
    ensures row.requestBody.Some? && row.responseBody == None ==> BodyBytes(row) == |row.requestBody.value|
    ensures row.requestBody == None && row.responseBody.Some? ==> BodyBytes(row) == |row.responseBody.value|
    ensures row.requestBody.Some? && row.responseBody.Some? ==>
      BodyBytes(row) == |row.requestBody.value| + |row.responseBody.value|
  {
  }

  /** The total of any store, from the total without one of its rows. */
  lemma TotalExact(captures: Captures, id: RequestId)
    ensures TotalBytes(map[]) == 0
    ensures id in captures ==> TotalBytes(captures) == BodyBytes(captures[id]) + TotalBytes(captures - {id})
  {
    if id in captures {
      TotalRemove(captures, id);
    }
  }
}
