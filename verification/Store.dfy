/** The capture store: five tables with foreign keys that cascade, changed only by
    whole SQL statements and by one multi-statement insert transaction. */
module Store {
  import opened Domain

  datatype HeaderRow = HeaderRow(requestId: RequestId, name: string, value: string)

  datatype CaptureRow = CaptureRow(
    requestBody: Option<Body>,
    responseBody: Option<Body>,
    requestTruncated: bool,
    responseTruncated: bool,
    requestSha: Option<Digest>,
    responseSha: Option<Digest>,
    bodyEvicted: bool,
    createdAt: int)

  datatype ReplayRow = ReplayRow(
    originalRequestId: RequestId,
    replayRequestId: RequestId,
    target: string,
    verb: string,
    path: string,
    status: Option<int>,
    error: Option<string>,
    createdAt: int)

  /** Primary keys are map keys or set elements; `decisions` is in autoincrement order. */
  datatype Tables = Tables(
    requests: map<RequestId, RequestInsert>,
    requestHeaders: set<HeaderRow>,
    responseHeaders: set<HeaderRow>,
    captures: map<RequestId, CaptureRow>,
    decisions: seq<DecisionInsert>,
    replays: map<string, ReplayRow>)

  const EMPTY := Tables(map[], {}, {}, map[], [], map[])

  // ----- single statements -------------------------------------------------------

  function KeepDecisions(rows: seq<DecisionInsert>, gone: set<RequestId>): (kept: seq<DecisionInsert>)
    ensures forall d :: d in kept <==> d in rows && d.requestId !in gone
  {
    if rows == [] then []
    else
      var rest := KeepDecisions(rows[1..], gone);
      assert rows == [rows[0]] + rows[1..];
      if rows[0].requestId in gone then rest else [rows[0]] + rest
  }

  /** DELETE FROM requests, with every ON DELETE CASCADE. */
  function DeleteRequests(t: Tables, gone: set<RequestId>): Tables {
    Tables(
      t.requests - gone,
      (set h | h in t.requestHeaders && h.requestId !in gone),
      (set h | h in t.responseHeaders && h.requestId !in gone),
      t.captures - gone,
      KeepDecisions(t.decisions, gone),
      map r | r in t.replays && t.replays[r].originalRequestId !in gone :: t.replays[r])
  }

  function ExpiredIds(t: Tables, cutoff: int): set<RequestId> {
    set id | id in t.requests && t.requests[id].createdAt < cutoff
  }

  function InsertRequestRow(t: Tables, record: RequestInsert): Option<Tables> {
    if record.requestId in t.requests then None
    else Some(t.(requests := t.requests[record.requestId := record]))
  }

  function RowOf(id: RequestId, h: Header): HeaderRow {
    HeaderRow(id, h.name, h.value)
  }

  function InsertRequestHeader(t: Tables, row: HeaderRow): Option<Tables> {
    if row in t.requestHeaders || row.requestId !in t.requests then None
    else Some(t.(requestHeaders := t.requestHeaders + {row}))
  }

  function InsertResponseHeader(t: Tables, row: HeaderRow): Option<Tables> {
    if row in t.responseHeaders || row.requestId !in t.requests then None
    else Some(t.(responseHeaders := t.responseHeaders + {row}))
  }

  function CaptureRowOf(c: CaptureInsert, createdAt: int): CaptureRow {
    CaptureRow(c.requestBody, c.responseBody, c.requestTruncated, c.responseTruncated,
               c.requestSha, c.responseSha, false, createdAt)
  }

  function InsertCapture(t: Tables, id: RequestId, row: CaptureRow): Option<Tables> {
    if id in t.captures || id !in t.requests then None
    else Some(t.(captures := t.captures[id := row]))
  }

  function InsertDecision(t: Tables, d: DecisionInsert): Option<Tables> {
    if d.requestId !in t.requests then None
    else Some(t.(decisions := t.decisions + [d]))
  }

  function InsertReplay(t: Tables, replayId: string, row: ReplayRow): Option<Tables> {
    if replayId in t.replays || row.originalRequestId !in t.requests then None
    else Some(t.(replays := t.replays[replayId := row]))
  }

  function EvictRow(row: CaptureRow): CaptureRow {
    row.(requestBody := None, responseBody := None, bodyEvicted := true)
  }

  /** UPDATE captures SET bodies NULL, applied to every id of `ids` that has a row. */
  function EvictSet(captures: map<RequestId, CaptureRow>, ids: set<RequestId>): map<RequestId, CaptureRow> {
    map id | id in captures :: if id in ids then EvictRow(captures[id]) else captures[id]
  }

  // ----- the insert transaction ---------------------------------------------------

  /** The store after a write for an id replaces whatever was recorded under that id. */
  function AfterInsert(t: Tables, w: CaptureWrite): Tables {
    var id := w.record.requestId;
    var base := DeleteRequests(t, {id});
    Tables(
      base.requests[id := w.record],
      base.requestHeaders + HeaderRows(id, w.requestHeaders),
      base.responseHeaders + HeaderRows(id, w.responseHeaders),
      if w.capture.Some?
      then base.captures[id := CaptureRowOf(w.capture.value, w.record.createdAt)]
      else base.captures,
      base.decisions + w.decisions,
      base.replays)
  }

  /** Exactly the writes no primary or foreign key rejects. */
  predicate Storable(t: Tables, w: CaptureWrite) {
    && Distinct(w.requestHeaders)
    && Distinct(w.responseHeaders)
    && forall d :: d in w.decisions ==>
      d.requestId == w.record.requestId || d.requestId in t.requests
  }

  /** Statements of the transaction, commit included. */
  function StatementCount(w: CaptureWrite): nat {
    3 + |w.requestHeaders| + |w.responseHeaders| + (if w.capture.Some? then 1 else 0) + |w.decisions|
  }

  // ----- integrity over every run ---------------------------------------------------

  predicate EvictedHaveNoBodies(captures: map<RequestId, CaptureRow>) {
    forall id :: id in captures && captures[id].bodyEvicted ==>
      captures[id].requestBody == None && captures[id].responseBody == None
  }

  /** Every child row has its parent, and an evicted capture holds no bytes. */
  predicate Integrity(t: Tables) {
    && (forall id :: id in t.requests ==> t.requests[id].requestId == id)
    && (forall h :: h in t.requestHeaders ==> h.requestId in t.requests)
    && (forall h :: h in t.responseHeaders ==> h.requestId in t.requests)
    && (forall id :: id in t.captures ==> id in t.requests)
    && (forall d :: d in t.decisions ==> d.requestId in t.requests)
    && (forall r :: r in t.replays ==> t.replays[r].originalRequestId in t.requests)
    && EvictedHaveNoBodies(t.captures)
  }

  /** One atomic change of the store, by whichever task issues it. A write that
      breaks a key, like one that hits an I/O fault, rolls back. */
  datatype Statement =
    | Insert(w: CaptureWrite, fault: bool)
    | Prune(cutoff: int)
    | Evict(id: RequestId)
    | AddReplay(replayId: string, row: ReplayRow)

  function Execute(t: Tables, s: Statement): Tables {
    match s
    case Insert(w, fault) => if fault || !Storable(t, w) then t else AfterInsert(t, w)
    case Prune(cutoff) => DeleteRequests(t, ExpiredIds(t, cutoff))
    case Evict(id) => t.(captures := EvictSet(t.captures, {id}))
    case AddReplay(replayId, row) =>
      match InsertReplay(t, replayId, row)
      case Some(t') => t'
      case None => t
  }

  function ExecuteAll(t: Tables, script: seq<Statement>): Tables {
    if script == [] then t else Execute(ExecuteAll(t, script[..|script| - 1]), script[|script| - 1])
  }

  lemma ExecuteKeepsIntegrity(t: Tables, s: Statement)
    requires Integrity(t)
    ensures Integrity(Execute(t, s))
  {
    if s.Insert? && !s.fault && Storable(t, s.w) {
      AfterInsertKeepsIntegrity(t, s.w);
    }
  }

  lemma AfterInsertKeepsIntegrity(t: Tables, w: CaptureWrite)
    requires Integrity(t) && Storable(t, w)
    ensures Integrity(AfterInsert(t, w))
  {
    var id := w.record.requestId;
    var base := DeleteRequests(t, {id});
    var after := AfterInsert(t, w);
    assert after.requests.Keys == t.requests.Keys + {id};
    forall d | d in after.decisions
      ensures d.requestId in after.requests
    {
      if d in w.decisions {
      } else {
        assert d in base.decisions;
      }
    }
  }

  lemma {:induction false} IntegrityOverRuns(script: seq<Statement>)
    ensures Integrity(ExecuteAll(EMPTY, script))
  {
    if script != [] {
      IntegrityOverRuns(script[..|script| - 1]);
      ExecuteKeepsIntegrity(ExecuteAll(EMPTY, script[..|script| - 1]), script[|script| - 1]);
    }
  }

  // ----- where every stored row comes from ------------------------------------------

  /** The latest write recorded for each id, as a history beside the tables. */
  type History = map<RequestId, CaptureWrite>

  function Remember(hist: History, t: Tables, s: Statement): History {
    match s
    case Insert(w, fault) => if fault || !Storable(t, w) then hist else hist[w.record.requestId := w]
    case _ => hist
  }

  function HistoryOf(script: seq<Statement>): History {
    if script == [] then map[]
    else
      var before := script[..|script| - 1];
      Remember(HistoryOf(before), ExecuteAll(EMPTY, before), script[|script| - 1])
  }

  /** A capture row is the latest write's capture, whole or with both bodies evicted:
      digests, truncation flags and creation time never change. */
  predicate CaptureFrom(row: CaptureRow, w: CaptureWrite) {
    && w.capture.Some?
    && var written := CaptureRowOf(w.capture.value, w.record.createdAt);
       row == if row.bodyEvicted then EvictRow(written) else written
  }

  function RowsOf(rows: set<HeaderRow>, id: RequestId): set<HeaderRow> {
    set h | h in rows && h.requestId == id
  }

  function HeaderRows(id: RequestId, headers: seq<Header>): set<HeaderRow> {
    set h | h in headers :: RowOf(id, h)
  }

  predicate HeadersFrom(t: Tables, id: RequestId, w: CaptureWrite) {
    && RowsOf(t.requestHeaders, id) == HeaderRows(id, w.requestHeaders)
    && RowsOf(t.responseHeaders, id) == HeaderRows(id, w.responseHeaders)
  }

  /** The rows of an id are exactly those of a write. */
  predicate RowsAre(t: Tables, id: RequestId, w: CaptureWrite) {
    && id in t.requests && t.requests[id] == w.record
    && (id in t.captures <==> w.capture.Some?)
    && (id in t.captures ==> CaptureFrom(t.captures[id], w))
    && HeadersFrom(t, id, w)
  }

  /** Every request has exactly the rows of the latest write for its id. */
  predicate Provenance(t: Tables, hist: History) {
    && (forall id :: id in t.captures ==> id in t.requests)
    && forall id :: id in t.requests ==> id in hist && RowsAre(t, id, hist[id])
  }

  lemma DeleteKeepsHeaders(t: Tables, gone: set<RequestId>, id: RequestId)
    requires id !in gone
    ensures RowsOf(DeleteRequests(t, gone).requestHeaders, id) == RowsOf(t.requestHeaders, id)
    ensures RowsOf(DeleteRequests(t, gone).responseHeaders, id) == RowsOf(t.responseHeaders, id)
  {
  }

  lemma InsertSetsHeaders(t: Tables, w: CaptureWrite, id: RequestId)
    ensures id == w.record.requestId ==> HeadersFrom(AfterInsert(t, w), id, w)
    ensures id != w.record.requestId ==>
      && RowsOf(AfterInsert(t, w).requestHeaders, id) == RowsOf(t.requestHeaders, id)
      && RowsOf(AfterInsert(t, w).responseHeaders, id) == RowsOf(t.responseHeaders, id)
  {
  }

  lemma InsertSetsRows(t: Tables, w: CaptureWrite)
    ensures RowsAre(AfterInsert(t, w), w.record.requestId, w)
  {
    InsertSetsHeaders(t, w, w.record.requestId);
  }

  lemma InsertKeepsOtherRows(t: Tables, w: CaptureWrite, id: RequestId, mine: CaptureWrite)
    requires RowsAre(t, id, mine) && id != w.record.requestId
    ensures RowsAre(AfterInsert(t, w), id, mine)
  {
    InsertSetsHeaders(t, w, id);
  }

  lemma DeleteKeepsRows(t: Tables, gone: set<RequestId>, id: RequestId, w: CaptureWrite)
    requires RowsAre(t, id, w) && id !in gone
    ensures RowsAre(DeleteRequests(t, gone), id, w)
  {
    DeleteKeepsHeaders(t, gone, id);
  }

  /** A statement that does not replace the rows of an id leaves them those of the same write, or
      removes them all. */
  lemma StatementKeepsRows(t: Tables, s: Statement, id: RequestId, w: CaptureWrite)
    requires RowsAre(t, id, w) && (s.Insert? ==> s.w.record.requestId != id)
    ensures id in Execute(t, s).requests ==> RowsAre(Execute(t, s), id, w)
  {
    match s
    case Insert(v, fault) =>
      InsertKeepsOtherRows(t, v, id, w);
    case Prune(cutoff) =>
      if id !in ExpiredIds(t, cutoff) {
        DeleteKeepsRows(t, ExpiredIds(t, cutoff), id, w);
      }
    case _ =>
  }

  lemma ExecuteKeepsParents(t: Tables, s: Statement)
    requires forall id :: id in t.captures ==> id in t.requests
    ensures forall id :: id in Execute(t, s).captures ==> id in Execute(t, s).requests
  {
  }

  lemma ExecuteKeepsProvenance(t: Tables, hist: History, s: Statement)
    requires Provenance(t, hist)
    ensures Provenance(Execute(t, s), Remember(hist, t, s))
  {
    ExecuteKeepsParents(t, s);
    forall id | id in Execute(t, s).requests
      ensures id in Remember(hist, t, s) && RowsAre(Execute(t, s), id, Remember(hist, t, s)[id])
    {
      if s.Insert? && s.w.record.requestId == id && !s.fault && Storable(t, s.w) {
        InsertSetsRows(t, s.w);
      } else {
        assert RowsAre(t, id, hist[id]);
        if !s.Insert? || s.w.record.requestId != id {
          StatementKeepsRows(t, s, id, hist[id]);
        }
      }
    }
  }

  lemma {:induction false} ProvenanceOverRuns(script: seq<Statement>)
    ensures Provenance(ExecuteAll(EMPTY, script), HistoryOf(script))
  {
    if script != [] {
      var before := script[..|script| - 1];
      ProvenanceOverRuns(before);
      ExecuteKeepsProvenance(ExecuteAll(EMPTY, before), HistoryOf(before), script[|script| - 1]);
    }
  }

  // ----- decision rows, in order ------------------------------------------------------

  /** A handler's decisions carry its own request id. */
  predicate OwnDecisions(w: CaptureWrite) {
    forall d :: d in w.decisions ==> d.requestId == w.record.requestId
  }

  function DecisionsOf(rows: seq<DecisionInsert>, id: RequestId): seq<DecisionInsert> {
    if rows == [] then []
    else (if rows[0].requestId == id then [rows[0]] else []) + DecisionsOf(rows[1..], id)
  }

  lemma {:induction false} DecisionsConcat(a: seq<DecisionInsert>, b: seq<DecisionInsert>, id: RequestId)
    ensures DecisionsOf(a + b, id) == DecisionsOf(a, id) + DecisionsOf(b, id)
  {
    if a == [] {
      assert a + b == b;
    } else {
      assert (a + b)[1..] == a[1..] + b;
      DecisionsConcat(a[1..], b, id);
    }
  }

  lemma {:induction false} DecisionsKept(rows: seq<DecisionInsert>, gone: set<RequestId>, id: RequestId)
    ensures DecisionsOf(KeepDecisions(rows, gone), id) == if id in gone then [] else DecisionsOf(rows, id)
  {
    if rows != [] {
      DecisionsKept(rows[1..], gone, id);
      var rest := KeepDecisions(rows[1..], gone);
      if rows[0].requestId !in gone {
        assert ([rows[0]] + rest)[1..] == rest;
      }
    }
  }

  lemma {:induction false} DecisionsAll(rows: seq<DecisionInsert>, owner: RequestId, id: RequestId)
    requires forall d :: d in rows ==> d.requestId == owner
    ensures DecisionsOf(rows, id) == if id == owner then rows else []
  {
    if rows != [] {
      assert rows[0] in rows && forall d :: d in rows[1..] ==> d in rows;
      DecisionsAll(rows[1..], owner, id);
      assert rows == [rows[0]] + rows[1..];
    }
  }

  lemma InsertSetsDecisions(t: Tables, w: CaptureWrite, id: RequestId)
    requires OwnDecisions(w)
    ensures DecisionsOf(AfterInsert(t, w).decisions, id)
            == if id == w.record.requestId then w.decisions else DecisionsOf(t.decisions, id)
  {
    DecisionsConcat(KeepDecisions(t.decisions, {w.record.requestId}), w.decisions, id);
    DecisionsKept(t.decisions, {w.record.requestId}, id);
    DecisionsAll(w.decisions, w.record.requestId, id);
  }

  predicate DecisionsTraced(t: Tables, hist: History) {
    forall id :: id in t.requests ==> id in hist && DecisionsOf(t.decisions, id) == hist[id].decisions
  }

  lemma ExecuteKeepsDecisions(t: Tables, hist: History, s: Statement)
    requires DecisionsTraced(t, hist) && (s.Insert? ==> OwnDecisions(s.w))
    ensures DecisionsTraced(Execute(t, s), Remember(hist, t, s))
  {
    forall id | id in Execute(t, s).requests
      ensures id in Remember(hist, t, s)
      ensures DecisionsOf(Execute(t, s).decisions, id) == Remember(hist, t, s)[id].decisions
    {
      match s
      case Insert(w, fault) =>
        if !fault && Storable(t, w) {
          InsertSetsDecisions(t, w, id);
        }
      case Prune(cutoff) =>
        DecisionsKept(t.decisions, ExpiredIds(t, cutoff), id);
      case _ =>
    }
  }

  /** When every write's decisions are its own, a request's decision rows are, in order, those of
      its latest write. */
  lemma {:induction false} DecisionsOverRuns(script: seq<Statement>)
    requires forall i :: 0 <= i < |script| && script[i].Insert? ==> OwnDecisions(script[i].w)
    ensures DecisionsTraced(ExecuteAll(EMPTY, script), HistoryOf(script))
  {
    if script != [] {
      var before := script[..|script| - 1];
      DecisionsOverRuns(before);
      ExecuteKeepsDecisions(ExecuteAll(EMPTY, before), HistoryOf(before), script[|script| - 1]);
    }
  }
}
