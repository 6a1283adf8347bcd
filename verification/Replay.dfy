/** Replay: which stored request is picked, what of it may be sent again, and the audit row
    every dispatch leaves. The origins URLs parse to are parameters. */
module Replay {
  import opened Domain
  import opened Text
  import opened Store
  import opened StorageHandle
  import H = Headers

  datatype ReplayError =
    | RequestNotFound
    | NoFailedRequest
    | MissingConfirmation
    | MissingBody
    | EvictedBody
    | TruncatedBody
    | InvalidTarget
    | OriginalUpstreamTarget
    | InvalidMethod
    | StorageFailed
    | DispatchFailed

  datatype Selector = ById(id: RequestId) | LastFailed

  datatype ReplayRequest = ReplayRequest(
    replayId: string,
    replayRequestId: string,
    target: string,
    verb: string,
    path: string,
    body: Option<Body>,
    headers: seq<Header>)

  // ----- what may be sent ---------------------------------------------------------------------------

  predicate RequiresBody(verb: string) {
    verb == "POST" || verb == "PUT" || verb == "PATCH"
  }

  predicate HasSideEffects(verb: string) {
    RequiresBody(verb) || verb == "DELETE"
  }

  function ReplayBody(verb: string, capture: Option<CaptureRow>): Result<Option<Body>, ReplayError> {
    if RequiresBody(verb) then
      if capture.None? then Err(MissingBody)
      else if capture.value.bodyEvicted then Err(EvictedBody)
      else if capture.value.requestTruncated then Err(TruncatedBody)
      else if capture.value.requestBody.None? then Err(MissingBody)
      else Ok(capture.value.requestBody)
    else if capture.Some? then
      if capture.value.requestTruncated && capture.value.requestBody.Some? then Err(TruncatedBody)
      else if capture.value.bodyEvicted && capture.value.requestBody.Some? then Err(EvictedBody)
      else Ok(capture.value.requestBody)
    else Ok(None)
  }

  /** A method is a non-empty token. */
  predicate ValidVerb(verb: string) {
    verb != "" && forall i :: 0 <= i < |verb| ==> H.IsToken(verb[i])
  }

  const REPLAYED_HEADERS := {"content-type", "accept", "accept-language", "user-agent"}

  /** A stored header that may be sent again. */
  predicate Replayable(h: Header) {
    H.ParseName(h.name).Some? && Lower(h.name) in REPLAYED_HEADERS
  }

  /** Four names, in any ASCII case. */
  lemma ReplayableExactly(h: Header)
    ensures Replayable(h) <==>
      || Lower(h.name) == "content-type" || Lower(h.name) == "accept"
      || Lower(h.name) == "accept-language" || Lower(h.name) == "user-agent"
  {
    var name := Lower(h.name);
    if name == "content-type" || name == "accept" || name == "accept-language" || name == "user-agent" {
      H.NamesExactly(h.name);
      forall c | c in h.name
        ensures H.TokenCode(c as int)
      {
        var i :| 0 <= i < |h.name| && h.name[i] == c;
        assert name[i] == LowerChar(c);
        NameLetters(name, i);
        LowerByCode(c);
      }
    }
  }

  lemma NameLetters(name: string, i: nat)
    requires name == "content-type" || name == "accept" || name == "accept-language" || name == "user-agent"
    requires i < |name|
    ensures name[i] == '-' || 'a' <= name[i] <= 'z'
  {
  }

  /** Exactly the replayable headers, with their names in lower case. */
  function ReplayHeaders(stored: seq<Header>): (sent: seq<Header>)
    ensures forall h :: h in sent <==> exists s :: s in stored && Replayable(s) && h == Header(Lower(s.name), s.value)
  {
    if stored == [] then []
    else
      var rest, h := ReplayHeaders(stored[1..]), stored[0];
      assert stored == [h] + stored[1..];
      match H.ParseName(h.name)
      case Some(name) => if name in REPLAYED_HEADERS then [Header(name, h.value)] + rest else rest
      case None => rest
  }

  /** In the order they are stored, each by itself. */
  lemma {:induction false} HeadersInOrder(first: seq<Header>, h: Header, later: seq<Header>)
    ensures ReplayHeaders(first + [h] + later) ==
      ReplayHeaders(first) + (if Replayable(h) then [Header(Lower(h.name), h.value)] else []) + ReplayHeaders(later)
  {
    var all := first + [h] + later;
    if first == [] {
      assert all[1..] == later;
    } else {
      assert all[1..] == first[1..] + [h] + later;
      HeadersInOrder(first[1..], h, later);
    }
  }

  function PathAndQuery(r: RequestInsert): string {
    match r.redactedQuery
    case Some(query) => r.path + "?" + query
    case None => r.path
  }

  /** All checks of a replay, in the order they are made. `target` is the origin of a valid
      target, `upstream` that of the recorded upstream. */
  function BuildReplay(r: RequestInsert, headers: seq<Header>, capture: Option<CaptureRow>, target: Option<string>,
                       upstream: Option<string>, confirm: bool, replayId: string, replayRequestId: string)
    : Result<ReplayRequest, ReplayError>
  {
    if target.None? then Err(InvalidTarget)
    else if upstream == target then Err(OriginalUpstreamTarget)
    else if !ValidVerb(r.verb) then Err(InvalidMethod)
    else if HasSideEffects(r.verb) && !confirm then Err(MissingConfirmation)
    else
      match ReplayBody(r.verb, capture)
      case Err(e) => Err(e)
      case Ok(body) =>
        Ok(ReplayRequest(replayId, replayRequestId, target.value, r.verb, PathAndQuery(r), body,
                         ReplayHeaders(headers)))
  }

  // ----- picking a request --------------------------------------------------------------------------------

  /** The row is chosen by one query and read by another; `later` is the store at the second,
      after whatever other tasks did in between. */
  method SelectRequest(storage: Storage, later: Tables, selector: Selector)
    returns (picked: Result<RequestId, ReplayError>)
    ensures picked.Ok? ==> picked.value in later.requests
    ensures selector.ById? ==>
      picked == if selector.id in later.requests then Ok(selector.id) else Err(RequestNotFound)
    ensures selector.LastFailed? ==>
      match picked
      case Ok(id) => LastFailedIn(storage.db, id)
      case Err(e) =>
        || (e == NoFailedRequest && forall id :: id in storage.db.requests ==> !storage.db.requests[id].isError)
        || (e == RequestNotFound && exists id :: LastFailedIn(storage.db, id) && id !in later.requests)
  {
    match selector
    case ById(id) =>
      if id in later.requests {
        return Ok(id);
      }
      return Err(RequestNotFound);
    case LastFailed =>
      var f := ListFilters(true, false, None, None, 1);
      var ids := storage.ListRequests(f);
      if ids == [] {
        assert forall id :: id in storage.db.requests ==> !Selected(storage.db.requests[id], f);
        return Err(NoFailedRequest);
      }
      forall other | other in storage.db.requests && storage.db.requests[other].isError
        ensures storage.db.requests[other].createdAt <= storage.db.requests[ids[0]].createdAt
      {
        assert Selected(storage.db.requests[other], f);
      }
      assert LastFailedIn(storage.db, ids[0]);
      if ids[0] in later.requests {
        return Ok(ids[0]);
      }
      return Err(RequestNotFound);
  }

  /** A failed request no failed one is newer than. */
  predicate LastFailedIn(t: Tables, id: RequestId) {
    && id in t.requests && t.requests[id].isError
    && forall other :: other in t.requests && t.requests[other].isError ==>
      t.requests[other].createdAt <= t.requests[id].createdAt
  }

  // ----- the audit row ------------------------------------------------------------------------------------------

  /** A full response, a response whose body failed, or no response. */
  datatype Sent = Responded(status: int) | BrokenBody(reason: string) | NoResponse(reason: string)

  function AuditRow(id: RequestId, req: ReplayRequest, sent: Sent, now: int): ReplayRow {
    ReplayRow(id, req.replayRequestId, req.target, req.verb, req.path,
              if sent.Responded? then Some(sent.status) else None,
              if sent.Responded? then None else Some(sent.reason),
              now)
  }

  /** What the row says: the request, what was sent where, and either the status or the reason there is
      none. */
  predicate AuditTells(row: ReplayRow, id: RequestId, req: ReplayRequest, sent: Sent, now: int) {
    && row.originalRequestId == id && row.replayRequestId == req.replayRequestId && row.target == req.target
    && row.verb == req.verb && row.path == req.path && row.createdAt == now
    && match sent
       case Responded(status) => row.status == Some(status) && row.error == None
       case BrokenBody(reason) => row.status == None && row.error == Some(reason)
       case NoResponse(reason) => row.status == None && row.error == Some(reason)
  }

  /** Whatever became of the dispatch, exactly one row records it, unless the insert fails or the
      store refuses the row; only then is the outcome a storage error. */
  method DispatchReplay(storage: Storage, id: RequestId, req: ReplayRequest, sent: Sent, now: int, fault: bool)
    returns (outcome: Result<int, ReplayError>)
    modifies storage
    ensures storage.db ==
      if fault then old(storage.db) else Execute(old(storage.db), AddReplay(req.replayId, AuditRow(id, req, sent, now)))
    ensures outcome == Err(StorageFailed) <==>
      fault || req.replayId in old(storage.db).replays || id !in old(storage.db).requests
    ensures outcome != Err(StorageFailed) ==>
      && storage.db.replays == old(storage.db).replays[req.replayId := AuditRow(id, req, sent, now)]
      && AuditTells(storage.db.replays[req.replayId], id, req, sent, now)
      && outcome == if sent.Responded? then Ok(sent.status) else Err(DispatchFailed)
  {
    var ok := storage.InsertReplayRun(req.replayId, AuditRow(id, req, sent, now), fault);
    if !ok {
      return Err(StorageFailed);
    }
    return if sent.Responded? then Ok(sent.status) else Err(DispatchFailed);
  }
}
