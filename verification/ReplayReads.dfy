/** A replay reads the request row, its headers and its capture with separate statements, so
    anything may be committed, pruned or evicted between them. What it then sends, exactly when
    that is one recording, and the runs in which it is less than one might expect. */
module ReplayReads {
  import opened Domain
  import opened Text
  import opened Store
  import opened Capture
  import opened EndToEnd
  import L = Ledger
  import R = Replay
  import H = Headers

  // ----- which recording a row belongs to --------------------------------------------------------------

  /** What an action does to the queue. */
  function QueueAction(p: Pipeline, a: Action): Option<L.Action>
    requires Enabled(p, a)
  {
    match a
    case Finalized(rec) => Some(L.Offer(Written(rec)))
    case Queue(q) => Some(q)
    case Write(fault) => Some(L.Finish(!fault && Storable(p.db, p.queue.writing[0].write)))
    case Store(_) => None
  }

  /** The latest recording of an id is one whose write was stored. */
  ghost predicate LatestStored(p: Pipeline) {
    L.ExactlyOnce(p.queue) && forall id :: id in p.latest ==> L.Persisted(p.queue, p.latest[id])
  }

  lemma StepKeepsLatestStored(p: Pipeline, a: Action)
    requires Enabled(p, a) && LatestStored(p)
    ensures LatestStored(Step(p, a))
  {
    var next, q := Step(p, a), QueueAction(p, a);
    if q.Some? {
      L.StepKeepsExactlyOnce(p.queue, q.value);
      forall id | id in next.latest
        ensures L.Persisted(next.queue, next.latest[id])
      {
        if id in p.latest {
          L.PersistedGrows(p.queue, q.value);
          StoredStays(p.queue, next.queue, p.latest[id]);
        }
        if q.value == L.Finish(true) {
          L.FinishPersists(p.queue);
        }
      }
    }
  }

  lemma {:induction false} LatestStoredThroughout(trace: seq<Pipeline>, actions: seq<Action>, capacity: nat, k: nat)
    requires Behaviour(trace, actions, capacity) && k <= |actions|
    ensures LatestStored(trace[k])
  {
    if k > 0 {
      LatestStoredThroughout(trace, actions, capacity, k - 1);
      StepKeepsLatestStored(trace[k - 1], actions[k - 1]);
    }
  }

  /** The action commits a write for this id. */
  predicate Commits(p: Pipeline, a: Action, id: RequestId) {
    && a.Write? && !a.fault && p.queue.writing != []
    && Storable(p.db, p.queue.writing[0].write) && p.queue.writing[0].write.record.requestId == id
  }

  predicate NoCommit(trace: seq<Pipeline>, actions: seq<Action>, i: nat, j: nat, id: RequestId)
    requires j <= |actions| && j < |trace|
  {
    forall k :: i <= k < j ==> !Commits(trace[k], actions[k], id)
  }

  lemma StepKeepsStored(p: Pipeline, a: Action)
    requires Enabled(p, a)
    ensures p.queue.persisted <= Step(p, a).queue.persisted
  {
    var q := QueueAction(p, a);
    if q.Some? {
      L.PersistedGrows(p.queue, q.value);
    }
  }

  lemma {:induction false} StoredGrows(trace: seq<Pipeline>, actions: seq<Action>, capacity: nat, i: nat, j: nat)
    requires Behaviour(trace, actions, capacity) && i <= j <= |actions|
    ensures trace[i].queue.persisted <= trace[j].queue.persisted
    decreases j
  {
    if i < j {
      StoredGrows(trace, actions, capacity, i, j - 1);
      StepKeepsStored(trace[j - 1], actions[j - 1]);
    }
  }

  lemma StoredStays(early: L.Queue, late: L.Queue, t: nat)
    requires L.Persisted(early, t) && early.persisted <= late.persisted
    ensures L.Persisted(late, t)
  {
    var e :| e in early.persisted && e.ticket == t;
    assert e in late.persisted;
  }

  lemma {:induction false} RecordingsGrow(trace: seq<Pipeline>, actions: seq<Action>, capacity: nat, i: nat, j: nat)
    requires Behaviour(trace, actions, capacity) && i <= j <= |actions|
    ensures trace[i].recordings <= trace[j].recordings
    decreases j
  {
    if i < j {
      RecordingsGrow(trace, actions, capacity, i, j - 1);
    }
  }

  /** A commit names a recording that was not stored before; nothing else changes the latest one. */
  lemma LatestAfter(p: Pipeline, a: Action, id: RequestId, t: nat)
    requires Enabled(p, a) && LatestStored(p) && L.Persisted(p.queue, t) && id in p.latest
    ensures id in Step(p, a).latest
    ensures Step(p, a).latest[id] == t <==> p.latest[id] == t && !Commits(p, a, id)
  {
    if Commits(p, a, id) {
      L.WritingIsNew(p.queue, t);
    }
  }

  lemma LatestStays(trace: seq<Pipeline>, actions: seq<Action>, capacity: nat, i: nat, k: nat, id: RequestId)
    requires Behaviour(trace, actions, capacity) && i <= k < |actions|
    requires id in trace[i].latest && id in trace[k].latest
    ensures id in trace[k + 1].latest
    ensures trace[k + 1].latest[id] == trace[i].latest[id] <==>
      trace[k].latest[id] == trace[i].latest[id] && !Commits(trace[k], actions[k], id)
  {
    LatestStoredThroughout(trace, actions, capacity, i);
    StoredGrows(trace, actions, capacity, i, k);
    StoredStays(trace[i].queue, trace[k].queue, trace[i].latest[id]);
    LatestStoredThroughout(trace, actions, capacity, k);
    LatestAfter(trace[k], actions[k], id, trace[i].latest[id]);
  }

  lemma {:induction false} LatestSince(trace: seq<Pipeline>, actions: seq<Action>, capacity: nat, i: nat, j: nat,
                                       id: RequestId)
    requires Behaviour(trace, actions, capacity) && i <= j <= |actions| && id in trace[i].latest
    ensures id in trace[j].latest
    ensures trace[j].latest[id] == trace[i].latest[id] <==> Untouched(trace, actions, i, j, id)
    decreases j
  {
    if i < j {
      LatestSince(trace, actions, capacity, i, j - 1, id);
      LatestStays(trace, actions, capacity, i, j - 1, id);
    }
  }

  /** No commit of the id, step by step. */
  predicate Untouched(trace: seq<Pipeline>, actions: seq<Action>, i: nat, j: nat, id: RequestId)
    requires j <= |actions| && j < |trace|
    decreases j
  {
    i < j ==> Untouched(trace, actions, i, j - 1, id) && !Commits(trace[j - 1], actions[j - 1], id)
  }

  lemma {:induction false} UntouchedMeansNoCommit(trace: seq<Pipeline>, actions: seq<Action>, i: nat, j: nat,
                                                  id: RequestId)
    requires j <= |actions| && j < |trace|
    ensures Untouched(trace, actions, i, j, id) <==> NoCommit(trace, actions, i, j, id)
    decreases j
  {
    if i < j {
      UntouchedMeansNoCommit(trace, actions, i, j - 1, id);
    }
  }

  /** Two moments see the same recording of an id exactly when no write of that id commits
      between them. */
  lemma SameRecordingExactly(trace: seq<Pipeline>, actions: seq<Action>, capacity: nat, i: nat, j: nat, id: RequestId)
    requires Behaviour(trace, actions, capacity) && i <= j <= |actions| && id in trace[i].latest
    ensures id in trace[j].latest
    ensures trace[j].latest[id] == trace[i].latest[id] <==> NoCommit(trace, actions, i, j, id)
  {
    LatestSince(trace, actions, capacity, i, j, id);
    UntouchedMeansNoCommit(trace, actions, i, j, id);
  }

  // ----- header rows ------------------------------------------------------------------------------------

  predicate HeadersParented(db: Tables) {
    forall h :: h in db.requestHeaders ==> h.requestId in db.requests
  }

  predicate HeadersTraced(p: Pipeline) {
    && HeadersParented(p.db)
    && forall id :: id in p.db.requests ==> HeadersTracedAt(p, id)
  }

  predicate HeadersTracedAt(p: Pipeline, id: RequestId) {
    && id in p.latest && p.latest[id] < |p.recordings|
    && HeadersFrom(p.db, id, Written(p.recordings[p.latest[id]]))
  }

  lemma StatementKeepsHeaders(db: Tables, s: Statement, id: RequestId, w: CaptureWrite)
    requires HeadersFrom(db, id, w) && (s.Insert? ==> s.w.record.requestId != id)
    ensures id in Execute(db, s).requests ==> HeadersFrom(Execute(db, s), id, w)
  {
    match s
    case Insert(v, fault) => InsertSetsHeaders(db, v, id);
    case Prune(cutoff) =>
      if id !in ExpiredIds(db, cutoff) {
        DeleteKeepsHeaders(db, ExpiredIds(db, cutoff), id);
      }
    case _ =>
  }

  lemma StatementKeepsHeaderParents(db: Tables, s: Statement)
    requires HeadersParented(db)
    ensures HeadersParented(Execute(db, s))
  {
  }

  lemma WriteKeepsHeaders(p: Pipeline, fault: bool, id: RequestId)
    requires Enabled(p, Write(fault)) && Invariant(p) && HeadersTraced(p)
    requires id in Step(p, Write(fault)).db.requests
    ensures HeadersTracedAt(Step(p, Write(fault)), id)
  {
    var e := p.queue.writing[0];
    assert L.Genuine(p.queue.offered, e);
    if !fault && Storable(p.db, e.write) && id == e.write.record.requestId {
      InsertSetsHeaders(p.db, e.write, id);
    } else {
      assert HeadersTracedAt(p, id);
      if !fault && Storable(p.db, e.write) {
        StatementKeepsHeaders(p.db, Insert(e.write, fault), id, Written(p.recordings[p.latest[id]]));
      }
    }
  }

  lemma OtherKeepsHeaders(p: Pipeline, a: Action, id: RequestId)
    requires Enabled(p, a) && HeadersTraced(p) && !a.Write?
    requires id in Step(p, a).db.requests
    ensures HeadersTracedAt(Step(p, a), id)
  {
    assert id in p.db.requests && HeadersTracedAt(p, id);
    if a.Store? {
      StatementKeepsHeaders(p.db, a.s, id, Written(p.recordings[p.latest[id]]));
    }
  }

  lemma StepKeepsHeaders(p: Pipeline, a: Action)
    requires Enabled(p, a) && Invariant(p) && HeadersTraced(p)
    ensures HeadersTraced(Step(p, a))
  {
    match a {
      case Write(fault) => StatementKeepsHeaderParents(p.db, Insert(p.queue.writing[0].write, fault));
      case Store(s) => StatementKeepsHeaderParents(p.db, s);
      case _ =>
    }
    forall id | id in Step(p, a).db.requests
      ensures HeadersTracedAt(Step(p, a), id)
    {
      if a.Write? {
        WriteKeepsHeaders(p, a.fault, id);
      } else {
        OtherKeepsHeaders(p, a, id);
      }
    }
  }

  lemma {:induction false} HeadersThroughout(trace: seq<Pipeline>, actions: seq<Action>, capacity: nat, k: nat)
    requires Behaviour(trace, actions, capacity) && k <= |actions|
    ensures HeadersTraced(trace[k])
  {
    if k > 0 {
      HeadersThroughout(trace, actions, capacity, k - 1);
      InvariantThroughout(trace, actions, capacity, k - 1);
      StepKeepsHeaders(trace[k - 1], actions[k - 1]);
    }
  }

  // ----- three reads --------------------------------------------------------------------------------------

  /** An answer to the header query. */
  ghost predicate Listing(db: Tables, id: RequestId, headers: seq<Header>) {
    forall h :: h in headers <==> RowOf(id, h) in db.requestHeaders
  }

  function OriginOf(origin: string -> Option<string>, upstream: Option<string>): Option<string> {
    if upstream.Some? then origin(upstream.value) else None
  }

  /** The latest recording of an id in a state. */
  function Latest(p: Pipeline, id: RequestId): Recording
    requires id in p.latest && p.latest[id] < |p.recordings|
  {
    p.recordings[p.latest[id]]
  }

  /** The replay built from a row read in state `r`, headers and a capture read in state `c`. */
  function Built(r: Pipeline, c: Pipeline, id: RequestId, headers: seq<Header>, target: Option<string>,
                 origin: string -> Option<string>, confirm: bool, replayId: string, replayRequestId: string)
    : Result<R.ReplayRequest, R.ReplayError>
    requires id in r.db.requests
  {
    R.BuildReplay(r.db.requests[id], headers, CaptureOf(c.db, id), target, OriginOf(origin, r.db.requests[id].upstream),
                  confirm, replayId, replayRequestId)
  }

  /** Method, path, target and confirmation follow the recording that was latest when the row was
      read. */
  lemma RowRead(trace: seq<Pipeline>, actions: seq<Action>, capacity: nat, i: nat, j: nat, id: RequestId,
                headers: seq<Header>, target: Option<string>, origin: string -> Option<string>, confirm: bool,
                replayId: string, replayRequestId: string)
    requires Behaviour(trace, actions, capacity) && i <= j <= |actions| && id in trace[i].db.requests
    requires Built(trace[i], trace[j], id, headers, target, origin, confirm, replayId, replayRequestId).Ok?
    ensures id in trace[i].latest && trace[i].latest[id] < |trace[i].recordings|
    ensures var out := Built(trace[i], trace[j], id, headers, target, origin, confirm, replayId, replayRequestId).value;
      var record := Latest(trace[i], id).setup.record;
      && out.verb == record.verb && out.path == R.PathAndQuery(record)
      && OriginOf(origin, record.upstream) != Some(out.target)
      && (R.HasSideEffects(record.verb) ==> confirm)
  {
    InvariantThroughout(trace, actions, capacity, i);
    assert TracedAt(trace[i], id);
  }

  /** The headers follow the recording that was latest when they were read. */
  lemma HeadersRead(trace: seq<Pipeline>, actions: seq<Action>, capacity: nat, h: nat, id: RequestId,
                    headers: seq<Header>)
    requires Behaviour(trace, actions, capacity) && h <= |actions| && Listing(trace[h].db, id, headers)
    ensures id !in trace[h].db.requests ==> R.ReplayHeaders(headers) == []
    ensures id in trace[h].db.requests ==>
      && id in trace[h].latest && trace[h].latest[id] < |trace[h].recordings|
      && forall x :: x in R.ReplayHeaders(headers) <==>
        exists s :: s in Latest(trace[h], id).setup.requestHeaders && R.Replayable(s) &&
          x == Header(Lower(s.name), s.value)
  {
    HeadersThroughout(trace, actions, capacity, h);
    if id in trace[h].db.requests {
      assert HeadersTracedAt(trace[h], id);
      SameListing(trace[h].db, id, headers, Latest(trace[h], id).setup.requestHeaders);
    } else {
      if headers != [] {
        ListedHasParent(trace[h].db, id, headers);
      }
    }
  }

  lemma ListedHasParent(db: Tables, id: RequestId, headers: seq<Header>)
    requires HeadersParented(db) && Listing(db, id, headers) && headers != []
    ensures id in db.requests
  {
    assert headers[0] in headers;
    assert RowOf(id, headers[0]) in db.requestHeaders;
  }

  lemma SameListing(db: Tables, id: RequestId, listed: seq<Header>, written: seq<Header>)
    requires Listing(db, id, listed) && RowsOf(db.requestHeaders, id) == HeaderRows(id, written)
    ensures forall x :: x in listed <==> x in written
  {
    forall x
      ensures x in listed <==> x in written
    {
      assert x in listed <==> RowOf(id, x) in RowsOf(db.requestHeaders, id);
      if RowOf(id, x) in HeaderRows(id, written) {
        var y :| y in written && RowOf(id, y) == RowOf(id, x);
        assert y == x;
      }
    }
  }

  /** The body is every byte of the recording that was latest when the capture was read, if that is
      captured whole and still stored; otherwise there is none. */
  lemma BodyRead(trace: seq<Pipeline>, actions: seq<Action>, capacity: nat, j: nat, id: RequestId, verb: string)
    requires Behaviour(trace, actions, capacity) && j <= |actions|
    requires R.ReplayBody(verb, CaptureOf(trace[j].db, id)).Ok?
    ensures var body := R.ReplayBody(verb, CaptureOf(trace[j].db, id)).value;
      && (id !in trace[j].db.requests ==> body == None)
      && (id in trace[j].db.requests ==>
            && id in trace[j].latest && trace[j].latest[id] < |trace[j].recordings|
            && (body.Some? <==> WholeBodyStored(trace[j].db, id, Latest(trace[j], id)))
            && (body.Some? ==> body.value == Concat(Latest(trace[j], id).request)))
      && (R.RequiresBody(verb) ==> body.Some?)
  {
    InvariantThroughout(trace, actions, capacity, j);
    if id in trace[j].db.requests {
      ReplayCarriesWholeBody(trace, actions, capacity, j, id, verb);
    }
  }

  /** A replay whose row, headers and capture are read in states `i`, `h` and `j` of any run sends the
      method and path of the recording latest at `i`, the headers of that latest at `h`, and every
      byte of that latest at `j` or no body. */
  lemma ReplayRepeatsRecording(trace: seq<Pipeline>, actions: seq<Action>, capacity: nat, i: nat, h: nat, j: nat,
                               id: RequestId, headers: seq<Header>, target: Option<string>,
                               origin: string -> Option<string>, confirm: bool, replayId: string,
                               replayRequestId: string)
    requires Behaviour(trace, actions, capacity) && i <= h <= j <= |actions| && id in trace[i].db.requests
    requires Listing(trace[h].db, id, headers)
    requires Built(trace[i], trace[j], id, headers, target, origin, confirm, replayId, replayRequestId).Ok?
    ensures id in trace[i].latest && trace[i].latest[id] < |trace[i].recordings|
    ensures id in trace[h].latest && trace[h].latest[id] < |trace[h].recordings|
    ensures id in trace[j].latest && trace[j].latest[id] < |trace[j].recordings|
    ensures var out := Built(trace[i], trace[j], id, headers, target, origin, confirm, replayId, replayRequestId).value;
      var row, head, body := Latest(trace[i], id), Latest(trace[h], id), Latest(trace[j], id);
      && out.verb == row.setup.record.verb && out.path == R.PathAndQuery(row.setup.record)
      && OriginOf(origin, row.setup.record.upstream) != Some(out.target)
      && (R.HasSideEffects(row.setup.record.verb) ==> confirm)
      && (id !in trace[h].db.requests ==> out.headers == [])
      && (id in trace[h].db.requests ==>
            forall x :: x in out.headers <==>
              exists s :: s in head.setup.requestHeaders && R.Replayable(s) && x == Header(Lower(s.name), s.value))
      && (out.body.Some? <==> WholeBodyStored(trace[j].db, id, body))
      && (out.body.Some? ==> out.body.value == Concat(body.request))
      && (R.RequiresBody(out.verb) ==> out.body.Some?)
  {
    RowRead(trace, actions, capacity, i, j, id, headers, target, origin, confirm, replayId, replayRequestId);
    HeadersRead(trace, actions, capacity, h, id, headers);
    BodyRead(trace, actions, capacity, j, id, trace[i].db.requests[id].verb);
    LatestInRange(trace, actions, capacity, i, h, id);
    LatestInRange(trace, actions, capacity, i, j, id);
    InvariantThroughout(trace, actions, capacity, j);
  }

  // ----- when a replay is built, and what refuses it ----------------------------------------------------------

  predicate NeedsBody(verb: string) {
    verb == "POST" || verb == "PUT" || verb == "PATCH"
  }

  /** What the body read refuses, if anything: a body that was never captured or is gone with its row,
      one that was evicted, one that was cut. */
  function BodyError(db: Tables, id: RequestId, rec: Recording, verb: string): Option<R.ReplayError> {
    if CutBodyStored(db, id, rec) then Some(R.TruncatedBody)
    else if !NeedsBody(verb) || WholeBodyStored(db, id, rec) then None
    else if id in db.captures && db.captures[id].bodyEvicted then Some(R.EvictedBody)
    else Some(R.MissingBody)
  }

  lemma BodyErrorExactly(trace: seq<Pipeline>, actions: seq<Action>, capacity: nat, j: nat, id: RequestId, verb: string)
    requires Behaviour(trace, actions, capacity) && j <= |actions| && id in trace[j].db.requests
    ensures id in trace[j].latest && trace[j].latest[id] < |trace[j].recordings|
    ensures var error := BodyError(trace[j].db, id, Latest(trace[j], id), verb);
      var body := R.ReplayBody(verb, CaptureOf(trace[j].db, id));
      && (body.Ok? <==> error == None)
      && (body.Err? ==> error == Some(body.error))
  {
    ReplayCarriesWholeBody(trace, actions, capacity, j, id, verb);
    InvariantThroughout(trace, actions, capacity, j);
    assert TracedAt(trace[j], id);
  }

  /** A replay is built from a row read in state `i` and a capture read in state `j` of any run exactly
      when the target is valid and not where the recorded request went, the recorded method is a token,
      a method with side effects is confirmed, and the body read refuses nothing; otherwise the first
      of these decides the error. What is built has the given target and ids, and a recorded query
      behind its path. */
  lemma BuiltExactly(trace: seq<Pipeline>, actions: seq<Action>, capacity: nat, i: nat, j: nat, id: RequestId,
                     headers: seq<Header>, target: Option<string>, origin: string -> Option<string>, confirm: bool,
                     replayId: string, replayRequestId: string)
    requires Behaviour(trace, actions, capacity) && i <= j <= |actions| && id in trace[i].db.requests
    ensures id in trace[i].latest && trace[i].latest[id] < |trace[i].recordings|
    ensures id in trace[j].latest && trace[j].latest[id] < |trace[j].recordings|
    ensures var built := Built(trace[i], trace[j], id, headers, target, origin, confirm, replayId, replayRequestId);
      var record := Latest(trace[i], id).setup.record;
      var error := if id in trace[j].db.requests then BodyError(trace[j].db, id, Latest(trace[j], id), record.verb)
                   else if NeedsBody(record.verb) then Some(R.MissingBody) else None;
      if target == None then built == Err(R.InvalidTarget)
      else if record.upstream.Some? && origin(record.upstream.value) == target then
        built == Err(R.OriginalUpstreamTarget)
      else if record.verb == "" || exists c :: c in record.verb && !H.TokenCode(c as int) then
        built == Err(R.InvalidMethod)
      else if (NeedsBody(record.verb) || record.verb == "DELETE") && !confirm then built == Err(R.MissingConfirmation)
      else if error.Some? then built == Err(error.value)
      else
        && built.Ok? && built.value.target == target.value
        && built.value.replayId == replayId && built.value.replayRequestId == replayRequestId
        && built.value.path ==
             if record.redactedQuery.Some? then record.path + "?" + record.redactedQuery.value else record.path
  {
    InvariantThroughout(trace, actions, capacity, i);
    assert TracedAt(trace[i], id);
    LatestInRange(trace, actions, capacity, i, j, id);
    TokensExactly(trace[i].db.requests[id].verb);
    if id in trace[j].db.requests {
      BodyErrorExactly(trace, actions, capacity, j, id, trace[i].db.requests[id].verb);
    } else {
      InvariantThroughout(trace, actions, capacity, j);
    }
  }

  /** A method is valid exactly when it is made of token characters. */
  lemma TokensExactly(verb: string)
    ensures R.ValidVerb(verb) <==> verb != "" && forall c :: c in verb ==> H.TokenCode(c as int)
  {
    if R.ValidVerb(verb) {
      forall c | c in verb
        ensures H.TokenCode(c as int)
      {
        var k :| 0 <= k < |verb| && verb[k] == c;
        assert H.IsToken(verb[k]);
        H.TokensByCode(c);
      }
    } else if verb != "" {
      var k :| 0 <= k < |verb| && !H.IsToken(verb[k]);
      H.TokensByCode(verb[k]);
      assert verb[k] in verb;
    }
  }

  predicate LatestRecorded(p: Pipeline) {
    forall id :: id in p.latest ==> p.latest[id] < |p.recordings|
  }

  lemma {:induction false} LatestRecordedThroughout(trace: seq<Pipeline>, actions: seq<Action>, capacity: nat, k: nat)
    requires Behaviour(trace, actions, capacity) && k <= |actions|
    ensures LatestRecorded(trace[k])
  {
    if k > 0 {
      LatestRecordedThroughout(trace, actions, capacity, k - 1);
      InvariantThroughout(trace, actions, capacity, k - 1);
      var p := trace[k - 1];
      if p.queue.writing != [] {
        assert L.Genuine(p.queue.offered, p.queue.writing[0]);
      }
    }
  }

  lemma LatestInRange(trace: seq<Pipeline>, actions: seq<Action>, capacity: nat, i: nat, j: nat, id: RequestId)
    requires Behaviour(trace, actions, capacity) && i <= j <= |actions| && id in trace[i].latest
    ensures id in trace[j].latest && trace[j].latest[id] < |trace[j].recordings|
  {
    SameRecordingExactly(trace, actions, capacity, i, j, id);
    LatestRecordedThroughout(trace, actions, capacity, j);
  }

  /** All three are one recording exactly when no write of the id commits between the first read
      and the last. */
  lemma OneRecordingExactly(trace: seq<Pipeline>, actions: seq<Action>, capacity: nat, i: nat, h: nat, j: nat,
                            id: RequestId)
    requires Behaviour(trace, actions, capacity) && i <= h <= j <= |actions| && id in trace[i].db.requests
    ensures id in trace[i].latest && id in trace[h].latest && id in trace[j].latest
    ensures trace[i].latest[id] == trace[h].latest[id] == trace[j].latest[id] <==> NoCommit(trace, actions, i, j, id)
    ensures NoCommit(trace, actions, i, j, id) ==>
      && trace[i].latest[id] < |trace[i].recordings| <= |trace[j].recordings|
      && Latest(trace[i], id) == trace[j].recordings[trace[j].latest[id]]
  {
    InvariantThroughout(trace, actions, capacity, i);
    assert TracedAt(trace[i], id);
    SameRecordingExactly(trace, actions, capacity, i, h, id);
    SameRecordingExactly(trace, actions, capacity, i, j, id);
    SameRecordingExactly(trace, actions, capacity, h, j, id);
    RecordingsGrow(trace, actions, capacity, i, j);
  }

  // ----- recorded bodies that a replay leaves out ------------------------------------------------------------

  /** A run that passes `p` and then reaches `q`. */
  ghost predicate Leads(capacity: nat, p: Pipeline, q: Pipeline) {
    exists trace, actions, i :: Passes(capacity, trace, actions, i, p, q)
  }

  predicate Passes(capacity: nat, trace: seq<Pipeline>, actions: seq<Action>, i: nat, p: Pipeline, q: Pipeline) {
    Behaviour(trace, actions, capacity) && i <= |actions| && trace[i] == p && trace[|actions|] == q
  }

  ghost predicate Reachable(capacity: nat, p: Pipeline) {
    Leads(capacity, p, p)
  }

  lemma StartReachable(capacity: nat)
    ensures Reachable(capacity, Start(capacity))
  {
    assert Passes(capacity, [Start(capacity)], [], 0, Start(capacity), Start(capacity));
  }

  lemma StepLeads(capacity: nat, p: Pipeline, q: Pipeline, a: Action) returns (next: Pipeline)
    requires Leads(capacity, p, q) && Enabled(q, a)
    ensures next == Step(q, a) && Leads(capacity, p, next) && Reachable(capacity, next)
  {
    next := Step(q, a);
    var trace, actions, i :| Passes(capacity, trace, actions, i, p, q);
    var longer, more := trace + [next], actions + [a];
    forall k | 0 <= k < |more|
      ensures Enabled(longer[k], more[k]) && longer[k + 1] == Step(longer[k], more[k])
    {
      if k < |actions| {
        assert longer[k] == trace[k] && longer[k + 1] == trace[k + 1] && more[k] == actions[k];
      }
    }
    assert Passes(capacity, longer, more, i, p, next);
    assert Passes(capacity, longer, more, |more|, next, next);
  }

  lemma StepReachable(capacity: nat, p: Pipeline, a: Action) returns (next: Pipeline)
    requires Reachable(capacity, p) && Enabled(p, a)
    ensures next == Step(p, a) && Reachable(capacity, next)
  {
    next := StepLeads(capacity, p, p, a);
  }

  /** A recording whose request body is captured whole. */
  predicate WholeBodyRecorded(rec: Recording) {
    && rec.setup.shouldCapture && rec.setup.requestEnabled && rec.request != []
    && |Concat(rec.request)| <= rec.setup.requestLimit
    && !rec.setup.record.captureDropped
  }

  /** The body of `rec` is gone from a reachable state that still has its record, and a replay with
      any method that does not demand a body goes out without it. */
  ghost predicate ReplaysWithout(capacity: nat, p: Pipeline, rec: Recording) {
    var id := rec.setup.record.requestId;
    && Reachable(capacity, p) && id in p.db.requests
    && id in p.latest && p.latest[id] < |p.recordings| && p.recordings[p.latest[id]] == rec
    && forall verb :: !R.RequiresBody(verb) ==> R.ReplayBody(verb, CaptureOf(p.db, id)) == Ok(None)
  }

  /** Retention evicts it. */
  lemma EvictedBodyLeftOut(rec: Recording) returns (p: Pipeline)
    requires WholeBodyRecorded(rec) && Storable(EMPTY, Written(rec))
    ensures ReplaysWithout(1, p, rec)
  {
    StartReachable(1);
    p := StepReachable(1, Start(1), Finalized(rec));
    p := StepReachable(1, p, Queue(L.Receive));
    p := StepReachable(1, p, Write(false));
    p := StepReachable(1, p, Store(Evict(rec.setup.record.requestId)));
  }

  /** A second offer meets a full queue and is sent as metadata only, while the first write fails. */
  lemma StrippedInQueue(rec: Recording) returns (p: Pipeline)
    requires WholeBodyRecorded(rec)
    ensures Reachable(1, p) && p.db == EMPTY && p.recordings == [rec, rec] && p.latest == map[]
    ensures !p.queue.closed && p.queue.writing == [] && p.queue.queue == [L.Entry(1, L.Fallback(Written(rec)))]
  {
    StartReachable(1);
    p := StepReachable(1, Start(1), Finalized(rec));
    p := StepReachable(1, p, Finalized(rec));
    p := StepReachable(1, p, Queue(L.Receive));
    p := StepReachable(1, p, Queue(L.Retry(0)));
    p := StepReachable(1, p, Write(true));
  }

  /** Or a full queue strips it. */
  lemma StrippedBodyLeftOut(rec: Recording) returns (p: Pipeline)
    requires WholeBodyRecorded(rec) && Storable(EMPTY, Written(rec))
    ensures ReplaysWithout(1, p, rec)
  {
    p := StrippedInQueue(rec);
    p := StepReachable(1, p, Queue(L.Receive));
    p := StepReachable(1, p, Write(false));
  }

  /** A DELETE with a body, recorded whole, that is replayed without it after either. */
  lemma DeleteBodyLeftOut() returns (rec: Recording, evicted: Pipeline, stripped: Pipeline)
    ensures rec.setup.record.verb == "DELETE" && Concat(rec.request) != []
    ensures ReplaysWithout(1, evicted, rec) && ReplaysWithout(1, stripped, rec)
  {
    var record := RequestInsert("r", None, "DELETE", "/", None, 500, None, true, false, false, 0);
    var body: Body := [7];
    rec := Recording(Setup(record, [], [], true, [], true, 1, false, 0), [body], []);
    ConcatAppend([], body);
    assert [] + [body] == [body] && [] + body == body;
    evicted := EvictedBodyLeftOut(rec);
    stripped := StrippedBodyLeftOut(rec);
  }

  // ----- one recording's request with another's body --------------------------------------------------------

  /** What every write of a handler satisfies: no repeated header pair, decisions of its own. */
  predicate Ordinary(rec: Recording) {
    Distinct(rec.setup.requestHeaders) && Distinct(rec.setup.responseHeaders) && OwnDecisions(Written(rec))
  }

  /** A recording goes through an idle pipeline and is committed. */
  lemma Committed(from: Pipeline, p: Pipeline, rec: Recording) returns (q: Pipeline)
    requires Leads(1, from, p) && WholeBodyRecorded(rec) && Ordinary(rec)
    requires !p.queue.closed && p.queue.capacity == 1 && p.queue.queue == [] && p.queue.writing == []
    requires |p.queue.offered| == |p.recordings|
    ensures Leads(1, from, q)
    ensures !q.queue.closed && q.queue.capacity == 1 && q.queue.queue == [] && q.queue.writing == []
    ensures q.recordings == p.recordings + [rec] && |q.queue.offered| == |q.recordings|
    ensures q.db == AfterInsert(p.db, Written(rec))
    ensures q.latest == p.latest[rec.setup.record.requestId := |p.recordings|]
  {
    q := StepLeads(1, from, p, Finalized(rec));
    q := StepLeads(1, from, q, Queue(L.Receive));
    q := StepLeads(1, from, q, Write(false));
  }

  /** Any two recordings under one id can be mixed: the row is read before the second commits, the
      capture after. */
  lemma ReadsCanMix(one: Recording, two: Recording) returns (p: Pipeline, q: Pipeline)
    requires WholeBodyRecorded(one) && Ordinary(one) && WholeBodyRecorded(two) && Ordinary(two)
    requires one.setup.record.requestId == two.setup.record.requestId
    ensures Leads(1, p, q)
    ensures var id := one.setup.record.requestId;
      && id in p.db.requests && p.db.requests[id] == one.setup.record
      && R.ReplayBody(one.setup.record.verb, CaptureOf(q.db, id)) == Ok(Some(Concat(two.request)))
  {
    StartReachable(1);
    p := Committed(Start(1), Start(1), one);
    PassesOn(1, Start(1), p);
    q := Committed(p, p, two);
  }

  lemma PassesOn(capacity: nat, from: Pipeline, p: Pipeline)
    requires Leads(capacity, from, p)
    ensures Reachable(capacity, p)
  {
    var trace, actions, i :| Passes(capacity, trace, actions, i, from, p);
    assert Passes(capacity, trace, actions, |actions|, p, p);
  }

  /** A PUT to /a goes out with the body of a PUT to /b. */
  lemma MixedReplay() returns (p: Pipeline, q: Pipeline)
    ensures Leads(1, p, q) && "r" in p.db.requests
    ensures var out := Built(p, q, "r", [], Some("t"), _ => None, true, "x", "y");
      out.Ok? && out.value.path == "/a" && out.value.body == Some([2])
  {
    var one: Body, two: Body := [1], [2];
    var a := RequestInsert("r", None, "PUT", "/a", None, 500, None, true, false, false, 0);
    var b := a.(path := "/b");
    ConcatAppend([], one);
    ConcatAppend([], two);
    assert [] + [one] == [one] && [] + one == one && [] + [two] == [two] && [] + two == two;
    p, q := ReadsCanMix(Recording(Setup(a, [], [], true, [], true, 1, false, 0), [one], []),
                        Recording(Setup(b, [], [], true, [], true, 1, false, 0), [two], []));
  }
}
