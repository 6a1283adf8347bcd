/** The bounded tee: what a capture buffer keeps of a streamed body, and the finalizer
    that hands the result over once, when the response body ends, fails or is dropped. */
module Capture {
  import opened Domain

  /** All recorded bytes, in order. */
  function Concat(chunks: seq<Body>): Body {
    if chunks == [] then [] else Concat(chunks[..|chunks| - 1]) + chunks[|chunks| - 1]
  }

  lemma ConcatAppend(chunks: seq<Body>, chunk: Body)
    ensures Concat(chunks + [chunk]) == Concat(chunks) + chunk
  {
    assert (chunks + [chunk])[..|chunks|] == chunks;
  }

  lemma {:induction false} ConcatSplit(left: seq<Body>, right: seq<Body>)
    ensures Concat(left + right) == Concat(left) + Concat(right)
  {
    if right == [] {
      assert left + right == left;
    } else {
      var last := right[|right| - 1];
      assert left + right == (left + right[..|right| - 1]) + [last];
      ConcatAppend(left + right[..|right| - 1], last);
      ConcatSplit(left, right[..|right| - 1]);
    }
  }

  datatype Snapshot = Snapshot(body: Option<Body>, truncated: bool, sha: Option<Digest>)

  /** What a buffer holds after `chunks`: the first `limit` bytes, flagged exactly when
      there were more, with the digest of every byte. */
  function SnapshotOf(enabled: bool, limit: nat, chunks: seq<Body>): Snapshot {
    if !enabled || chunks == [] then Snapshot(None, false, None)
    else
      var all := Concat(chunks);
      Snapshot(Some(Take(all, limit)), |all| > limit, Some(Sha256(all)))
  }

  class CaptureBuffer {
    const enabled: bool
    const limit: nat
    var body: Body
    var truncated: bool
    var sawBody: bool
    var hashed: Body
    ghost var chunks: seq<Body>

    ghost predicate Valid()
      reads this
    {
      && (enabled ==>
            && body == Take(Concat(chunks), limit)
            && (truncated <==> |Concat(chunks)| > limit)
            && (sawBody <==> chunks != [])
            && hashed == Concat(chunks))
      && (!enabled ==> body == [])
    }

    constructor (enabled: bool, limit: nat)
      ensures Valid() && chunks == []
      ensures this.enabled == enabled && this.limit == limit
    {
      this.enabled, this.limit := enabled, limit;
      body, truncated, sawBody, hashed, chunks := [], false, false, [], [];
    }

    method Record(chunk: Body)
      requires Valid()
      modifies this
      ensures Valid() && chunks == old(chunks) + [chunk]
    {
      ConcatAppend(chunks, chunk);
      chunks := chunks + [chunk];
      if !enabled {
        return;
      }
      sawBody := true;
      hashed := hashed + chunk;
      var remaining := if limit <= |body| then 0 else limit - |body|;
      if remaining == 0 {
        if chunk != [] {
          truncated := true;
        }
        return;
      }
      var copyLen := if remaining <= |chunk| then remaining else |chunk|;
      body := body + chunk[..copyLen];
      if copyLen < |chunk| {
        truncated := true;
      }
    }

    method CapturedLen() returns (n: nat)
      requires Valid()
      ensures n == if enabled then |Take(Concat(chunks), limit)| else 0
    {
      n := |body|;
    }

    method TakeSnapshot() returns (s: Snapshot)
      requires Valid()
      ensures s == SnapshotOf(enabled, limit, chunks)
    {
      if !enabled || !sawBody {
        return Snapshot(None, false, None);
      }
      return Snapshot(Some(body), truncated, Some(Sha256(hashed)));
    }
  }

  // ----- the streamed exchange ---------------------------------------------------------------

  datatype Frame = Data(bytes: Body) | Trailers

  /** What polling a body returns. */
  datatype Polled = Pending | Ready(frame: Frame) | Failed | Ended

  /** What the handler hands to the response body's finalizer. */
  datatype Setup = Setup(
    record: RequestInsert,
    requestHeaders: seq<Header>,
    responseHeaders: seq<Header>,
    shouldCapture: bool,
    decisions: seq<DecisionInsert>,
    requestEnabled: bool,
    requestLimit: nat,
    responseEnabled: bool,
    responseLimit: nat)

  /** The write for a request whose bodies were recorded in these chunks. */
  function WriteOf(setup: Setup, request: seq<Body>, response: seq<Body>): CaptureWrite {
    var req := SnapshotOf(setup.requestEnabled, setup.requestLimit, request);
    var resp := SnapshotOf(setup.responseEnabled, setup.responseLimit, response);
    CaptureWrite(
      setup.record, setup.requestHeaders, setup.responseHeaders,
      if setup.shouldCapture
      then Some(CaptureInsert(req.body, resp.body, req.truncated, resp.truncated, req.sha, resp.sha))
      else None,
      setup.decisions)
  }

  /** Field by field: each body is the first bytes up to its limit, flagged exactly when there were more,
      with the digest of all of them; a body without chunks, or whose tee is off, leaves nothing. */
  lemma WriteHolds(setup: Setup, request: seq<Body>, response: seq<Body>)
    ensures var w := WriteOf(setup, request, response);
      && w.record == setup.record && w.decisions == setup.decisions
      && w.requestHeaders == setup.requestHeaders && w.responseHeaders == setup.responseHeaders
      && (w.capture.Some? <==> setup.shouldCapture)
      && (w.capture.Some? ==>
            && BodyHolds(setup.requestEnabled, setup.requestLimit, request, w.capture.value.requestBody,
                         w.capture.value.requestTruncated, w.capture.value.requestSha)
            && BodyHolds(setup.responseEnabled, setup.responseLimit, response, w.capture.value.responseBody,
                         w.capture.value.responseTruncated, w.capture.value.responseSha))
  {
  }

  predicate BodyHolds(enabled: bool, limit: nat, chunks: seq<Body>, body: Option<Body>, truncated: bool,
                      sha: Option<Digest>)
  {
    if enabled && chunks != [] then
      && body == Some(if |Concat(chunks)| <= limit then Concat(chunks) else Concat(chunks)[..limit])
      && (truncated <==> |Concat(chunks)| > limit) && sha == Some(Sha256(Concat(chunks)))
    else
      body == None && !truncated && sha == None
  }

  /** The shared state of one exchange: chunks seen by each tee, and writes offered. */
  datatype Exchange = Exchange(request: seq<Body>, response: seq<Body>, offers: seq<CaptureWrite>, finalized: bool)

  datatype Event = RequestFrame(frame: Frame) | ResponsePoll(polled: Polled) | ResponseDrop

  function Recorded(frame: Frame): seq<Body> {
    match frame
    case Data(bytes) => [bytes]
    case Trailers => []
  }

  function Finalize(setup: Setup, x: Exchange): Exchange {
    if x.finalized then x
    else x.(finalized := true, offers := x.offers + [WriteOf(setup, x.request, x.response)])
  }

  function After(setup: Setup, x: Exchange, e: Event): Exchange {
    match e
    case RequestFrame(frame) => x.(request := x.request + Recorded(frame))
    case ResponsePoll(Pending) => x
    case ResponsePoll(Ready(frame)) => x.(response := x.response + Recorded(frame))
    case ResponsePoll(Failed) => Finalize(setup, x)
    case ResponsePoll(Ended) => Finalize(setup, x)
    case ResponseDrop => Finalize(setup, x)
  }

  /** The finalizer and both tees of one exchange, updated in place. */
  class CapturingBody {
    const setup: Setup
    const requestCapture: CaptureBuffer
    const responseCapture: CaptureBuffer
    var record: Option<RequestInsert>
    var finalized: bool
    var offers: seq<CaptureWrite>

    ghost predicate Valid()
      reads this, requestCapture, responseCapture
    {
      && requestCapture != responseCapture
      && requestCapture.Valid() && responseCapture.Valid()
      && requestCapture.enabled == setup.requestEnabled && requestCapture.limit == setup.requestLimit
      && responseCapture.enabled == setup.responseEnabled && responseCapture.limit == setup.responseLimit
      && (!finalized ==> record == Some(setup.record))
    }

    ghost function State(): Exchange
      reads this, requestCapture, responseCapture
    {
      Exchange(requestCapture.chunks, responseCapture.chunks, offers, finalized)
    }

    constructor (setup: Setup, requestCapture: CaptureBuffer)
      requires requestCapture.Valid()
      requires requestCapture.enabled == setup.requestEnabled && requestCapture.limit == setup.requestLimit
      ensures Valid() && fresh(responseCapture) && this.requestCapture == requestCapture && this.setup == setup
      ensures State() == Exchange(requestCapture.chunks, [], [], false)
    {
      this.setup, this.requestCapture := setup, requestCapture;
      responseCapture := new CaptureBuffer(setup.responseEnabled, setup.responseLimit);
      record, finalized, offers := Some(setup.record), false, [];
    }

    /** A frame of the request body passes through its tee. */
    method PollRequest(frame: Frame) returns (out: Frame)
      requires Valid()
      modifies requestCapture
      ensures Valid() && out == frame
      ensures State() == After(setup, old(State()), RequestFrame(frame))
    {
      out := frame;
      if frame.Data? {
        requestCapture.Record(frame.bytes);
      }
    }

    method Poll(polled: Polled) returns (out: Polled)
      requires Valid()
      modifies this, responseCapture
      ensures Valid() && out == polled
      ensures State() == After(setup, old(State()), ResponsePoll(polled))
    {
      out := polled;
      match polled
      case Pending =>
      case Ready(frame) =>
        if frame.Data? {
          responseCapture.Record(frame.bytes);
        }
      case Failed => RunFinalizer();
      case Ended => RunFinalizer();
    }

    method Drop()
      requires Valid()
      modifies this
      ensures Valid()
      ensures State() == After(setup, old(State()), ResponseDrop)
    {
      RunFinalizer();
    }

    method RunFinalizer()
      requires Valid()
      modifies this
      ensures Valid()
      ensures State() == Finalize(setup, old(State()))
    {
      if finalized {
        return;
      }
      finalized := true;
      if record.None? {
        return;
      }
      var taken := record.value;
      record := None;
      var req := requestCapture.TakeSnapshot();
      var resp := responseCapture.TakeSnapshot();
      var capture := if setup.shouldCapture
        then Some(CaptureInsert(req.body, resp.body, req.truncated, resp.truncated, req.sha, resp.sha))
        else None;
      offers := offers + [CaptureWrite(taken, setup.requestHeaders, setup.responseHeaders, capture, setup.decisions)];
    }
  }

  // ----- every order of polls and drops ---------------------------------------------------------

  function Play(setup: Setup, x: Exchange, events: seq<Event>): Exchange {
    if events == [] then x
    else After(setup, Play(setup, x, events[..|events| - 1]), events[|events| - 1])
  }

  predicate Terminal(e: Event) {
    e == ResponseDrop || e == ResponsePoll(Failed) || e == ResponsePoll(Ended)
  }

  function RequestChunks(events: seq<Event>): seq<Body> {
    if events == [] then []
    else RequestChunks(events[..|events| - 1]) +
         (match events[|events| - 1] case RequestFrame(f) => Recorded(f) case _ => [])
  }

  function ResponseChunks(events: seq<Event>): seq<Body> {
    if events == [] then []
    else ResponseChunks(events[..|events| - 1]) +
         (match events[|events| - 1] case ResponsePoll(Ready(f)) => Recorded(f) case _ => [])
  }

  /** Both tees see every chunk, terminal events or not. */
  lemma {:induction false} PlayRecords(setup: Setup, head: seq<Body>, events: seq<Event>)
    ensures var x := Play(setup, Exchange(head, [], [], false), events);
      x.request == head + RequestChunks(events) && x.response == ResponseChunks(events)
  {
    if events != [] {
      PlayRecords(setup, head, events[..|events| - 1]);
    }
  }

  lemma {:induction false} NoOfferYet(setup: Setup, head: seq<Body>, events: seq<Event>)
    requires forall i :: 0 <= i < |events| ==> !Terminal(events[i])
    ensures var x := Play(setup, Exchange(head, [], [], false), events); x.offers == [] && !x.finalized
  {
    if events != [] {
      NoOfferYet(setup, head, events[..|events| - 1]);
    }
  }

  lemma {:induction false} OfferFixed(setup: Setup, head: seq<Body>, events: seq<Event>, first: nat)
    requires first < |events| && Terminal(events[first])
    requires forall i :: 0 <= i < first ==> !Terminal(events[i])
    ensures var x := Play(setup, Exchange(head, [], [], false), events);
      && x.finalized
      && x.offers == [WriteOf(setup, head + RequestChunks(events[..first]), ResponseChunks(events[..first]))]
  {
    var before := events[..|events| - 1];
    assert before[..first] == events[..first];
    if first < |before| {
      OfferFixed(setup, head, before, first);
    } else {
      assert events[..first] == before;
      NoOfferYet(setup, head, before);
      PlayRecords(setup, head, before);
    }
  }

  /** Before any terminal event nothing is offered; from the first one on, exactly the write
      for the bytes recorded up to it. `head` is what the request tee saw earlier. */
  lemma OneOffer(setup: Setup, head: seq<Body>, events: seq<Event>, first: nat)
    requires first <= |events|
    requires forall i :: 0 <= i < first ==> !Terminal(events[i])
    requires first < |events| ==> Terminal(events[first])
    ensures var x := Play(setup, Exchange(head, [], [], false), events);
      && x.request == head + RequestChunks(events)
      && x.response == ResponseChunks(events)
      && x.finalized == (first < |events|)
      && x.offers ==
           if first < |events|
           then [WriteOf(setup, head + RequestChunks(events[..first]), ResponseChunks(events[..first]))]
           else []
  {
    PlayRecords(setup, head, events);
    if first < |events| {
      OfferFixed(setup, head, events, first);
    } else {
      NoOfferYet(setup, head, events);
    }
  }

  function FirstTerminal(events: seq<Event>): (first: nat)
    ensures first <= |events|
    ensures forall i :: 0 <= i < first ==> !Terminal(events[i])
    ensures first < |events| ==> Terminal(events[first])
  {
    if events == [] then 0
    else if Terminal(events[0]) then 0
    else
      var rest := FirstTerminal(events[1..]);
      assert forall i :: 1 <= i < 1 + rest ==> events[i] == events[1..][i - 1];
      1 + rest
  }

  /** A body that is eventually dropped offers exactly one write, whatever came before. */
  lemma DroppedBodyOffersOnce(setup: Setup, head: seq<Body>, events: seq<Event>)
    requires ResponseDrop in events
    ensures var first := FirstTerminal(events);
      && first < |events|
      && Play(setup, Exchange(head, [], [], false), events).offers
         == [WriteOf(setup, head + RequestChunks(events[..first]), ResponseChunks(events[..first]))]
  {
    OneOffer(setup, head, events, FirstTerminal(events));
  }

  // ----- what of the request a write holds -------------------------------------------------------------

  lemma {:induction false} RequestChunksSplit(events: seq<Event>, k: nat)
    requires k <= |events|
    ensures RequestChunks(events) == RequestChunks(events[..k]) + RequestChunks(events[k..])
  {
    if k == |events| {
      assert events[..k] == events;
    } else {
      var before, rest := events[..|events| - 1], events[k..];
      RequestChunksSplit(before, k);
      assert before[..k] == events[..k] && before[k..] == rest[..|rest| - 1];
    }
  }

  /** A captured request body that is not flagged truncated is the whole request exactly when some
      chunk was recorded before the exchange ended and no byte came after; otherwise, when the
      response ends first, it is a prefix without a flag. */
  lemma CapturedWholeExactly(setup: Setup, head: seq<Body>, events: seq<Event>, first: nat)
    requires first < |events| && Terminal(events[first]) && forall i :: 0 <= i < first ==> !Terminal(events[i])
    requires setup.shouldCapture && setup.requestEnabled
    requires |Concat(head + RequestChunks(events[..first]))| <= setup.requestLimit
    ensures var offers := Play(setup, Exchange(head, [], [], false), events).offers;
      var whole := Concat(head + RequestChunks(events));
      && |offers| == 1 && offers[0].capture.Some? && !offers[0].capture.value.requestTruncated
      && (offers[0].capture.value.requestBody == Some(whole) <==>
            head + RequestChunks(events[..first]) != [] && Concat(RequestChunks(events[first..])) == [])
      && (offers[0].capture.value.requestBody.Some? ==> offers[0].capture.value.requestBody.value <= whole)
  {
    OneOffer(setup, head, events, first);
    var seen, late := head + RequestChunks(events[..first]), RequestChunks(events[first..]);
    RequestChunksSplit(events, first);
    assert head + RequestChunks(events) == seen + late;
    ConcatSplit(seen, late);
    WholeOrPrefix(Concat(seen), Concat(late));
  }

  lemma WholeOrPrefix(seen: Body, late: Body)
    ensures seen <= seen + late
    ensures seen == seen + late <==> late == []
  {
    if seen == seen + late {
      assert |seen + late| == |seen| + |late|;
    }
  }

  /** Such an exchange: the response ends between two request chunks. */
  lemma EarlyEndCutsRequest() returns (setup: Setup, events: seq<Event>)
    ensures var offers := Play(setup, Exchange([], [], [], false), events).offers;
      && |offers| == 1 && offers[0].capture.Some? && !offers[0].capture.value.requestTruncated
      && offers[0].capture.value.requestBody == Some([1]) && Concat(RequestChunks(events)) == [1, 2]
  {
    var record := RequestInsert("r", None, "POST", "/", None, 500, None, true, false, false, 0);
    setup := Setup(record, [], [], true, [], true, 9, false, 0);
    var one: Body, two: Body := [1], [2];
    var before := [RequestFrame(Data(one)), ResponsePoll(Ended)];
    events := before + [RequestFrame(Data(two))];
    assert events[..2] == before && before[..1] == events[..1] == [RequestFrame(Data(one))];
    assert RequestChunks(before[..1]) == [one] && RequestChunks(before) == [one];
    assert RequestChunks(events) == [one] + [two];
    ConcatAppend([], one);
    ConcatAppend([one], two);
    assert [] + [one] == [one] && [] + one == one && one + two == [1, 2];
    OneOffer(setup, [], events, 1);
  }

  /** Chunk boundaries do not matter. */
  lemma ChunkingIndependent(enabled: bool, limit: nat, one: seq<Body>, two: seq<Body>)
    requires Concat(one) == Concat(two) && (one == [] <==> two == [])
    ensures SnapshotOf(enabled, limit, one) == SnapshotOf(enabled, limit, two)
  {
  }

  // ----- the per-request byte budget -----------------------------------------------------------------

  function CapturedBytes(setup: Setup, request: seq<Body>): nat {
    if setup.requestEnabled then |Take(Concat(request), setup.requestLimit)| else 0
  }

  /** The response limit the handler computes when the response head arrives. */
  function ResponseLimit(responseEnabled: bool, cap: nat, captured: nat, routeBytes: nat): nat {
    if !responseEnabled then 0
    else
      var remaining := if captured <= cap then cap - captured else 0;
      if remaining <= routeBytes then remaining else routeBytes
  }

  function StoredBytes(w: CaptureWrite): nat {
    if w.capture.None? then 0
    else
      (match w.capture.value.requestBody case Some(b) => |b| case None => 0) +
      (match w.capture.value.responseBody case Some(b) => |b| case None => 0)
  }

  /** A write holds at most the per-request cap plus what the request tee still recorded
      after the response head; with the request finished by then, at most the cap. */
  lemma WriteWithinBudget(setup: Setup, cap: nat, routeBytes: nat, head: seq<Body>, later: seq<Body>,
                          response: seq<Body>)
    requires setup.requestLimit == cap
    requires setup.responseLimit == ResponseLimit(setup.responseEnabled, cap, CapturedBytes(setup, head), routeBytes)
    ensures StoredBytes(WriteOf(setup, head + later, response)) <= cap + |Concat(later)|
  {
    ConcatSplit(head, later);
  }

  /** What a write keeps of bodies of these lengths. */
  function KeptLength(setup: Setup, request: nat, response: nat): nat {
    if !setup.shouldCapture then 0
    else
      (if setup.requestEnabled then Min(request, setup.requestLimit) else 0) +
      (if setup.responseEnabled then Min(response, setup.responseLimit) else 0)
  }

  lemma StoredIsKept(setup: Setup, request: seq<Body>, response: seq<Body>)
    ensures StoredBytes(WriteOf(setup, request, response)) == KeptLength(setup, |Concat(request)|, |Concat(response)|)
  {
  }

  /** When the cap itself bounds a write, for `head` request bytes at the response head, `later`
      ones after it, and `response` bytes: unless both bodies are captured, no request byte came
      late, the request had filled the cap, or the response, cut to the route's limit, fits
      beside the request. */
  predicate FitsCap(setup: Setup, cap: nat, routeBytes: nat, head: nat, later: nat, response: nat) {
    || !setup.shouldCapture || !setup.requestEnabled || !setup.responseEnabled
    || later == 0 || head >= cap
    || Min(response, routeBytes) + Min(head + later, cap) <= cap
  }

  lemma KeptWithinCap(setup: Setup, cap: nat, routeBytes: nat, head: nat, later: nat, response: nat)
    requires setup.requestLimit == cap
    requires setup.responseLimit ==
      ResponseLimit(setup.responseEnabled, cap, if setup.requestEnabled then Min(head, cap) else 0, routeBytes)
    ensures KeptLength(setup, head + later, response) <= cap <==> FitsCap(setup, cap, routeBytes, head, later, response)
    ensures KeptLength(setup, head + later, response) <= 2 * cap
  {
  }

  lemma CapturedIsMin(setup: Setup, request: seq<Body>)
    ensures CapturedBytes(setup, request)
            == if setup.requestEnabled then Min(|Concat(request)|, setup.requestLimit) else 0
  {
  }

  /** A write stays within the per-request cap exactly in those cases, and always within twice
      the cap. */
  lemma WithinCapExactly(setup: Setup, cap: nat, routeBytes: nat, head: seq<Body>, later: seq<Body>,
                         response: seq<Body>)
    requires setup.requestLimit == cap
    requires setup.responseLimit == ResponseLimit(setup.responseEnabled, cap, CapturedBytes(setup, head), routeBytes)
    ensures StoredBytes(WriteOf(setup, head + later, response)) <= cap <==>
      FitsCap(setup, cap, routeBytes, |Concat(head)|, |Concat(later)|, |Concat(response)|)
    ensures StoredBytes(WriteOf(setup, head + later, response)) <= 2 * cap
  {
    ConcatSplit(head, later);
    CapturedIsMin(setup, head);
    StoredIsKept(setup, head + later, response);
    KeptWithinCap(setup, cap, routeBytes, |Concat(head)|, |Concat(later)|, |Concat(response)|);
  }

  /** An exchange that stores more than its cap: a request byte arrives after the response limit
      was computed, and the response is full. */
  lemma LateRequestBytesExceedCap() returns (setup: Setup, events: seq<Event>)
    ensures setup.requestLimit == 1 && setup.responseLimit == ResponseLimit(true, 1, CapturedBytes(setup, []), 1)
    ensures var offers := Play(setup, Exchange([], [], [], false), events).offers;
      |offers| == 1 && StoredBytes(offers[0]) > 1
  {
    var record := RequestInsert("r", None, "POST", "/", None, 500, None, true, false, false, 0);
    setup := Setup(record, [], [], true, [], true, 1, true, 1);
    var one: Body := [7];
    var before := [RequestFrame(Data(one)), ResponsePoll(Ready(Data(one)))];
    events := before + [ResponsePoll(Ended)];
    assert events[..2] == before && before[..1] == [RequestFrame(Data(one))];
    assert RequestChunks(before[..1]) == [one] && ResponseChunks(before[..1]) == [];
    assert RequestChunks(before) == [one] && ResponseChunks(before) == [one];
    OneOffer(setup, [], events, 2);
    assert [] + [one] == [one];
    ConcatAppend([], one);
    StoredIsKept(setup, [one], [one]);
  }
}
