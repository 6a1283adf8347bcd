/** What the queue's places and counters say about the steps taken: which offers were sent, stripped or
    refused, and that a write counts as stored exactly when its insert committed. */
module CaptureHistory {
  import opened Domain
  import opened Store
  import opened EndToEnd
  import opened ReplayReads
  import L = Ledger

  // ----- the queue alone --------------------------------------------------------------------------------

  /** How many of the first `k` steps satisfy `p`. */
  function Count(trace: seq<L.Queue>, actions: seq<L.Action>, k: nat, p: (L.Queue, L.Action) -> bool): nat
    requires k <= |actions| && k <= |trace|
  {
    if k == 0 then 0 else Count(trace, actions, k - 1, p) + One(p(trace[k - 1], actions[k - 1]))
  }

  predicate Open(q: L.Queue) {
    !q.closed && |q.queue| < q.capacity
  }

  /** An offer or a second try that finds room. */
  function Sent(): (L.Queue, L.Action) -> bool {
    (q: L.Queue, a: L.Action) => (a.Offer? || a.Retry?) && !q.closed && |q.queue| < q.capacity
  }

  /** An offer to a closed queue, or a second try that finds no room. */
  function Refused(): (L.Queue, L.Action) -> bool {
    (q: L.Queue, a: L.Action) => (a.Offer? && q.closed) || (a.Retry? && (q.closed || |q.queue| >= q.capacity))
  }

  /** An offer with a capture to an open queue without room. */
  function Stripped(): (L.Queue, L.Action) -> bool {
    (q: L.Queue, a: L.Action) => a.Offer? && !q.closed && |q.queue| >= q.capacity && a.w.capture.Some?
  }

  function Stored(): (L.Queue, L.Action) -> bool {
    (q: L.Queue, a: L.Action) => a == L.Finish(true)
  }

  function StoredCapture(): (L.Queue, L.Action) -> bool {
    (q: L.Queue, a: L.Action) => a == L.Finish(true) && q.writing != [] && q.writing[0].write.capture.Some?
  }

  function NotStored(): (L.Queue, L.Action) -> bool {
    (q: L.Queue, a: L.Action) => a == L.Finish(false)
  }

  function Closing(): (L.Queue, L.Action) -> bool {
    (q: L.Queue, a: L.Action) => a.Shutdown?
  }

  function FailedRetention(): (L.Queue, L.Action) -> bool {
    (q: L.Queue, a: L.Action) => a.RetentionFails?
  }

  lemma StepCounts(q: L.Queue, a: L.Action)
    requires L.Enabled(q, a) && L.Authentic(q)
    ensures var next := L.Step(q, a);
      && |next.sent| == |q.sent| + One(Sent()(q, a))
      && |next.refused| == |q.refused| + One(Refused()(q, a))
      && next.stripped == q.stripped + One(Stripped()(q, a))
      && |next.persisted| == |q.persisted| + One(Stored()(q, a))
      && next.captures == q.captures + One(StoredCapture()(q, a))
      && |next.failed| == |q.failed| + One(NotStored()(q, a))
      && next.retentionFailures == q.retentionFailures + One(FailedRetention()(q, a))
      && (next.closed <==> q.closed || Closing()(q, a))
  {
    if a.Finish? {
      assert L.Genuine(q.offered, q.writing[0]);
    }
  }

  lemma CountsInRun(trace: seq<L.Queue>, actions: seq<L.Action>, capacity: nat, k: nat)
    requires L.Behaviour(trace, actions, capacity) && k < |actions|
    ensures var q, a, next := trace[k], actions[k], trace[k + 1];
      && |next.sent| == |q.sent| + One(Sent()(q, a))
      && |next.refused| == |q.refused| + One(Refused()(q, a))
      && next.stripped == q.stripped + One(Stripped()(q, a))
      && |next.persisted| == |q.persisted| + One(Stored()(q, a))
      && next.captures == q.captures + One(StoredCapture()(q, a))
      && |next.failed| == |q.failed| + One(NotStored()(q, a))
      && next.retentionFailures == q.retentionFailures + One(FailedRetention()(q, a))
      && (next.closed <==> q.closed || Closing()(q, a))
  {
    L.InvariantThroughout(trace, actions, capacity, k);
    StepCounts(trace[k], actions[k]);
  }

  /** In every run the queue's places hold exactly as many entries as there were steps of their kind,
      and the counters agree: the captures counted are those of successful inserts, and every drop
      counted is a strip, a refusal, a failed insert or a failed retention run. */
  lemma {:induction false} PlacesAreHistory(trace: seq<L.Queue>, actions: seq<L.Action>, capacity: nat, k: nat)
    requires L.Behaviour(trace, actions, capacity) && k <= |actions|
    ensures var q := trace[k];
      && |q.sent| == Count(trace, actions, k, Sent())
      && |q.refused| == Count(trace, actions, k, Refused())
      && q.stripped == Count(trace, actions, k, Stripped())
      && |q.persisted| == Count(trace, actions, k, Stored())
      && q.captures == Count(trace, actions, k, StoredCapture())
      && |q.failed| == Count(trace, actions, k, NotStored())
      && q.retentionFailures == Count(trace, actions, k, FailedRetention())
      && (q.closed <==> Count(trace, actions, k, Closing()) > 0)
  {
    if k > 0 {
      PlacesAreHistory(trace, actions, capacity, k - 1);
      CountsInRun(trace, actions, capacity, k - 1);
    }
  }

  lemma DropsAreHistory(trace: seq<L.Queue>, actions: seq<L.Action>, capacity: nat, k: nat)
    requires L.Behaviour(trace, actions, capacity) && k <= |actions|
    ensures trace[k].dropped ==
      Count(trace, actions, k, Stripped()) + Count(trace, actions, k, Refused())
      + Count(trace, actions, k, NotStored()) + Count(trace, actions, k, FailedRetention())
  {
    PlacesAreHistory(trace, actions, capacity, k);
    L.InvariantThroughout(trace, actions, capacity, k);
  }

  /** An offer that finds room is queued whole and last. */
  lemma RoomKeepsWhole(q: L.Queue, w: CaptureWrite)
    requires L.Enabled(q, L.Offer(w)) && Open(q)
    ensures var next := L.Step(q, L.Offer(w));
      next.queue == q.queue + [L.Entry(|q.offered|, w)] && next.dropped == q.dropped && next.hand == q.hand
  {
  }

  /** The fallback keeps everything of a write but its capture, and says so. */
  lemma FallbackKeepsMetadata(w: CaptureWrite)
    ensures var f := L.Fallback(w);
      && f.capture == None && f.record.captureDropped
      && f.requestHeaders == w.requestHeaders && f.responseHeaders == w.responseHeaders && f.decisions == w.decisions
      && f.record.requestId == w.record.requestId && f.record.routeId == w.record.routeId
      && f.record.verb == w.record.verb && f.record.path == w.record.path
      && f.record.redactedQuery == w.record.redactedQuery && f.record.status == w.record.status
      && f.record.upstream == w.record.upstream && f.record.isError == w.record.isError
      && f.record.isSlow == w.record.isSlow && f.record.createdAt == w.record.createdAt
  {
  }

  // ----- the queue beside the store ------------------------------------------------------------------------

  /** The insert of the write in hand commits. */
  predicate InsertCommits(p: Pipeline, a: Action) {
    a.Write? && !a.fault && p.queue.writing != [] && Storable(p.db, p.queue.writing[0].write)
  }

  /** The entries whose insert committed, in order. */
  function Committed(trace: seq<Pipeline>, actions: seq<Action>, k: nat): seq<L.Entry>
    requires k <= |actions| && k <= |trace|
  {
    if k == 0 then []
    else Committed(trace, actions, k - 1) + IfCommitted(trace[k - 1], actions[k - 1])
  }

  /** The entries whose insert did not commit, in order. */
  function NotCommitted(trace: seq<Pipeline>, actions: seq<Action>, k: nat): seq<L.Entry>
    requires k <= |actions| && k <= |trace|
  {
    if k == 0 then []
    else NotCommitted(trace, actions, k - 1) + IfNotCommitted(trace[k - 1], actions[k - 1])
  }

  function WithCapture(es: seq<L.Entry>): nat {
    if es == [] then 0 else WithCapture(es[..|es| - 1]) + One(es[|es| - 1].write.capture.Some?)
  }

  lemma WithCaptureMore(es: seq<L.Entry>, e: L.Entry)
    ensures WithCapture(es + [e]) == WithCapture(es) + One(e.write.capture.Some?)
  {
    assert (es + [e])[..|es|] == es;
  }

  lemma WriteStep(p: Pipeline, a: Action)
    requires Enabled(p, a) && L.Authentic(p.queue)
    ensures var next := Step(p, a).queue;
      && next.persisted == p.queue.persisted + (if InsertCommits(p, a) then [p.queue.writing[0]] else [])
      && next.captures == p.queue.captures + One(InsertCommits(p, a) && p.queue.writing[0].write.capture.Some?)
      && next.failed == p.queue.failed + (if a.Write? && !InsertCommits(p, a) then [p.queue.writing[0]] else [])
  {
    if a.Write? {
      assert L.Genuine(p.queue.offered, p.queue.writing[0]);
    }
  }

  function IfCommitted(p: Pipeline, a: Action): seq<L.Entry> {
    if InsertCommits(p, a) then [p.queue.writing[0]] else []
  }

  function IfNotCommitted(p: Pipeline, a: Action): seq<L.Entry> {
    if a.Write? && p.queue.writing != [] && !InsertCommits(p, a) then [p.queue.writing[0]] else []
  }

  lemma StepInRun(trace: seq<Pipeline>, actions: seq<Action>, capacity: nat, k: nat)
    requires Behaviour(trace, actions, capacity) && k < |actions|
    ensures var q, next := trace[k].queue, trace[k + 1].queue;
      && next.persisted == q.persisted + IfCommitted(trace[k], actions[k])
      && next.failed == q.failed + IfNotCommitted(trace[k], actions[k])
      && next.captures == q.captures + WithCapture(IfCommitted(trace[k], actions[k]))
  {
    InvariantThroughout(trace, actions, capacity, k);
    WriteStep(trace[k], actions[k]);
    if InsertCommits(trace[k], actions[k]) {
      WithCaptureMore([], trace[k].queue.writing[0]);
      assert [] + [trace[k].queue.writing[0]] == [trace[k].queue.writing[0]];
    }
  }

  lemma WithCaptureConcat(es: seq<L.Entry>, more: seq<L.Entry>)
    requires |more| <= 1
    ensures WithCapture(es + more) == WithCapture(es) + WithCapture(more)
  {
    if more == [] {
      assert es + more == es;
    } else {
      WithCaptureMore(es, more[0]);
      WithCaptureMore([], more[0]);
      assert [] + [more[0]] == more && es + more == es + [more[0]];
    }
  }

  lemma {:induction false} StoredIsCommitted(trace: seq<Pipeline>, actions: seq<Action>, capacity: nat, k: nat)
    requires Behaviour(trace, actions, capacity) && k <= |actions|
    ensures trace[k].queue.persisted == Committed(trace, actions, k)
    ensures trace[k].queue.failed == NotCommitted(trace, actions, k)
  {
    if k > 0 {
      StoredIsCommitted(trace, actions, capacity, k - 1);
      StepInRun(trace, actions, capacity, k - 1);
    }
  }

  lemma {:induction false} CapturesAreCommitted(trace: seq<Pipeline>, actions: seq<Action>, capacity: nat, k: nat)
    requires Behaviour(trace, actions, capacity) && k <= |actions|
    ensures trace[k].queue.captures == WithCapture(Committed(trace, actions, k))
  {
    if k > 0 {
      CapturesAreCommitted(trace, actions, capacity, k - 1);
      StepInRun(trace, actions, capacity, k - 1);
      WithCaptureConcat(Committed(trace, actions, k - 1), IfCommitted(trace[k - 1], actions[k - 1]));
    }
  }

  /** In every run of the pipeline: the writes listed as stored are, in order, those whose insert
      committed, the failed ones those whose insert did not, and the capture counter counts the
      committed ones that held a capture. */
  lemma StoredMeansCommitted(trace: seq<Pipeline>, actions: seq<Action>, capacity: nat, k: nat)
    requires Behaviour(trace, actions, capacity) && k <= |actions|
    ensures var q := trace[k].queue;
      && q.persisted == Committed(trace, actions, k)
      && q.failed == NotCommitted(trace, actions, k)
      && q.captures == WithCapture(Committed(trace, actions, k))
  {
    StoredIsCommitted(trace, actions, capacity, k);
    CapturesAreCommitted(trace, actions, capacity, k);
  }

  /** So a ticket is stored exactly when an earlier step committed its write. */
  lemma TicketStoredExactly(trace: seq<Pipeline>, actions: seq<Action>, capacity: nat, k: nat, t: nat)
    requires Behaviour(trace, actions, capacity) && k <= |actions|
    ensures L.Persisted(trace[k].queue, t) <==>
      exists i :: 0 <= i < k && CommitsTicket(trace[i], actions[i], t)
  {
    StoredMeansCommitted(trace, actions, capacity, k);
    CommittedTickets(trace, actions, k, t);
  }

  predicate CommitsTicket(p: Pipeline, a: Action, t: nat) {
    InsertCommits(p, a) && p.queue.writing[0].ticket == t
  }

  lemma {:induction false} CommittedTickets(trace: seq<Pipeline>, actions: seq<Action>, k: nat, t: nat)
    requires k <= |actions| && k <= |trace|
    ensures (exists e :: e in Committed(trace, actions, k) && e.ticket == t) <==>
      exists i :: 0 <= i < k && CommitsTicket(trace[i], actions[i], t)
  {
    if k > 0 {
      CommittedTickets(trace, actions, k - 1, t);
      if CommitsTicket(trace[k - 1], actions[k - 1], t) {
        assert trace[k - 1].queue.writing[0] in Committed(trace, actions, k);
      }
      if e :| e in Committed(trace, actions, k - 1) && e.ticket == t {
        assert e in Committed(trace, actions, k);
      }
    }
  }

  /** Everything proved of the queue alone holds of it in the pipeline. */
  lemma {:induction false} QueueInvariant(trace: seq<Pipeline>, actions: seq<Action>, capacity: nat, k: nat)
    requires Behaviour(trace, actions, capacity) && k <= |actions|
    ensures L.Invariant(trace[k].queue)
  {
    if k > 0 {
      QueueInvariant(trace, actions, capacity, k - 1);
      var a := QueueAction(trace[k - 1], actions[k - 1]);
      if a.Some? {
        L.StepKeepsInvariant(trace[k - 1].queue, a.value);
      }
    }
  }
}
