/** The capture writer's bounded queue, with any number of finalizers, the writer task,
    the retention loop and shutdown interleaved. */
module Ledger {
  import opened Domain

  /** An offered write, known by the order it was offered in. */
  datatype Entry = Entry(ticket: nat, write: CaptureWrite)

  /** `hand` holds metadata-only fallbacks between a refused send and the second try.
      `offered`, `stripped` and the logs are history. */
  datatype Queue = Queue(
    capacity: nat,
    closed: bool,
    offered: seq<CaptureWrite>,
    hand: seq<Entry>,
    queue: seq<Entry>,
    writing: seq<Entry>,
    persisted: seq<Entry>,
    failed: seq<Entry>,
    refused: seq<Entry>,
    lost: seq<Entry>,
    sent: seq<Entry>,
    stripped: nat,
    retentionFailures: nat,
    captures: nat,
    dropped: nat)

  function Start(capacity: nat): Queue {
    Queue(capacity, false, [], [], [], [], [], [], [], [], [], 0, 0, 0, 0)
  }

  /** What finalizers offer: a capture only ever rides on a record not marked dropped. */
  predicate Offerable(w: CaptureWrite) {
    w.capture.Some? ==> !w.record.captureDropped
  }

  /** Strips the capture and marks the record. */
  function Fallback(w: CaptureWrite): CaptureWrite {
    w.(capture := None, record := w.record.(captureDropped := true))
  }

  datatype Action =
    | Offer(w: CaptureWrite)
    | Retry(i: nat)
    | Receive
    | Finish(ok: bool)
    | RetentionFails
    | Shutdown

  predicate Enabled(q: Queue, a: Action) {
    match a
    case Offer(w) => Offerable(w)
    case Retry(i) => i < |q.hand|
    case Receive => !q.closed && q.writing == [] && q.queue != []
    case Finish(ok) => q.writing != []
    case RetentionFails => true
    case Shutdown => true
  }

  function Send(q: Queue, e: Entry): Queue {
    q.(queue := q.queue + [e], sent := q.sent + [e])
  }

  function Refuse(q: Queue, e: Entry): Queue {
    q.(refused := q.refused + [e], dropped := q.dropped + 1)
  }

  function Step(q: Queue, a: Action): Queue
    requires Enabled(q, a)
  {
    match a
    case Offer(w) =>
      var e := Entry(|q.offered|, w);
      var q1 := q.(offered := q.offered + [w]);
      if q.closed then Refuse(q1, e)
      else if |q.queue| < q.capacity then Send(q1, e)
      else
        var had := One(w.capture.Some?);
        q1.(hand := q.hand + [Entry(e.ticket, Fallback(w))], stripped := q.stripped + had, dropped := q.dropped + had)
    case Retry(i) =>
      var q1 := q.(hand := q.hand[..i] + q.hand[i + 1..]);
      if q.closed || |q.queue| >= q.capacity then Refuse(q1, q.hand[i]) else Send(q1, q.hand[i])
    case Receive =>
      q.(queue := q.queue[1..], writing := [q.queue[0]])
    case Finish(ok) =>
      var e := q.writing[0];
      if ok then
        q.(writing := q.writing[1..], persisted := q.persisted + [e],
           captures := q.captures + One(e.write.capture.Some? && !e.write.record.captureDropped))
      else
        q.(writing := q.writing[1..], failed := q.failed + [e], dropped := q.dropped + 1)
    case RetentionFails =>
      q.(retentionFailures := q.retentionFailures + 1, dropped := q.dropped + 1)
    case Shutdown =>
      q.(closed := true, writing := [], queue := [], lost := q.lost + q.writing + q.queue)
  }

  // ----- adding up entries --------------------------------------------------------------------

  function Sum(es: seq<Entry>, f: Entry -> nat): nat {
    if es == [] then 0 else f(es[0]) + Sum(es[1..], f)
  }

  lemma {:induction false} SumConcat(a: seq<Entry>, b: seq<Entry>, f: Entry -> nat)
    ensures Sum(a + b, f) == Sum(a, f) + Sum(b, f)
  {
    if a == [] {
      assert a + b == b;
    } else {
      SumConcat(a[1..], b, f);
      assert (a + b)[1..] == a[1..] + b;
    }
  }

  lemma SumRemove(es: seq<Entry>, i: nat, f: Entry -> nat)
    requires i < |es|
    ensures Sum(es, f) == Sum(es[..i] + es[i + 1..], f) + f(es[i])
  {
    assert es == es[..i] + es[i..];
    SumConcat(es[..i], es[i..], f);
    SumConcat(es[..i], es[i + 1..], f);
    assert es[i..][1..] == es[i + 1..];
  }

  lemma SumAppend(es: seq<Entry>, e: Entry, f: Entry -> nat)
    ensures Sum(es + [e], f) == Sum(es, f) + f(e)
  {
    SumConcat(es, [e], f);
    assert [e][1..] == [];
  }

  /** The weight of everything offered so far, wherever it is now. */
  function Weight(q: Queue, f: Entry -> nat): nat {
    Sum(q.hand, f) + Sum(q.queue, f) + Sum(q.writing, f) + Sum(q.persisted, f)
    + Sum(q.failed, f) + Sum(q.refused, f) + Sum(q.lost, f)
  }

  /** The entry an offer creates: kept whole, or already stripped. */
  function Placed(q: Queue, w: CaptureWrite): Entry {
    Entry(|q.offered|, if !q.closed && |q.queue| >= q.capacity then Fallback(w) else w)
  }

  lemma OfferWeight(q: Queue, w: CaptureWrite, f: Entry -> nat)
    requires Enabled(q, Offer(w))
    ensures Weight(Step(q, Offer(w)), f) == Weight(q, f) + f(Placed(q, w))
  {
    SumAppend(q.refused, Placed(q, w), f);
    SumAppend(q.queue, Placed(q, w), f);
    SumAppend(q.hand, Placed(q, w), f);
  }

  lemma RetryWeight(q: Queue, i: nat, f: Entry -> nat)
    requires Enabled(q, Retry(i))
    ensures Weight(Step(q, Retry(i)), f) == Weight(q, f)
  {
    SumRemove(q.hand, i, f);
    SumAppend(q.refused, q.hand[i], f);
    SumAppend(q.queue, q.hand[i], f);
  }

  lemma ReceiveWeight(q: Queue, f: Entry -> nat)
    requires Enabled(q, Receive)
    ensures Weight(Step(q, Receive), f) == Weight(q, f)
  {
    SumAppend([], q.queue[0], f);
    assert [] + [q.queue[0]] == [q.queue[0]];
  }

  lemma FinishWeight(q: Queue, ok: bool, f: Entry -> nat)
    requires Enabled(q, Finish(ok))
    ensures Weight(Step(q, Finish(ok)), f) == Weight(q, f)
  {
    SumAppend(q.persisted, q.writing[0], f);
    SumAppend(q.failed, q.writing[0], f);
  }

  lemma ShutdownWeight(q: Queue, f: Entry -> nat)
    ensures Weight(Step(q, Shutdown), f) == Weight(q, f)
  {
    SumConcat(q.lost + q.writing, q.queue, f);
    SumConcat(q.lost, q.writing, f);
  }

  /** Offers add one entry; no other step creates, loses or duplicates anything. */
  lemma StepWeight(q: Queue, a: Action, f: Entry -> nat)
    requires Enabled(q, a)
    ensures Weight(Step(q, a), f) == Weight(q, f) + if a.Offer? then f(Placed(q, a.w)) else 0
  {
    match a
    case Offer(w) => OfferWeight(q, w, f);
    case Retry(i) => RetryWeight(q, i, f);
    case Receive => ReceiveWeight(q, f);
    case Finish(ok) => FinishWeight(q, ok, f);
    case RetentionFails =>
    case Shutdown => ShutdownWeight(q, f);
  }

  // ----- exactly once -----------------------------------------------------------------------------

  function IsTicket(t: nat): Entry -> nat {
    (e: Entry) => One(e.ticket == t)
  }

  function HasCapture(e: Entry): nat {
    One(e.write.capture.Some?)
  }

  function OfferedCaptures(ws: seq<CaptureWrite>): nat {
    if ws == [] then 0 else OfferedCaptures(ws[..|ws| - 1]) + One(ws[|ws| - 1].capture.Some?)
  }

  /** Every offered write is in exactly one place, and nothing else is anywhere. */
  ghost predicate ExactlyOnce(q: Queue) {
    forall t: nat :: Weight(q, IsTicket(t)) == One(t < |q.offered|)
  }

  lemma StepKeepsExactlyOnce(q: Queue, a: Action)
    requires Enabled(q, a) && ExactlyOnce(q)
    ensures ExactlyOnce(Step(q, a))
  {
    forall t: nat
      ensures Weight(Step(q, a), IsTicket(t)) == One(t < |Step(q, a).offered|)
    {
      StepWeight(q, a, IsTicket(t));
      assert Weight(q, IsTicket(t)) == One(t < |q.offered|);
    }
  }

  /** The write with this ticket has been stored. */
  predicate Persisted(q: Queue, t: nat) {
    exists e :: e in q.persisted && e.ticket == t
  }

  /** What is stored stays stored. */
  lemma PersistedGrows(q: Queue, a: Action)
    requires Enabled(q, a)
    ensures q.persisted <= Step(q, a).persisted
  {
  }

  lemma FinishPersists(q: Queue)
    requires Enabled(q, Finish(true))
    ensures Persisted(Step(q, Finish(true)), q.writing[0].ticket)
  {
    assert q.writing[0] in Step(q, Finish(true)).persisted;
  }

  lemma {:induction false} SumOfMember(es: seq<Entry>, e: Entry, f: Entry -> nat)
    requires e in es
    ensures Sum(es, f) >= f(e)
  {
    if es[0] != e {
      SumOfMember(es[1..], e, f);
    }
  }

  /** No write is stored twice. */
  lemma WritingIsNew(q: Queue, t: nat)
    requires ExactlyOnce(q) && q.writing != [] && Persisted(q, t)
    ensures q.writing[0].ticket != t
  {
    var e :| e in q.persisted && e.ticket == t;
    SumOfMember(q.persisted, e, IsTicket(t));
    assert Weight(q, IsTicket(t)) == One(t < |q.offered|);
  }

  /** Every entry carries the write it was offered as, or that write's fallback. */
  predicate Genuine(offered: seq<CaptureWrite>, e: Entry) {
    && e.ticket < |offered|
    && Offerable(offered[e.ticket])
    && (e.write == offered[e.ticket] || e.write == Fallback(offered[e.ticket]))
  }

  predicate AllGenuine(offered: seq<CaptureWrite>, es: seq<Entry>) {
    forall i :: 0 <= i < |es| ==> Genuine(offered, es[i])
  }

  predicate AllStripped(es: seq<Entry>) {
    forall i :: 0 <= i < |es| ==> es[i].write.capture.None? && es[i].write.record.captureDropped
  }

  predicate Authentic(q: Queue) {
    && AllGenuine(q.offered, q.hand) && AllStripped(q.hand)
    && AllGenuine(q.offered, q.queue)
    && AllGenuine(q.offered, q.writing)
    && AllGenuine(q.offered, q.persisted)
  }

  lemma AppendGenuine(offered: seq<CaptureWrite>, more: seq<CaptureWrite>, es: seq<Entry>, e: Entry)
    requires AllGenuine(offered, es) && Genuine(offered + more, e)
    ensures AllGenuine(offered + more, es) && AllGenuine(offered + more, es + [e])
  {
    assert forall i :: 0 <= i < |es| ==> Genuine(offered, es[i]);
  }

  lemma StepKeepsAuthentic(q: Queue, a: Action)
    requires Enabled(q, a) && Authentic(q)
    ensures Authentic(Step(q, a))
  {
    match a
    case Offer(w) =>
      AppendGenuine(q.offered, [w], q.hand, Placed(q, w));
      AppendGenuine(q.offered, [w], q.queue, Placed(q, w));
      AppendGenuine(q.offered, [w], q.writing, Placed(q, w));
      AppendGenuine(q.offered, [w], q.persisted, Placed(q, w));
    case Retry(i) =>
      AppendGenuine(q.offered, [], q.queue, q.hand[i]);
      assert q.offered + [] == q.offered;
    case Finish(ok) =>
      AppendGenuine(q.offered, [], q.persisted, q.writing[0]);
      assert q.offered + [] == q.offered;
    case _ =>
  }

  /** No capture appears or disappears except by being stripped. */
  predicate Conserved(q: Queue) {
    OfferedCaptures(q.offered) == Weight(q, HasCapture) + q.stripped
  }

  lemma StepKeepsConserved(q: Queue, a: Action)
    requires Enabled(q, a) && Conserved(q)
    ensures Conserved(Step(q, a))
  {
    StepWeight(q, a, HasCapture);
    StepStripped(q, a);
  }

  lemma StepStripped(q: Queue, a: Action)
    requires Enabled(q, a)
    ensures OfferedCaptures(Step(q, a).offered) + q.stripped
            == OfferedCaptures(q.offered) + Step(q, a).stripped + if a.Offer? then HasCapture(Placed(q, a.w)) else 0
  {
    if a.Offer? {
      assert (q.offered + [a.w])[..|q.offered|] == q.offered;
    }
  }

  /** Both counters count exactly what they claim. */
  predicate Counted(q: Queue) {
    && q.captures == Sum(q.persisted, HasCapture)
    && q.dropped == q.stripped + |q.failed| + |q.refused| + q.retentionFailures
  }

  lemma StepKeepsCounted(q: Queue, a: Action)
    requires Enabled(q, a) && Counted(q) && Authentic(q)
    ensures Counted(Step(q, a))
  {
    if a.Finish? {
      SumAppend(q.persisted, q.writing[0], HasCapture);
      assert Genuine(q.offered, q.writing[0]);
    }
  }

  // ----- order and capacity ------------------------------------------------------------------------

  /** Until shutdown the writer finishes accepted writes in the order they were sent. */
  predicate InOrder(q: Queue) {
    && |q.queue| <= q.capacity
    && |q.writing| <= 1
    && (q.closed ==> q.queue == [] && q.writing == [])
    && (!q.closed ==> Backlog(q) && q.lost == [])
  }

  predicate Backlog(q: Queue) {
    && |q.persisted| + |q.failed| <= |q.sent|
    && q.sent[|q.persisted| + |q.failed|..] == q.writing + q.queue
  }

  /** Sending appends to the backlog. */
  lemma SendKeepsOrder(q: Queue, e: Entry)
    requires InOrder(q) && !q.closed && |q.queue| < q.capacity
    ensures InOrder(Send(q, e))
  {
    var done := |q.persisted| + |q.failed|;
    assert (q.sent + [e])[done..] == q.sent[done..] + [e];
  }

  lemma OfferKeepsOrder(q: Queue, w: CaptureWrite)
    requires Enabled(q, Offer(w)) && InOrder(q)
    ensures InOrder(Step(q, Offer(w)))
  {
    if !q.closed && |q.queue| < q.capacity {
      SendKeepsOrder(q.(offered := q.offered + [w]), Entry(|q.offered|, w));
    }
  }

  lemma RetryKeepsOrder(q: Queue, i: nat)
    requires Enabled(q, Retry(i)) && InOrder(q)
    ensures InOrder(Step(q, Retry(i)))
  {
    if !q.closed && |q.queue| < q.capacity {
      SendKeepsOrder(q.(hand := q.hand[..i] + q.hand[i + 1..]), q.hand[i]);
    }
  }

  lemma WriterKeepsOrder(q: Queue, a: Action)
    requires Enabled(q, a) && InOrder(q) && (a.Receive? || a.Finish?)
    ensures InOrder(Step(q, a))
  {
    if !q.closed && a.Finish? {
      var done := |q.persisted| + |q.failed|;
      assert q.sent[done + 1..] == q.sent[done..][1..];
    }
  }

  lemma StepKeepsOrder(q: Queue, a: Action)
    requires Enabled(q, a) && InOrder(q)
    ensures InOrder(Step(q, a))
  {
    match a
    case Offer(w) => OfferKeepsOrder(q, w);
    case Retry(i) => RetryKeepsOrder(q, i);
    case Receive => WriterKeepsOrder(q, a);
    case Finish(_) => WriterKeepsOrder(q, a);
    case _ =>
  }

  // ----- every run ------------------------------------------------------------------------------------

  ghost predicate Invariant(q: Queue) {
    ExactlyOnce(q) && Conserved(q) && Counted(q) && Authentic(q) && InOrder(q)
  }

  lemma StepKeepsInvariant(q: Queue, a: Action)
    requires Enabled(q, a) && Invariant(q)
    ensures Invariant(Step(q, a))
  {
    StepKeepsExactlyOnce(q, a);
    StepKeepsConserved(q, a);
    StepKeepsCounted(q, a);
    StepKeepsAuthentic(q, a);
    StepKeepsOrder(q, a);
  }

  /** A run of the writer: each action enabled where it happens. */
  predicate Behaviour(trace: seq<Queue>, actions: seq<Action>, capacity: nat) {
    && |trace| == |actions| + 1
    && trace[0] == Start(capacity)
    && forall i :: 0 <= i < |actions| ==> Enabled(trace[i], actions[i]) && trace[i + 1] == Step(trace[i], actions[i])
  }

  lemma {:induction false} InvariantThroughout(trace: seq<Queue>, actions: seq<Action>, capacity: nat, i: nat)
    requires Behaviour(trace, actions, capacity) && i <= |actions|
    ensures Invariant(trace[i])
  {
    if i > 0 {
      InvariantThroughout(trace, actions, capacity, i - 1);
      StepKeepsInvariant(trace[i - 1], actions[i - 1]);
    }
  }

  /** Where every offered capture is: stored and counted, on its way, lost with the process, in a
      failed or refused write, or stripped. The last three are matched by increments of the drop
      counter other than those of failed retention runs. */
  lemma NoSilentLoss(trace: seq<Queue>, actions: seq<Action>, capacity: nat, k: nat)
    requires Behaviour(trace, actions, capacity) && k <= |actions|
    ensures var q := trace[k];
      && OfferedCaptures(q.offered)
         == q.captures + Sum(q.queue, HasCapture) + Sum(q.writing, HasCapture) + Sum(q.lost, HasCapture)
            + Sum(q.failed, HasCapture) + Sum(q.refused, HasCapture) + q.stripped
      && Sum(q.failed, HasCapture) + Sum(q.refused, HasCapture) + q.stripped <= q.dropped - q.retentionFailures
  {
    InvariantThroughout(trace, actions, capacity, k);
    var q := trace[k];
    AtMostLength(q.failed);
    AtMostLength(q.refused);
    NoneInHand(q.hand);
  }

  lemma {:induction false} AtMostLength(es: seq<Entry>)
    ensures Sum(es, HasCapture) <= |es|
  {
    if es != [] {
      AtMostLength(es[1..]);
    }
  }

  lemma {:induction false} NoneInHand(es: seq<Entry>)
    requires AllStripped(es)
    ensures Sum(es, HasCapture) == 0
  {
    if es != [] {
      NoneInHand(es[1..]);
    }
  }

  /** A persisted row lost its capture on the way exactly when it was offered with one and
      holds none, and then the row says so. */
  lemma StrippedRowsSaySo(trace: seq<Queue>, actions: seq<Action>, capacity: nat, k: nat, i: nat)
    requires Behaviour(trace, actions, capacity) && k <= |actions| && i < |trace[k].persisted|
    ensures var q, e := trace[k], trace[k].persisted[i];
      && e.ticket < |q.offered|
      && (e.write != q.offered[e.ticket] ==> e.write.record.captureDropped && e.write.capture.None?)
      && (q.offered[e.ticket].capture.Some? ==>
            (e.write.record.captureDropped <==> e.write.capture.None?))
  {
    InvariantThroughout(trace, actions, capacity, k);
    assert Genuine(trace[k].offered, trace[k].persisted[i]);
  }
}
