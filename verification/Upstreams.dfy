/** One route's upstreams: a round-robin scan that skips unhealthy ones, and passive health
    by consecutive failures with a cooldown. */
module Upstreams {
  import opened Domain

  // ----- the ring of healthy upstreams ------------------------------------------------------------

  /** The healthy indexes in [from, to), ascending. */
  function Range(healthy: seq<bool>, from: nat, to: nat): seq<nat>
    requires from <= to <= |healthy|
  {
    if from == to then [] else Range(healthy, from, to - 1) + (if healthy[to - 1] then [to - 1] else [])
  }

  /** The healthy indexes in the order scans meet them from `at` on. */
  function Ring(healthy: seq<bool>, at: nat): seq<nat>
    requires at < |healthy|
  {
    Range(healthy, at, |healthy|) + Range(healthy, 0, at)
  }

  lemma {:induction false} RangeFirst(healthy: seq<bool>, from: nat, to: nat)
    requires from < to <= |healthy|
    ensures Range(healthy, from, to) == (if healthy[from] then [from] else []) + Range(healthy, from + 1, to)
  {
    if from + 1 < to {
      RangeFirst(healthy, from, to - 1);
    }
  }

  lemma {:induction false} RangeMembers(healthy: seq<bool>, from: nat, to: nat)
    requires from <= to <= |healthy|
    ensures forall k :: 0 <= k < |Range(healthy, from, to)| ==>
      from <= Range(healthy, from, to)[k] < to && healthy[Range(healthy, from, to)[k]]
    ensures forall j, k :: 0 <= j < k < |Range(healthy, from, to)| ==>
      Range(healthy, from, to)[j] < Range(healthy, from, to)[k]
  {
    if from < to {
      RangeMembers(healthy, from, to - 1);
      var before := Range(healthy, from, to - 1);
      assert Range(healthy, from, to) == before + (if healthy[to - 1] then [to - 1] else []);
    }
  }

  lemma {:induction false} RangeHas(healthy: seq<bool>, from: nat, to: nat, i: nat)
    requires from <= i < to <= |healthy| && healthy[i]
    ensures i in Range(healthy, from, to)
  {
    if i < to - 1 {
      RangeHas(healthy, from, to - 1, i);
    }
  }

  /** The ring holds each healthy index exactly once, and nothing else. */
  lemma RingMembers(healthy: seq<bool>, at: nat)
    requires at < |healthy|
    ensures var ring := Ring(healthy, at);
      && (forall i :: 0 <= i < |healthy| && healthy[i] ==> i in ring)
      && (forall k :: 0 <= k < |ring| ==> ring[k] < |healthy| && healthy[ring[k]])
      && (forall j, k :: 0 <= j < k < |ring| ==> ring[j] != ring[k])
  {
    RangeMembers(healthy, at, |healthy|);
    RangeMembers(healthy, 0, at);
    forall i | 0 <= i < |healthy| && healthy[i]
      ensures i in Ring(healthy, at)
    {
      if i < at {
        RangeHas(healthy, 0, at, i);
      } else {
        RangeHas(healthy, at, |healthy|, i);
      }
    }
  }

  function Next(n: nat, at: nat): nat
    requires at < n
  {
    if at + 1 == n then 0 else at + 1
  }

  /** The index a cursor value falls on, by counting. */
  function Index(n: nat, cursor: nat): (at: nat)
    requires n > 0
    ensures at < n && at <= cursor
  {
    if cursor == 0 then 0 else Next(n, Index(n, cursor - 1))
  }

  lemma {:induction false} IndexIsMod(n: nat, cursor: nat)
    requires n > 0
    ensures Index(n, cursor) == cursor % n
  {
    if cursor == 0 {
      assert 0 % n == 0 by { DivisionUnique(0, n, 0, 0); }
    } else {
      IndexIsMod(n, cursor - 1);
      var q, r := (cursor - 1) / n, (cursor - 1) % n;
      assert cursor - 1 == q * n + r;
      if r + 1 == n {
        assert cursor == (q + 1) * n + 0;
        DivisionUnique(cursor, n, q + 1, 0);
      } else {
        DivisionUnique(cursor, n, q, r + 1);
      }
    }
  }

  lemma DivisionUnique(x: nat, n: nat, q: nat, r: nat)
    requires n > 0 && r < n && x == q * n + r
    ensures x % n == r && x / n == q
  {
    assert (x / n - q) * n == r - x % n;
    MultipleTooBig(x / n - q, n);
  }

  lemma MultipleTooBig(d: int, n: nat)
    ensures d >= 1 ==> d * n >= n
    ensures d <= -1 ==> d * n + n <= 0
  {
  }

  lemma {:induction false} IndexWalks(n: nat, cursor: nat, k: nat)
    requires n > 0 && Index(n, cursor) + k < n
    ensures Index(n, cursor + k) == Index(n, cursor) + k
  {
    if k > 0 {
      IndexWalks(n, cursor, k - 1);
    }
  }

  function Rotated(s: seq<nat>): seq<nat> {
    if s == [] then [] else s[1..] + [s[0]]
  }

  /** One cursor increment past a healthy index turns the ring by one. */
  lemma RingTurns(healthy: seq<bool>, at: nat)
    requires at < |healthy|
    ensures Ring(healthy, Next(|healthy|, at))
            == if healthy[at] then Rotated(Ring(healthy, at)) else Ring(healthy, at)
    ensures healthy[at] ==> Ring(healthy, at) != [] && Ring(healthy, at)[0] == at
  {
    var n := |healthy|;
    var mark := if healthy[at] then [at] else [];
    var after, before := Range(healthy, at + 1, n), Range(healthy, 0, at);
    RangeFirst(healthy, at, n);
    assert Ring(healthy, at) == mark + (after + before);
    assert Range(healthy, 0, at + 1) == before + mark;
    if at + 1 < n {
      assert Ring(healthy, at + 1) == after + (before + mark);
    } else {
      assert after == [] && Range(healthy, 0, 0) == [];
      assert Ring(healthy, 0) == before + mark;
    }
    assert Ring(healthy, Next(n, at)) == (after + before) + mark;
  }

  // ----- scanning ---------------------------------------------------------------------------------------

  /** At most `tries` increments of the cursor, up to the first healthy index. */
  function Scan(healthy: seq<bool>, cursor: nat, tries: nat): (Option<nat>, nat)
    requires |healthy| > 0
    decreases tries
  {
    if tries == 0 then (None, cursor)
    else if healthy[Index(|healthy|, cursor)] then (Some(Index(|healthy|, cursor)), cursor + 1)
    else Scan(healthy, cursor + 1, tries - 1)
  }

  /** A scan that finds something finds the head of the ring and turns the ring. */
  lemma {:induction false} ScanFindsRingHead(healthy: seq<bool>, cursor: nat, tries: nat)
    requires |healthy| > 0
    ensures FoundRingHead(healthy, cursor, Scan(healthy, cursor, tries))
    decreases tries
  {
    if tries > 0 {
      var at := Index(|healthy|, cursor);
      assert Index(|healthy|, cursor + 1) == Next(|healthy|, at);
      RingTurns(healthy, at);
      if !healthy[at] {
        ScanFindsRingHead(healthy, cursor + 1, tries - 1);
      }
    }
  }

  predicate FoundRingHead(healthy: seq<bool>, cursor: nat, scanned: (Option<nat>, nat))
    requires |healthy| > 0
  {
    var ring := Ring(healthy, Index(|healthy|, cursor));
    scanned.0.Some? ==>
      && ring != [] && scanned.0.value == ring[0]
      && Ring(healthy, Index(|healthy|, scanned.1)) == Rotated(ring)
  }

  lemma {:induction false} EmptyScanMetAll(healthy: seq<bool>, cursor: nat, tries: nat, k: nat)
    requires |healthy| > 0 && k < tries && Scan(healthy, cursor, tries).0.None?
    ensures !healthy[Index(|healthy|, cursor + k)]
    decreases tries
  {
    if k > 0 {
      EmptyScanMetAll(healthy, cursor + 1, tries - 1, k - 1);
    }
  }

  /** The distance at which a full turn meets an index. */
  lemma Distance(n: nat, cursor: nat, i: nat) returns (k: nat)
    requires i < n
    ensures k < n && Index(n, cursor + k) == i
  {
    var at := Index(n, cursor);
    if at <= i {
      k := i - at;
      IndexWalks(n, cursor, k);
    } else {
      IndexWalks(n, cursor, n - 1 - at);
      var zero := cursor + (n - at);
      assert Index(n, zero) == 0;
      IndexWalks(n, zero, i);
      k := n - at + i;
    }
  }

  lemma EmptyScanMeansNoneHealthy(healthy: seq<bool>, cursor: nat)
    requires |healthy| > 0 && Scan(healthy, cursor, |healthy|).0.None?
    ensures forall i :: 0 <= i < |healthy| ==> !healthy[i]
  {
    forall i | 0 <= i < |healthy|
      ensures !healthy[i]
    {
      var k := Distance(|healthy|, cursor, i);
      EmptyScanMetAll(healthy, cursor, |healthy|, k);
    }
  }

  lemma RingEmptyIffNoneHealthy(healthy: seq<bool>, at: nat)
    requires at < |healthy|
    ensures Ring(healthy, at) == [] <==> forall i :: 0 <= i < |healthy| ==> !healthy[i]
  {
    RingMembers(healthy, at);
    var ring := Ring(healthy, at);
    if ring != [] {
      assert healthy[ring[0]];
    }
  }

  /** A whole scan finds nothing exactly when no upstream is healthy; otherwise it returns the
      first healthy index cyclically from the cursor, and the ring turns by one. */
  lemma WholeScan(healthy: seq<bool>, cursor: nat)
    requires |healthy| > 0
    ensures var (found, next) := Scan(healthy, cursor, |healthy|);
      var ring := Ring(healthy, Index(|healthy|, cursor));
      && (found.None? <==> ring == [])
      && (found.None? <==> forall i :: 0 <= i < |healthy| ==> !healthy[i])
      && (found.Some? ==> found.value == ring[0] && Ring(healthy, Index(|healthy|, next)) == Rotated(ring))
  {
    ScanFindsRingHead(healthy, cursor, |healthy|);
    RingEmptyIffNoneHealthy(healthy, Index(|healthy|, cursor));
    if Scan(healthy, cursor, |healthy|).0.None? {
      EmptyScanMeansNoneHealthy(healthy, cursor);
    }
  }

  /** The results of `m` scans in a row while health does not change. */
  function Scans(healthy: seq<bool>, cursor: nat, m: nat): (results: seq<Option<nat>>)
    requires |healthy| > 0
    ensures |results| == m
    decreases m
  {
    if m == 0 then []
    else
      var (found, next) := Scan(healthy, cursor, |healthy|);
      [found] + Scans(healthy, next, m - 1)
  }

  /** Round robin: scan `k` returns member `k` of the ring, counting round it. Since the ring
      holds each healthy upstream once, any |H| scans in a row return each exactly once. */
  lemma {:induction false} RoundRobin(healthy: seq<bool>, cursor: nat, m: nat, k: nat)
    requires |healthy| > 0 && k < m
    ensures var ring := Ring(healthy, Index(|healthy|, cursor));
      Scans(healthy, cursor, m)[k] == if ring == [] then None else Some(ring[Index(|ring|, k)])
    decreases m
  {
    WholeScan(healthy, cursor);
    if k > 0 {
      var next := Scan(healthy, cursor, |healthy|).1;
      var ring := Ring(healthy, Index(|healthy|, cursor));
      RoundRobin(healthy, next, m - 1, k - 1);
      if ring == [] {
        RingEmptyIffNoneHealthy(healthy, Index(|healthy|, next));
      } else {
        RotatedAt(ring, Index(|ring|, k - 1));
      }
    }
  }

  /** One turn: as many scans as there are healthy upstreams return the ring itself. */
  lemma FullTurn(healthy: seq<bool>, cursor: nat, k: nat)
    requires |healthy| > 0 && k < |Ring(healthy, Index(|healthy|, cursor))|
    ensures var ring := Ring(healthy, Index(|healthy|, cursor));
      Scans(healthy, cursor, |ring|)[k] == Some(ring[k])
  {
    var ring := Ring(healthy, Index(|healthy|, cursor));
    RoundRobin(healthy, cursor, |ring|, k);
    IndexWalks(|ring|, 0, k);
  }

  lemma RotatedAt(s: seq<nat>, i: nat)
    requires i < |s|
    ensures |Rotated(s)| == |s| && Rotated(s)[i] == s[Next(|s|, i)]
  {
  }

  // ----- fairness of the cursor itself -----------------------------------------------------------------

  /** How many of the first `m` cursor values fall on index `i`. */
  function Share(n: nat, m: nat, i: nat): nat
    requires n > 0
  {
    if m == 0 then 0 else Share(n, m - 1, i) + (if Index(n, m - 1) == i then 1 else 0)
  }

  lemma {:induction false} ShareExact(n: nat, m: nat, i: nat)
    requires i < n
    ensures Share(n, m, i) == Turns(n, m) + (if i < Index(n, m) then 1 else 0)
  {
    if m > 0 {
      ShareExact(n, m - 1, i);
    }
  }

  /** Full turns of the cursor after `m` increments. */
  function Turns(n: nat, m: nat): nat
    requires n > 0
  {
    if m == 0 then 0 else Turns(n, m - 1) + (if Index(n, m) == 0 then 1 else 0)
  }

  /** No index is ever more than one ahead of another. */
  lemma ShareFair(n: nat, m: nat, i: nat, j: nat)
    requires i < n && j < n
    ensures Share(n, m, i) <= Share(n, m, j) + 1
  {
    ShareExact(n, m, i);
    ShareExact(n, m, j);
  }

  // ----- passive health ------------------------------------------------------------------------------------

  datatype Health = Health(failures: nat, unhealthyUntil: int)

  datatype Report = Report(failed: bool, at: int)

  /** One result, recorded with nothing in between. */
  function Record(h: Health, r: Report, threshold: nat, cooldown: int): Health {
    if !r.failed then Health(0, 0)
    else if h.failures + 1 >= threshold then Health(0, SaturatingAdd(r.at, cooldown))
    else Health(h.failures + 1, h.unhealthyUntil)
  }

  function RecordAll(history: seq<Report>, threshold: nat, cooldown: int): Health {
    if history == [] then Health(0, 0)
    else Record(RecordAll(history[..|history| - 1], threshold, cooldown), history[|history| - 1], threshold, cooldown)
  }

  /** Failures since the last success. */
  function Streak(history: seq<Report>): (n: nat)
    ensures n <= |history|
  {
    if history == [] || !history[|history| - 1].failed then 0 else 1 + Streak(history[..|history| - 1])
  }

  /** A threshold of zero acts as one. */
  function Block(threshold: nat): nat {
    if threshold == 0 then 1 else threshold
  }

  /** After any history the counter is the failure streak modulo the threshold, and the
      upstream is marked until the cooldown after the failure that completed the last full
      block of the streak, or not at all when the streak holds no full block. */
  lemma HealthIsHistory(history: seq<Report>, threshold: nat, cooldown: int)
    ensures var h, t, streak := RecordAll(history, threshold, cooldown), Block(threshold), Streak(history);
      && h.failures == streak % t
      && 0 <= streak % t <= streak
      && h.unhealthyUntil ==
           if streak < t then 0 else SaturatingAdd(history[|history| - 1 - streak % t].at, cooldown)
  {
    IndexIsMod(Block(threshold), Streak(history));
    HealthByCounting(history, threshold, cooldown);
  }

  lemma {:induction false} HealthByCounting(history: seq<Report>, threshold: nat, cooldown: int)
    ensures var h, t, streak := RecordAll(history, threshold, cooldown), Block(threshold), Streak(history);
      && h.failures == Index(t, streak)
      && h.unhealthyUntil ==
           if streak < t then 0 else SaturatingAdd(history[|history| - 1 - Index(t, streak)].at, cooldown)
  {
    if history != [] {
      var t, before := Block(threshold), history[..|history| - 1];
      HealthByCounting(before, threshold, cooldown);
      if Streak(history) <= t {
        IndexWalks(t, 0, if Streak(history) == t then t - 1 else Streak(history));
      }
    }
  }

  // ----- the runtime object -----------------------------------------------------------------------------------

  class RouteRuntime {
    const threshold: nat
    const cooldown: int
    var cursor: nat
    const failures: array<nat>
    const unhealthyUntil: array<int>

    ghost predicate Valid() {
      failures.Length == unhealthyUntil.Length && failures as object != unhealthyUntil as object
    }

    constructor (upstreams: nat, threshold: nat, cooldown: int)
      ensures Valid() && cursor == 0
      ensures this.threshold == threshold && this.cooldown == cooldown
      ensures failures.Length == upstreams && fresh(failures) && fresh(unhealthyUntil)
      ensures forall i :: 0 <= i < upstreams ==> HealthAt(i) == Health(0, 0)
    {
      this.threshold, this.cooldown, cursor := threshold, cooldown, 0;
      failures := new nat[upstreams](_ => 0);
      unhealthyUntil := new int[upstreams](_ => 0);
    }

    function HealthAt(i: nat): Health
      requires Valid() && i < failures.Length
      reads failures, unhealthyUntil
    {
      Health(failures[i], unhealthyUntil[i])
    }

    /** Which upstreams count as healthy at `now`. */
    function HealthyAt(now: int): (healthy: seq<bool>)
      requires Valid()
      reads unhealthyUntil
      ensures |healthy| == unhealthyUntil.Length
      ensures forall i :: 0 <= i < |healthy| ==> healthy[i] == (unhealthyUntil[i] <= now)
    {
      Flags(unhealthyUntil[..], now)
    }

    method SelectUpstream(now: int) returns (found: Option<nat>)
      requires Valid()
      modifies this`cursor
      ensures failures.Length == 0 ==> found.None? && cursor == old(cursor)
      ensures failures.Length > 0 ==> (found, cursor) == Scan(HealthyAt(now), old(cursor), failures.Length)
      ensures found.Some? ==> found.value < failures.Length
    {
      var n := failures.Length;
      if n == 0 {
        return None;
      }
      ghost var healthy := HealthyAt(now);
      var tried := 0;
      while tried < n
        invariant 0 <= tried <= n
        invariant Scan(healthy, old(cursor), n) == Scan(healthy, cursor, n - tried)
      {
        IndexIsMod(n, cursor);
        var index := cursor % n;
        cursor := cursor + 1;
        if unhealthyUntil[index] <= now {
          return Some(index);
        }
        tried := tried + 1;
      }
      return None;
    }

    method RecordUpstreamResult(index: nat, report: Report)
      requires Valid()
      modifies failures, unhealthyUntil
      ensures forall i :: 0 <= i < failures.Length ==>
        HealthAt(i) == if i == index then Record(old(HealthAt(i)), report, threshold, cooldown) else old(HealthAt(i))
    {
      if index >= failures.Length {
        return;
      }
      if report.failed {
        failures[index] := failures[index] + 1;
        if failures[index] >= threshold {
          unhealthyUntil[index] := SaturatingAdd(report.at, cooldown);
          failures[index] := 0;
        }
      } else {
        failures[index] := 0;
        unhealthyUntil[index] := 0;
      }
    }
  }

  function Flags(until: seq<int>, now: int): (flags: seq<bool>)
    ensures |flags| == |until|
    ensures forall i :: 0 <= i < |until| ==> flags[i] == (until[i] <= now)
  {
    if until == [] then [] else Flags(until[..|until| - 1], now) + [until[|until| - 1] <= now]
  }
}
