/** One route id across hot reloads. Every reload builds a new runtime for the route, with its own
    permits and health, while requests that took an earlier snapshot keep theirs. */
module Generations {
  import opened Domain
  import opened RouteMachine

  /** A runtime of the route and the requests that hold it. */
  datatype Generation = Generation(cfg: Config, machine: Machine)

  type Fleet = seq<Generation>

  datatype Event = Reload(cfg: Config) | Request(g: nat, a: Action)

  /** A new request takes the newest snapshot. */
  predicate Possible(fleet: Fleet, e: Event) {
    match e
    case Reload(cfg) => ValidConfig(cfg)
    case Request(g, a) => g < |fleet| && Enabled(fleet[g].machine, a) && (a.Arrive? ==> g == |fleet| - 1)
  }

  function Next(fleet: Fleet, e: Event): Fleet
    requires Possible(fleet, e)
  {
    match e
    case Reload(cfg) => fleet + [Generation(cfg, Start(cfg))]
    case Request(g, a) => fleet[g := fleet[g].(machine := Step(fleet[g].cfg, fleet[g].machine, a))]
  }

  predicate AllSound(fleet: Fleet) {
    forall g :: 0 <= g < |fleet| ==> ValidConfig(fleet[g].cfg) && Invariant(fleet[g].cfg, fleet[g].machine)
  }

  lemma NextKeepsSound(fleet: Fleet, e: Event)
    requires Possible(fleet, e) && AllSound(fleet)
    ensures AllSound(Next(fleet, e))
  {
    match e
    case Reload(cfg) => StartSound(cfg);
    case Request(g, a) => StepKeepsInvariant(fleet[g].cfg, fleet[g].machine, a);
  }

  predicate History(fleets: seq<Fleet>, events: seq<Event>) {
    && |fleets| == |events| + 1 && fleets[0] == []
    && forall i :: 0 <= i < |events| ==> Possible(fleets[i], events[i]) && fleets[i + 1] == Next(fleets[i], events[i])
  }

  lemma {:induction false} SoundThroughout(fleets: seq<Fleet>, events: seq<Event>, k: nat)
    requires History(fleets, events) && k <= |events|
    ensures AllSound(fleets[k])
  {
    if k > 0 {
      SoundThroughout(fleets, events, k - 1);
      NextKeepsSound(fleets[k - 1], events[k - 1]);
    }
  }

  // ----- how many requests are in flight --------------------------------------------------------------

  function Held(g: Generation): nat {
    Count(g.machine.handlers, Holds)
  }

  function InFlight(fleet: Fleet): nat {
    if fleet == [] then 0 else InFlight(fleet[..|fleet| - 1]) + Held(fleet[|fleet| - 1])
  }

  /** The limits of the generations some request still holds a permit of. */
  function LiveLimit(fleet: Fleet): nat {
    if fleet == [] then 0
    else
      var last := fleet[|fleet| - 1];
      LiveLimit(fleet[..|fleet| - 1]) + if Held(last) > 0 then last.cfg.limit else 0
  }

  lemma {:induction false} InFlightBounded(fleet: Fleet)
    requires AllSound(fleet)
    ensures InFlight(fleet) <= LiveLimit(fleet)
  {
    if fleet != [] {
      var last := fleet[|fleet| - 1];
      InFlightBounded(fleet[..|fleet| - 1]);
      assert Invariant(last.cfg, last.machine);
      HeldWithinLimit(last);
    }
  }

  lemma HeldWithinLimit(g: Generation)
    requires Invariant(g.cfg, g.machine)
    ensures Held(g) <= g.cfg.limit
  {
    assert PermitsConserved(g.cfg, g.machine);
  }

  /** Through any reloads, the requests admitted on one route id are at most the sum of the limits
      of the runtimes still in use. */
  lemma AdmittedAcrossReloads(fleets: seq<Fleet>, events: seq<Event>, k: nat)
    requires History(fleets, events) && k <= |events|
    ensures InFlight(fleets[k]) <= LiveLimit(fleets[k])
  {
    SoundThroughout(fleets, events, k);
    InFlightBounded(fleets[k]);
  }

  // ----- who is served by what ------------------------------------------------------------------------

  /** A request stays with the runtime it arrived at, and none joins a runtime a reload has replaced. */
  lemma {:induction false} OldRuntimesOnlyDrain(fleets: seq<Fleet>, events: seq<Event>, k: nat, l: nat, g: nat)
    requires History(fleets, events) && k <= l <= |events| && g < |fleets[k]|
    ensures g < |fleets[l]| && fleets[l][g].cfg == fleets[k][g].cfg
    ensures |fleets[l][g].machine.handlers| >= |fleets[k][g].machine.handlers|
    ensures g + 1 < |fleets[k]| ==> |fleets[l][g].machine.handlers| == |fleets[k][g].machine.handlers|
    decreases l
  {
    if l > k {
      OldRuntimesOnlyDrain(fleets, events, k, l - 1, g);
      FleetGrows(fleets, events, k, l - 1);
      assert fleets[l] == Next(fleets[l - 1], events[l - 1]) && Possible(fleets[l - 1], events[l - 1]);
    }
  }

  lemma {:induction false} FleetGrows(fleets: seq<Fleet>, events: seq<Event>, k: nat, l: nat)
    requires History(fleets, events) && k <= l <= |events|
    ensures |fleets[k]| <= |fleets[l]|
    decreases l
  {
    if l > k {
      FleetGrows(fleets, events, k, l - 1);
      assert fleets[l] == Next(fleets[l - 1], events[l - 1]);
    }
  }

  // ----- the configured limit alone is no bound --------------------------------------------------------

  ghost predicate Seen(fleet: Fleet) {
    exists fleets, events :: History(fleets, events) && fleets[|events|] == fleet
  }

  lemma SeenNext(fleet: Fleet, e: Event) returns (next: Fleet)
    requires Seen(fleet) && Possible(fleet, e)
    ensures next == Next(fleet, e) && Seen(next)
  {
    next := Next(fleet, e);
    var fleets, events :| History(fleets, events) && fleets[|events|] == fleet;
    var longer, more := fleets + [next], events + [e];
    forall i | 0 <= i < |more|
      ensures Possible(longer[i], more[i]) && longer[i + 1] == Next(longer[i], more[i])
    {
      if i < |events| {
        assert longer[i] == fleets[i] && longer[i + 1] == fleets[i + 1] && more[i] == events[i];
      }
    }
    assert History(longer, more) && longer[|more|] == next;
  }

  /** A reload with the same configuration admits one more request. */
  lemma ReloadAdmitsOne(fleet: Fleet, cfg: Config) returns (next: Fleet)
    requires Seen(fleet) && ValidConfig(cfg)
    ensures Seen(next) && |next| == |fleet| + 1 && next[..|fleet|] == fleet
    ensures next[|fleet|].cfg == cfg && Held(next[|fleet|]) == 1
  {
    var g := |fleet|;
    next := SeenNext(fleet, Reload(cfg));
    next := SeenNext(next, Request(g, Arrive(false)));
    next := SeenNext(next, Request(g, Act(0, Route(true))));
    next := SeenNext(next, Request(g, Act(0, Acquire)));
    assert next[g].machine.handlers == [Handler(Admitted, false, true, 0, 0, 0, 0, {})];
    CountAppend([], next[g].machine.handlers[0], Holds);
    assert [] + next[g].machine.handlers == next[g].machine.handlers;
  }

  /** With a limit of one, a single reload lets two requests in. */
  lemma ReloadExceedsLimit() returns (cfg: Config, fleet: Fleet)
    ensures ValidConfig(cfg) && Seen(fleet)
    ensures (forall g :: 0 <= g < |fleet| ==> fleet[g].cfg == cfg) && cfg.limit == 1 < InFlight(fleet)
  {
    cfg := Config(1, 1, 1, 10, 0);
    assert History([[]], []);
    var one := ReloadAdmitsOne([], cfg);
    fleet := ReloadAdmitsOne(one, cfg);
    assert fleet[..1] == one && one[..0] == [];
    assert InFlight(one) == InFlight([]) + Held(one[0]);
    assert InFlight(fleet) == InFlight(one) + Held(fleet[1]);
    forall g | 0 <= g < |fleet|
      ensures fleet[g].cfg == cfg
    {
      if g == 0 {
        assert fleet[..1][0] == fleet[0];
      }
    }
  }

  /** A reload forgets health: every upstream of the new runtime counts as healthy from time zero on. */
  lemma ReloadForgetsHealth(fleet: Fleet, cfg: Config, u: nat, now: int)
    requires Possible(fleet, Reload(cfg)) && u < cfg.upstreams && now >= 0
    ensures var next := Next(fleet, Reload(cfg)); Healthy(next[|fleet|].machine, u, now)
  {
  }
}
