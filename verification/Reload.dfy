/** Gateway state built from a configuration, and hot reloads that replace it while requests
    keep taking snapshots. */
module Reload {
  import opened Domain
  import opened Settings
  import P = Policy
  import M = RouteMachine

  /** What a hot reload may not change. */
  datatype Fixed = Fixed(
    mode: string,
    listen: string,
    adminListen: string,
    serverTls: string,
    adminTokenEnv: Option<string>,
    allowInternalNetwork: bool,
    upstreamTls: string,
    storage: StorageConfig)

  datatype AppConfig = AppConfig(
    fixed: Fixed,
    adminToken: Option<string>,
    redaction: Redaction,
    routes: seq<Route>,
    plugins: seq<P.PluginConfig>)

  /** Every plugin names each of its routes once, and only configured ones. */
  ghost predicate PluginsFit(routes: seq<Route>, plugins: seq<P.PluginConfig>) {
    exists ids: set<string> :: Names(routes, ids) && ValidPlugins(plugins, ids)
  }

  ghost predicate Validated(c: AppConfig) {
    && ValidStorage(c.fixed.storage)
    && ValidRoutes(c.routes, c.fixed.storage)
    && ValidRedaction(c.redaction)
    && PluginsFit(c.routes, c.plugins)
  }

  /** A configuration as read. `fixed` is what the checks of the other sections made of them, if they
      passed; its storage part is filled in here. */
  datatype RawConfig = RawConfig(
    fixed: Option<Fixed>,
    adminToken: Option<string>,
    storage: RawStorage,
    redaction: Redaction,
    routes: seq<RawRoute>,
    plugins: seq<RawPlugin>)

  predicate AcceptableRest(raw: RawConfig, s: StorageConfig, production: bool, upstreamOk: string -> bool) {
    && AcceptableRedaction(raw.redaction)
    && AcceptableRoutes(raw.routes, s, upstreamOk)
    && AcceptablePlugins(raw.plugins, RouteIds(raw.routes), production)
  }

  /** Field by field, what was read. */
  ghost predicate ConfigRead(raw: RawConfig, c: AppConfig) {
    && raw.fixed.Some? && c.fixed == raw.fixed.value.(storage := c.fixed.storage)
    && c.adminToken == raw.adminToken
    && ListRead(raw.redaction.headers, c.redaction.headers) && ListRead(raw.redaction.params, c.redaction.params)
    && RoutesRead(raw.routes, |raw.routes|, c.routes)
    && PluginsRead(raw.plugins, c.plugins)
  }

  /** Validation lets exactly the acceptable configurations through, keeps what was read, and what it
      lets through is what the gateway relies on. */
  method Validate(raw: RawConfig, url: Option<string>, production: bool, upstreamOk: string -> bool)
    returns (c: Option<AppConfig>)
    ensures c.Some? <==>
      && raw.fixed.Some?
      && AcceptStorage(raw.storage, url, production).Some?
      && AcceptableRest(raw, AcceptStorage(raw.storage, url, production).value, production, upstreamOk)
    ensures c.Some? ==>
      && Validated(c.value) && ConfigRead(raw, c.value)
      && AcceptStorage(raw.storage, url, production) == Some(c.value.fixed.storage)
  {
    var storage := ValidateStorage(raw.storage, url, production);
    if raw.fixed.None? || storage.None? {
      return None;
    }
    var redaction := ValidateRedaction(raw.redaction);
    if redaction.None? {
      return None;
    }
    var routes, ids := ValidateRoutes(raw.routes, storage.value, upstreamOk);
    if routes.None? {
      return None;
    }
    var plugins := ValidatePlugins(raw.plugins, ids, production);
    if plugins.None? {
      return None;
    }
    return Some(AppConfig(raw.fixed.value.(storage := storage.value), raw.adminToken, redaction.value,
                          routes.value, plugins.value));
  }

  /** The first forbidden change, if any. */
  function ForbiddenChange(current: AppConfig, next: AppConfig): (change: Option<string>)
    ensures change.None? <==> next.fixed == current.fixed
  {
    var a, b := current.fixed, next.fixed;
    if a.mode != b.mode then Some("server.mode")
    else if a.listen != b.listen then Some("server.listen")
    else if a.adminListen != b.adminListen then Some("server.admin_listen")
    else if a.serverTls != b.serverTls then Some("server.tls")
    else if a.adminTokenEnv != b.adminTokenEnv || a.allowInternalNetwork != b.allowInternalNetwork then Some("admin")
    else if a.upstreamTls != b.upstreamTls then Some("upstream_tls")
    else if a.storage != b.storage then Some("storage")
    else None
  }

  /** The change named is the first, in this order, that differs. */
  lemma ChangeNamed(current: AppConfig, next: AppConfig)
    ensures var a, b, change := current.fixed, next.fixed, ForbiddenChange(current, next);
      if a.mode != b.mode then change == Some("server.mode")
      else if a.listen != b.listen then change == Some("server.listen")
      else if a.adminListen != b.adminListen then change == Some("server.admin_listen")
      else if a.serverTls != b.serverTls then change == Some("server.tls")
      else if (a.adminTokenEnv, a.allowInternalNetwork) != (b.adminTokenEnv, b.allowInternalNetwork) then
        change == Some("admin")
      else if a.upstreamTls != b.upstreamTls then change == Some("upstream_tls")
      else if a.storage != b.storage then change == Some("storage")
      else change == None
  {
  }

  // ----- building the state -----------------------------------------------------------------------

  datatype Runtime = Runtime(permits: nat, upstreams: nat, threshold: nat, cooldownMs: int)

  datatype GatewayState = GatewayState(
    routes: seq<Route>,
    storage: StorageConfig,
    redaction: Redaction,
    engine: P.Engine,
    runtimes: map<string, Runtime>)

  function RuntimeOf(r: Route): Runtime {
    Runtime(r.concurrencyLimit, |r.upstreams|, r.healthFailures, Min(r.healthCooldownMs, I64_MAX))
  }

  /** Each id has the runtime of the last route that carries it. */
  predicate RuntimesOf(routes: seq<Route>, runtimes: map<string, Runtime>) {
    && (forall i :: 0 <= i < |routes| ==> routes[i].id in runtimes)
    && (forall i :: 0 <= i < |routes| && (forall j :: i < j < |routes| ==> routes[j].id != routes[i].id) ==>
          runtimes[routes[i].id] == RuntimeOf(routes[i]))
  }

  ghost predicate Represents(g: GatewayState, c: AppConfig) {
    && g.routes == c.routes && g.storage == c.fixed.storage
    && g.redaction == c.redaction
    && g.engine.plugins == c.plugins
    && (forall route :: P.Chain(g.engine, route) == P.PluginsOf(c.plugins, route))
    && RuntimesOf(c.routes, g.runtimes)
  }

  predicate AllLoad(c: AppConfig, loads: P.PluginConfig -> bool) {
    forall i :: 0 <= i < |c.plugins| ==> loads(c.plugins[i])
  }

  method BuildRuntimes(routes: seq<Route>) returns (runtimes: map<string, Runtime>)
    ensures RuntimesOf(routes, runtimes)
  {
    runtimes := map[];
    var i := 0;
    while i < |routes|
      invariant 0 <= i <= |routes|
      invariant forall k :: 0 <= k < i ==> routes[k].id in runtimes
      invariant forall k :: 0 <= k < i && (forall j :: k < j < i ==> routes[j].id != routes[k].id) ==>
        runtimes[routes[k].id] == RuntimeOf(routes[k])
    {
      runtimes := runtimes[routes[i].id := RuntimeOf(routes[i])];
      i := i + 1;
    }
  }

  method NewGatewayState(c: AppConfig, loads: P.PluginConfig -> bool) returns (g: Option<GatewayState>)
    ensures g.Some? <==> AllLoad(c, loads)
    ensures g.Some? ==> Represents(g.value, c)
  {
    var runtimes := BuildRuntimes(c.routes);
    var engine := P.NewEngine(c.plugins, loads);
    if engine.Err? {
      return None;
    }
    return Some(GatewayState(c.routes, c.fixed.storage, c.redaction, engine.value, runtimes));
  }

  /** The admin side's view: the published state and the configuration it came from. */
  class AdminState {
    const hasConfigPath: bool
    var gateway: GatewayState
    var current: AppConfig

    constructor (c: AppConfig, g: GatewayState, hasConfigPath: bool)
      requires Represents(g, c)
      ensures gateway == g && current == c && this.hasConfigPath == hasConfigPath
    {
      this.hasConfigPath, gateway, current := hasConfigPath, g, c;
    }

    /** Accepts a loadable configuration that changes nothing fixed; otherwise nothing changes. */
    method ReloadGateway(authorized: bool, loaded: Option<AppConfig>, loads: P.PluginConfig -> bool)
      returns (accepted: bool)
      modifies this
      ensures accepted <==>
        && authorized && hasConfigPath && loaded.Some?
        && loaded.value.fixed == old(current).fixed && AllLoad(loaded.value, loads)
      ensures accepted ==> current == loaded.value && Represents(gateway, current)
      ensures !accepted ==> current == old(current) && gateway == old(gateway)
    {
      if !authorized || !hasConfigPath || loaded.None? {
        return false;
      }
      if ForbiddenChange(current, loaded.value).Some? {
        return false;
      }
      var g := NewGatewayState(loaded.value, loads);
      if g.None? {
        return false;
      }
      gateway := g.value;
      current := loaded.value;
      return true;
    }
  }

  /** In a state built from a validated configuration, a matched route has its own runtime,
      sized for its upstreams and within the limits the route machine needs. */
  lemma MatchedRouteHasRuntime(g: GatewayState, c: AppConfig, i: nat)
    requires Validated(c) && Represents(g, c) && i < |g.routes|
    ensures g.routes[i].id in g.runtimes
    ensures var r, run := g.routes[i], g.runtimes[g.routes[i].id];
      && run == RuntimeOf(r)
      && run.upstreams == |r.upstreams| && run.permits == r.concurrencyLimit
      && run.threshold == r.healthFailures && run.cooldownMs == r.healthCooldownMs
      && M.ValidConfig(M.Config(run.permits, run.upstreams, run.threshold, run.cooldownMs, r.retries))
  {
    assert ValidRoute(c.routes[i], c.fixed.storage);
  }

  // ----- reloads and snapshots interleaved ------------------------------------------------------------

  datatype Reloader = Reading | Loaded(c: AppConfig) | Holding(c: AppConfig) | Swapped(c: AppConfig) | Finished

  /** A published state together with the configuration it was built from. */
  datatype Published = Published(g: GatewayState, c: AppConfig)

  datatype System = System(
    startup: AppConfig,
    live: Published,
    current: AppConfig,
    lock: Option<nat>,
    reloaders: seq<Reloader>,
    snapshots: seq<Published>)

  datatype Action =
    | Begin
    | Load(r: nat, c: AppConfig)
    | Fail(r: nat)
    | Lock(r: nat)
    | Reject(r: nat)
    | Swap(r: nat, g: GatewayState)
    | Commit(r: nat)
    | Snapshot

  /** A request takes a snapshot at any time; the lock serialises the rest. */
  ghost predicate Enabled(s: System, a: Action) {
    match a
    case Begin => true
    case Load(r, c) => r < |s.reloaders| && s.reloaders[r].Reading? && Validated(c)
    case Fail(r) => r < |s.reloaders| && s.reloaders[r].Reading?
    case Lock(r) => r < |s.reloaders| && s.reloaders[r].Loaded? && s.lock.None?
    case Reject(r) => r < |s.reloaders| && s.reloaders[r].Holding?
    case Swap(r, g) =>
      && r < |s.reloaders| && s.reloaders[r].Holding?
      && ForbiddenChange(s.current, s.reloaders[r].c).None? && Represents(g, s.reloaders[r].c)
    case Commit(r) => r < |s.reloaders| && s.reloaders[r].Swapped?
    case Snapshot => true
  }

  ghost function Step(s: System, a: Action): System
    requires Enabled(s, a)
  {
    match a
    case Begin => s.(reloaders := s.reloaders + [Reading])
    case Load(r, c) => s.(reloaders := s.reloaders[r := Loaded(c)])
    case Fail(r) => s.(reloaders := s.reloaders[r := Finished])
    case Lock(r) => s.(reloaders := s.reloaders[r := Holding(s.reloaders[r].c)], lock := Some(r))
    case Reject(r) => s.(reloaders := s.reloaders[r := Finished], lock := None)
    case Swap(r, g) =>
      s.(reloaders := s.reloaders[r := Swapped(s.reloaders[r].c)], live := Published(g, s.reloaders[r].c))
    case Commit(r) => s.(reloaders := s.reloaders[r := Finished], current := s.reloaders[r].c, lock := None)
    case Snapshot => s.(snapshots := s.snapshots + [s.live])
  }

  /** Built from a validated configuration that keeps the startup's fixed settings. */
  ghost predicate Sound(startup: AppConfig, p: Published) {
    Validated(p.c) && Represents(p.g, p.c) && p.c.fixed == startup.fixed
  }

  predicate Serialised(s: System) {
    && (forall r :: 0 <= r < |s.reloaders| && (s.reloaders[r].Holding? || s.reloaders[r].Swapped?) ==>
          s.lock == Some(r))
    && (s.lock.Some? ==>
          && s.lock.value < |s.reloaders|
          && (s.reloaders[s.lock.value].Holding? || s.reloaders[s.lock.value].Swapped?))
  }

  /** The published state is that of the current configuration, except while the lock's holder
      has swapped the state and not yet the configuration. */
  predicate Agrees(s: System)
    requires Serialised(s)
  {
    if s.lock.Some? && s.reloaders[s.lock.value].Swapped? then s.live.c == s.reloaders[s.lock.value].c
    else s.live.c == s.current
  }

  ghost predicate Invariant(s: System) {
    && Serialised(s) && Agrees(s)
    && Sound(s.startup, s.live)
    && Validated(s.current) && s.current.fixed == s.startup.fixed
    && LoadedValidated(s)
    && (forall i :: 0 <= i < |s.snapshots| ==> Sound(s.startup, s.snapshots[i]))
  }

  lemma StepKeepsLock(s: System, a: Action)
    requires Enabled(s, a) && Serialised(s) && Agrees(s)
    ensures Serialised(Step(s, a)) && Agrees(Step(s, a))
  {
  }

  /** Every configuration a reload has loaded is validated. */
  ghost predicate LoadedValidated(s: System) {
    forall r :: 0 <= r < |s.reloaders| && !s.reloaders[r].Reading? && !s.reloaders[r].Finished? ==>
      Validated(s.reloaders[r].c)
  }

  lemma StepKeepsLoaded(s: System, a: Action)
    requires Enabled(s, a) && LoadedValidated(s)
    ensures LoadedValidated(Step(s, a))
  {
  }

  lemma StepKeepsSound(s: System, a: Action)
    requires Enabled(s, a) && Invariant(s)
    ensures var next := Step(s, a);
      && Sound(s.startup, next.live) && Validated(next.current) && next.current.fixed == s.startup.fixed
      && next.startup == s.startup
      && forall i :: 0 <= i < |next.snapshots| ==> Sound(s.startup, next.snapshots[i])
  {
    if a.Commit? {
      assert s.lock == Some(a.r);
    }
  }

  lemma StepKeepsInvariant(s: System, a: Action)
    requires Enabled(s, a) && Invariant(s)
    ensures Invariant(Step(s, a))
  {
    StepKeepsLock(s, a);
    StepKeepsLoaded(s, a);
    StepKeepsSound(s, a);
  }

  ghost predicate Behaviour(trace: seq<System>, actions: seq<Action>) {
    && |trace| == |actions| + 1
    && Initial(trace[0])
    && forall i :: 0 <= i < |actions| ==> Enabled(trace[i], actions[i]) && trace[i + 1] == Step(trace[i], actions[i])
  }

  ghost predicate Initial(s: System) {
    && Validated(s.startup) && s.current == s.startup
    && s.live.c == s.startup && Represents(s.live.g, s.startup)
    && s.lock.None? && s.reloaders == [] && s.snapshots == []
  }

  lemma {:induction false} InvariantThroughout(trace: seq<System>, actions: seq<Action>, k: nat)
    requires Behaviour(trace, actions) && k <= |actions|
    ensures Invariant(trace[k]) && trace[k].startup == trace[0].startup
  {
    if k > 0 {
      InvariantThroughout(trace, actions, k - 1);
      StepKeepsInvariant(trace[k - 1], actions[k - 1]);
    }
  }

  /** Through all reloads: fixed settings are the startup's, state and configuration agree
      whenever the lock is free, and every snapshot any request holds serves each route it
      can match. */
  lemma AllReloadsServe(trace: seq<System>, actions: seq<Action>, k: nat)
    requires Behaviour(trace, actions) && k <= |actions|
    ensures var s := trace[k];
      && s.current.fixed == s.live.c.fixed == trace[0].startup.fixed
      && (s.lock.None? ==> Represents(s.live.g, s.current))
      && forall n, i :: 0 <= n < |s.snapshots| && 0 <= i < |s.snapshots[n].g.routes| ==>
        var g := s.snapshots[n].g;
        && g.routes[i].id in g.runtimes
        && g.runtimes[g.routes[i].id].upstreams == |g.routes[i].upstreams| > 0
  {
    InvariantThroughout(trace, actions, k);
    var s := trace[k];
    forall n: nat, i: nat | n < |s.snapshots| && i < |s.snapshots[n].g.routes|
      ensures s.snapshots[n].g.routes[i].id in s.snapshots[n].g.runtimes
      ensures s.snapshots[n].g.runtimes[s.snapshots[n].g.routes[i].id].upstreams
              == |s.snapshots[n].g.routes[i].upstreams| > 0
    {
      MatchedRouteHasRuntime(s.snapshots[n].g, s.snapshots[n].c, i);
    }
  }

  /** Whatever snapshot a request holds, each route's chain lists in order exactly the plugins
      that name the route, so policy evaluation indexes in range. */
  lemma SnapshotChains(trace: seq<System>, actions: seq<Action>, k: nat, n: nat, route: string)
    requires Behaviour(trace, actions) && k <= |actions| && n < |trace[k].snapshots|
    ensures var g := trace[k].snapshots[n].g;
      && P.ListsExactly(g.engine.plugins, route, P.Chain(g.engine, route))
      && P.Indexes(g.engine.plugins, P.Chain(g.engine, route))
  {
    InvariantThroughout(trace, actions, k);
    var p := trace[k].snapshots[n];
    assert Sound(trace[k].startup, p);
    var ids: set<string> :| Names(p.c.routes, ids) && ValidPlugins(p.c.plugins, ids);
    assert forall i :: 0 <= i < |p.c.plugins| ==> ValidPlugin(p.c.plugins[i], ids);
    P.ChainInOrder(p.c.plugins, route);
  }
}
