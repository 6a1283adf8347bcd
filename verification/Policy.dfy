/** The policy engine: which plugins a route has, what each of them is shown, and how their
    answers combine. A plugin call is an arbitrary function of its position and input. */
module Policy {
  import opened Domain
  import opened Text
  import opened Headers
  import opened Redaction

  datatype PluginConfig = PluginConfig(
    id: string,
    routes: seq<string>,
    bodyPreviewBytes: nat,
    rawHeaders: seq<string>,
    settings: seq<Header>)

  datatype Engine = Engine(plugins: seq<PluginConfig>, routePlugins: map<string, seq<nat>>)

  function Entry(index: map<string, seq<nat>>, route: string): seq<nat> {
    if route in index then index[route] else []
  }

  /** The plugins a request on this route goes through. */
  function Chain(e: Engine, route: string): seq<nat> {
    Entry(e.routePlugins, route)
  }

  // ----- the route index -----------------------------------------------------------------------

  function Copies(routes: seq<string>, route: string, index: nat): seq<nat> {
    if routes == [] then []
    else Copies(routes[..|routes| - 1], route, index) + if routes[|routes| - 1] == route then [index] else []
  }

  /** The plugins of a route in configuration order, once for each time a plugin lists it. */
  function PluginsOf(configs: seq<PluginConfig>, route: string): seq<nat> {
    if configs == [] then []
    else
      var last := |configs| - 1;
      PluginsOf(configs[..last], route) + Copies(configs[last].routes, route, last)
  }

  /** Every route's entry grows by the plugin's mentions of it. */
  ghost predicate Extends(before: map<string, seq<nat>>, after: map<string, seq<nat>>, routes: seq<string>,
                          plugin: nat)
  {
    forall route :: Entry(after, route) == Entry(before, route) + Copies(routes, route, plugin)
  }

  ghost predicate IndexOf(index: map<string, seq<nat>>, configs: seq<PluginConfig>) {
    forall route :: Entry(index, route) == PluginsOf(configs, route)
  }

  lemma CopiesMore(routes: seq<string>, last: string, route: string, plugin: nat)
    ensures Copies(routes + [last], route, plugin)
            == Copies(routes, route, plugin) + if last == route then [plugin] else []
  {
    assert (routes + [last])[..|routes|] == routes;
  }

  lemma ExtendsMore(before: map<string, seq<nat>>, index: map<string, seq<nat>>, routes: seq<string>, last: string,
                    plugin: nat)
    requires Extends(before, index, routes, plugin)
    ensures Extends(before, index[last := Entry(index, last) + [plugin]], routes + [last], plugin)
  {
    var after := index[last := Entry(index, last) + [plugin]];
    forall route
      ensures Entry(after, route) == Entry(before, route) + Copies(routes + [last], route, plugin)
    {
      assert Entry(index, route) == Entry(before, route) + Copies(routes, route, plugin);
      CopiesMore(routes, last, route, plugin);
      AppendLater(Entry(before, route), Copies(routes, route, plugin), if last == route then [plugin] else []);
    }
  }

  lemma AppendLater(a: seq<nat>, b: seq<nat>, c: seq<nat>)
    ensures (a + b) + c == a + (b + c)
    ensures c == [] ==> b + c == b
  {
  }

  lemma IndexMore(before: map<string, seq<nat>>, after: map<string, seq<nat>>, configs: seq<PluginConfig>,
                  more: PluginConfig)
    requires IndexOf(before, configs) && Extends(before, after, more.routes, |configs|)
    ensures IndexOf(after, configs + [more])
  {
    assert (configs + [more])[..|configs|] == configs;
    forall route
      ensures Entry(after, route) == PluginsOf(configs + [more], route)
    {
      assert Entry(before, route) == PluginsOf(configs, route);
    }
  }

  method NewEngine(configs: seq<PluginConfig>, loads: PluginConfig -> bool) returns (result: Result<Engine, string>)
    ensures result.Ok? <==> forall i :: 0 <= i < |configs| ==> loads(configs[i])
    ensures result.Ok? ==>
      && result.value.plugins == configs
      && forall route :: Chain(result.value, route) == PluginsOf(configs, route)
  {
    var plugins: seq<PluginConfig> := [];
    var index: map<string, seq<nat>> := map[];
    var i := 0;
    while i < |configs|
      invariant 0 <= i <= |configs| && plugins == configs[..i]
      invariant forall k :: 0 <= k < i ==> loads(configs[k])
      invariant IndexOf(index, plugins)
    {
      if !loads(configs[i]) {
        return Err(configs[i].id);
      }
      var after := IndexPlugin(index, configs[i].routes, |plugins|);
      IndexMore(index, after, plugins, configs[i]);
      index := after;
      plugins := plugins + [configs[i]];
      i := i + 1;
    }
    assert forall route :: Chain(Engine(plugins, index), route) == Entry(index, route);
    return Ok(Engine(plugins, index));
  }

  method IndexPlugin(before: map<string, seq<nat>>, routes: seq<string>, plugin: nat)
    returns (index: map<string, seq<nat>>)
    ensures Extends(before, index, routes, plugin)
  {
    index := before;
    var j := 0;
    while j < |routes|
      invariant 0 <= j <= |routes|
      invariant Extends(before, index, routes[..j], plugin)
    {
      ExtendsMore(before, index, routes[..j], routes[j], plugin);
      assert routes[..j + 1] == routes[..j] + [routes[j]];
      index := index[routes[j] := Entry(index, routes[j]) + [plugin]];
      j := j + 1;
    }
    assert routes[..j] == routes;
  }

  lemma {:induction false} CopiesOnce(routes: seq<string>, route: string, index: nat)
    requires Distinct(routes)
    ensures Copies(routes, route, index) == if route in routes then [index] else []
  {
    if routes != [] {
      CopiesOnce(routes[..|routes| - 1], route, index);
      assert routes == routes[..|routes| - 1] + [routes[|routes| - 1]];
    }
  }

  predicate Indexes(configs: seq<PluginConfig>, chain: seq<nat>) {
    forall k :: 0 <= k < |chain| ==> chain[k] < |configs|
  }

  /** The chain lists, in order and once each, exactly the plugins that name the route. */
  predicate ListsExactly(configs: seq<PluginConfig>, route: string, chain: seq<nat>) {
    && Increasing(chain) && Indexes(configs, chain)
    && forall i :: 0 <= i < |configs| ==> (i in chain <==> route in configs[i].routes)
  }

  /** The chain of a longer configuration: the last plugin comes last, if it names the route. */
  function WithLast(configs: seq<PluginConfig>, route: string, chain: seq<nat>): seq<nat>
    requires configs != []
  {
    if route in configs[|configs| - 1].routes then chain + [|configs| - 1] else chain
  }

  lemma ListsOneMore(configs: seq<PluginConfig>, route: string, chain: seq<nat>)
    requires configs != [] && ListsExactly(configs[..|configs| - 1], route, chain)
    ensures ListsExactly(configs, route, WithLast(configs, route, chain))
  {
    var last := |configs| - 1;
    forall i | 0 <= i < |configs|
      ensures i in WithLast(configs, route, chain) <==> route in configs[i].routes
    {
      if i < last {
        assert configs[..last][i] == configs[i];
      }
    }
  }

  lemma PluginsOneMore(configs: seq<PluginConfig>, route: string)
    requires configs != [] && Distinct(configs[|configs| - 1].routes)
    ensures PluginsOf(configs, route) == WithLast(configs, route, PluginsOf(configs[..|configs| - 1], route))
  {
    CopiesOnce(configs[|configs| - 1].routes, route, |configs| - 1);
  }

  /** For validated configurations, whose plugins name no route twice. */
  lemma {:induction false} ChainInOrder(configs: seq<PluginConfig>, route: string)
    requires forall i :: 0 <= i < |configs| ==> Distinct(configs[i].routes)
    ensures ListsExactly(configs, route, PluginsOf(configs, route))
  {
    if configs != [] {
      var before := configs[..|configs| - 1];
      ChainInOrder(before, route);
      ListsOneMore(configs, route, PluginsOf(before, route));
      PluginsOneMore(configs, route);
    }
  }

  // ----- what a plugin is shown ------------------------------------------------------------------

  /** What every plugin is told alike; the query is the redacted one. */
  datatype Context = Context(
    routeId: string,
    requestId: string,
    verb: string,
    path: string,
    query: Option<string>,
    clientAddress: string)

  datatype Request = Request(
    context: Context,
    headers: seq<Header>,
    sensitiveHeaders: seq<string>,
    bodyPreview: Option<Body>)

  datatype Input = Input(context: Context, headers: seq<Header>, settings: seq<Header>, bodyPreview: Option<Body>)

  predicate Listed(names: seq<string>, name: string) {
    exists n :: n in names && Lower(n) == name
  }

  predicate Visible(r: Request, raw: seq<string>, h: Header) {
    !Listed(r.sensitiveHeaders, h.name) || Listed(raw, h.name)
  }

  /** A header is shown exactly when no sensitive name, lowered, is its own, or some raw name is. */
  lemma VisibleExactly(r: Request, raw: seq<string>, h: Header)
    ensures Visible(r, raw, h) <==>
      (forall s :: s in r.sensitiveHeaders ==> Lower(s) != h.name) || exists x :: x in raw && Lower(x) == h.name
  {
  }

  function PreviewFor(preview: Option<Body>, limit: nat): Option<Body> {
    if preview.None? || limit == 0 then None else Some(Take(preview.value, limit))
  }

  function InputFor(r: Request, config: PluginConfig): Input {
    Input(
      r.context,
      Filter(h => Visible(r, config.rawHeaders, h), r.headers),
      config.settings,
      PreviewFor(r.bodyPreview, config.bodyPreviewBytes))
  }

  /** A plugin gets the request's context, in order exactly the headers it may see, so no sensitive
      one it did not list, its own settings and its own share of the preview. */
  lemma InputExact(r: Request, config: PluginConfig) returns (positions: seq<nat>)
    ensures FilteredAt(h => Visible(r, config.rawHeaders, h), r.headers, InputFor(r, config).headers, positions)
    ensures forall h :: h in InputFor(r, config).headers && Listed(r.sensitiveHeaders, h.name) ==>
      Listed(config.rawHeaders, h.name)
    ensures InputFor(r, config).context == r.context && InputFor(r, config).settings == config.settings
    ensures InputFor(r, config).bodyPreview.Some? <==> r.bodyPreview.Some? && config.bodyPreviewBytes > 0
    ensures InputFor(r, config).bodyPreview.Some? ==>
      && InputFor(r, config).bodyPreview.value <= r.bodyPreview.value
      && |InputFor(r, config).bodyPreview.value| == Min(|r.bodyPreview.value|, config.bodyPreviewBytes)
  {
    var keep := h => Visible(r, config.rawHeaders, h);
    positions := FilterPositions(keep, r.headers);
    forall h | h in InputFor(r, config).headers
      ensures Visible(r, config.rawHeaders, h)
    {
      assert keep(h);
    }
  }

  // ----- what a plugin answers -----------------------------------------------------------------------

  datatype Deny = Deny(status: int, message: string)

  datatype Answer = Answer(allow: bool, deny: Option<Deny>, sets: seq<Header>, removes: seq<string>)

  datatype Decision = Decision(deny: Option<Deny>, mutations: Mutations)

  /** A plugin call: a normalised decision, a failure, or a call cut off by its timeout. */
  datatype Outcome = Decided(decision: Decision) | Failed | TimedOut

  /** Every item's image, or nothing if one has none. */
  function AllOrNone<T, U>(f: T -> Option<U>, items: seq<T>): Option<seq<U>> {
    if items == [] then Some([])
    else
      match (AllOrNone(f, items[..|items| - 1]), f(items[|items| - 1]))
      case (Some(before), Some(last)) => Some(before + [last])
      case _ => None
  }

  lemma {:induction false} AllOrNoneExact<T, U>(f: T -> Option<U>, items: seq<T>)
    ensures AllOrNone(f, items).Some? <==> forall i :: 0 <= i < |items| ==> f(items[i]).Some?
    ensures AllOrNone(f, items).Some? ==>
      && |AllOrNone(f, items).value| == |items|
      && forall i :: 0 <= i < |items| ==> f(items[i]) == Some(AllOrNone(f, items).value[i])
  {
    if items != [] {
      AllOrNoneExact(f, items[..|items| - 1]);
    }
  }

  function NormalizeSets(sets: seq<Header>): Option<seq<Header>> {
    AllOrNone(NormalizeSet, sets)
  }

  function NormalizeRemoves(removes: seq<string>): Option<seq<string>> {
    AllOrNone(NormalizeName, removes)
  }

  function NormalizeDeny(d: Deny): Deny {
    Deny(if 400 <= d.status <= 599 then d.status else 403, Take(d.message, 512))
  }

  /** None is an invalid header mutation, which counts as a failed call. */
  function Normalize(a: Answer): Option<Decision> {
    match (NormalizeSets(a.sets), NormalizeRemoves(a.removes))
    case (Some(sets), Some(removes)) =>
      Some(Decision(if a.deny.Some? then Some(NormalizeDeny(a.deny.value)) else None, Mutations(sets, removes)))
    case _ => None
  }

  /** A component's answer, or None for a trap, as the engine reports it. */
  function Call(answer: Option<Answer>): Outcome {
    if answer.None? || Normalize(answer.value).None? then Failed else Decided(Normalize(answer.value).value)
  }

  predicate Allows(o: Outcome) {
    o.Decided? && o.decision.deny.None?
  }

  /** The answer the client sees when this call is not an allow. */
  function DenialOf(o: Outcome): Deny {
    match o
    case Decided(Decision(Some(deny), _)) => deny
    case _ => Deny(403, "request denied by policy")
  }

  /** Every mutation of a decision takes effect, and every denial is an error response. */
  lemma DecisionsAreSound(answer: Option<Answer>)
    ensures 400 <= DenialOf(Call(answer)).status <= 599
    ensures Call(answer).Decided? ==>
      var m := Call(answer).decision.mutations;
      && (forall i :: 0 <= i < |m.sets| ==> Sets(m.sets[i], m.sets[i].name))
      && (forall i :: 0 <= i < |m.removes| ==> ParseName(m.removes[i]) == Some(m.removes[i]))
  {
    if Call(answer).Decided? {
      SetsAreSound(answer.value.sets);
      RemovesAreSound(answer.value.removes);
    }
  }

  /** A decision holds exactly what the answer said: its denial, with a status outside 400 to 599 turned
      into 403 and a message cut at 512 characters, and every mutation in order, normalised. */
  lemma DecisionExact(a: Answer)
    requires Call(Some(a)).Decided?
    ensures var d := Call(Some(a)).decision;
      && (d.deny.Some? <==> a.deny.Some?)
      && (a.deny.Some? ==>
            var was, now := a.deny.value, d.deny.value;
            && now.status == (if was.status < 400 || was.status > 599 then 403 else was.status)
            && now.message == if |was.message| <= 512 then was.message else was.message[..512])
      && |d.mutations.sets| == |a.sets| && |d.mutations.removes| == |a.removes|
      && (forall i :: 0 <= i < |a.sets| ==> NormalizeSet(a.sets[i]) == Some(d.mutations.sets[i]))
      && (forall i :: 0 <= i < |a.removes| ==> NormalizeName(a.removes[i]) == Some(d.mutations.removes[i]))
  {
    AllOrNoneExact(NormalizeSet, a.sets);
    AllOrNoneExact(NormalizeName, a.removes);
  }

  lemma SetsAreSound(sets: seq<Header>)
    requires NormalizeSets(sets).Some?
    ensures forall i :: 0 <= i < |NormalizeSets(sets).value| ==>
      Sets(NormalizeSets(sets).value[i], NormalizeSets(sets).value[i].name)
  {
    AllOrNoneExact(NormalizeSet, sets);
    forall i | 0 <= i < |sets|
      ensures Sets(NormalizeSets(sets).value[i], NormalizeSets(sets).value[i].name)
    {
      assert NormalizeSet(sets[i]) == Some(NormalizeSets(sets).value[i]);
      NormalizedNeverSkipped(sets[i]);
    }
  }

  lemma RemovesAreSound(removes: seq<string>)
    requires NormalizeRemoves(removes).Some?
    ensures forall i :: 0 <= i < |NormalizeRemoves(removes).value| ==>
      ParseName(NormalizeRemoves(removes).value[i]) == Some(NormalizeRemoves(removes).value[i])
  {
    AllOrNoneExact(NormalizeName, removes);
    forall i | 0 <= i < |removes|
      ensures ParseName(NormalizeRemoves(removes).value[i]) == Some(NormalizeRemoves(removes).value[i])
    {
      assert NormalizeName(removes[i]) == Some(NormalizeRemoves(removes).value[i]);
      NormalizedNeverSkipped(Header(removes[i], ""));
    }
  }

  /** The `allow` flag of an answer decides nothing. A request goes on exactly when the answer
      holds no deny response and only mutations whose names and values are legal. */
  lemma AllowFlagIgnored(a: Answer, allow: bool)
    ensures Call(Some(a)) == Call(Some(a.(allow := allow)))
    ensures Allows(Call(Some(a))) <==>
      && a.deny.None?
      && (forall i :: 0 <= i < |a.sets| ==> NormalizeSet(a.sets[i]).Some?)
      && (forall i :: 0 <= i < |a.removes| ==> NormalizeName(a.removes[i]).Some?)
  {
    AllOrNoneExact(NormalizeSet, a.sets);
    AllOrNoneExact(NormalizeName, a.removes);
  }

  // ----- the chain ---------------------------------------------------------------------------------------

  datatype Record = Record(pluginId: string, action: string, denyStatus: Option<int>, timedOut: bool, failed: bool)

  datatype Evaluation = Evaluation(denied: Option<Deny>, sets: seq<Header>, removes: seq<string>, records: seq<Record>)

  function RecordOf(plugin: PluginConfig, o: Outcome): Record {
    Record(
      plugin.id,
      if Allows(o) then "allow" else "deny",
      if Allows(o) then None else Some(DenialOf(o).status),
      o.TimedOut?,
      !o.Decided?)
  }

  function MutationsOf(o: Outcome): Mutations {
    if o.Decided? then o.decision.mutations else Mutations([], [])
  }

  /** An evaluation after one more call: its record and mutations, and the denial if it is
      not an allow. */
  function Extended(ev: Evaluation, plugin: PluginConfig, o: Outcome): Evaluation {
    match o
    case Decided(decision) =>
      Evaluation(
        if decision.deny.Some? then decision.deny else ev.denied,
        ev.sets + decision.mutations.sets, ev.removes + decision.mutations.removes,
        ev.records + [RecordOf(plugin, o)])
    case _ =>
      ev.(denied := Some(Deny(403, "request denied by policy")), records := ev.records + [RecordOf(plugin, o)])
  }

  /** What a run of calls adds up to. */
  function Summary(plugins: seq<PluginConfig>, outs: seq<Outcome>): Evaluation
    requires |outs| <= |plugins|
  {
    if outs == [] then Evaluation(None, [], [], [])
    else
      var last := |outs| - 1;
      Extended(Summary(plugins, outs[..last]), plugins[last], outs[last])
  }

  lemma OneMoreCall(plugins: seq<PluginConfig>, outs: seq<Outcome>, o: Outcome)
    requires |outs| < |plugins|
    ensures Summary(plugins, outs + [o]) == Extended(Summary(plugins, outs), plugins[|outs|], o)
    ensures (outs + [o])[..|outs|] == outs
    ensures Extended(Summary(plugins, outs), plugins[|outs|], o).denied
            == if Allows(o) then Summary(plugins, outs).denied else Some(DenialOf(o))
  {
    assert (outs + [o])[..|outs|] == outs;
  }

  function AllMutations(outs: seq<Outcome>): seq<Mutations> {
    if outs == [] then [] else AllMutations(outs[..|outs| - 1]) + [MutationsOf(outs[|outs| - 1])]
  }

  /** One record per call, for that call's plugin. */
  lemma {:induction false} SummaryRecords(plugins: seq<PluginConfig>, outs: seq<Outcome>)
    requires |outs| <= |plugins|
    ensures |Summary(plugins, outs).records| == |outs|
    ensures forall k :: 0 <= k < |outs| ==> Summary(plugins, outs).records[k] == RecordOf(plugins[k], outs[k])
  {
    if outs != [] {
      SummaryRecords(plugins, outs[..|outs| - 1]);
    }
  }

  /** What a record says: the plugin, whether it let the request through, the status of its denial, and
      whether the call timed out or failed. A failed call denies with 403. */
  lemma RecordExact(plugin: PluginConfig, o: Outcome)
    ensures var rec := RecordOf(plugin, o);
      && rec.pluginId == plugin.id
      && rec.action == (if o.Decided? && o.decision.deny == None then "allow" else "deny")
      && (o.Decided? && o.decision.deny == None ==> rec.denyStatus == None)
      && (o.Decided? && o.decision.deny.Some? ==> rec.denyStatus == Some(o.decision.deny.value.status))
      && (!o.Decided? ==> rec.denyStatus == Some(403))
      && (rec.timedOut <==> o == TimedOut) && (rec.failed <==> o == TimedOut || o == Failed)
  {
  }

  /** All mutations, in call order. */
  lemma {:induction false} SummaryMutations(plugins: seq<PluginConfig>, outs: seq<Outcome>)
    requires |outs| <= |plugins|
    ensures Summary(plugins, outs).sets == AllSets(AllMutations(outs))
    ensures Summary(plugins, outs).removes == AllRemoves(AllMutations(outs))
  {
    if outs != [] {
      var last := |outs| - 1;
      SummaryMutations(plugins, outs[..last]);
      assert outs[last].Decided? || (AllSets(AllMutations(outs[..last])) + [] == AllSets(AllMutations(outs[..last]))
        && AllRemoves(AllMutations(outs[..last])) + [] == AllRemoves(AllMutations(outs[..last])));
      assert AllMutations(outs)[..|AllMutations(outs)| - 1] == AllMutations(outs[..last]);
    }
  }

  predicate AllAllow(outs: seq<Outcome>) {
    forall k :: 0 <= k < |outs| ==> Allows(outs[k])
  }

  function ChainPlugins(e: Engine, chain: seq<nat>): (plugins: seq<PluginConfig>)
    requires Indexes(e.plugins, chain)
    ensures |plugins| == |chain|
    ensures forall k :: 0 <= k < |chain| ==> plugins[k] == e.plugins[chain[k]]
  {
    if chain == [] then [] else ChainPlugins(e, chain[..|chain| - 1]) + [e.plugins[chain[|chain| - 1]]]
  }

  /** What each plugin of a chain answers when it is called. */
  function CallsOf(plugins: seq<PluginConfig>, r: Request, call: (nat, Input) -> Outcome): nat -> Outcome {
    (k: nat) => if k < |plugins| then call(k, InputFor(r, plugins[k])) else Failed
  }

  predicate AllowedByAll(plugins: seq<PluginConfig>, r: Request, call: (nat, Input) -> Outcome) {
    forall k :: 0 <= k < |plugins| ==> Allows(call(k, InputFor(r, plugins[k])))
  }

  lemma AllowedByAllCalls(plugins: seq<PluginConfig>, r: Request, call: (nat, Input) -> Outcome)
    ensures AllowedByAll(plugins, r, call) <==>
      forall k :: 0 <= k < |plugins| ==> Allows(CallsOf(plugins, r, call)(k))
  {
    forall k: nat | k < |plugins|
      ensures CallsOf(plugins, r, call)(k) == call(k, InputFor(r, plugins[k]))
    {
    }
  }

  /** The outcomes among the first `n` plugins: calls end with the first that is not an allow. */
  function Outcomes(answers: nat -> Outcome, n: nat): (outs: seq<Outcome>)
    ensures |outs| <= n
  {
    if n == 0 then []
    else
      var before := Outcomes(answers, n - 1);
      if AllAllow(before) then before + [answers(|before|)] else before
  }

  /** Calls are made in order, and fewer than all of them only when one was not an allow. */
  lemma {:induction false} OutcomesInOrder(answers: nat -> Outcome, n: nat)
    ensures var outs := Outcomes(answers, n);
      && (forall k :: 0 <= k < |outs| ==> outs[k] == answers(k))
      && (AllAllow(outs) ==> |outs| == n)
  {
    if n > 0 {
      OutcomesInOrder(answers, n - 1);
    }
  }

  /** Every call but the last was an allow. */
  lemma {:induction false} OutcomesStopAtFirstDenial(answers: nat -> Outcome, n: nat)
    ensures var outs := Outcomes(answers, n); outs != [] ==> AllAllow(outs[..|outs| - 1])
  {
    if n > 0 {
      OutcomesStopAtFirstDenial(answers, n - 1);
      var before := Outcomes(answers, n - 1);
      if AllAllow(before) {
        assert (before + [answers(|before|)])[..|before|] == before;
      }
    }
  }

  lemma {:induction false} AllAllowIffAllWould(answers: nat -> Outcome, n: nat)
    ensures AllAllow(Outcomes(answers, n)) <==> forall k :: 0 <= k < n ==> Allows(answers(k))
  {
    if n > 0 {
      AllAllowIffAllWould(answers, n - 1);
      OutcomesInOrder(answers, n - 1);
      AllAllowMore(Outcomes(answers, n - 1), answers(n - 1));
    }
  }

  lemma AllAllowMore(outs: seq<Outcome>, o: Outcome)
    ensures AllAllow(outs + [o]) <==> AllAllow(outs) && Allows(o)
  {
    if AllAllow(outs + [o]) {
      assert forall k :: 0 <= k < |outs| ==> (outs + [o])[k] == outs[k];
      assert (outs + [o])[|outs|] == o;
    }
  }

  lemma {:induction false} NoCallsAfterDenial(answers: nat -> Outcome, k: nat, n: nat)
    requires k <= n && !AllAllow(Outcomes(answers, k))
    ensures Outcomes(answers, n) == Outcomes(answers, k)
  {
    if k < n {
      NoCallsAfterDenial(answers, k, n - 1);
    }
  }

  /** The denial of a run of calls is that of its last call, if that is not an allow. */
  lemma {:induction false} DenialIsLast(plugins: seq<PluginConfig>, outs: seq<Outcome>)
    requires |outs| <= |plugins| && (outs != [] ==> AllAllow(outs[..|outs| - 1]))
    ensures Summary(plugins, outs).denied == if AllAllow(outs) then None else Some(DenialOf(outs[|outs| - 1]))
  {
    if outs != [] {
      var before := outs[..|outs| - 1];
      assert before != [] ==> before[..|before| - 1] == outs[..|before| - 1];
      DenialIsLast(plugins, before);
    }
  }

  /** The evaluation after the first `n` plugins. */
  function Verdict(plugins: seq<PluginConfig>, answers: nat -> Outcome, n: nat): Evaluation
    requires n <= |plugins|
  {
    Summary(plugins, Outcomes(answers, n))
  }

  /** It lets the request through exactly when all of them ran and allowed it; otherwise it
      carries the denial of the first that did not, after which nothing was called. */
  lemma VerdictFailsClosed(plugins: seq<PluginConfig>, answers: nat -> Outcome, n: nat)
    requires n <= |plugins|
    ensures var ev, outs := Verdict(plugins, answers, n), Outcomes(answers, n);
      && (ev.denied.None? <==> AllAllow(outs))
      && (ev.denied.None? <==> forall k :: 0 <= k < n ==> Allows(answers(k)))
      && (ev.denied.Some? ==> outs != [] && ev.denied.value == DenialOf(outs[|outs| - 1]))
  {
    OutcomesStopAtFirstDenial(answers, n);
    AllAllowIffAllWould(answers, n);
    DenialIsLast(plugins, Outcomes(answers, n));
  }

  lemma VerdictNext(plugins: seq<PluginConfig>, answers: nat -> Outcome, k: nat)
    requires k < |plugins| && Verdict(plugins, answers, k).denied.None?
    ensures Verdict(plugins, answers, k + 1) == Extended(Verdict(plugins, answers, k), plugins[k], answers(k))
  {
    VerdictFailsClosed(plugins, answers, k);
    OutcomesInOrder(answers, k);
    OneMoreCall(plugins, Outcomes(answers, k), answers(k));
  }

  lemma VerdictStays(plugins: seq<PluginConfig>, answers: nat -> Outcome, k: nat)
    requires k <= |plugins| && Verdict(plugins, answers, k).denied.Some?
    ensures Verdict(plugins, answers, |plugins|) == Verdict(plugins, answers, k)
  {
    VerdictFailsClosed(plugins, answers, k);
    NoCallsAfterDenial(answers, k, |plugins|);
  }

  lemma LetThroughByAll(plugins: seq<PluginConfig>, r: Request, call: (nat, Input) -> Outcome)
    ensures Verdict(plugins, CallsOf(plugins, r, call), |plugins|).denied.None? <==> AllowedByAll(plugins, r, call)
  {
    VerdictFailsClosed(plugins, CallsOf(plugins, r, call), |plugins|);
    AllowedByAllCalls(plugins, r, call);
  }

  /** The loop over a chain: it stops at the first call that is not an allow. */
  method CallInTurn(plugins: seq<PluginConfig>, answers: nat -> Outcome) returns (ev: Evaluation)
    ensures ev == Verdict(plugins, answers, |plugins|)
  {
    ev := Evaluation(None, [], [], []);
    var k := 0;
    while k < |plugins|
      invariant 0 <= k <= |plugins| && ev.denied.None?
      invariant ev == Verdict(plugins, answers, k)
    {
      VerdictNext(plugins, answers, k);
      ev := Extended(ev, plugins[k], answers(k));
      k := k + 1;
      if ev.denied.Some? {
        VerdictStays(plugins, answers, k);
        return;
      }
    }
  }

  /** Fails closed: the request is let through exactly when every plugin of the route ran, on
      the input meant for it, and allowed it. */
  method Evaluate(e: Engine, route: string, r: Request, call: (nat, Input) -> Outcome) returns (ev: Evaluation)
    requires Indexes(e.plugins, Chain(e, route))
    ensures var plugins := ChainPlugins(e, Chain(e, route));
      && ev == Verdict(plugins, CallsOf(plugins, r, call), |plugins|)
      && (ev.denied.None? <==> AllowedByAll(plugins, r, call))
  {
    var plugins := ChainPlugins(e, Chain(e, route));
    ev := CallInTurn(plugins, CallsOf(plugins, r, call));
    LetThroughByAll(plugins, r, call);
  }
}
