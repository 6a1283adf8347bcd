/** Configuration validation: the numeric, uniqueness and shape checks the running gateway
    relies on. Whether an upstream URL or plugin path is acceptable is a parameter. */
module Settings {
  import opened Domain
  import opened Text
  import opened Routing
  import P = Policy

  datatype CapturePolicy = Off | Errors | Slow | ErrorsAndSlow | Always

  datatype CaptureConfig = CaptureConfig(
    policy: CapturePolicy,
    slowThresholdMs: nat,
    requestBody: bool,
    responseBytes: nat)

  datatype RawRoute = RawRoute(
    id: string,
    hosts: seq<string>,
    pathPrefix: string,
    upstreams: seq<string>,
    timeoutMs: nat,
    retries: nat,
    concurrencyLimit: nat,
    healthFailures: nat,
    healthCooldownMs: nat,
    capturePolicy: string,
    slowThresholdMs: nat,
    captureRequestBody: bool,
    captureResponseBytes: nat)

  datatype Route = Route(
    id: string,
    key: RouteKey,
    upstreams: seq<string>,
    timeoutMs: nat,
    retries: nat,
    concurrencyLimit: nat,
    healthFailures: nat,
    healthCooldownMs: nat,
    capture: CaptureConfig)

  datatype RawStorage = RawStorage(
    driver: string,
    retentionDays: Option<nat>,
    maxTotalCaptureBytes: Option<nat>,
    maxCaptureBytesPerRequest: Option<nat>,
    captureQueueCapacity: Option<nat>)

  datatype StorageConfig = StorageConfig(
    driver: string,
    url: string,
    retentionDays: nat,
    maxTotalCaptureBytes: nat,
    maxCaptureBytesPerRequest: nat,
    captureQueueCapacity: nat)

  predicate IsIdChar(c: char) {
    '0' <= c <= '9' || 'a' <= c <= 'z' || 'A' <= c <= 'Z' || c == '-' || c == '_'
  }

  predicate ValidId(id: string) {
    id != "" && forall i :: 0 <= i < |id| ==> IsIdChar(id[i])
  }

  predicate ValidHost(host: string) {
    Trim(host) != "" && (host == "*" || ('/' !in host && ':' !in host))
  }

  function ParsePolicy(raw: string): Option<CapturePolicy> {
    var name := Lower(Trim(raw));
    if name == "off" then Some(Off)
    else if name == "errors" then Some(Errors)
    else if name == "slow" then Some(Slow)
    else if name == "errors_and_slow" then Some(ErrorsAndSlow)
    else if name == "always" then Some(Always)
    else None
  }

  predicate ShouldCapture(policy: CapturePolicy, isError: bool, isSlow: bool) {
    match policy
    case Off => false
    case Errors => isError
    case Slow => isSlow
    case ErrorsAndSlow => isError || isSlow
    case Always => true
  }

  predicate ValidStorage(s: StorageConfig) {
    && (s.driver == "sqlite" || s.driver == "postgres")
    && (s.driver == "sqlite" ==> "sqlite:" <= s.url)
    && (s.driver == "postgres" ==> "postgres://" <= s.url || "postgresql://" <= s.url)
    && 1 <= s.retentionDays <= 365
    && 1 <= s.maxCaptureBytesPerRequest <= s.maxTotalCaptureBytes
    && 1 <= s.captureQueueCapacity <= 1_000_000
  }

  /** A missing number takes its default, except in production. */
  function RequiredOrDefault(value: Option<nat>, default: nat, production: bool): Option<nat> {
    if value.Some? then value else if production then None else Some(default)
  }

  /** Every number is given, as production demands. */
  predicate AllGiven(raw: RawStorage) {
    && raw.retentionDays.Some? && raw.maxTotalCaptureBytes.Some?
    && raw.maxCaptureBytesPerRequest.Some? && raw.captureQueueCapacity.Some?
  }

  function Chosen(value: Option<nat>, default: nat): nat {
    if value.Some? then value.value else default
  }

  /** The settings with defaults filled in. */
  function Completed(raw: RawStorage, url: string): StorageConfig {
    StorageConfig(
      Lower(Trim(raw.driver)), url,
      Chosen(raw.retentionDays, 7), Chosen(raw.maxTotalCaptureBytes, 1_073_741_824),
      Chosen(raw.maxCaptureBytesPerRequest, 1_048_576), Chosen(raw.captureQueueCapacity, 1024))
  }

  /** Accepts exactly complete settings within the limits, where production completes nothing.
      `url` is the resolved database URL, if resolving it succeeded. */
  function AcceptStorage(raw: RawStorage, url: Option<string>, production: bool): (accepted: Option<StorageConfig>)
    ensures accepted.Some? <==>
      url.Some? && (production ==> AllGiven(raw)) && ValidStorage(Completed(raw, url.value))
    ensures accepted.Some? ==> accepted.value == Completed(raw, url.value)
  {
    match (url,
           RequiredOrDefault(raw.retentionDays, 7, production),
           RequiredOrDefault(raw.maxTotalCaptureBytes, 1_073_741_824, production),
           RequiredOrDefault(raw.maxCaptureBytesPerRequest, 1_048_576, production),
           RequiredOrDefault(raw.captureQueueCapacity, 1024, production))
    case (Some(location), Some(days), Some(total), Some(perRequest), Some(queue)) =>
      var s := StorageConfig(Lower(Trim(raw.driver)), location, days, total, perRequest, queue);
      if ValidStorage(s) then Some(s) else None
    case _ => None
  }

  /** The checks one after the other, as the settings are read. */
  method ValidateStorage(raw: RawStorage, url: Option<string>, production: bool) returns (s: Option<StorageConfig>)
    ensures s == AcceptStorage(raw, url, production)
  {
    var driver := Lower(Trim(raw.driver));
    if driver != "sqlite" && driver != "postgres" {
      return None;
    }
    if url.None? {
      return None;
    }
    if driver == "sqlite" && !("sqlite:" <= url.value) {
      return None;
    }
    if driver == "postgres" && !("postgres://" <= url.value) && !("postgresql://" <= url.value) {
      return None;
    }
    var days := RequiredOrDefault(raw.retentionDays, 7, production);
    var total := RequiredOrDefault(raw.maxTotalCaptureBytes, 1_073_741_824, production);
    var perRequest := RequiredOrDefault(raw.maxCaptureBytesPerRequest, 1_048_576, production);
    var queue := RequiredOrDefault(raw.captureQueueCapacity, 1024, production);
    if days.None? || total.None? || perRequest.None? || queue.None? {
      return None;
    }
    if days.value == 0 || days.value > 365 {
      return None;
    }
    if total.value == 0 || perRequest.value == 0 || perRequest.value > total.value {
      return None;
    }
    if queue.value == 0 || queue.value > 1_000_000 {
      return None;
    }
    return Some(StorageConfig(driver, url.value, days.value, total.value, perRequest.value, queue.value));
  }

  /** Every check on one route, apart from the uniqueness of its id. */
  predicate AcceptableRoute(r: RawRoute, s: StorageConfig, upstreamOk: string -> bool) {
    && ValidId(r.id)
    && r.hosts != [] && (forall i :: 0 <= i < |r.hosts| ==> ValidHost(r.hosts[i]))
    && ValidPathPrefix(r.pathPrefix)
    && r.upstreams != []
    && 1 <= r.timeoutMs <= 60_000
    && r.retries <= 3
    && 1 <= r.concurrencyLimit <= 100_000
    && 1 <= r.healthFailures <= 100
    && 1 <= r.healthCooldownMs <= 600_000
    && (forall i :: 0 <= i < |r.upstreams| ==> upstreamOk(r.upstreams[i]))
    && ParsePolicy(r.capturePolicy).Some?
    && 1 <= r.slowThresholdMs <= 600_000
    && r.captureResponseBytes <= s.maxCaptureBytesPerRequest
  }

  method ValidateId(id: string) returns (ok: bool)
    ensures ok <==> ValidId(id)
  {
    if id == "" {
      return false;
    }
    var i := 0;
    while i < |id|
      invariant 0 <= i <= |id| && forall k :: 0 <= k < i ==> IsIdChar(id[k])
    {
      var c := id[i];
      if !('0' <= c <= '9') && !('a' <= c <= 'z') && !('A' <= c <= 'Z') && c != '-' && c != '_' {
        return false;
      }
      i := i + 1;
    }
    return true;
  }

  method ValidateHosts(hosts: seq<string>) returns (ok: bool)
    ensures ok <==> hosts != [] && forall i :: 0 <= i < |hosts| ==> ValidHost(hosts[i])
  {
    if hosts == [] {
      return false;
    }
    var i := 0;
    while i < |hosts|
      invariant 0 <= i <= |hosts| && forall k :: 0 <= k < i ==> ValidHost(hosts[k])
    {
      if Trim(hosts[i]) == "" {
        return false;
      }
      if hosts[i] != "*" && ('/' in hosts[i] || ':' in hosts[i]) {
        return false;
      }
      i := i + 1;
    }
    return true;
  }

  method ValidateUpstreams(upstreams: seq<string>, upstreamOk: string -> bool) returns (ok: bool)
    ensures ok <==> forall i :: 0 <= i < |upstreams| ==> upstreamOk(upstreams[i])
  {
    var i := 0;
    while i < |upstreams|
      invariant 0 <= i <= |upstreams| && forall k :: 0 <= k < i ==> upstreamOk(upstreams[k])
    {
      if !upstreamOk(upstreams[i]) {
        return false;
      }
      i := i + 1;
    }
    return true;
  }

  /** The capture section of a route. */
  method ValidateCapture(r: RawRoute, s: StorageConfig) returns (capture: Option<CaptureConfig>)
    ensures capture.Some? <==>
      && ParsePolicy(r.capturePolicy).Some? && 1 <= r.slowThresholdMs <= 600_000
      && r.captureResponseBytes <= s.maxCaptureBytesPerRequest
    ensures capture.Some? ==>
      && PolicyNamed(r.capturePolicy, capture.value.policy)
      && capture.value.slowThresholdMs == r.slowThresholdMs && capture.value.requestBody == r.captureRequestBody
      && capture.value.responseBytes == r.captureResponseBytes
  {
    var policy := ParsePolicy(r.capturePolicy);
    if policy.None? {
      return None;
    }
    if r.slowThresholdMs == 0 || r.slowThresholdMs > 600_000 {
      return None;
    }
    if r.captureResponseBytes > s.maxCaptureBytesPerRequest {
      return None;
    }
    return Some(CaptureConfig(policy.value, r.slowThresholdMs, r.captureRequestBody, r.captureResponseBytes));
  }

  /** The name a policy has in a configuration. */
  predicate PolicyNamed(raw: string, policy: CapturePolicy) {
    Lower(Trim(raw)) ==
      match policy
      case Off => "off"
      case Errors => "errors"
      case Slow => "slow"
      case ErrorsAndSlow => "errors_and_slow"
      case Always => "always"
  }

  /** A policy is understood exactly by its name. */
  lemma PolicyByName(raw: string, policy: CapturePolicy)
    ensures ParsePolicy(raw) == Some(policy) <==> PolicyNamed(raw, policy)
  {
  }

  /** What each policy captures. */
  lemma CapturesExactly(policy: CapturePolicy, isError: bool, isSlow: bool)
    ensures ShouldCapture(policy, isError, isSlow) <==>
      || policy == Always
      || (isError && (policy == Errors || policy == ErrorsAndSlow))
      || (isSlow && (policy == Slow || policy == ErrorsAndSlow))
  {
  }

  /** A route holds exactly what was read for it. */
  predicate RouteRead(raw: RawRoute, r: Route) {
    && r.id == raw.id && r.key.hosts == raw.hosts && r.key.pathPrefix == raw.pathPrefix && r.upstreams == raw.upstreams
    && r.timeoutMs == raw.timeoutMs && r.retries == raw.retries && r.concurrencyLimit == raw.concurrencyLimit
    && r.healthFailures == raw.healthFailures && r.healthCooldownMs == raw.healthCooldownMs
    && PolicyNamed(raw.capturePolicy, r.capture.policy) && r.capture.slowThresholdMs == raw.slowThresholdMs
    && r.capture.requestBody == raw.captureRequestBody && r.capture.responseBytes == raw.captureResponseBytes
  }

  /** The checks of one route one after the other, in the order they are made. */
  method ValidateRoute(r: RawRoute, s: StorageConfig, upstreamOk: string -> bool) returns (route: Option<Route>)
    ensures route.Some? <==> AcceptableRoute(r, s, upstreamOk)
    ensures route.Some? ==> RouteRead(r, route.value)
  {
    var ok := ValidateId(r.id);
    if !ok {
      return None;
    }
    ok := ValidateHosts(r.hosts);
    if !ok {
      return None;
    }
    if r.pathPrefix == "" || r.pathPrefix[0] != '/' {
      return None;
    }
    if |r.pathPrefix| > 1 && r.pathPrefix[|r.pathPrefix| - 1] == '/' {
      return None;
    }
    if r.upstreams == [] || r.timeoutMs == 0 || r.timeoutMs > 60_000 || r.retries > 3 {
      return None;
    }
    if r.concurrencyLimit == 0 || r.concurrencyLimit > 100_000 {
      return None;
    }
    if r.healthFailures == 0 || r.healthFailures > 100 || r.healthCooldownMs == 0 || r.healthCooldownMs > 600_000 {
      return None;
    }
    ok := ValidateUpstreams(r.upstreams, upstreamOk);
    if !ok {
      return None;
    }
    var capture := ValidateCapture(r, s);
    if capture.None? {
      return None;
    }
    return Some(Route(r.id, RouteKey(r.hosts, r.pathPrefix), r.upstreams, r.timeoutMs, r.retries, r.concurrencyLimit,
                      r.healthFailures, r.healthCooldownMs, capture.value));
  }

  // ----- ids, and lists without repeats -------------------------------------------------------------

  predicate AllAccepted<R, T>(raws: seq<R>, accept: R -> Option<T>) {
    forall i :: 0 <= i < |raws| ==> accept(raws[i]).Some?
  }

  predicate UniqueIds<R>(raws: seq<R>, id: R -> string) {
    forall i, j :: 0 <= i < j < |raws| ==> id(raws[i]) != id(raws[j])
  }

  /** The first `n` ids are distinct and are those seen. */
  predicate SeenIds<R>(raws: seq<R>, id: R -> string, n: nat, seen: set<string>)
    requires n <= |raws|
  {
    && (forall j, k :: 0 <= j < k < n ==> id(raws[j]) != id(raws[k]))
    && (forall k :: 0 <= k < n ==> id(raws[k]) in seen)
    && forall x :: x in seen ==> exists k :: 0 <= k < n && id(raws[k]) == x
  }

  lemma RepeatedId<R>(raws: seq<R>, id: R -> string, n: nat, seen: set<string>)
    requires n < |raws| && SeenIds(raws, id, n, seen) && id(raws[n]) in seen
    ensures !UniqueIds(raws, id)
  {
    var k :| 0 <= k < n && id(raws[k]) == id(raws[n]);
  }

  lemma NewId<R>(raws: seq<R>, id: R -> string, n: nat, seen: set<string>)
    requires n < |raws| && SeenIds(raws, id, n, seen) && id(raws[n]) !in seen
    ensures SeenIds(raws, id, n + 1, seen + {id(raws[n])})
  {
    forall x | x in seen + {id(raws[n])}
      ensures exists k :: 0 <= k < n + 1 && id(raws[k]) == x
    {
      if x in seen {
        var k :| 0 <= k < n && id(raws[k]) == x;
      } else {
        assert id(raws[n]) == x;
      }
    }
  }

  /** First occurrences, in order. */
  function Dedup(s: seq<string>): (d: seq<string>)
    ensures forall x :: x in d <==> x in s
    ensures Distinct(d)
  {
    if s == [] then []
    else
      var before, last := Dedup(s[..|s| - 1]), s[|s| - 1];
      assert s == s[..|s| - 1] + [last];
      if last in before then before else before + [last]
  }

  lemma {:induction false} DedupOfDistinct(s: seq<string>)
    requires Distinct(s)
    ensures Dedup(s) == s
  {
    if s != [] {
      DedupOfDistinct(s[..|s| - 1]);
    }
  }

  predicate Images(values: seq<string>, item: string -> Option<string>, images: seq<string>) {
    |images| == |values| && forall i :: 0 <= i < |values| ==> item(values[i]) == Some(images[i])
  }

  /** The normalised values without repeats, if every value is acceptable. */
  method CollectDistinct(values: seq<string>, item: string -> Option<string>)
    returns (result: Option<seq<string>>, ghost images: seq<string>)
    ensures result.Some? <==> AllAccepted(values, item)
    ensures result.Some? ==> Images(values, item, images) && result.value == Dedup(images)
  {
    images := [];
    var out: seq<string> := [];
    var i := 0;
    while i < |values|
      invariant 0 <= i <= |values| && |images| == i
      invariant forall k :: 0 <= k < i ==> item(values[k]) == Some(images[k])
      invariant out == Dedup(images)
    {
      var v := item(values[i]);
      if v.None? {
        return None, images;
      }
      ghost var before := images;
      images := images + [v.value];
      assert images[..i] == before;
      if v.value !in out {
        out := out + [v.value];
      }
      i := i + 1;
    }
    return Some(out), images;
  }

  // ----- redaction and raw-header lists ------------------------------------------------------------------

  predicate IsListChar(c: char) {
    '0' <= c <= '9' || 'a' <= c <= 'z' || 'A' <= c <= 'Z' || c == '-' || c == '_' || c == '.'
  }

  function AcceptItem(raw: string): Option<string> {
    var v := Lower(Trim(raw));
    if v != "" && forall i :: 0 <= i < |v| ==> IsListChar(v[i]) then Some(v) else None
  }

  /** Letters, digits, hyphen, underscore and dot. */
  predicate ListCode(n: int) {
    48 <= n <= 57 || 65 <= n <= 90 || 97 <= n <= 122 || n == 45 || n == 95 || n == 46
  }

  /** A value is acceptable exactly when its normal form is not empty and made of those. */
  lemma ItemsExactly(raw: string)
    ensures AcceptItem(raw).Some? <==>
      Lower(Trim(raw)) != "" && forall i :: 0 <= i < |Lower(Trim(raw))| ==> ListCode(Lower(Trim(raw))[i] as int)
    ensures AcceptItem(raw).Some? ==> AcceptItem(raw).value == Lower(Trim(raw))
  {
    var v := Lower(Trim(raw));
    forall i | 0 <= i < |v|
      ensures IsListChar(v[i]) <==> ListCode(v[i] as int)
    {
    }
  }

  function Normalized(values: seq<string>): (images: seq<string>)
    ensures |images| == |values| && forall i :: 0 <= i < |values| ==> images[i] == Lower(Trim(values[i]))
  {
    if values == [] then [] else [Lower(Trim(values[0]))] + Normalized(values[1..])
  }

  lemma ImagesNormalized(values: seq<string>, images: seq<string>)
    requires Images(values, AcceptItem, images)
    ensures images == Normalized(values)
  {
    assert forall i :: 0 <= i < |values| ==> AcceptItem(values[i]) == Some(images[i]);
  }

  /** Accepts exactly lists of acceptable values, and keeps first occurrences in order. */
  method NormalizeRedactionList(values: seq<string>) returns (result: Option<seq<string>>)
    ensures result.Some? <==> AllAccepted(values, AcceptItem)
    ensures result.Some? ==> result.value == Dedup(Normalized(values))
  {
    var collected, images := CollectDistinct(values, AcceptItem);
    if collected.Some? {
      ImagesNormalized(values, images);
    }
    return collected;
  }

  datatype Redaction = Redaction(headers: seq<string>, params: seq<string>)

  /** Both lists must name something. */
  predicate AcceptableRedaction(raw: Redaction) {
    && raw.headers != [] && AllAccepted(raw.headers, AcceptItem)
    && raw.params != [] && AllAccepted(raw.params, AcceptItem)
  }

  predicate ValidRedaction(r: Redaction) {
    r.headers != [] && r.params != []
  }

  lemma DedupEmpty(s: seq<string>)
    ensures Dedup(s) == [] <==> s == []
  {
    if s != [] {
      assert s[0] in Dedup(s);
    }
  }

  method ValidateRedaction(raw: Redaction) returns (redaction: Option<Redaction>)
    ensures redaction.Some? <==> AcceptableRedaction(raw)
    ensures redaction.Some? ==>
      && redaction.value == Redaction(Dedup(Normalized(raw.headers)), Dedup(Normalized(raw.params)))
      && ValidRedaction(redaction.value)
      && ListRead(raw.headers, redaction.value.headers) && ListRead(raw.params, redaction.value.params)
  {
    var headers := NormalizeRedactionList(raw.headers);
    var params := NormalizeRedactionList(raw.params);
    DedupEmpty(Normalized(raw.headers));
    DedupEmpty(Normalized(raw.params));
    DedupReads(raw.headers);
    DedupReads(raw.params);
    if headers.None? || params.None? || headers.value == [] || params.value == [] {
      return None;
    }
    return Some(Redaction(headers.value, params.value));
  }

  lemma ItemStable(raw: string)
    requires AcceptItem(raw).Some?
    ensures AcceptItem(AcceptItem(raw).value) == AcceptItem(raw)
  {
    LowerKeepsTrimmed(Trim(raw));
    LowerIdempotent(Trim(raw));
  }

  /** A normalised list is accepted again and comes out as it is. */
  lemma NormalizedListIsStable(values: seq<string>)
    requires AllAccepted(values, AcceptItem)
    ensures var out := Dedup(Normalized(values)); AllAccepted(out, AcceptItem) && Dedup(Normalized(out)) == out
  {
    var out := Dedup(Normalized(values));
    forall i | 0 <= i < |out|
      ensures AcceptItem(out[i]) == Some(out[i])
    {
      assert out[i] in Normalized(values);
      var k :| 0 <= k < |values| && Normalized(values)[k] == out[i];
      assert AcceptItem(values[k]).Some?;
      ItemStable(values[k]);
    }
    ImagesNormalized(out, out);
    DedupOfDistinct(out);
  }

  // ----- routes and plugins --------------------------------------------------------------------------------

  datatype RawPlugin = RawPlugin(
    id: string,
    path: string,
    hook: string,
    routes: seq<string>,
    timeoutMs: Option<nat>,
    memoryLimitBytes: Option<nat>,
    fuel: Option<nat>,
    bodyPreviewBytes: nat,
    rawHeaders: seq<string>,
    settings: seq<Header>)

  function AcceptPluginRoute(routeIds: set<string>, route: string): Option<string> {
    if ValidId(route) && route in routeIds then Some(route) else None
  }

  const MAX_PREVIEW: nat := 65_536

  predicate ValidLimits(raw: RawPlugin, production: bool) {
    && (production ==> raw.timeoutMs.Some? && raw.memoryLimitBytes.Some? && raw.fuel.Some?)
    && 1 <= Chosen(raw.timeoutMs, 5) <= 5_000
    && 65_536 <= Chosen(raw.memoryLimitBytes, 16_777_216) <= 134_217_728
    && Chosen(raw.fuel, 10_000_000) > 0
    && raw.bodyPreviewBytes <= MAX_PREVIEW
  }

  method ValidateLimits(raw: RawPlugin, production: bool) returns (ok: bool)
    ensures ok <==> ValidLimits(raw, production)
  {
    var timeout := RequiredOrDefault(raw.timeoutMs, 5, production);
    var memory := RequiredOrDefault(raw.memoryLimitBytes, 16 * 1024 * 1024, production);
    var fuel := RequiredOrDefault(raw.fuel, 10_000_000, production);
    if timeout.None? || memory.None? || fuel.None? {
      return false;
    }
    if timeout.value == 0 || timeout.value > 5_000 {
      return false;
    }
    if memory.value < 65_536 || memory.value > 134_217_728 {
      return false;
    }
    return fuel.value != 0 && raw.bodyPreviewBytes <= 65_536;
  }

  const MAX_SETTING: nat := 4096

  /** A plugin's own setting, in key order: the key is trimmed, the value bounded. */
  function AcceptSetting(raw: Header): Option<Header> {
    var key := Trim(raw.name);
    if key != "" && (forall i :: 0 <= i < |key| ==> IsListChar(key[i])) && |raw.value| <= MAX_SETTING
    then Some(Header(key, raw.value))
    else None
  }

  lemma SettingsExactly(raw: Header)
    ensures AcceptSetting(raw).Some? <==>
      && Trim(raw.name) != "" && |raw.value| <= 4096
      && forall i :: 0 <= i < |Trim(raw.name)| ==> ListCode(Trim(raw.name)[i] as int)
    ensures AcceptSetting(raw).Some? ==> AcceptSetting(raw).value == Header(Trim(raw.name), raw.value)
  {
    var key := Trim(raw.name);
    forall i | 0 <= i < |key|
      ensures IsListChar(key[i]) <==> ListCode(key[i] as int)
    {
    }
  }

  /** A plugin may name exactly the configured routes. */
  lemma PluginRoutesExactly(routeIds: set<string>, route: string)
    requires forall id :: id in routeIds ==> ValidId(id)
    ensures AcceptPluginRoute(routeIds, route) == if route in routeIds then Some(route) else None
  {
  }

  /** Every check on one plugin, apart from the uniqueness of its id. */
  predicate AcceptablePlugin(raw: RawPlugin, routeIds: set<string>, production: bool) {
    && ValidId(raw.id) && Trim(raw.path) != "" && Lower(Trim(raw.hook)) == "before_request"
    && raw.routes != [] && AllAccepted(raw.routes, r => AcceptPluginRoute(routeIds, r))
    && ValidLimits(raw, production)
    && AllAccepted(raw.rawHeaders, AcceptItem)
    && AllAccepted(raw.settings, AcceptSetting)
  }

  function TrimKeys(settings: seq<Header>): (trimmed: seq<Header>)
    ensures |trimmed| == |settings|
    ensures forall i :: 0 <= i < |settings| ==> trimmed[i] == Header(Trim(settings[i].name), settings[i].value)
  {
    if settings == [] then []
    else [Header(Trim(settings[0].name), settings[0].value)] + TrimKeys(settings[1..])
  }

  method ValidateSettings(settings: seq<Header>) returns (result: Option<seq<Header>>)
    ensures result.Some? <==> AllAccepted(settings, AcceptSetting)
    ensures result.Some? ==> result.value == TrimKeys(settings)
  {
    var out: seq<Header> := [];
    var i := 0;
    while i < |settings|
      invariant 0 <= i <= |settings| && |out| == i
      invariant forall k :: 0 <= k < i ==> AcceptSetting(settings[k]) == Some(out[k])
    {
      var accepted := AcceptSetting(settings[i]);
      if accepted.None? {
        return None;
      }
      out := out + [accepted.value];
      i := i + 1;
    }
    SettingsTrimmed(settings, out);
    return Some(out);
  }

  lemma SettingsTrimmed(settings: seq<Header>, out: seq<Header>)
    requires |out| == |settings| && forall k :: 0 <= k < |out| ==> AcceptSetting(settings[k]) == Some(out[k])
    ensures AllAccepted(settings, AcceptSetting) && out == TrimKeys(settings)
  {
    forall k | 0 <= k < |out|
      ensures out[k] == TrimKeys(settings)[k]
    {
      assert AcceptSetting(settings[k]) == Some(out[k]);
    }
  }

  /** Repeated routes and headers collapse. */
  function AcceptPlugin(raw: RawPlugin, routeIds: set<string>, production: bool): Option<P.PluginConfig> {
    if AcceptablePlugin(raw, routeIds, production)
    then Some(P.PluginConfig(raw.id, Dedup(raw.routes), raw.bodyPreviewBytes, Dedup(Normalized(raw.rawHeaders)),
                             TrimKeys(raw.settings)))
    else None
  }

  lemma ImagesOfRoutes(routeIds: set<string>, routes: seq<string>, images: seq<string>)
    requires Images(routes, r => AcceptPluginRoute(routeIds, r), images)
    ensures images == routes
  {
    assert forall i :: 0 <= i < |routes| ==> AcceptPluginRoute(routeIds, routes[i]) == Some(images[i]);
  }

  method ValidatePlugin(raw: RawPlugin, routeIds: set<string>, production: bool)
    returns (plugin: Option<P.PluginConfig>)
    ensures plugin == AcceptPlugin(raw, routeIds, production)
  {
    var ok := ValidateId(raw.id);
    if !ok || Trim(raw.path) == "" || Lower(Trim(raw.hook)) != "before_request" || raw.routes == [] {
      return None;
    }
    var routes, images := CollectDistinct(raw.routes, r => AcceptPluginRoute(routeIds, r));
    if routes.None? {
      return None;
    }
    ok := ValidateLimits(raw, production);
    if !ok {
      return None;
    }
    ImagesOfRoutes(routeIds, raw.routes, images);
    var headers := NormalizeRedactionList(raw.rawHeaders);
    if headers.None? {
      return None;
    }
    var settings := ValidateSettings(raw.settings);
    if settings.None? {
      return None;
    }
    return Some(P.PluginConfig(raw.id, routes.value, raw.bodyPreviewBytes, headers.value, settings.value));
  }

  /** A list holds exactly the normal forms of the values read, each once. */
  ghost predicate ListRead(raw: seq<string>, list: seq<string>) {
    Distinct(list) && forall x :: x in list <==> exists v :: v in raw && x == Lower(Trim(v))
  }

  lemma DedupReads(raw: seq<string>)
    ensures ListRead(raw, Dedup(Normalized(raw)))
  {
    forall x
      ensures x in Dedup(Normalized(raw)) <==> exists v :: v in raw && x == Lower(Trim(v))
    {
      if x in Normalized(raw) {
        var k :| 0 <= k < |raw| && Normalized(raw)[k] == x;
        assert raw[k] in raw;
      }
      if v :| v in raw && x == Lower(Trim(v)) {
        var k :| 0 <= k < |raw| && raw[k] == v;
        assert Normalized(raw)[k] == x;
      }
    }
  }

  /** A plugin holds exactly what was read for it: its routes each once, its headers in normal form, its
      settings with trimmed keys. */
  ghost predicate PluginRead(raw: RawPlugin, p: P.PluginConfig) {
    && p.id == raw.id && p.bodyPreviewBytes == raw.bodyPreviewBytes
    && Distinct(p.routes) && (forall x :: x in p.routes <==> x in raw.routes)
    && ListRead(raw.rawHeaders, p.rawHeaders)
    && |p.settings| == |raw.settings|
    && forall k :: 0 <= k < |raw.settings| ==>
      p.settings[k].name == Trim(raw.settings[k].name) && p.settings[k].value == raw.settings[k].value
  }

  lemma PluginReadBack(raw: RawPlugin, routeIds: set<string>, production: bool)
    requires AcceptPlugin(raw, routeIds, production).Some?
    ensures PluginRead(raw, AcceptPlugin(raw, routeIds, production).value)
  {
    DedupReads(raw.rawHeaders);
  }

  function PluginIdOf(raw: RawPlugin): string {
    raw.id
  }

  predicate AcceptablePlugins(raws: seq<RawPlugin>, routeIds: set<string>, production: bool) {
    UniqueIds(raws, PluginIdOf) && forall i :: 0 <= i < |raws| ==> AcceptablePlugin(raws[i], routeIds, production)
  }

  /** Accepts exactly the lists of acceptable plugins with distinct ids, and keeps what was read, in
      order; each plugin then names each of its routes once, and only configured ones. */
  method ValidatePlugins(raws: seq<RawPlugin>, routeIds: set<string>, production: bool)
    returns (plugins: Option<seq<P.PluginConfig>>)
    ensures plugins.Some? <==> AcceptablePlugins(raws, routeIds, production)
    ensures plugins.Some? ==> ValidPlugins(plugins.value, routeIds) && PluginsRead(raws, plugins.value)
  {
    var ids: set<string> := {};
    var out: seq<P.PluginConfig> := [];
    var i := 0;
    while i < |raws|
      invariant 0 <= i <= |raws|
      invariant SeenIds(raws, PluginIdOf, i, ids)
      invariant PassedAll(raws, routeIds, production, i, out)
    {
      if raws[i].id in ids {
        RepeatedId(raws, PluginIdOf, i, ids);
        return None;
      }
      var plugin := ValidatePlugin(raws[i], routeIds, production);
      if plugin.None? {
        Rejected(raws, routeIds, production, i);
        return None;
      }
      NewId(raws, PluginIdOf, i, ids);
      PassedMore(raws, routeIds, production, i, out, plugin.value);
      ids := ids + {raws[i].id};
      out := out + [plugin.value];
      i := i + 1;
    }
    AllPassed(raws, routeIds, production, out, ids);
    return Some(out);
  }

  ghost predicate PluginsRead(raws: seq<RawPlugin>, plugins: seq<P.PluginConfig>) {
    |plugins| == |raws| && forall k :: 0 <= k < |raws| ==> PluginRead(raws[k], plugins[k])
  }

  /** The first `n` plugins passed. */
  predicate PassedAll(raws: seq<RawPlugin>, routeIds: set<string>, production: bool, n: nat,
                      plugins: seq<P.PluginConfig>)
    requires n <= |raws|
  {
    |plugins| == n && forall k :: 0 <= k < n ==> AcceptPlugin(raws[k], routeIds, production) == Some(plugins[k])
  }

  lemma PassedMore(raws: seq<RawPlugin>, routeIds: set<string>, production: bool, n: nat, plugins: seq<P.PluginConfig>,
                   plugin: P.PluginConfig)
    requires n < |raws| && PassedAll(raws, routeIds, production, n, plugins)
    requires AcceptPlugin(raws[n], routeIds, production) == Some(plugin)
    ensures PassedAll(raws, routeIds, production, n + 1, plugins + [plugin])
  {
    var more := plugins + [plugin];
    forall k | 0 <= k < n + 1
      ensures AcceptPlugin(raws[k], routeIds, production) == Some(more[k])
    {
      assert more[k] == if k < n then plugins[k] else plugin;
    }
  }

  lemma Rejected(raws: seq<RawPlugin>, routeIds: set<string>, production: bool, i: nat)
    requires i < |raws| && AcceptPlugin(raws[i], routeIds, production).None?
    ensures !AcceptablePlugins(raws, routeIds, production)
  {
    assert !AcceptablePlugin(raws[i], routeIds, production);
  }

  lemma AllPassed(raws: seq<RawPlugin>, routeIds: set<string>, production: bool, plugins: seq<P.PluginConfig>,
                  ids: set<string>)
    requires PassedAll(raws, routeIds, production, |raws|, plugins) && SeenIds(raws, PluginIdOf, |raws|, ids)
    ensures AcceptablePlugins(raws, routeIds, production)
    ensures ValidPlugins(plugins, routeIds) && PluginsRead(raws, plugins)
  {
    forall k | 0 <= k < |raws|
      ensures AcceptablePlugin(raws[k], routeIds, production)
      ensures ValidPlugin(plugins[k], routeIds) && PluginRead(raws[k], plugins[k])
    {
      assert AcceptPlugin(raws[k], routeIds, production) == Some(plugins[k]);
      PluginRoutesKnown(raws[k], routeIds, production);
      PluginReadBack(raws[k], routeIds, production);
    }
  }

  predicate ValidPlugin(p: P.PluginConfig, routeIds: set<string>) {
    Distinct(p.routes) && forall r :: r in p.routes ==> r in routeIds
  }

  predicate ValidPlugins(plugins: seq<P.PluginConfig>, routeIds: set<string>) {
    forall i :: 0 <= i < |plugins| ==> ValidPlugin(plugins[i], routeIds)
  }

  lemma PluginRoutesKnown(raw: RawPlugin, routeIds: set<string>, production: bool)
    requires AcceptPlugin(raw, routeIds, production).Some?
    ensures ValidPlugin(AcceptPlugin(raw, routeIds, production).value, routeIds)
  {
    forall r | r in Dedup(raw.routes)
      ensures r in routeIds
    {
      var k :| 0 <= k < |raw.routes| && raw.routes[k] == r;
      assert AcceptPluginRoute(routeIds, raw.routes[k]).Some?;
    }
  }

  function RouteIds(raws: seq<RawRoute>): set<string> {
    set r | r in raws :: r.id
  }

  function RouteIdOf(raw: RawRoute): string {
    raw.id
  }

  predicate AcceptableRoutes(raws: seq<RawRoute>, s: StorageConfig, upstreamOk: string -> bool) {
    && raws != [] && UniqueIds(raws, RouteIdOf)
    && forall i :: 0 <= i < |raws| ==> AcceptableRoute(raws[i], s, upstreamOk)
  }

  predicate RoutesRead(raws: seq<RawRoute>, n: nat, routes: seq<Route>)
    requires n <= |raws|
  {
    |routes| == n && forall k :: 0 <= k < n ==> RouteRead(raws[k], routes[k])
  }

  predicate RoutesPass(raws: seq<RawRoute>, n: nat, s: StorageConfig, upstreamOk: string -> bool)
    requires n <= |raws|
  {
    forall k :: 0 <= k < n ==> AcceptableRoute(raws[k], s, upstreamOk)
  }

  /** Accepts exactly the non-empty lists of acceptable routes with distinct ids, and keeps what was
      read, in order. */
  method ValidateRoutes(raws: seq<RawRoute>, s: StorageConfig, upstreamOk: string -> bool)
    returns (routes: Option<seq<Route>>, ids: set<string>)
    ensures routes.Some? <==> AcceptableRoutes(raws, s, upstreamOk)
    ensures routes.Some? ==>
      && RoutesRead(raws, |raws|, routes.value) && ValidRoutes(routes.value, s)
      && Names(routes.value, ids) && ids == RouteIds(raws)
  {
    ids := {};
    if raws == [] {
      return None, ids;
    }
    var out: seq<Route> := [];
    var i := 0;
    while i < |raws|
      invariant 0 <= i <= |raws|
      invariant SeenIds(raws, RouteIdOf, i, ids)
      invariant RoutesPass(raws, i, s, upstreamOk) && RoutesRead(raws, i, out)
    {
      if raws[i].id in ids {
        RepeatedId(raws, RouteIdOf, i, ids);
        return None, ids;
      }
      var route := ValidateRoute(raws[i], s, upstreamOk);
      if route.None? {
        RouteRejected(raws, s, upstreamOk, i);
        return None, ids;
      }
      NewId(raws, RouteIdOf, i, ids);
      RoutesMore(raws, s, upstreamOk, i, out, route.value);
      ids := ids + {raws[i].id};
      out := out + [route.value];
      i := i + 1;
    }
    RoutesAccepted(raws, s, upstreamOk, out, ids);
    return Some(out), ids;
  }

  lemma RouteRejected(raws: seq<RawRoute>, s: StorageConfig, upstreamOk: string -> bool, i: nat)
    requires i < |raws| && !AcceptableRoute(raws[i], s, upstreamOk)
    ensures !AcceptableRoutes(raws, s, upstreamOk)
  {
  }

  lemma RoutesMore(raws: seq<RawRoute>, s: StorageConfig, upstreamOk: string -> bool, n: nat, routes: seq<Route>,
                   route: Route)
    requires n < |raws| && RoutesPass(raws, n, s, upstreamOk) && RoutesRead(raws, n, routes)
    requires AcceptableRoute(raws[n], s, upstreamOk) && RouteRead(raws[n], route)
    ensures RoutesPass(raws, n + 1, s, upstreamOk) && RoutesRead(raws, n + 1, routes + [route])
  {
    var more := routes + [route];
    forall k | 0 <= k < n + 1
      ensures RouteRead(raws[k], more[k])
    {
      assert more[k] == if k < n then routes[k] else route;
    }
  }

  lemma RoutesAccepted(raws: seq<RawRoute>, s: StorageConfig, upstreamOk: string -> bool, routes: seq<Route>,
                       ids: set<string>)
    requires raws != [] && RoutesPass(raws, |raws|, s, upstreamOk) && RoutesRead(raws, |raws|, routes)
    requires SeenIds(raws, RouteIdOf, |raws|, ids)
    ensures AcceptableRoutes(raws, s, upstreamOk) && ValidRoutes(routes, s)
    ensures Names(routes, ids) && ids == RouteIds(raws)
  {
    forall i | 0 <= i < |raws|
      ensures ValidRoute(routes[i], s) && routes[i].id == raws[i].id
    {
      RouteAccepted(raws[i], s, upstreamOk, routes[i]);
    }
    IdsCarryOver(raws, routes, ids);
  }

  lemma RouteAccepted(raw: RawRoute, s: StorageConfig, upstreamOk: string -> bool, route: Route)
    requires AcceptableRoute(raw, s, upstreamOk) && RouteRead(raw, route)
    ensures ValidRoute(route, s) && route.id == raw.id
  {
  }

  lemma IdsCarryOver(raws: seq<RawRoute>, routes: seq<Route>, ids: set<string>)
    requires |routes| == |raws| && forall i :: 0 <= i < |raws| ==> routes[i].id == raws[i].id
    requires SeenIds(raws, RouteIdOf, |raws|, ids)
    ensures Names(routes, ids) && ids == RouteIds(raws)
    ensures forall i, j :: 0 <= i < j < |routes| ==> routes[i].id != routes[j].id
  {
    forall i, j | 0 <= i < j < |raws|
      ensures routes[i].id != routes[j].id
    {
      assert RouteIdOf(raws[i]) != RouteIdOf(raws[j]);
    }
    forall x | x in ids
      ensures x in RouteIds(raws) && exists i :: 0 <= i < |routes| && routes[i].id == x
    {
      var i :| 0 <= i < |raws| && RouteIdOf(raws[i]) == x;
      assert raws[i] in raws && routes[i].id == x;
    }
    forall r | r in raws
      ensures r.id in ids
    {
      var i :| 0 <= i < |raws| && raws[i] == r;
      assert RouteIdOf(raws[i]) in ids;
    }
  }

  // ----- what the running gateway may rely on ---------------------------------------------------------------

  predicate ValidRoute(r: Route, s: StorageConfig) {
    && r.key.hosts != [] && ValidPathPrefix(r.key.pathPrefix)
    && r.upstreams != []
    && 1 <= r.timeoutMs <= 60_000 && r.retries <= 3
    && 1 <= r.concurrencyLimit <= 100_000
    && 1 <= r.healthFailures <= 100 && 1 <= r.healthCooldownMs <= 600_000
    && r.capture.responseBytes <= s.maxCaptureBytesPerRequest
  }

  /** Only ids of these routes. */
  predicate Names(routes: seq<Route>, ids: set<string>) {
    forall x :: x in ids ==> exists i :: 0 <= i < |routes| && routes[i].id == x
  }

  predicate ValidRoutes(routes: seq<Route>, s: StorageConfig) {
    && routes != []
    && (forall i :: 0 <= i < |routes| ==> ValidRoute(routes[i], s))
    && (forall i, j :: 0 <= i < j < |routes| ==> routes[i].id != routes[j].id)
  }
}
