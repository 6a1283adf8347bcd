/** Header edits: the batched mutations plugins ask for, and the headers of the request
    that goes upstream. Names are lower-case, each with all its values in order. */
module Headers {
  import opened Domain
  import opened Text

  type HeaderMap = map<string, seq<string>>

  predicate IsToken(c: char) {
    || '0' <= c <= '9' || 'a' <= c <= 'z' || 'A' <= c <= 'Z'
    || c in "!#$%&'*+-.^_`|~"
  }

  /** Token characters by code, as section 5.6.2 of RFC 9110 lists them. */
  predicate TokenCode(n: int) {
    || n == 33 || 35 <= n <= 39 || n == 42 || n == 43 || n == 45 || n == 46 || 48 <= n <= 57 || 65 <= n <= 90
    || 94 <= n <= 122 || n == 124 || n == 126
  }

  lemma TokensByCode(c: char)
    ensures IsToken(c) <==> TokenCode(c as int)
  {
    if TokenCode(c as int) {
      var others := "!#$%&'*+-.^_`|~";
      assert c as int == 33 ==> c == others[0];
      assert c as int == 35 ==> c == others[1];
      assert c as int == 36 ==> c == others[2];
      assert c as int == 37 ==> c == others[3];
      assert c as int == 38 ==> c == others[4];
      assert c as int == 39 ==> c == others[5];
      assert c as int == 42 ==> c == others[6];
      assert c as int == 43 ==> c == others[7];
      assert c as int == 45 ==> c == others[8];
      assert c as int == 46 ==> c == others[9];
      assert c as int == 94 ==> c == others[10];
      assert c as int == 95 ==> c == others[11];
      assert c as int == 96 ==> c == others[12];
      assert c as int == 124 ==> c == others[13];
      assert c as int == 126 ==> c == others[14];
    }
  }

  const MAX_NAME_LENGTH := 65535

  /** HeaderName::from_bytes: a token, kept in lower case. */
  function ParseName(raw: string): Option<string> {
    if 0 < |raw| <= MAX_NAME_LENGTH && (forall i :: 0 <= i < |raw| ==> IsToken(raw[i])) then Some(Lower(raw)) else None
  }

  /** HeaderValue::from_str: visible ASCII and tab. */
  predicate ValidValue(value: string) {
    forall i :: 0 <= i < |value| ==> (' ' <= value[i] < '\U{007F}') || value[i] == '\t'
  }

  /** A header name is a non-empty token of at most 65535 characters, kept in lower case. */
  lemma NamesExactly(raw: string)
    ensures ParseName(raw).Some? <==> 1 <= |raw| <= 65535 && forall c :: c in raw ==> TokenCode(c as int)
    ensures ParseName(raw).Some? ==> ParseName(raw).value == Lower(raw)
  {
    if forall i :: 0 <= i < |raw| ==> IsToken(raw[i]) {
      forall c | c in raw
        ensures TokenCode(c as int)
      {
        var i :| 0 <= i < |raw| && raw[i] == c;
        assert IsToken(raw[i]);
        TokensByCode(c);
      }
    } else {
      var i :| 0 <= i < |raw| && !IsToken(raw[i]);
      TokensByCode(raw[i]);
      assert raw[i] in raw;
    }
  }

  /** A header value is made of visible ASCII, blanks and tabs. */
  lemma ValuesExactly(value: string)
    ensures ValidValue(value) <==> forall c :: c in value ==> 32 <= c as int <= 126 || c as int == 9
  {
    if ValidValue(value) {
      forall c | c in value
        ensures 32 <= c as int <= 126 || c as int == 9
      {
        var i :| 0 <= i < |value| && value[i] == c;
      }
    } else {
      var i :| 0 <= i < |value| && !((' ' <= value[i] < '\U{007F}') || value[i] == '\t');
      assert value[i] in value;
    }
  }

  // ----- applying mutations --------------------------------------------------------------------

  /** A mutation that is not skipped, for this name. */
  predicate Sets(m: Header, name: string) {
    ParseName(m.name) == Some(name) && ValidValue(m.value)
  }

  function LastSet(sets: seq<Header>, name: string): Option<string> {
    if sets == [] then None
    else if Sets(sets[|sets| - 1], name) then Some(sets[|sets| - 1].value)
    else LastSet(sets[..|sets| - 1], name)
  }

  predicate Removes(removes: seq<string>, name: string) {
    exists r :: r in removes && ParseName(r) == Some(name)
  }

  function Get(h: HeaderMap, name: string): Option<seq<string>> {
    if name in h then Some(h[name]) else None
  }

  /** What a batch leaves under a name: its last set value, else nothing if removed, else
      what was there. */
  function BatchValue(before: Option<seq<string>>, sets: seq<Header>, removes: seq<string>, name: string)
    : Option<seq<string>>
  {
    match LastSet(sets, name)
    case Some(value) => Some([value])
    case None => if Removes(removes, name) then None else before
  }

  method ApplyPolicyMutations(headers: HeaderMap, sets: seq<Header>, removes: seq<string>) returns (out: HeaderMap)
    ensures forall name :: Get(out, name) == BatchValue(Get(headers, name), sets, removes, name)
  {
    out := headers;
    var i := 0;
    while i < |removes|
      invariant 0 <= i <= |removes|
      invariant forall name :: Get(out, name) == BatchValue(Get(headers, name), [], removes[..i], name)
    {
      ghost var before := out;
      var parsed := ParseName(removes[i]);
      if parsed.Some? {
        out := out - {parsed.value};
      }
      OneMoreRemoval(headers, before, removes, i, out);
      i := i + 1;
    }
    assert removes[..i] == removes;
    var j := 0;
    while j < |sets|
      invariant 0 <= j <= |sets|
      invariant forall name :: Get(out, name) == BatchValue(Get(headers, name), sets[..j], removes, name)
    {
      ghost var before := out;
      var parsed := ParseName(sets[j].name);
      if parsed.Some? && ValidValue(sets[j].value) {
        out := out[parsed.value := [sets[j].value]];
      }
      assert sets[..j + 1][..j] == sets[..j];
      j := j + 1;
    }
    assert sets[..j] == sets;
  }

  lemma OneMoreRemoval(headers: HeaderMap, before: HeaderMap, removes: seq<string>, i: nat, after: HeaderMap)
    requires i < |removes|
    requires forall name :: Get(before, name) == BatchValue(Get(headers, name), [], removes[..i], name)
    requires after == match ParseName(removes[i]) case Some(name) => before - {name} case None => before
    ensures forall name :: Get(after, name) == BatchValue(Get(headers, name), [], removes[..i + 1], name)
  {
    assert removes[..i + 1] == removes[..i] + [removes[i]];
    forall name
      ensures Get(after, name) == BatchValue(Get(headers, name), [], removes[..i + 1], name)
    {
      assert Removes(removes[..i + 1], name) <==> Removes(removes[..i], name) || ParseName(removes[i]) == Some(name);
    }
  }

  /** Applying the same batch again changes nothing. */
  lemma BatchIdempotent(before: Option<seq<string>>, sets: seq<Header>, removes: seq<string>, name: string)
    ensures BatchValue(BatchValue(before, sets, removes, name), sets, removes, name)
            == BatchValue(before, sets, removes, name)
  {
  }

  // ----- normalised mutations -----------------------------------------------------------------------

  const MAX_VALUE_CHARS := 4096

  function NormalizeName(raw: string): Option<string> {
    var name := Lower(Trim(raw));
    if ParseName(name).Some? then Some(name) else None
  }

  function NormalizeSet(m: Header): Option<Header> {
    match NormalizeName(m.name)
    case Some(name) => if ValidValue(m.value) then Some(Header(name, Take(m.value, MAX_VALUE_CHARS))) else None
    case None => None
  }

  /** A mutation's name is trimmed and lowered, its value cut at 4096 characters; it is refused exactly
      when the name is then no header name or the value no header value. */
  lemma NormalizedExactly(m: Header)
    ensures NormalizeName(m.name).Some? <==> ParseName(Lower(Trim(m.name))).Some?
    ensures NormalizeName(m.name).Some? ==> NormalizeName(m.name).value == Lower(Trim(m.name))
    ensures NormalizeSet(m).Some? <==> ParseName(Lower(Trim(m.name))).Some? && ValidValue(m.value)
    ensures NormalizeSet(m).Some? ==>
      && NormalizeSet(m).value.name == Lower(Trim(m.name))
      && NormalizeSet(m).value.value == if |m.value| <= 4096 then m.value else m.value[..4096]
  {
  }

  /** A normalised mutation is never skipped: it sets, or removes, exactly its own name. */
  lemma NormalizedNeverSkipped(m: Header)
    ensures NormalizeSet(m).Some? ==> Sets(NormalizeSet(m).value, NormalizeSet(m).value.name)
    ensures NormalizeName(m.name).Some? ==> ParseName(NormalizeName(m.name).value) == NormalizeName(m.name)
  {
    LowerIdempotent(Trim(m.name));
  }

  // ----- batch against plugin by plugin -----------------------------------------------------------------

  /** The mutations of one plugin. */
  datatype Mutations = Mutations(sets: seq<Header>, removes: seq<string>)

  function AllSets(ds: seq<Mutations>): seq<Header> {
    if ds == [] then [] else AllSets(ds[..|ds| - 1]) + ds[|ds| - 1].sets
  }

  function AllRemoves(ds: seq<Mutations>): seq<string> {
    if ds == [] then [] else AllRemoves(ds[..|ds| - 1]) + ds[|ds| - 1].removes
  }

  /** Each plugin's mutations applied before the next plugin's. */
  function InTurn(before: Option<seq<string>>, ds: seq<Mutations>, name: string): Option<seq<string>> {
    if ds == [] then before
    else
      var last := ds[|ds| - 1];
      BatchValue(InTurn(before, ds[..|ds| - 1], name), last.sets, last.removes, name)
  }

  predicate SetBy(d: Mutations, name: string) {
    LastSet(d.sets, name).Some?
  }

  /** Plugin `j` removes a name plugin `i` set before, and from there on nobody sets it. */
  predicate LateAt(ds: seq<Mutations>, name: string, i: nat, j: nat) {
    && i < j < |ds| && SetBy(ds[i], name) && Removes(ds[j].removes, name)
    && forall k :: j <= k < |ds| ==> !SetBy(ds[k], name)
  }

  ghost predicate LateRemoval(ds: seq<Mutations>, name: string) {
    exists i: nat, j: nat :: LateAt(ds, name, i, j)
  }

  ghost predicate SetBySome(ds: seq<Mutations>, name: string) {
    exists i :: 0 <= i < |ds| && SetBy(ds[i], name)
  }

  lemma {:induction false} LastSetConcat(a: seq<Header>, b: seq<Header>, name: string)
    ensures LastSet(a + b, name) == if LastSet(b, name).Some? then LastSet(b, name) else LastSet(a, name)
  {
    if b == [] {
      assert a + b == a;
    } else {
      assert (a + b)[..|a + b| - 1] == a + b[..|b| - 1];
      LastSetConcat(a, b[..|b| - 1], name);
    }
  }

  lemma SetBySomeOfMore(rest: seq<Mutations>, last: Mutations, name: string)
    ensures SetBySome(rest + [last], name) <==> SetBySome(rest, name) || SetBy(last, name)
  {
    var ds := rest + [last];
    if i :| 0 <= i < |rest| && SetBy(rest[i], name) {
      assert SetBy(ds[i], name);
    }
    assert ds[|rest|] == last;
    if i :| 0 <= i < |ds| && SetBy(ds[i], name) {
      assert i < |rest| ==> SetBy(rest[i], name);
    }
  }

  lemma {:induction false} SomebodySets(ds: seq<Mutations>, name: string)
    ensures LastSet(AllSets(ds), name).Some? <==> SetBySome(ds, name)
  {
    if ds != [] {
      var rest, last := ds[..|ds| - 1], ds[|ds| - 1];
      SomebodySets(rest, name);
      LastSetConcat(AllSets(rest), last.sets, name);
      assert ds == rest + [last];
      SetBySomeOfMore(rest, last, name);
    }
  }

  lemma LateRemovalShrinks(rest: seq<Mutations>, last: Mutations, name: string)
    requires LateRemoval(rest + [last], name)
    ensures !SetBy(last, name)
    ensures LateRemoval(rest, name) || (Removes(last.removes, name) && SetBySome(rest, name))
  {
    var ds := rest + [last];
    var i: nat, j: nat :| LateAt(ds, name, i, j);
    assert ds[|rest|] == last && ds[i] == rest[i];
    if j < |rest| {
      assert forall k :: j <= k < |rest| ==> rest[k] == ds[k];
      assert LateAt(rest, name, i, j);
    }
  }

  lemma LateRemovalGrows(rest: seq<Mutations>, last: Mutations, name: string)
    requires !SetBy(last, name)
    requires LateRemoval(rest, name) || (Removes(last.removes, name) && SetBySome(rest, name))
    ensures LateRemoval(rest + [last], name)
  {
    var ds := rest + [last];
    if LateRemoval(rest, name) {
      var i: nat, j: nat :| LateAt(rest, name, i, j);
      assert LateAt(ds, name, i, j);
    } else {
      var i :| 0 <= i < |rest| && SetBy(rest[i], name);
      assert LateAt(ds, name, i, |rest|);
    }
  }

  lemma RemovesConcat(a: seq<string>, b: seq<string>, name: string)
    ensures Removes(a + b, name) <==> Removes(a, name) || Removes(b, name)
  {
  }

  /** What the last plugin adds to a batch. */
  lemma BatchOfMore(before: Option<seq<string>>, rest: seq<Mutations>, last: Mutations, name: string)
    ensures AllSets(rest + [last]) == AllSets(rest) + last.sets
    ensures AllRemoves(rest + [last]) == AllRemoves(rest) + last.removes
    ensures InTurn(before, rest + [last], name) == BatchValue(InTurn(before, rest, name), last.sets, last.removes, name)
  {
    assert (rest + [last])[..|rest|] == rest;
  }

  /** The last plugin sets the name: both ways end with its value. */
  lemma SetLast(before: Option<seq<string>>, rest: seq<Mutations>, last: Mutations, name: string)
    requires SetBy(last, name)
    ensures BatchValue(before, AllSets(rest) + last.sets, AllRemoves(rest) + last.removes, name)
            == BatchValue(InTurn(before, rest, name), last.sets, last.removes, name)
  {
    LastSetConcat(AllSets(rest), last.sets, name);
  }

  /** The last plugin removes the name: the batch still has it exactly when an earlier one set it. */
  lemma RemovedLast(before: Option<seq<string>>, rest: seq<Mutations>, last: Mutations, name: string)
    requires !SetBy(last, name) && Removes(last.removes, name)
    ensures BatchValue(before, AllSets(rest) + last.sets, AllRemoves(rest) + last.removes, name)
            == BatchValue(InTurn(before, rest, name), last.sets, last.removes, name)
            <==> !SetBySome(rest, name)
  {
    LastSetConcat(AllSets(rest), last.sets, name);
    RemovesConcat(AllRemoves(rest), last.removes, name);
    SomebodySets(rest, name);
  }

  /** The last plugin leaves the name alone, and so the question as it was. */
  lemma UntouchedLast(before: Option<seq<string>>, rest: seq<Mutations>, last: Mutations, name: string)
    requires !SetBy(last, name) && !Removes(last.removes, name)
    ensures BatchValue(before, AllSets(rest) + last.sets, AllRemoves(rest) + last.removes, name)
            == BatchValue(before, AllSets(rest), AllRemoves(rest), name)
    ensures BatchValue(InTurn(before, rest, name), last.sets, last.removes, name) == InTurn(before, rest, name)
  {
    LastSetConcat(AllSets(rest), last.sets, name);
    RemovesConcat(AllRemoves(rest), last.removes, name);
  }

  lemma LateRemovalNeedsSet(ds: seq<Mutations>, name: string)
    requires LateRemoval(ds, name)
    ensures SetBySome(ds, name)
  {
    var i: nat, j: nat :| LateAt(ds, name, i, j);
    assert SetBy(ds[i], name);
  }

  /** One more plugin keeps the equivalence. */
  lemma OneMorePlugin(before: Option<seq<string>>, rest: seq<Mutations>, last: Mutations, name: string)
    requires BatchValue(before, AllSets(rest), AllRemoves(rest), name) == InTurn(before, rest, name)
             <==> !LateRemoval(rest, name)
    ensures BatchValue(before, AllSets(rest) + last.sets, AllRemoves(rest) + last.removes, name)
            == BatchValue(InTurn(before, rest, name), last.sets, last.removes, name)
            <==> !LateRemoval(rest + [last], name)
  {
    LateRemovalOfMore(rest, last, name);
    if SetBy(last, name) {
      SetLast(before, rest, last, name);
    } else if Removes(last.removes, name) {
      RemovedLast(before, rest, last, name);
      if LateRemoval(rest, name) {
        LateRemovalNeedsSet(rest, name);
      }
    } else {
      UntouchedLast(before, rest, last, name);
    }
  }

  /** The batch is the plugins' mutations in turn exactly when the name has no late removal. */
  lemma {:induction false} BatchEqualsInTurn(before: Option<seq<string>>, ds: seq<Mutations>, name: string)
    ensures BatchValue(before, AllSets(ds), AllRemoves(ds), name) == InTurn(before, ds, name)
            <==> !LateRemoval(ds, name)
  {
    if ds != [] {
      var rest, last := ds[..|ds| - 1], ds[|ds| - 1];
      BatchEqualsInTurn(before, rest, name);
      OneMorePlugin(before, rest, last, name);
      assert rest + [last] == ds;
      BatchOfMore(before, rest, last, name);
    }
  }

  lemma LateRemovalOfMore(rest: seq<Mutations>, last: Mutations, name: string)
    ensures LateRemoval(rest + [last], name) <==>
      !SetBy(last, name) && (LateRemoval(rest, name) || (Removes(last.removes, name) && SetBySome(rest, name)))
  {
    if LateRemoval(rest + [last], name) {
      LateRemovalShrinks(rest, last, name);
    } else if !SetBy(last, name) &&
              (LateRemoval(rest, name) || (Removes(last.removes, name) && SetBySome(rest, name))) {
      LateRemovalGrows(rest, last, name);
    }
  }

  // ----- the upstream request ------------------------------------------------------------------------------

  const HOP_BY_HOP := ["connection", "keep-alive", "proxy-authenticate", "proxy-authorization",
                       "te", "trailer", "transfer-encoding", "upgrade"]

  const TRACE_HEADERS := {"traceparent", "tracestate"}

  function HopByHop(): set<string> {
    set name | name in HOP_BY_HOP
  }

  lemma HopByHopNames()
    ensures HopByHop() == {"connection", "keep-alive", "proxy-authenticate", "proxy-authorization", "te", "trailer",
                           "transfer-encoding", "upgrade"}
  {
  }

  method RemoveHopByHop(headers: HeaderMap) returns (out: HeaderMap)
    ensures out == headers - HopByHop()
    ensures out == headers - {"connection", "keep-alive", "proxy-authenticate", "proxy-authorization", "te", "trailer",
                              "transfer-encoding", "upgrade"}
  {
    HopByHopNames();
    out := headers;
    var i := 0;
    while i < |HOP_BY_HOP|
      invariant 0 <= i <= |HOP_BY_HOP|
      invariant out == headers - (set name | name in HOP_BY_HOP[..i])
    {
      assert HOP_BY_HOP[..i + 1] == HOP_BY_HOP[..i] + [HOP_BY_HOP[i]];
      out := out - {HOP_BY_HOP[i]};
      i := i + 1;
    }
    assert HOP_BY_HOP[..i] == HOP_BY_HOP;
  }

  /** The values the gateway writes itself. */
  function GatewayValues(template: HeaderMap, authority: string, requestId: string, remoteIp: string): HeaderMap
    requires "host" in template ==> template["host"] != []
  {
    map["host" := [authority],
        "x-request-id" := [if ValidValue(requestId) then requestId else "invalid-request-id"],
        "x-forwarded-for" := [remoteIp],
        "x-forwarded-proto" := ["http"]]
    + (if "host" in template then map["x-forwarded-host" := [template["host"][0]]] else map[])
  }

  /** The trace context, or a generated parent when there is none. */
  function TraceValues(headers: HeaderMap, injected: map<string, string>, generated: string): HeaderMap {
    var own: HeaderMap := map name | name in injected :: [injected[name]];
    if "traceparent" in headers || "traceparent" in injected then own else own["traceparent" := [generated]]
  }

  /** The template without connection headers, under the gateway's and the trace's values. */
  function Outbound(template: HeaderMap, authority: string, requestId: string, remoteIp: string,
                    injected: map<string, string>, generated: string): HeaderMap
    requires "host" in template ==> template["host"] != []
  {
    var base := (template - HopByHop()) + GatewayValues(template, authority, requestId, remoteIp);
    base + TraceValues(base, injected, generated)
  }

  /** The connection headers go, then the gateway writes its own values over whatever the
      client or a plugin supplied. `injected` is the current trace context. */
  method BuildUpstreamHeaders(template: HeaderMap, authority: string, requestId: string, remoteIp: string,
                              injected: map<string, string>, generated: string)
    returns (result: Result<HeaderMap, string>)
    requires "host" in template ==> template["host"] != []
    ensures result.Ok? <==> ValidValue(authority) && ValidValue(remoteIp)
    ensures result.Ok? ==> result.value == Outbound(template, authority, requestId, remoteIp, injected, generated)
  {
    var h := RemoveHopByHop(template);
    ghost var base := h;
    if !ValidValue(authority) {
      return Err("host");
    }
    h := h["host" := [authority]];
    h := h["x-request-id" := [if ValidValue(requestId) then requestId else "invalid-request-id"]];
    if "host" in template {
      h := h["x-forwarded-host" := [template["host"][0]]];
    }
    if !ValidValue(remoteIp) {
      return Err("x-forwarded-for");
    }
    h := h["x-forwarded-for" := [remoteIp]];
    h := h["x-forwarded-proto" := ["http"]];
    WritesGateway(base, template, authority, requestId, remoteIp, h);
    var out := InjectContext(h, injected, generated);
    ContextDetermines(h, injected, generated, out);
    return Ok(out);
  }

  lemma WritesGateway(base: HeaderMap, template: HeaderMap, authority: string, requestId: string, remoteIp: string,
                      h: HeaderMap)
    requires "host" in template ==> template["host"] != []
    requires var id := if ValidValue(requestId) then requestId else "invalid-request-id";
      var named := base["host" := [authority]]["x-request-id" := [id]];
      var told := if "host" in template then named["x-forwarded-host" := [template["host"][0]]] else named;
      h == told["x-forwarded-for" := [remoteIp]]["x-forwarded-proto" := ["http"]]
    ensures h == base + GatewayValues(template, authority, requestId, remoteIp)
  {
  }

  /** Every field of the current trace context carries its value, there is always a parent, and
      no other header changes; a parent already there is kept unless the context has one. */
  method InjectContext(headers: HeaderMap, injected: map<string, string>, generated: string) returns (out: HeaderMap)
    ensures forall name :: name in injected ==> Get(out, name) == Some([injected[name]])
    ensures forall name :: name !in injected && name != "traceparent" ==> Get(out, name) == Get(headers, name)
    ensures "traceparent" !in injected ==>
      Get(out, "traceparent") == if "traceparent" in headers then Get(headers, "traceparent") else Some([generated])
  {
    out := headers + (map name | name in injected :: [injected[name]]);
    if "traceparent" !in out {
      out := out["traceparent" := [generated]];
    }
  }

  lemma ContextDetermines(headers: HeaderMap, injected: map<string, string>, generated: string, out: HeaderMap)
    requires forall name :: name in injected ==> Get(out, name) == Some([injected[name]])
    requires forall name :: name !in injected && name != "traceparent" ==> Get(out, name) == Get(headers, name)
    requires "traceparent" !in injected ==>
      Get(out, "traceparent") == if "traceparent" in headers then Get(headers, "traceparent") else Some([generated])
    ensures out == headers + TraceValues(headers, injected, generated)
  {
    var all := headers + TraceValues(headers, injected, generated);
    forall name
      ensures Get(out, name) == Get(all, name)
    {
      if name !in injected && name != "traceparent" {
        assert Get(out, name) == Get(headers, name);
      }
    }
    SameHeaders(out, all);
  }

  lemma SameHeaders(a: HeaderMap, b: HeaderMap)
    requires forall name :: Get(a, name) == Get(b, name)
    ensures a == b
  {
    forall name
      ensures name in a <==> name in b
      ensures name in a ==> a[name] == b[name]
    {
      assert Get(a, name) == Get(b, name);
    }
  }

  /** Whatever headers the template holds, the outbound request has none of the connection
      headers, has the gateway's values, and keeps every other header of the template. */
  lemma UpstreamHeadersSafe(template: HeaderMap, authority: string, requestId: string, remoteIp: string,
                            injected: map<string, string>, generated: string, name: string)
    requires "host" in template ==> template["host"] != []
    requires injected.Keys <= TRACE_HEADERS
    ensures var gateway := GatewayValues(template, authority, requestId, remoteIp);
      var out := Outbound(template, authority, requestId, remoteIp, injected, generated);
      && (name in HOP_BY_HOP ==> name !in out)
      && (name in gateway ==> Get(out, name) == Some(gateway[name]))
      && (name !in HOP_BY_HOP && name !in gateway && name !in TRACE_HEADERS ==> Get(out, name) == Get(template, name))
      && "traceparent" in out
  {
    NamesApart(name);
  }

  /** The gateway's own values: the upstream's authority, the request id, the client's address, the
      scheme, and the host the client asked for. */
  lemma GatewayExactly(template: HeaderMap, authority: string, requestId: string, remoteIp: string,
                       injected: map<string, string>, generated: string)
    requires "host" in template ==> template["host"] != []
    requires injected.Keys <= TRACE_HEADERS
    ensures var out := Outbound(template, authority, requestId, remoteIp, injected, generated);
      && Get(out, "host") == Some([authority])
      && Get(out, "x-request-id") == Some([if ValidValue(requestId) then requestId else "invalid-request-id"])
      && Get(out, "x-forwarded-for") == Some([remoteIp])
      && Get(out, "x-forwarded-proto") == Some(["http"])
      && Get(out, "x-forwarded-host") ==
           if "host" in template then Some([template["host"][0]]) else Get(template, "x-forwarded-host")
  {
    UpstreamHeadersSafe(template, authority, requestId, remoteIp, injected, generated, "host");
    UpstreamHeadersSafe(template, authority, requestId, remoteIp, injected, generated, "x-request-id");
    UpstreamHeadersSafe(template, authority, requestId, remoteIp, injected, generated, "x-forwarded-for");
    UpstreamHeadersSafe(template, authority, requestId, remoteIp, injected, generated, "x-forwarded-proto");
    UpstreamHeadersSafe(template, authority, requestId, remoteIp, injected, generated, "x-forwarded-host");
    NamesApart("x-forwarded-host");
  }

  // ----- fields section 7.6.1 of RFC 9110 also calls connection-specific -----------------------------------

  /** The names a Connection field nominates. */
  function Nominated(template: HeaderMap): set<string> {
    if "connection" !in template then {}
    else set value, part | value in template["connection"] && part in Split(value, ',') :: Lower(Trim(part))
  }

  predicate ConnectionField(template: HeaderMap, name: string) {
    name in HOP_BY_HOP || name == "proxy-connection" || name in Nominated(template)
  }

  /** The gateway strips its eight names and no others, so an outbound request is free of
      connection-specific fields exactly when the template holds no Proxy-Connection and its
      Connection field nominates nothing beyond the eight that is there or that the gateway adds. */
  lemma ConnectionFieldsGoneExactly(template: HeaderMap, authority: string, requestId: string, remoteIp: string,
                                    injected: map<string, string>, generated: string)
    requires "host" in template ==> template["host"] != []
    requires injected.Keys <= TRACE_HEADERS
    ensures var out := Outbound(template, authority, requestId, remoteIp, injected, generated);
      var gateway := GatewayValues(template, authority, requestId, remoteIp);
      (forall name :: ConnectionField(template, name) ==> name !in out) <==>
      forall name :: ConnectionField(template, name) && name !in HOP_BY_HOP ==>
        name !in template && name !in gateway && name !in injected && name != "traceparent"
  {
    forall name
      ensures var gateway := GatewayValues(template, authority, requestId, remoteIp);
        name in Outbound(template, authority, requestId, remoteIp, injected, generated) <==>
        name in gateway || name in injected || name == "traceparent" || (name in template && name !in HOP_BY_HOP)
      ensures name in HOP_BY_HOP ==> name !in Outbound(template, authority, requestId, remoteIp, injected, generated)
    {
      NamesApart(name);
      NamesApart("traceparent");
    }
  }

  /** For one, a Proxy-Connection header goes out as it came in. */
  lemma ProxyConnectionStays(template: HeaderMap, authority: string, requestId: string, remoteIp: string,
                             injected: map<string, string>, generated: string)
    requires "host" in template ==> template["host"] != []
    requires injected.Keys <= TRACE_HEADERS && "proxy-connection" in template
    ensures Get(Outbound(template, authority, requestId, remoteIp, injected, generated), "proxy-connection")
            == Get(template, "proxy-connection")
  {
    UpstreamHeadersSafe(template, authority, requestId, remoteIp, injected, generated, "proxy-connection");
  }

  lemma NamesApart(name: string)
    ensures name in HOP_BY_HOP ==> name !in TRACE_HEADERS
    ensures name in {"host", "x-request-id", "x-forwarded-for", "x-forwarded-proto", "x-forwarded-host"} ==>
      name !in HOP_BY_HOP && name !in TRACE_HEADERS
  {
  }
}
