/** Host and path-prefix routing. */
module Routing {
  import opened Domain
  import opened Text

  /** What routing reads of a route. */
  datatype RouteKey = RouteKey(hosts: seq<string>, pathPrefix: string)

  predicate PathMatches(prefix: string, path: string) {
    || prefix == "/"
    || path == prefix
    || (prefix <= path && |prefix| < |path| && path[|prefix|] == '/')
  }

  predicate HostMatches(hosts: seq<string>, host: Option<string>) {
    exists candidate :: candidate in hosts &&
      (candidate == "*" || (host.Some? && SameIgnoringCase(candidate, host.value)))
  }

  function NormalizeHost(raw: string): Option<string> {
    var host := Trim(raw);
    if host == "" then None
    else
      var withoutPort := if host[0] == '[' then Before(host, ']') + "]" else Before(host, ':');
      var normalized := Lower(Trim(withoutPort));
      if normalized == "" then None else Some(normalized)
  }

  predicate Eligible(route: RouteKey, host: Option<string>, path: string) {
    HostMatches(route.hosts, host) && PathMatches(route.pathPrefix, path)
  }

  /** The best of the first `n` routes; a later route wins only with a longer prefix. */
  function BestOf(routes: seq<RouteKey>, host: Option<string>, path: string, n: nat): Option<nat>
    requires n <= |routes|
  {
    if n == 0 then None
    else
      var best := BestOf(routes, host, path, n - 1);
      if !Eligible(routes[n - 1], host, path) then best
      else if best.Some? && best.value < |routes| &&
              |routes[n - 1].pathPrefix| <= |routes[best.value].pathPrefix| then best
      else Some(n - 1)
  }

  function MatchRoute(routes: seq<RouteKey>, hostHeader: Option<string>, path: string): Option<nat> {
    var host := if hostHeader.Some? then NormalizeHost(hostHeader.value) else None;
    BestOf(routes, host, path, |routes|)
  }

  // ----- longest match, lowest index ------------------------------------------------------------

  /** Route `i` is eligible, and every other eligible route among the first `n` has a shorter
      prefix or comes later with an equally long one. */
  predicate Wins(routes: seq<RouteKey>, host: Option<string>, path: string, n: nat, i: nat)
    requires n <= |routes|
  {
    && i < n && Eligible(routes[i], host, path)
    && forall j :: 0 <= j < n && Eligible(routes[j], host, path) ==>
      |routes[j].pathPrefix| < |routes[i].pathPrefix| || (|routes[j].pathPrefix| == |routes[i].pathPrefix| && i <= j)
  }

  lemma {:induction false} BestWins(routes: seq<RouteKey>, host: Option<string>, path: string, n: nat)
    requires n <= |routes|
    ensures match BestOf(routes, host, path, n)
            case Some(i) => Wins(routes, host, path, n, i)
            case None => forall j :: 0 <= j < n ==> !Eligible(routes[j], host, path)
  {
    if n > 0 {
      BestWins(routes, host, path, n - 1);
    }
  }

  /** The result is the one route that wins among all, and is absent exactly when no route
      is eligible. */
  lemma MatchIsLongest(routes: seq<RouteKey>, hostHeader: Option<string>, path: string)
    ensures var host := if hostHeader.Some? then NormalizeHost(hostHeader.value) else None;
      && (forall i: nat :: i < |routes| ==>
            (MatchRoute(routes, hostHeader, path) == Some(i) <==> Wins(routes, host, path, |routes|, i)))
      && (MatchRoute(routes, hostHeader, path).None? <==>
            forall j :: 0 <= j < |routes| ==> !Eligible(routes[j], host, path))
  {
    var host := if hostHeader.Some? then NormalizeHost(hostHeader.value) else None;
    BestWins(routes, host, path, |routes|);
  }

  // ----- string prefixes are segment prefixes -----------------------------------------------------

  lemma {:induction false} PrefixBySegments(prefix: string, path: string)
    ensures Split(prefix, '/') <= Split(path, '/')
      <==> path == prefix || (prefix <= path && |prefix| < |path| && path[|prefix|] == '/')
  {
    if prefix == "" {
      SplitFirst(path, '/');
    } else if path != "" && prefix[0] == path[0] {
      PrefixBySegments(prefix[1..], path[1..]);
      var p, s := Split(prefix[1..], '/'), Split(path[1..], '/');
      assert prefix <= path <==> prefix[1..] <= path[1..];
      assert prefix == path <==> prefix[1..] == path[1..];
      if prefix[0] == '/' {
        ConsPrefix("", p, s);
      } else {
        var c := [prefix[0]];
        assert c + p[0] == c + s[0] <==> p[0] == s[0] by {
          assert (c + p[0])[1..] == p[0] && (c + s[0])[1..] == s[0];
        }
        SameHeadPrefix(p, s, c + p[0], c + s[0]);
      }
    } else if path == "" {
      assert Split(path, '/') == [""];
      if prefix[0] == '/' {
        assert |Split(prefix, '/')| >= 2;
      } else {
        assert Split(prefix, '/')[0] != "";
      }
    } else {
      assert prefix[0] != path[0];
      FirstChar(prefix);
      FirstChar(path);
    }
  }

  lemma FirstChar(s: string)
    requires s != ""
    ensures if s[0] == '/' then Split(s, '/')[0] == "" else Split(s, '/')[0] != "" && Split(s, '/')[0][0] == s[0]
  {
  }

  lemma ConsPrefix(h: string, p: seq<string>, s: seq<string>)
    ensures [h] + p <= [h] + s <==> p <= s
  {
    if [h] + p <= [h] + s {
      assert forall i :: 0 <= i < |p| ==> p[i] == ([h] + p)[i + 1] == ([h] + s)[i + 1] == s[i];
    }
  }

  lemma SameHeadPrefix(p: seq<string>, s: seq<string>, p0: string, s0: string)
    requires p != [] && s != [] && (p0 == s0 <==> p[0] == s[0])
    ensures [p0] + p[1..] <= [s0] + s[1..] <==> p <= s
  {
    assert p == [p[0]] + p[1..] && s == [s[0]] + s[1..];
    if p <= s {
      assert p[1..] == s[1..|p|];
    }
    if [p0] + p[1..] <= [s0] + s[1..] {
      assert ([p0] + p[1..])[0] == ([s0] + s[1..])[0];
      assert forall i :: 1 <= i < |p| ==> p[i] == ([p0] + p[1..])[i] == ([s0] + s[1..])[i] == s[i];
    }
  }

  /** Matching never cuts a path segment: other than "/", a prefix matches exactly the paths
      its segment list is a prefix of. */
  lemma MatchesBySegments(prefix: string, path: string)
    requires prefix != "/"
    ensures PathMatches(prefix, path) <==> Split(prefix, '/') <= Split(path, '/')
  {
    PrefixBySegments(prefix, path);
  }

  /** So a prefix matches exactly these paths, and "/" all of them. */
  lemma PathsExactly(prefix: string, path: string)
    ensures PathMatches(prefix, path) <==> prefix == "/" || Split(prefix, '/') <= Split(path, '/')
  {
    if prefix != "/" {
      MatchesBySegments(prefix, path);
    }
  }

  /** A star matches every request, even one without a host; any other candidate matches exactly the
      hosts that equal it but for ASCII case. */
  lemma HostsExactly(hosts: seq<string>, host: Option<string>)
    ensures "*" in hosts ==> HostMatches(hosts, host)
    ensures "*" !in hosts ==>
      (HostMatches(hosts, host) <==> host.Some? && exists c :: c in hosts && Lower(c) == Lower(host.value))
  {
    if "*" in hosts {
      assert exists c :: c in hosts && c == "*";
    } else if host.Some? {
      if c :| c in hosts && Lower(c) == Lower(host.value) {
        assert SameIgnoringCase(c, host.value);
      }
    }
  }

  /** What configuration validation demands of a path prefix. */
  predicate ValidPathPrefix(prefix: string) {
    prefix != "" && prefix[0] == '/' && (|prefix| > 1 ==> prefix[|prefix| - 1] != '/')
  }

  /** Route order only decides between routes with the very same prefix. */
  lemma EqualLengthMeansEqualPrefix(one: string, two: string, path: string)
    requires ValidPathPrefix(one) && ValidPathPrefix(two)
    requires PathMatches(one, path) && PathMatches(two, path) && |one| == |two|
    ensures one == two
  {
    if |one| > 1 {
      assert one == path[..|one|] && two == path[..|two|];
    }
  }

  // ----- host names ---------------------------------------------------------------------------------

  lemma LowerKeepsChar(s: string, c: char)
    requires !('A' <= c <= 'Z') && !('a' <= c <= 'z')
    ensures c in Lower(s) <==> c in s
  {
    if c in s {
      var i :| 0 <= i < |s| && s[i] == c;
      assert Lower(s)[i] == c;
    }
    if c in Lower(s) {
      var i :| 0 <= i < |s| && Lower(s)[i] == c;
      assert s[i] == c;
    }
  }

  lemma {:induction false} TrimKeeps(s: string, c: char)
    ensures c in Trim(s) ==> c in s
    ensures s != "" && !IsWhitespace(s[0]) && Trim(s) != "" ==> Trim(s)[0] == s[0]
    decreases |s|
  {
    if s != "" {
      if IsWhitespace(s[0]) {
        TrimKeeps(s[1..], c);
      } else if IsWhitespace(s[|s| - 1]) {
        TrimKeeps(s[..|s| - 1], c);
      }
    }
  }

  lemma LowerKeepsTrimmed(s: string)
    requires Trimmed(s)
    ensures Trimmed(Lower(s))
  {
  }

  /** A lower-case bracketed name is its own normal form. */
  lemma BracketedNormal(inner: string)
    requires inner != "" && inner[0] == '[' && ']' !in inner && Lower(inner + "]") == inner + "]"
    ensures NormalizeHost(inner + "]") == Some(inner + "]")
  {
    assert Trimmed(inner + "]");
    BeforeConcat(inner, ']');
  }

  lemma BracketedStable(host: string)
    requires host != "" && host[0] == '['
    ensures var h := Lower(Trim(Before(host, ']') + "]")); NormalizeHost(h) == Some(h)
  {
    var inner := Before(host, ']');
    BracketedHost(host, inner);
    LowerAppend(inner);
    LowerIdempotent(inner + "]");
    LowerKeepsChar(inner, ']');
    BracketedNormal(Lower(inner));
  }

  lemma LowerAppend(inner: string)
    ensures Lower(inner + "]") == Lower(inner) + "]"
  {
  }

  lemma NamedStable(host: string)
    requires host != "" && Trimmed(host) && host[0] != '[' && Trim(Before(host, ':')) != ""
    ensures var h := Lower(Trim(Before(host, ':'))); NormalizeHost(h) == Some(h)
  {
    var name := Trim(Before(host, ':'));
    TrimKeeps(Before(host, ':'), ':');
    LowerKeepsChar(name, ':');
    LowerKeepsTrimmed(name);
    LowerIdempotent(name);
    assert name[0] == host[0];
  }

  lemma NormalizeHostIdempotent(raw: string)
    requires NormalizeHost(raw).Some?
    ensures NormalizeHost(NormalizeHost(raw).value) == NormalizeHost(raw)
  {
    var host := Trim(raw);
    if host[0] == '[' {
      BracketedStable(host);
    } else {
      NamedStable(host);
    }
  }

  /** Blank hosts have no normal form, and blanks around a host do not matter. */
  lemma BlanksDoNotMatter(raw: string)
    ensures Trim(raw) == "" ==> NormalizeHost(raw) == None
    ensures NormalizeHost(raw) == NormalizeHost(Trim(raw))
  {
  }

  /** A name loses its port and its capitals. */
  lemma NamesLosePort(name: string, port: string)
    requires ':' !in name && Trimmed(name + ":" + port) && (name == "" || name[0] != '[')
    ensures NormalizeHost(name + ":" + port) == if Trim(name) == "" then None else Some(Lower(Trim(name)))
  {
    var host := name + ":" + port;
    assert host[|name|] == ':';
    BeforeSeparator(name, port, ':');
    LowerLength(Trim(name));
  }

  lemma NamesWithoutPort(name: string)
    requires name != "" && ':' !in name && Trimmed(name) && name[0] != '['
    ensures NormalizeHost(name) == Some(Lower(name))
  {
    LowerLength(name);
  }

  lemma LowerLength(s: string)
    ensures Lower(s) == "" <==> s == ""
  {
  }

  /** A bracketed address keeps its brackets and loses its port. */
  lemma BracketsKept(inner: string, rest: string)
    requires inner != "" && inner[0] == '[' && ']' !in inner && Trimmed(inner + "]" + rest)
    ensures NormalizeHost(inner + "]" + rest) == Some(Lower(inner + "]"))
  {
    BeforeSeparator(inner, rest, ']');
    assert Trimmed(inner + "]");
    LowerLength(inner + "]");
  }

  lemma {:induction false} BeforeSeparator(s: string, rest: string, sep: char)
    requires sep !in s
    ensures Before(s + [sep] + rest, sep) == s
  {
    if s != "" {
      assert (s + [sep] + rest)[1..] == s[1..] + [sep] + rest;
      BeforeSeparator(s[1..], rest, sep);
    }
  }

  lemma BracketedHost(host: string, inner: string)
    requires host != "" && host[0] == '[' && inner == Before(host, ']')
    ensures inner != "" && inner[0] == '[' && Trim(inner + "]") == inner + "]"
  {
    assert Trimmed(inner + "]");
  }

  lemma {:induction false} BeforeConcat(s: string, sep: char)
    requires sep !in s
    ensures Before(s + [sep], sep) == s
  {
    if s != "" {
      assert (s + [sep])[1..] == s[1..] + [sep];
      BeforeConcat(s[1..], sep);
    }
  }
}
