/** Query redaction: sensitive parameters never reach the log or the store. */
module Redaction {
  import opened Domain
  import opened Text

  predicate Sensitive(params: seq<string>, key: string) {
    exists p :: p in params && SameIgnoringCase(p, key)
  }

  /** A query part is kept by its raw key. */
  predicate Keeps(params: seq<string>, part: string) {
    !Sensitive(params, Before(part, '='))
  }

  /** Exactly when no sensitive name equals the key but for ASCII case. */
  lemma KeepsExactly(params: seq<string>, part: string)
    ensures Keeps(params, part) <==> forall p :: p in params ==> Lower(p) != Lower(Before(part, '='))
  {
    if !Keeps(params, part) {
      var p :| p in params && SameIgnoringCase(p, Before(part, '='));
      assert Lower(p) == Lower(Before(part, '='));
    } else {
      forall p | p in params
        ensures Lower(p) != Lower(Before(part, '='))
      {
        assert !SameIgnoringCase(p, Before(part, '='));
      }
    }
  }

  function Filter<T>(keep: T -> bool, items: seq<T>): (kept: seq<T>)
    ensures forall i :: 0 <= i < |kept| ==> kept[i] in items && keep(kept[i])
  {
    if items == [] then []
    else
      var before, last := Filter(keep, items[..|items| - 1]), items[|items| - 1];
      if keep(last) then before + [last] else before
  }

  function Kept(params: seq<string>, query: string): seq<string> {
    Filter(part => Keeps(params, part), Split(query, '&'))
  }

  function RedactedQuery(query: Option<string>, params: seq<string>): Option<string> {
    if query.None? then None
    else
      var kept := Kept(params, query.value);
      if kept == [] then None else Some(Join(kept, '&'))
  }

  // ----- filtering, said by position -----------------------------------------------------------

  /** The items at these positions. */
  predicate At<T(==)>(items: seq<T>, kept: seq<T>, positions: seq<nat>) {
    |positions| == |kept| && forall k :: 0 <= k < |kept| ==> positions[k] < |items| && kept[k] == items[positions[k]]
  }

  /** `kept` holds, in order, exactly the items that satisfy `keep`. */
  predicate FilteredAt<T(==)>(keep: T -> bool, items: seq<T>, kept: seq<T>, positions: seq<nat>) {
    && At(items, kept, positions)
    && Increasing(positions)
    && forall i :: 0 <= i < |items| ==> (keep(items[i]) <==> i in positions)
  }

  lemma {:induction false} FilterPositions<T>(keep: T -> bool, items: seq<T>) returns (positions: seq<nat>)
    ensures FilteredAt(keep, items, Filter(keep, items), positions)
  {
    if items == [] {
      return [];
    }
    var last := |items| - 1;
    positions := FilterPositions(keep, items[..last]);
    if keep(items[last]) {
      AppendPosition(keep, items, Filter(keep, items[..last]), positions);
      positions := positions + [last];
    } else {
      SkipPosition(keep, items, Filter(keep, items[..last]), positions);
    }
  }

  lemma AppendPosition<T>(keep: T -> bool, items: seq<T>, kept: seq<T>, positions: seq<nat>)
    requires items != [] && keep(items[|items| - 1])
    requires FilteredAt(keep, items[..|items| - 1], kept, positions)
    ensures FilteredAt(keep, items, kept + [items[|items| - 1]], positions + [|items| - 1])
  {
    var last := |items| - 1;
    forall i | 0 <= i < |items|
      ensures keep(items[i]) <==> i in positions + [last]
    {
      if i < last {
        assert items[..last][i] == items[i];
      }
    }
  }

  lemma SkipPosition<T>(keep: T -> bool, items: seq<T>, kept: seq<T>, positions: seq<nat>)
    requires items != [] && !keep(items[|items| - 1])
    requires FilteredAt(keep, items[..|items| - 1], kept, positions)
    ensures FilteredAt(keep, items, kept, positions)
  {
    var last := |items| - 1;
    forall i | 0 <= i < |items|
      ensures keep(items[i]) <==> i in positions
    {
      if i < last {
        assert items[..last][i] == items[i];
      }
    }
  }

  lemma {:induction false} FilterAll<T>(keep: T -> bool, items: seq<T>)
    requires forall i :: 0 <= i < |items| ==> keep(items[i])
    ensures Filter(keep, items) == items
  {
    if items != [] {
      FilterAll(keep, items[..|items| - 1]);
    }
  }

  lemma {:induction false} FilterNothing<T>(keep: T -> bool, items: seq<T>)
    ensures Filter(keep, items) == [] <==> forall i :: 0 <= i < |items| ==> !keep(items[i])
  {
    if items != [] {
      FilterNothing(keep, items[..|items| - 1]);
    }
  }

  // ----- redaction ---------------------------------------------------------------------------------

  lemma SplitOfRedacted(query: Option<string>, params: seq<string>)
    requires RedactedQuery(query, params).Some?
    ensures Split(RedactedQuery(query, params).value, '&') == Kept(params, query.value)
  {
    var kept := Kept(params, query.value);
    forall i | 0 <= i < |kept|
      ensures '&' !in kept[i]
    {
      var parts := Split(query.value, '&');
      var j :| 0 <= j < |parts| && parts[j] == kept[i];
    }
    SplitJoin(kept, '&');
  }

  /** The output's parts are exactly the kept parts of the input, in order, and there is no
      output exactly when there was no query or every part was sensitive. */
  lemma RedactionExact(query: Option<string>, params: seq<string>) returns (positions: seq<nat>)
    ensures RedactedQuery(query, params).None? <==>
      query.None? || forall i :: 0 <= i < |Split(query.value, '&')| ==> !Keeps(params, Split(query.value, '&')[i])
    ensures RedactedQuery(query, params).Some? ==>
      FilteredAt(part => Keeps(params, part), Split(query.value, '&'),
                 Split(RedactedQuery(query, params).value, '&'), positions)
  {
    positions := [];
    if query.Some? {
      var keep := part => Keeps(params, part);
      FilterNothing(keep, Split(query.value, '&'));
      positions := FilterPositions(keep, Split(query.value, '&'));
      if RedactedQuery(query, params).Some? {
        SplitOfRedacted(query, params);
      }
    }
  }

  /** No part of the output has a sensitive key in any ASCII case, and redacting again
      changes nothing. */
  lemma RedactionIdempotent(query: Option<string>, params: seq<string>)
    ensures RedactedQuery(RedactedQuery(query, params), params) == RedactedQuery(query, params)
    ensures RedactedQuery(query, params).Some? ==>
      forall part, p :: part in Split(RedactedQuery(query, params).value, '&') && p in params ==>
        Lower(Before(part, '=')) != Lower(p)
  {
    if RedactedQuery(query, params).Some? {
      SplitOfRedacted(query, params);
      var keep := part => Keeps(params, part);
      FilterAll(keep, Kept(params, query.value));
      forall part, p | part in Kept(params, query.value) && p in params
        ensures Lower(Before(part, '=')) != Lower(p)
      {
        assert Keeps(params, part);
        assert !SameIgnoringCase(p, Before(part, '='));
      }
    }
  }
}
