/** The string operations the gateway leans on: ASCII case, trimming, splitting on a
    character and joining again. */
module Text {

  function LowerChar(c: char): char {
    if 'A' <= c <= 'Z' then (c as int + 32) as char else c
  }

  /** to_ascii_lowercase */
  function Lower(s: string): (r: string)
    ensures |r| == |s|
    ensures forall i :: 0 <= i < |s| ==> r[i] == LowerChar(s[i])
  {
    if s == "" then "" else [LowerChar(s[0])] + Lower(s[1..])
  }

  lemma LowerIdempotent(s: string)
    ensures Lower(Lower(s)) == Lower(s)
  {
  }

  /** Exactly the capital letters change, each to its small one. */
  lemma LowerByCode(c: char)
    ensures 65 <= c as int <= 90 ==> LowerChar(c) as int == c as int + 32
    ensures !(65 <= c as int <= 90) ==> LowerChar(c) == c
  {
  }

  /** eq_ignore_ascii_case */
  predicate SameIgnoringCase(a: string, b: string) {
    Lower(a) == Lower(b)
  }

  /** Unicode White_Space. */
  predicate IsWhitespace(c: char) {
    || '\t' <= c <= '\r' || c == ' ' || c == '\U{0085}' || c == '\U{00A0}' || c == '\U{1680}'
    || '\U{2000}' <= c <= '\U{200A}' || c == '\U{2028}' || c == '\U{2029}' || c == '\U{202F}'
    || c == '\U{205F}' || c == '\U{3000}'
  }

  predicate Trimmed(s: string) {
    s != "" ==> !IsWhitespace(s[0]) && !IsWhitespace(s[|s| - 1])
  }

  function Trim(s: string): (r: string)
    ensures Trimmed(r) && |r| <= |s|
    ensures Trimmed(s) ==> r == s
  {
    if s == "" then ""
    else if IsWhitespace(s[0]) then Trim(s[1..])
    else if IsWhitespace(s[|s| - 1]) then Trim(s[..|s| - 1])
    else s
  }

  /** Trimming takes off whitespace at both ends and nothing else. */
  lemma {:induction false} TrimExact(s: string) returns (from: nat, to: nat)
    ensures from <= to <= |s| && Trim(s) == s[from..to]
    ensures forall i :: 0 <= i < from || to <= i < |s| ==> IsWhitespace(s[i])
    decreases |s|
  {
    if s == "" || Trimmed(s) {
      return 0, |s|;
    } else if IsWhitespace(s[0]) {
      from, to := TrimExact(s[1..]);
      assert s[1..][from..to] == s[from + 1..to + 1];
      forall i | 0 <= i < from + 1 || to + 1 <= i < |s|
        ensures IsWhitespace(s[i])
      {
        assert i > 0 ==> s[i] == s[1..][i - 1];
      }
      return from + 1, to + 1;
    } else {
      from, to := TrimExact(s[..|s| - 1]);
      assert s[..|s| - 1][from..to] == s[from..to];
      forall i | 0 <= i < from || to <= i < |s|
        ensures IsWhitespace(s[i])
      {
        assert i < |s| - 1 ==> s[i] == s[..|s| - 1][i];
      }
    }
  }

  /** Among ASCII characters exactly blank, tab, line feed, vertical tab, form feed and carriage return
      are whitespace. */
  lemma AsciiWhitespace(c: char)
    requires c as int < 128
    ensures IsWhitespace(c) <==> c as int == 32 || 9 <= c as int <= 13
  {
  }

  /** The part before the first `sep`, or all of it. */
  function Before(s: string, sep: char): (r: string)
    ensures sep !in r && r <= s
    ensures sep !in s ==> r == s
    ensures sep in s ==> r + [sep] <= s
  {
    if s == "" || s[0] == sep then ""
    else
      var rest := Before(s[1..], sep);
      assert s == [s[0]] + s[1..];
      [s[0]] + rest
  }

  /** str::split on one character: never empty, parts hold no separator. */
  function Split(s: string, sep: char): (parts: seq<string>)
    ensures parts != []
    ensures forall i :: 0 <= i < |parts| ==> sep !in parts[i]
  {
    if s == "" then [""]
    else if s[0] == sep then [""] + Split(s[1..], sep)
    else
      var rest := Split(s[1..], sep);
      [[s[0]] + rest[0]] + rest[1..]
  }

  function Join(parts: seq<string>, sep: char): string {
    if parts == [] then "" else if |parts| == 1 then parts[0] else parts[0] + [sep] + Join(parts[1..], sep)
  }

  lemma {:induction false} JoinSplit(s: string, sep: char)
    ensures Join(Split(s, sep), sep) == s
  {
    if s == "" {
    } else if s[0] == sep {
      JoinSplit(s[1..], sep);
      assert Split(s, sep)[1..] == Split(s[1..], sep);
    } else {
      JoinSplit(s[1..], sep);
      var rest := Split(s[1..], sep);
      assert Split(s, sep)[1..] == rest[1..];
    }
  }

  /** Splitting at a known separator. */
  lemma {:induction false} SplitAt(head: string, tail: string, sep: char)
    requires sep !in head
    ensures Split(head + [sep] + tail, sep) == [head] + Split(tail, sep)
  {
    var s := head + [sep] + tail;
    if head == "" {
      assert s[1..] == tail;
    } else {
      SplitAt(head[1..], tail, sep);
      assert s[1..] == head[1..] + [sep] + tail;
      assert [head[0]] + head[1..] == head;
    }
  }

  lemma {:induction false} SplitWhole(s: string, sep: char)
    requires sep !in s
    ensures Split(s, sep) == [s]
  {
    if s != "" {
      SplitWhole(s[1..], sep);
      assert [s[0]] + s[1..] == s;
    }
  }

  lemma {:induction false} SplitJoin(parts: seq<string>, sep: char)
    requires parts != []
    requires forall i :: 0 <= i < |parts| ==> sep !in parts[i]
    ensures Split(Join(parts, sep), sep) == parts
  {
    if |parts| == 1 {
      SplitWhole(parts[0], sep);
    } else {
      SplitJoin(parts[1..], sep);
      SplitAt(parts[0], Join(parts[1..], sep), sep);
    }
  }

  /** The first part runs up to the first separator. */
  lemma {:induction false} SplitFirst(s: string, sep: char)
    ensures s == Split(s, sep)[0] || Split(s, sep)[0] + [sep] <= s
    ensures |Split(s, sep)| == 1 <==> sep !in s
  {
    if s != "" && s[0] != sep {
      SplitFirst(s[1..], sep);
    }
  }
}
