/** `_cleanUpString`: the only escaping applied to free-text station fields
    (name, description, URL) before they are placed inside a double-quoted
    literal of the generated script. */
module Sanitize {
  import opened Text

  /** Characters that would end or break a one-line double-quoted literal. */
  predicate Breaking(c: char) {
    c == '"' || c == '\n' || c == '\r'
  }

  predicate SafeLiteral(s: string) {
    forall i :: 0 <= i < |s| ==> !Breaking(s[i])
  }

  /** Reference definition, one character at a time: a double quote becomes a
      single quote, newline and carriage return disappear, all else is kept. */
  function CleanChar(c: char): string
  {
    if c == '"' then "'" else if c == '\n' || c == '\r' then "" else [c]
  }

  function CleanSpec(s: string): string
  {
    if |s| == 0 then "" else CleanChar(s[0]) + CleanSpec(s[1..])
  }

  /** `_cleanUpString` as written: three `str_replace` passes, in the order of the search array. */
  function CleanUpString(s: string): (r: string)
    ensures r == CleanSpec(s)
    ensures SafeLiteral(r)
  {
    ThreePassesAreCharwise(s);
    CleanSpecSafe(s);
    ReplaceAll(ReplaceAll(ReplaceAll(s, "\"", "'"), "\n", ""), "\r", "")
  }

  lemma {:induction false} CleanSpecSafe(s: string)
    ensures SafeLiteral(CleanSpec(s))
    decreases |s|
  {
    if |s| > 0 {
      CleanSpecSafe(s[1..]);
    }
  }

  lemma {:induction false} ThreePassesAreCharwise(s: string)
    ensures ReplaceAll(ReplaceAll(ReplaceAll(s, "\"", "'"), "\n", ""), "\r", "") == CleanSpec(s)
  {
    var a := ReplaceAll(s, "\"", "'");
    ReplaceCharIsSubst(s, '"', "'");
    var b := ReplaceAll(a, "\n", "");
    ReplaceCharIsSubst(a, '\n', "");
    ReplaceCharIsSubst(b, '\r', "");
    SubstThreeIsClean(s);
  }

  /** The three passes applied to a single character give its cleaned form. */
  lemma SubstThreeChar(x: char)
    ensures SubstChar(SubstChar(SubstChar([x], '"', "'"), '\n', ""), '\r', "") == CleanChar(x)
  {
    SubstCharSingle(x, '"', "'");
    if x == '"' {
      SubstCharSingle('\'', '\n', "");
      SubstCharSingle('\'', '\r', "");
    } else {
      SubstCharSingle(x, '\n', "");
      if x != '\n' {
        SubstCharSingle(x, '\r', "");
      }
    }
  }

  lemma {:induction false} SubstThreeIsClean(s: string)
    ensures SubstChar(SubstChar(SubstChar(s, '"', "'"), '\n', ""), '\r', "") == CleanSpec(s)
    decreases |s|
  {
    if |s| > 0 {
      var x := s[0];
      var t := s[1..];
      assert s == [x] + t;
      SubstCharAppend([x], t, '"', "'");
      var a1 := SubstChar([x], '"', "'");
      var a2 := SubstChar(t, '"', "'");
      SubstCharAppend(a1, a2, '\n', "");
      var b1 := SubstChar(a1, '\n', "");
      var b2 := SubstChar(a2, '\n', "");
      SubstCharAppend(b1, b2, '\r', "");
      SubstThreeChar(x);
      SubstThreeIsClean(t);
    }
  }

  lemma {:induction false} CleanSpecAppend(a: string, b: string)
    ensures CleanSpec(a + b) == CleanSpec(a) + CleanSpec(b)
    decreases |a|
  {
    if |a| > 0 {
      assert (a + b)[1..] == a[1..] + b;
      CleanSpecAppend(a[1..], b);
    } else {
      assert a + b == b;
    }
  }

  /** A string with nothing to clean passes through unchanged. */
  lemma {:induction false} CleanUpFixesSafe(s: string)
    requires SafeLiteral(s)
    ensures CleanUpString(s) == s
    decreases |s|
  {
    if |s| > 0 {
      CleanUpFixesSafe(s[1..]);
      assert [s[0]] + s[1..] == s;
    }
  }

  /** Cleaning twice is cleaning once. */
  lemma CleanUpIdempotent(s: string)
    ensures CleanUpString(CleanUpString(s)) == CleanUpString(s)
  {
    CleanUpFixesSafe(CleanUpString(s));
  }

  /** Only newline and carriage-return characters shorten the text: every other
      character, the double quote included, keeps its place. */
  function DroppedCount(s: string): nat
  {
    if |s| == 0 then 0 else (if s[0] == '\n' || s[0] == '\r' then 1 else 0) + DroppedCount(s[1..])
  }

  lemma {:induction false} CleanUpLength(s: string)
    ensures |CleanUpString(s)| == |s| - DroppedCount(s)
    decreases |s|
  {
    if |s| > 0 {
      CleanUpLength(s[1..]);
    }
  }

  /** Cleaning distributes over concatenation, so each character is handled on
      its own and the survivors keep their order. */
  lemma CleanUpAppend(a: string, b: string)
    ensures CleanUpString(a + b) == CleanUpString(a) + CleanUpString(b)
  {
    CleanSpecAppend(a, b);
  }
}
