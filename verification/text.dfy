/** String helpers shared by the generator and the control channel: PHP-style
    `implode`, `str_replace`, `strtolower`, `trim` and integer rendering, each
    written on `string` (a sequence of characters, one per byte of the PHP string). */
module Text {

  datatype Option<T> = None | Some(value: T)

  /** PHP truthiness of a string: "" and "0" are falsy (a null field is modelled as ""). */
  predicate Falsy(s: string) {
    s == "" || s == "0"
  }

  predicate StartsWith(s: string, prefix: string) {
    |prefix| <= |s| && s[..|prefix|] == prefix
  }

  predicate EndsWith(s: string, suffix: string) {
    |suffix| <= |s| && s[|s| - |suffix|..] == suffix
  }

  /** `implode(sep, parts)` */
  function Join(sep: string, parts: seq<string>): string
  {
    if |parts| == 0 then ""
    else if |parts| == 1 then parts[0]
    else parts[0] + sep + Join(sep, parts[1..])
  }

  /** A join of at least three parts opens with its first two parts and closes
      with its last one. */
  lemma JoinEnds(sep: string, parts: seq<string>)
    requires |parts| >= 3
    ensures StartsWith(Join(sep, parts), parts[0] + sep + parts[1] + sep)
    ensures EndsWith(Join(sep, parts), sep + parts[|parts| - 1])
  {
    JoinOpens(sep, parts);
    var n := |parts| - 1;
    assert parts == parts[..n] + [parts[n]];
    JoinAppend(sep, parts[..n], [parts[n]]);
    var init := Join(sep, parts[..n]);
    assert (init + sep + parts[n])[|init|..] == sep + parts[n];
  }

  lemma JoinOpens(sep: string, parts: seq<string>)
    requires |parts| >= 3
    ensures Join(sep, parts) == parts[0] + sep + parts[1] + sep + Join(sep, parts[2..])
  {
    assert parts[1..][1..] == parts[2..];
  }

  /** A join of at least three parts opens with its first three parts. */
  lemma JoinOpensThree(sep: string, parts: seq<string>)
    requires |parts| >= 3
    ensures StartsWith(Join(sep, parts), parts[0] + sep + parts[1] + sep + parts[2])
  {
    JoinOpens(sep, parts);
    var rest := parts[2..];
    if |rest| > 1 {
      assert Join(sep, rest) == rest[0] + sep + Join(sep, rest[1..]);
    }
    assert StartsWith(Join(sep, rest), parts[2]);
    var open := parts[0] + sep + parts[1] + sep;
    assert (open + Join(sep, rest))[..|open + parts[2]|] == open + Join(sep, rest)[..|parts[2]|];
  }

  /** Wrapping text keeps what it starts and ends with, inside the wrapping. */
  lemma WrapKeepsEnds(pre: string, s: string, post: string, x: string, y: string)
    requires StartsWith(s, x) && EndsWith(s, y)
    ensures StartsWith(pre + s + post, pre + x) && EndsWith(pre + s + post, y + post)
  {
    assert (pre + s + post)[..|pre + x|] == pre + s[..|x|];
    assert (pre + s + post)[|pre + s + post| - |y + post|..] == s[|s| - |y|..] + post;
  }

  /** Joining two non-empty lists one after the other puts one separator
      between them. */
  lemma {:induction false} JoinAppend(sep: string, a: seq<string>, b: seq<string>)
    requires |a| > 0 && |b| > 0
    ensures Join(sep, a + b) == Join(sep, a) + sep + Join(sep, b)
    decreases |a|
  {
    if |a| > 1 {
      assert (a + b)[1..] == a[1..] + b;
      JoinAppend(sep, a[1..], b);
    }
  }

  /** The concatenation of a list of sequences, in order. */
  function Flatten<T>(xss: seq<seq<T>>): seq<T>
  {
    if |xss| == 0 then [] else Flatten(xss[..|xss| - 1]) + xss[|xss| - 1]
  }

  lemma {:induction false} FlattenAppend<T>(a: seq<seq<T>>, b: seq<seq<T>>)
    ensures Flatten(a + b) == Flatten(a) + Flatten(b)
    decreases |b|
  {
    if |b| == 0 {
      assert a + b == a;
    } else {
      var n := |b| - 1;
      assert (a + b)[..|a + b| - 1] == a + b[..n];
      FlattenAppend(a, b[..n]);
    }
  }

  /** `f` applied to every element, in order. */
  function MapSeq<A, B>(xs: seq<A>, f: A -> B): (r: seq<B>)
    ensures |r| == |xs|
    ensures forall k :: 0 <= k < |xs| ==> r[k] == f(xs[k])
  {
    seq(|xs|, k requires 0 <= k < |xs| => f(xs[k]))
  }

  lemma MapSeqAppend<A, B>(a: seq<A>, b: seq<A>, f: A -> B)
    ensures MapSeq(a + b, f) == MapSeq(a, f) + MapSeq(b, f)
  {
  }

  // ---------------------------------------------------------------------------
  // Decimal rendering of integers (PHP's int-to-string conversion)
  // ---------------------------------------------------------------------------

  predicate IsDigit(c: char) {
    '0' <= c <= '9'
  }

  function DigitChar(d: nat): (c: char)
    requires d < 10
    ensures IsDigit(c) && c as int - '0' as int == d
  {
    ('0' as int + d) as char
  }

  /** Canonical decimal digits of `n`: non-empty, digits only, no leading zero. */
  function NatToString(n: nat): (s: string)
    ensures |s| > 0
    ensures forall i :: 0 <= i < |s| ==> IsDigit(s[i])
    ensures s[0] == '0' ==> n == 0
    decreases n
  {
    if n < 10 then [DigitChar(n)] else NatToString(n / 10) + [DigitChar(n % 10)]
  }

  function DigitValue(c: char): nat
    requires IsDigit(c)
  {
    c as int - '0' as int
  }

  /** Value of a string of decimal digits. */
  function ParseNat(s: string): nat
    requires forall i :: 0 <= i < |s| ==> IsDigit(s[i])
  {
    if |s| == 0 then 0 else 10 * ParseNat(s[..|s| - 1]) + DigitValue(s[|s| - 1])
  }

  /** Reading back the rendered digits gives the number. */
  lemma {:induction false} ParseNatToString(n: nat)
    ensures ParseNat(NatToString(n)) == n
    decreases n
  {
    var s := NatToString(n);
    if n >= 10 {
      ParseNatToString(n / 10);
      assert s[..|s| - 1] == NatToString(n / 10);
    }
  }

  /** Distinct numbers render as distinct strings. */
  lemma NatToStringInjective(a: nat, b: nat)
    ensures NatToString(a) == NatToString(b) ==> a == b
  {
    if NatToString(a) == NatToString(b) {
      ParseNatToString(a);
      ParseNatToString(b);
    }
  }

  /** PHP's rendering of an integer: a minus sign before the digits of a negative value. */
  function IntToString(n: int): (s: string)
    ensures |s| > 0
    ensures n >= 0 ==> s == NatToString(n)
    ensures n < 0 ==> s[0] == '-' && s[1..] == NatToString(-n)
  {
    if n < 0 then "-" + NatToString(-n) else NatToString(n)
  }

  // ---------------------------------------------------------------------------
  // str_replace
  // ---------------------------------------------------------------------------

  /** `str_replace(pat, rep, s)` for one search string: occurrences are found from
      left to right and never overlap; an empty search string leaves `s` unchanged. */
  function ReplaceAll(s: string, pat: string, rep: string): string
    decreases |s|
  {
    if |pat| == 0 || |s| == 0 then s
    else if StartsWith(s, pat) then rep + ReplaceAll(s[|pat|..], pat, rep)
    else [s[0]] + ReplaceAll(s[1..], pat, rep)
  }

  /** One replacement step where the pattern matches. */
  lemma ReplaceAllAtMatch(pat: string, rep: string, rest: string)
    requires |pat| > 0
    ensures ReplaceAll(pat + rest, pat, rep) == rep + ReplaceAll(rest, pat, rep)
  {
    assert (pat + rest)[..|pat|] == pat;
    assert (pat + rest)[|pat|..] == rest;
  }

  /** One replacement step where the pattern does not match: the first
      character is kept. */
  lemma ReplaceAllNoMatch(c: char, rest: string, pat: string, rep: string)
    requires |pat| > 0 && !StartsWith([c] + rest, pat)
    ensures ReplaceAll([c] + rest, pat, rep) == [c] + ReplaceAll(rest, pat, rep)
  {
    assert ([c] + rest)[1..] == rest;
  }

  /** Character-wise substitution: every `c` becomes `rep`, everything else stays. */
  function SubstChar(s: string, c: char, rep: string): string
  {
    if |s| == 0 then "" else (if s[0] == c then rep else [s[0]]) + SubstChar(s[1..], c, rep)
  }

  lemma SubstCharSingle(x: char, c: char, rep: string)
    ensures SubstChar([x], c, rep) == if x == c then rep else [x]
  {
    assert [x][1..] == [];
    var head := if x == c then rep else [x];
    assert head + "" == head;
  }

  lemma {:induction false} SubstCharAppend(a: string, b: string, c: char, rep: string)
    ensures SubstChar(a + b, c, rep) == SubstChar(a, c, rep) + SubstChar(b, c, rep)
    decreases |a|
  {
    if |a| > 0 {
      assert (a + b)[1..] == a[1..] + b;
      SubstCharAppend(a[1..], b, c, rep);
    } else {
      assert a + b == b;
    }
  }

  /** Replacing a one-character search string is character-wise substitution. */
  lemma {:induction false} ReplaceCharIsSubst(s: string, c: char, rep: string)
    ensures ReplaceAll(s, [c], rep) == SubstChar(s, c, rep)
    decreases |s|
  {
    if |s| > 0 {
      ReplaceCharIsSubst(s[1..], c, rep);
      assert StartsWith(s, [c]) <==> s[0] == c;
    }
  }

  /** A search string whose first character never occurs leaves the subject unchanged. */
  lemma {:induction false} ReplaceAbsent(s: string, pat: string, rep: string)
    requires |pat| > 0
    requires forall i :: 0 <= i < |s| ==> s[i] != pat[0]
    ensures ReplaceAll(s, pat, rep) == s
    decreases |s|
  {
    if |s| > 0 {
      assert !StartsWith(s, pat) by {
        if |pat| <= |s| {
          assert s[..|pat|][0] == s[0] != pat[0];
        }
      }
      ReplaceAbsent(s[1..], pat, rep);
      assert [s[0]] + s[1..] == s;
    }
  }

  // ---------------------------------------------------------------------------
  // strtolower (ASCII)
  // ---------------------------------------------------------------------------

  predicate IsUpper(c: char) {
    'A' <= c <= 'Z'
  }

  function LowerChar(c: char): (d: char)
    ensures !IsUpper(d)
    ensures !IsUpper(c) ==> d == c
  {
    if IsUpper(c) then (c as int + 32) as char else c
  }

  /** `strtolower`: ASCII letters are lowered one by one, every other character is kept. */
  function ToLower(s: string): (r: string)
    ensures |r| == |s|
    ensures forall i :: 0 <= i < |s| ==> r[i] == LowerChar(s[i])
  {
    seq(|s|, i requires 0 <= i < |s| => LowerChar(s[i]))
  }

  /** Lowering is idempotent. */
  lemma ToLowerIdempotent(s: string)
    ensures ToLower(ToLower(s)) == ToLower(s)
  {
  }

  // ---------------------------------------------------------------------------
  // trim
  // ---------------------------------------------------------------------------

  /** The characters PHP's `trim` strips by default: space, tab, newline,
      carriage return, NUL and vertical tab. */
  predicate IsTrimmed(c: char) {
    c == ' ' || c == '\t' || c == '\n' || c == '\r' || c == '\0' || c as int == 11
  }

  function TrimLeft(s: string): string
  {
    if |s| > 0 && IsTrimmed(s[0]) then TrimLeft(s[1..]) else s
  }

  function TrimRight(s: string): string
  {
    if |s| > 0 && IsTrimmed(s[|s| - 1]) then TrimRight(s[..|s| - 1]) else s
  }

  predicate AllTrimmed(s: string) {
    forall i :: 0 <= i < |s| ==> IsTrimmed(s[i])
  }

  /** Neither end of `s` is a trimmed character. */
  predicate Tidy(s: string) {
    |s| == 0 || (!IsTrimmed(s[0]) && !IsTrimmed(s[|s| - 1]))
  }

  lemma {:induction false} TrimLeftOf(pre: string, s: string)
    requires AllTrimmed(pre)
    requires |s| == 0 || !IsTrimmed(s[0])
    ensures TrimLeft(pre + s) == s
    decreases |pre|
  {
    if |pre| > 0 {
      assert (pre + s)[1..] == pre[1..] + s;
      TrimLeftOf(pre[1..], s);
    } else {
      assert pre + s == s;
    }
  }

  lemma {:induction false} TrimRightOf(s: string, post: string)
    requires AllTrimmed(post)
    requires |s| == 0 || !IsTrimmed(s[|s| - 1])
    ensures TrimRight(s + post) == s
    decreases |post|
  {
    if |post| > 0 {
      assert (s + post)[..|s + post| - 1] == s + post[..|post| - 1];
      TrimRightOf(s, post[..|post| - 1]);
    } else {
      assert s + post == s;
    }
  }

  /** `trim`: strips the default whitespace set from both ends. */
  function Trim(s: string): string
  {
    TrimRight(TrimLeft(s))
  }

  /** `trim` removes exactly the surrounding whitespace: a tidy core wrapped in
      whitespace on either side comes back unchanged. */
  lemma TrimOfPadded(pre: string, core: string, post: string)
    requires AllTrimmed(pre) && AllTrimmed(post)
    requires Tidy(core)
    ensures Trim(pre + core + post) == core
  {
    if |core| == 0 {
      assert pre + core + post == pre + post;
      assert AllTrimmed(pre + post);
      TrimLeftAll(pre + post);
    } else {
      assert pre + core + post == pre + (core + post);
      TrimLeftOf(pre, core + post);
      TrimRightOf(core, post);
    }
  }

  lemma {:induction false} TrimLeftAll(s: string)
    requires AllTrimmed(s)
    ensures TrimLeft(s) == ""
    decreases |s|
  {
    if |s| > 0 {
      TrimLeftAll(s[1..]);
    }
  }

  /** The result of `trim` has no whitespace at either end. */
  lemma {:induction false} TrimIsTidy(s: string)
    ensures Tidy(Trim(s))
    decreases |s|
  {
    TrimLeftTidy(s);
    TrimRightTidy(TrimLeft(s));
  }

  lemma {:induction false} TrimLeftTidy(s: string)
    ensures |TrimLeft(s)| == 0 || !IsTrimmed(TrimLeft(s)[0])
    decreases |s|
  {
    if |s| > 0 && IsTrimmed(s[0]) {
      TrimLeftTidy(s[1..]);
    }
  }

  lemma {:induction false} TrimRightTidy(s: string)
    requires |s| == 0 || !IsTrimmed(s[0])
    ensures Tidy(TrimRight(s))
    decreases |s|
  {
    if |s| > 0 && IsTrimmed(s[|s| - 1]) {
      TrimRightTidy(s[..|s| - 1]);
    }
  }
}
