/**
 * The few JavaScript primitives whose semantics the handlers depend on:
 * truthiness of request values, the truncating remainder, `Math.ceil` of a
 * quotient, and the string methods the code calls (`startsWith`, `replace`,
 * `split`, `toLowerCase`, `trim`).
 */
module Js {
  import opened Wrappers

  /** A request-body, query or header value as a handler sees it: absent (`undefined`) or a string. */
  type Field = Option<string>

  /** JavaScript truthiness of a string-or-undefined value: only a present, non-empty string is truthy. */
  predicate Truthy(f: Field) {
    f.Some? && f.value != ""
  }

  /**
   * A request value applied over a stored one, as `if (x) update.x = x` and
   * `...(x && { x })` do: the new value when truthy, the old one otherwise.
   */
  function Merge(stored: Field, given: Field): (r: Field)
    ensures Truthy(given) ==> r == given
    ensures !Truthy(given) ==> r == stored
  {
    if Truthy(given) then given else stored
  }

  /** `Merge` for a field the document always holds. */
  function SetIfTruthy(stored: string, given: Field): (r: string)
    ensures Truthy(given) ==> r == given.value
    ensures !Truthy(given) ==> r == stored
  {
    if Truthy(given) then given.value else stored
  }

  /** A request value overwrites the stored one exactly when it is truthy. */
  predicate Overwrites(before: Field, after: Field, given: Field) {
    (Truthy(given) ==> after == given) && (!Truthy(given) ==> after == before)
  }

  // ---------------------------------------------------------------------------
  // Arithmetic
  // ---------------------------------------------------------------------------

  function Abs(x: int): nat {
    if x < 0 then -x else x
  }

  /**
   * JavaScript `a % b` on integers: the remainder of truncating division, whose
   * sign follows the dividend (Dafny's own `%` is Euclidean and never negative).
   */
  function Rem(a: int, b: int): (r: int)
    requires b != 0
    ensures Abs(r) < Abs(b)
    ensures a >= 0 ==> r == a % Abs(b)
    ensures a < 0 ==> r == -((-a) % Abs(b))
  {
    if a >= 0 then a % Abs(b) else -((-a) % Abs(b))
  }

  /** The truncating remainder leaves a multiple of the divisor behind. */
  lemma RemQuotient(a: int, b: int)
    requires b != 0
    ensures exists q :: a == q * b + Rem(a, b)
  {
    var m := Abs(b);
    var q := Abs(a) / m;
    assert Abs(a) == q * m + Abs(a) % m;
    if a >= 0 && b > 0 {
      assert a == q * b + Rem(a, b);
    } else if a >= 0 {
      assert a == (-q) * b + Rem(a, b);
    } else if b > 0 {
      assert a == (-q) * b + Rem(a, b);
    } else {
      assert a == q * b + Rem(a, b);
    }
  }

  /** Floor of the rational quotient `a / b`. */
  function FloorDiv(a: int, b: int): int
    requires b != 0
  {
    if b > 0 then a / b else (-a) / (-b)
  }

  /**
   * `Math.ceil(a / b)` for integers: the least integer `k` with `k >= a / b`
   * in exact rational arithmetic.
   */
  function CeilDiv(a: int, b: int): (k: int)
    requires b != 0
    ensures b > 0 ==> (k - 1) * b < a <= k * b
    ensures b < 0 ==> k * b <= a < (k - 1) * b
  {
    var k := -FloorDiv(-a, b);
    if b > 0 then
      assert (-a) / b * b <= -a < ((-a) / b + 1) * b;
      k
    else
      assert a / (-b) * (-b) <= a < (a / (-b) + 1) * (-b);
      k
  }

  // ---------------------------------------------------------------------------
  // Strings
  // ---------------------------------------------------------------------------

  /** `s.startsWith(p)`. */
  predicate StartsWith(s: string, p: string) {
    |p| <= |s| && s[..|p|] == p
  }

  /** `pat` occurs in `s` at position `i`. */
  predicate OccursAt(s: string, pat: string, i: int) {
    0 <= i && i + |pat| <= |s| && s[i..i + |pat|] == pat
  }

  /** `s.indexOf(pat, from)`, with `None` for JavaScript's `-1`. */
  function IndexOfFrom(s: string, pat: string, from: nat): (r: Option<nat>)
    ensures r.Some? ==> from <= r.value && OccursAt(s, pat, r.value)
    ensures r.Some? ==> forall j :: from <= j < r.value ==> !OccursAt(s, pat, j)
    ensures r.None? ==> forall j :: from <= j ==> !OccursAt(s, pat, j)
    decreases |s| - from
  {
    if from + |pat| > |s| then None
    else if s[from..from + |pat|] == pat then Some(from)
    else IndexOfFrom(s, pat, from + 1)
  }

  /** `s.replace(pat, rep)` with a string pattern: only the first occurrence is replaced. */
  function ReplaceFirst(s: string, pat: string, rep: string): string {
    match IndexOfFrom(s, pat, 0)
    case None => s
    case Some(i) => s[..i] + rep + s[i + |pat|..]
  }

  /** Removing the first occurrence of a prefix from `p + t` leaves `t`. */
  lemma ReplaceFirstAtStart(p: string, t: string)
    requires p != ""
    ensures ReplaceFirst(p + t, p, "") == t
  {
    assert OccursAt(p + t, p, 0) by {
      assert (p + t)[0..|p|] == p;
    }
    assert IndexOfFrom(p + t, p, 0) == Some(0);
    assert (p + t)[|p|..] == t;
  }

  /**
   * `s.replace(/pat/g, rep)` for a pattern with no regular-expression
   * metacharacters: every non-overlapping occurrence, scanned left to right.
   */
  function ReplaceAll(s: string, pat: string, rep: string): string
    requires pat != ""
    decreases |s|
  {
    if s == [] then []
    else if StartsWith(s, pat) then rep + ReplaceAll(s[|pat|..], pat, rep)
    else [s[0]] + ReplaceAll(s[1..], pat, rep)
  }

  /** A pattern that never occurs is never replaced. */
  lemma {:induction false} ReplaceAllAbsent(s: string, pat: string, rep: string)
    requires pat != ""
    requires forall i :: !OccursAt(s, pat, i)
    ensures ReplaceAll(s, pat, rep) == s
    decreases |s|
  {
    if s != [] {
      assert !StartsWith(s, pat) by {
        if |pat| <= |s| {
          assert s[..|pat|] == s[0..|pat|];
          assert !OccursAt(s, pat, 0);
        }
      }
      forall i
        ensures !OccursAt(s[1..], pat, i)
      {
        if 0 <= i && i + |pat| <= |s[1..]| {
          var shifted := s[1..][i..i + |pat|];
          var original := s[i + 1..i + 1 + |pat|];
          assert |shifted| == |original|;
          assert forall m :: 0 <= m < |shifted| ==> shifted[m] == original[m];
          assert shifted == original;
          assert !OccursAt(s, pat, i + 1);
        }
      }
      ReplaceAllAbsent(s[1..], pat, rep);
    }
  }

  /** A prefix without the pattern's first character is copied unchanged. */
  lemma {:induction false} ReplaceAllPlainPrefix(a: string, s: string, pat: string, rep: string)
    requires pat != "" && pat[0] !in a
    ensures ReplaceAll(a + s, pat, rep) == a + ReplaceAll(s, pat, rep)
    decreases |a|
  {
    if a != [] {
      assert !StartsWith(a + s, pat) by {
        if |pat| <= |a + s| {
          assert (a + s)[..|pat|][0] == a[0];
        }
      }
      assert (a + s)[1..] == a[1..] + s;
      assert ReplaceAll(a + s, pat, rep) == [a[0]] + ReplaceAll(a[1..] + s, pat, rep);
      ReplaceAllPlainPrefix(a[1..], s, pat, rep);
      assert [a[0]] + a[1..] == a;
    } else {
      assert a + s == s;
    }
  }

  /** An occurrence at the front is replaced and the search resumes after it. */
  lemma ReplaceAllHit(s: string, pat: string, rep: string)
    requires pat != ""
    ensures ReplaceAll(pat + s, pat, rep) == rep + ReplaceAll(s, pat, rep)
  {
    assert (pat + s)[..|pat|] == pat;
    assert (pat + s)[|pat|..] == s;
  }

  /** Replacing every single-character `c` by a string without `c` leaves no `c` behind. */
  lemma {:induction false} ReplaceAllRemovesChar(s: string, c: char, rep: string)
    requires c !in rep
    ensures c !in ReplaceAll(s, [c], rep)
    decreases |s|
  {
    if s != [] {
      if StartsWith(s, [c]) {
        ReplaceAllRemovesChar(s[1..], c, rep);
      } else {
        assert s[0] != c;
        ReplaceAllRemovesChar(s[1..], c, rep);
      }
    }
  }

  /** A replacement that introduces no `c` into a string without `c` leaves it without `c`. */
  lemma {:induction false} ReplaceAllKeepsCharOut(s: string, pat: string, rep: string, c: char)
    requires pat != "" && c !in s && c !in rep
    ensures c !in ReplaceAll(s, pat, rep)
    decreases |s|
  {
    if s != [] {
      if StartsWith(s, pat) {
        ReplaceAllKeepsCharOut(s[|pat|..], pat, rep, c);
      } else {
        ReplaceAllKeepsCharOut(s[1..], pat, rep, c);
      }
    }
  }

  /** `s.split(c)` for a one-character separator: the pieces between separators, in order. */
  function Split(s: string, c: char): (parts: seq<string>)
    ensures |parts| >= 1
    ensures c in s <==> |parts| >= 2
    ensures forall k :: 0 <= k < |parts| ==> c !in parts[k]
    decreases |s|
  {
    if s == [] then [""]
    else
      var rest := Split(s[1..], c);
      if s[0] == c then [""] + rest
      else [[s[0]] + rest[0]] + rest[1..]
  }

  /** Pieces joined back with the separator, the inverse of `Split`. */
  function Join(parts: seq<string>, c: char): string
    requires |parts| >= 1
  {
    if |parts| == 1 then parts[0] else parts[0] + [c] + Join(parts[1..], c)
  }

  /** Splitting and re-joining gives the original string back. */
  lemma {:induction false} JoinSplit(s: string, c: char)
    ensures Join(Split(s, c), c) == s
    decreases |s|
  {
    if s != [] {
      JoinSplit(s[1..], c);
      var rest := Split(s[1..], c);
      if s[0] != c {
        if |rest| == 1 {
        } else {
          assert Join(rest, c) == rest[0] + [c] + Join(rest[1..], c);
          assert Join([[s[0]] + rest[0]] + rest[1..], c)
              == [s[0]] + rest[0] + [c] + Join(rest[1..], c);
        }
      }
    }
  }

  /** A string without the separator splits into itself alone. */
  lemma {:induction false} SplitNoSeparator(s: string, c: char)
    requires c !in s
    ensures Split(s, c) == [s]
    decreases |s|
  {
    if s != [] {
      SplitNoSeparator(s[1..], c);
      assert s[0] != c;
      assert [s[0]] + s[1..] == s;
    }
  }

  /** A separator followed by separator-free text splits off that text as the next piece. */
  lemma {:induction false} SplitAfterSeparator(p: string, t: string, c: char)
    requires c !in p && c !in t
    ensures Split(p + [c] + t, c) == [p, t]
    decreases |p|
  {
    if p == [] {
      assert p + [c] + t == [c] + t;
      assert ([c] + t)[1..] == t;
      SplitNoSeparator(t, c);
    } else {
      assert (p + [c] + t)[1..] == p[1..] + [c] + t;
      SplitAfterSeparator(p[1..], t, c);
      assert [p[0]] + p[1..] == p;
    }
  }

  // ---------------------------------------------------------------------------
  // Length
  // ---------------------------------------------------------------------------

  /** A character outside the Basic Multilingual Plane takes a surrogate pair in UTF-16. */
  predicate Astral(ch: char) {
    ch as int >= 0x1_0000
  }

  /**
   * `s.length`: JavaScript strings are UTF-16, so a character outside the
   * Basic Multilingual Plane counts twice.
   */
  function Length(s: string): (n: nat)
    ensures |s| <= n <= 2 * |s|
    ensures n == |s| <==> forall k :: 0 <= k < |s| ==> !Astral(s[k])
    decreases |s|
  {
    if s == [] then 0 else (if Astral(s[0]) then 2 else 1) + Length(s[1..])
  }

  /** Three emoji are six code units long. */
  lemma ThreeEmoji(s: string)
    requires s == "\U{1F600}\U{1F600}\U{1F600}"
    ensures |s| == 3 && Length(s) == 6
  {
    assert Astral(s[0]) && s[1..][1..][1..] == [];
  }

  /** The characters `trim` removes: ECMAScript WhiteSpace and LineTerminator code points. */
  predicate IsSpace(ch: char) {
    || ch == '\t' || ch == '\n' || ch == '\U{B}' || ch == '\U{C}' || ch == '\r' || ch == ' '
    || ch == '\U{A0}' || ch == '\U{1680}' || ('\U{2000}' <= ch <= '\U{200A}')
    || ch == '\U{2028}' || ch == '\U{2029}' || ch == '\U{202F}' || ch == '\U{205F}'
    || ch == '\U{3000}' || ch == '\U{FEFF}'
  }

  /** `s.trimStart()`: the suffix left once leading spaces are dropped. */
  function TrimStart(s: string): (r: string)
    ensures |r| <= |s| && r == s[|s| - |r|..]
    ensures forall k :: 0 <= k < |s| - |r| ==> IsSpace(s[k])
    ensures r != [] ==> !IsSpace(r[0])
    decreases |s|
  {
    if s != [] && IsSpace(s[0]) then TrimStart(s[1..]) else s
  }

  /** `s.trimEnd()`: the prefix left once trailing spaces are dropped. */
  function TrimEnd(s: string): (r: string)
    ensures |r| <= |s| && r == s[..|r|]
    ensures forall k :: |r| <= k < |s| ==> IsSpace(s[k])
    ensures r != [] ==> !IsSpace(r[|r| - 1])
    decreases |s|
  {
    if s != [] && IsSpace(s[|s| - 1]) then TrimEnd(s[..|s| - 1]) else s
  }

  /** `s.trim()`. */
  function Trim(s: string): string {
    TrimEnd(TrimStart(s))
  }

  /** Trimming leaves nothing exactly when the string is all spaces. */
  lemma TrimEmptyIffBlank(s: string)
    ensures Trim(s) == "" <==> forall k :: 0 <= k < |s| ==> IsSpace(s[k])
  {
    var t := TrimStart(s);
    if Trim(s) == "" {
      assert t == [];
    }
    if Trim(s) != "" {
      var k := |s| - |t|;
      assert t[0] == s[k];
    }
  }

  /** ASCII letter case mapping; other characters are left as they are. */
  function LowerChar(ch: char): char {
    if 'A' <= ch <= 'Z' then (ch as int - 'A' as int + 'a' as int) as char else ch
  }

  /** `s.toLowerCase()` restricted to ASCII letters. */
  function ToLower(s: string): (r: string)
    ensures |r| == |s|
    ensures forall k :: 0 <= k < |s| ==> r[k] == LowerChar(s[k])
  {
    seq(|s|, k requires 0 <= k < |s| => LowerChar(s[k]))
  }

  // ---------------------------------------------------------------------------
  // Numbers as text
  // ---------------------------------------------------------------------------

  predicate IsDigit(ch: char) {
    '0' <= ch <= '9'
  }

  predicate AllDigits(s: string) {
    forall k :: 0 <= k < |s| ==> IsDigit(s[k])
  }

  function Digit(d: nat): (ch: char)
    requires d < 10
    ensures IsDigit(ch)
  {
    ('0' as int + d) as char
  }

  /** The decimal digits of `n`, as a template literal `${n}` prints it. */
  function DecimalString(n: nat): (s: string)
    ensures s != "" && AllDigits(s)
    decreases n
  {
    if n < 10 then [Digit(n)] else DecimalString(n / 10) + [Digit(n % 10)]
  }

  /** The value of a string of decimal digits; the empty string is 0. */
  function DigitsValue(s: string): nat
    requires AllDigits(s)
    decreases |s|
  {
    if s == [] then 0 else DigitsValue(s[..|s| - 1]) * 10 + (s[|s| - 1] as int - '0' as int)
  }

  /**
   * `Number(s)` for the strings a form sends: surrounding spaces are ignored,
   * a blank string is 0 and a run of decimal digits is its value. Every other
   * string is read as `NaN`, written `None`.
   */
  function NumberOf(s: string): (r: Option<int>)
    ensures r.Some? ==> r.value >= 0
  {
    var t := Trim(s);
    if AllDigits(t) then Some(DigitsValue(t)) else None
  }

  /** A string of digits has no surrounding spaces to trim. */
  lemma TrimDigits(s: string)
    requires s != "" && AllDigits(s)
    ensures Trim(s) == s
  {
    assert !IsSpace(s[0]) && !IsSpace(s[|s| - 1]);
    assert TrimStart(s) == s;
  }

  /** Printing a number in decimal and reading it back gives the number. */
  lemma {:induction false} NumberOfDecimal(n: nat)
    ensures NumberOf(DecimalString(n)) == Some(n)
  {
    TrimDigits(DecimalString(n));
    DigitsValueDecimal(n);
  }

  lemma {:induction false} DigitsValueDecimal(n: nat)
    ensures DigitsValue(DecimalString(n)) == n
    decreases n
  {
    if n >= 10 {
      var p := DecimalString(n / 10);
      var s := p + [Digit(n % 10)];
      assert s[..|s| - 1] == p;
      DigitsValueDecimal(n / 10);
    }
  }
}
