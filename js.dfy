/**
 * Models of the JavaScript built-ins that the application's logic relies on:
 * `trim`, `includes`, `indexOf`, `lastIndexOf`, `substring`, `split` on one
 * character, the default `Array.prototype.sort` order on strings, and the
 * decimal rendering of a non-negative integer in a template literal.
 * Strings are sequences of code points.
 */
module Js {

  datatype Option<T> = None | Some(value: T)

  // ---------------------------------------------------------------------------
  // JSON values and truthiness
  // ---------------------------------------------------------------------------

  /** A value `JSON.parse` can produce; numbers are kept as integers. */
  datatype Json =
    | JNull
    | JBool(b: bool)
    | JNumber(n: int)
    | JString(s: string)
    | JArray(items: seq<Json>)
    | JObject(fields: map<string, Json>)

  /** Whether a value (None standing for `undefined`) counts as true for `||`, `&&` and `!`. */
  predicate Truthy(v: Option<Json>) {
    match v
    case None => false
    case Some(JNull) => false
    case Some(JBool(b)) => b
    case Some(JNumber(n)) => n != 0
    case Some(JString(s)) => s != ""
    case Some(JArray(_)) => true
    case Some(JObject(_)) => true
  }

  // ---------------------------------------------------------------------------
  // Whitespace and trimming
  // ---------------------------------------------------------------------------

  /** The WhiteSpace and LineTerminator code points: what `\s` matches and `trim` removes. */
  predicate IsSpace(c: char) {
    || c == ' ' || c == '\t' || c == '\n' || c == '\r' || c == '\U{000B}' || c == '\U{000C}'
    || c == '\U{00A0}' || c == '\U{1680}' || ('\U{2000}' <= c <= '\U{200A}')
    || c == '\U{2028}' || c == '\U{2029}' || c == '\U{202F}' || c == '\U{205F}'
    || c == '\U{3000}' || c == '\U{FEFF}'
  }

  /** The code points that end a line: what the regular-expression `.` refuses. */
  predicate IsLineTerminator(c: char) {
    c == '\n' || c == '\r' || c == '\U{2028}' || c == '\U{2029}'
  }

  predicate IsBlank(s: string) {
    forall i :: 0 <= i < |s| ==> IsSpace(s[i])
  }

  /** `s.trimStart()`: drops the whitespace prefix and nothing else. */
  function TrimStart(s: string): (r: string)
    ensures |r| <= |s| && r == s[|s| - |r|..]
    ensures r == [] || !IsSpace(r[0])
    ensures IsBlank(s[..|s| - |r|])
    decreases |s|
  {
    if |s| > 0 && IsSpace(s[0]) then TrimStart(s[1..]) else s
  }

  /** `s.trimEnd()`: drops the whitespace suffix and nothing else. */
  function TrimEnd(s: string): (r: string)
    ensures |r| <= |s| && r == s[..|r|]
    ensures r == [] || !IsSpace(r[|r| - 1])
    ensures IsBlank(s[|r|..])
    decreases |s|
  {
    if |s| > 0 && IsSpace(s[|s| - 1]) then
      var init := s[..|s| - 1];
      var r := TrimEnd(init);
      assert forall i :: |r| <= i < |init| ==> s[i] == init[|r|..][i - |r|];
      r
    else s
  }

  /** `s.trim()`: no longer than the text, and neither end of a non-empty result is whitespace. */
  function Trim(s: string): (r: string)
    ensures |r| <= |s|
    ensures r == [] || (!IsSpace(r[0]) && !IsSpace(r[|r| - 1]))
  {
    TrimEnd(TrimStart(s))
  }

  lemma BlankConcat(a: string, b: string)
    requires IsBlank(a) && IsBlank(b)
    ensures IsBlank(a + b)
  {
    forall i | 0 <= i < |a + b| ensures IsSpace((a + b)[i]) {
      if i < |a| { assert (a + b)[i] == a[i]; } else { assert (a + b)[i] == b[i - |a|]; }
    }
  }

  /** Leading whitespace of a concatenation comes from the first part unless that part is all whitespace. */
  lemma {:induction false} TrimStartAppend(a: string, b: string)
    ensures !IsBlank(a) ==> TrimStart(a + b) == TrimStart(a) + b
    ensures IsBlank(a) ==> TrimStart(a + b) == TrimStart(b)
    decreases |a|
  {
    if |a| == 0 {
      assert a + b == b;
    } else {
      var ab := a + b;
      assert ab[0] == a[0];
      if IsSpace(a[0]) {
        assert ab[1..] == a[1..] + b;
        TrimStartAppend(a[1..], b);
        BlankAfterSpace(a);
      } else {
        assert !IsBlank(a);
      }
    }
  }

  lemma BlankAfterSpace(a: string)
    requires |a| > 0 && IsSpace(a[0])
    ensures IsBlank(a) <==> IsBlank(a[1..])
  {
    assert forall i :: 1 <= i < |a| ==> a[i] == a[1..][i - 1];
  }

  /** `trimStart` removes everything there is to remove in one go. */
  lemma TrimStartAgain(s: string)
    ensures TrimStart(TrimStart(s)) == TrimStart(s)
  {
  }

  /** Trailing whitespace appended to a string is removed by `trimEnd`. */
  lemma {:induction false} TrimEndAppendBlank(a: string, b: string)
    requires IsBlank(b)
    ensures TrimEnd(a + b) == TrimEnd(a)
    decreases |b|
  {
    if |b| == 0 {
      assert a + b == a;
    } else {
      var c := a + b;
      assert c[|c| - 1] == b[|b| - 1];
      assert c[..|c| - 1] == a + b[..|b| - 1];
      TrimEndAppendBlank(a, b[..|b| - 1]);
    }
  }

  /** Whitespace appended once the leading whitespace is gone makes no difference to `trim`. */
  lemma TrimBlankTail(s: string, b: string)
    requires !IsBlank(s) && IsBlank(b)
    ensures Trim(TrimStart(s) + b) == Trim(s)
  {
    var t := TrimStart(s);
    TrimEmptyIffBlank(s);
    assert t != [] && !IsSpace(t[0]);
    assert !IsBlank(t);
    TrimStartAppend(t, b);
    TrimStartAgain(s);
    TrimEndAppendBlank(t, b);
  }

  lemma NewlineIsBlank()
    ensures IsBlank("\n")
  {
    assert "\n"[0] == '\n';
  }

  /** A string trims to "" exactly when every code point of it is whitespace. */
  lemma TrimEmptyIffBlank(s: string)
    ensures Trim(s) == [] <==> IsBlank(s)
  {
    var t := TrimStart(s);
    if Trim(s) == [] {
      assert t[0..] == t;
      assert s == s[..|s| - |t|] + t;
      BlankConcat(s[..|s| - |t|], t);
    } else {
      assert t != [] && !IsSpace(t[0]);
      assert s[|s| - |t|] == t[0];
    }
  }

  // ---------------------------------------------------------------------------
  // Searching
  // ---------------------------------------------------------------------------

  /** `s.endsWith(suffix)`; `s.startsWith(prefix)` is Dafny's own `prefix <= s`. */
  predicate EndsWith(s: string, suffix: string) {
    |suffix| <= |s| && s[|s| - |suffix|..] == suffix
  }

  /** `h.includes(n)`: `n` occurs somewhere in `h` (the empty string occurs everywhere). */
  predicate Includes(h: string, n: string)
    decreases |h|
  {
    n <= h || (|h| > 0 && Includes(h[1..], n))
  }

  lemma {:induction false} IncludesAt(h: string, n: string, i: nat)
    requires i <= |h| && n <= h[i..]
    ensures Includes(h, n)
    decreases i
  {
    if i > 0 {
      assert h[1..][i - 1..] == h[i..];
      IncludesAt(h[1..], n, i - 1);
    }
  }

  /** Every code point of an included needle occurs in the haystack. */
  lemma {:induction false} IncludedCharsOccur(h: string, n: string, c: char)
    requires Includes(h, n) && c in n
    ensures c in h
    decreases |h|
  {
    if n <= h {
      var k :| 0 <= k < |n| && n[k] == c;
      assert h[k] == c;
    } else {
      IncludedCharsOccur(h[1..], n, c);
      var k :| 0 <= k < |h[1..]| && h[1..][k] == c;
      assert h[k + 1] == c;
    }
  }

  /** A needle holding a code point the haystack lacks is not included in it. */
  lemma MissingCharExcludes(h: string, n: string, c: char)
    requires c in n && c !in h
    ensures !Includes(h, n)
  {
    if Includes(h, n) {
      IncludedCharsOccur(h, n, c);
    }
  }

  /** The first position at or after `from` that holds `c`, or -1. */
  function IndexFrom(s: string, c: char, from: nat): (r: int)
    requires from <= |s|
    ensures r == -1 || from <= r < |s|
    ensures r >= 0 ==> s[r] == c && forall k :: from <= k < r ==> s[k] != c
    ensures r == -1 ==> forall k :: from <= k < |s| ==> s[k] != c
    decreases |s| - from
  {
    if from == |s| then -1
    else if s[from] == c then from
    else IndexFrom(s, c, from + 1)
  }

  /** `s.indexOf(c)`: the first position of `c`, or -1. */
  function IndexOf(s: string, c: char): (r: int)
    ensures -1 <= r < |s|
    ensures r == -1 <==> c !in s
    ensures r >= 0 ==> s[r] == c && forall k :: 0 <= k < r ==> s[k] != c
  {
    IndexFrom(s, c, 0)
  }

  /** The last position before `n` that holds `c`, or -1. */
  function LastIndexBefore(s: string, c: char, n: nat): (r: int)
    requires n <= |s|
    ensures -1 <= r < n
    ensures r >= 0 ==> s[r] == c && forall k :: r < k < n ==> s[k] != c
    ensures r == -1 ==> forall k :: 0 <= k < n ==> s[k] != c
    decreases n
  {
    if n == 0 then -1
    else if s[n - 1] == c then n - 1
    else LastIndexBefore(s, c, n - 1)
  }

  /** `s.lastIndexOf(c)`: the last position of `c`, or -1. */
  function LastIndexOf(s: string, c: char): (r: int)
    ensures -1 <= r < |s|
    ensures r == -1 <==> c !in s
    ensures r >= 0 ==> s[r] == c && forall k :: r < k < |s| ==> s[k] != c
  {
    LastIndexBefore(s, c, |s|)
  }

  function Clamp(x: int, len: nat): nat {
    if x < 0 then 0 else if x > len then len else x
  }

  /**
   * `s.substring(start, end)`: both bounds are clamped into [0, |s|] and, when
   * the start lies after the end, the two are swapped.
   */
  function Substring(s: string, start: int, end: int): (r: string)
    ensures |r| <= |s|
    ensures 0 <= start <= end <= |s| ==> r == s[start..end]
    ensures 0 <= end <= start <= |s| ==> r == s[end..start]
    ensures start <= 0 && |s| <= end ==> r == s
  {
    var a, b := Clamp(start, |s|), Clamp(end, |s|);
    if a <= b then s[a..b] else s[b..a]
  }

  // ---------------------------------------------------------------------------
  // Splitting on one character
  // ---------------------------------------------------------------------------

  /** The inverse of `Split`: the pieces joined with `sep` between them. */
  function Join(parts: seq<string>, sep: char): string
    decreases |parts|
  {
    if |parts| == 0 then ""
    else if |parts| == 1 then parts[0]
    else parts[0] + [sep] + Join(parts[1..], sep)
  }

  /** `s.split(sep)` for a one-character separator. */
  function Split(s: string, sep: char): (r: seq<string>)
    ensures |r| >= 1
    ensures forall i :: 0 <= i < |r| ==> sep !in r[i]
    decreases |s|
  {
    if sep !in s then [s]
    else
      var k := IndexOf(s, sep);
      [s[..k]] + Split(s[k + 1..], sep)
  }

  lemma JoinCons(x: string, rest: seq<string>, sep: char)
    requires |rest| >= 1
    ensures Join([x] + rest, sep) == x + [sep] + Join(rest, sep)
  {
    assert ([x] + rest)[1..] == rest;
  }

  /** Splitting and joining again gives back the original string. */
  lemma {:induction false} JoinSplit(s: string, sep: char)
    ensures Join(Split(s, sep), sep) == s
    decreases |s|
  {
    if sep in s {
      var k := IndexOf(s, sep);
      var rest := s[k + 1..];
      var pieces := Split(rest, sep);
      assert Split(s, sep) == [s[..k]] + pieces;
      JoinSplit(rest, sep);
      JoinCons(s[..k], pieces, sep);
      assert s == s[..k] + [sep] + rest;
    }
  }

  /** Joining pieces that hold no separator and splitting again gives the pieces back. */
  lemma {:induction false} SplitJoin(parts: seq<string>, sep: char)
    requires |parts| >= 1
    requires forall i :: 0 <= i < |parts| ==> sep !in parts[i]
    ensures Split(Join(parts, sep), sep) == parts
    decreases |parts|
  {
    if |parts| == 1 {
    } else {
      var s := Join(parts, sep);
      assert s == parts[0] + [sep] + Join(parts[1..], sep);
      assert s[|parts[0]|] == sep;
      assert s[..|parts[0]|] == parts[0];
      assert IndexOf(s, sep) == |parts[0]|;
      assert s[|parts[0]| + 1..] == Join(parts[1..], sep);
      SplitJoin(parts[1..], sep);
    }
  }

  // ---------------------------------------------------------------------------
  // Decimal rendering of non-negative integers
  // ---------------------------------------------------------------------------

  function Digit(d: nat): char
    requires d < 10
  {
    (48 + d) as char
  }

  /** `${n}` for a non-negative integer n: its decimal digits. */
  function NatToString(n: nat): (r: string)
    ensures |r| >= 1 && (|r| == 1 <==> n < 10)
    ensures forall i :: 0 <= i < |r| ==> '0' <= r[i] <= '9'
    decreases n
  {
    if n < 10 then [Digit(n)] else NatToString(n / 10) + [Digit(n % 10)]
  }

  /** Distinct numbers render as distinct strings. */
  lemma {:induction false} NatToStringInjective(a: nat, b: nat)
    requires NatToString(a) == NatToString(b)
    ensures a == b
    decreases a
  {
    if a >= 10 {
      var sa, sb := NatToString(a), NatToString(b);
      assert sa[|sa| - 1] == Digit(a % 10) && sb[|sb| - 1] == Digit(b % 10);
      assert sa[..|sa| - 1] == NatToString(a / 10);
      assert sb[..|sb| - 1] == NatToString(b / 10);
      NatToStringInjective(a / 10, b / 10);
    }
  }

  /** A fixed prefix followed by distinct numbers gives distinct strings. */
  lemma PrefixedNumbersDistinct(p: string, a: nat, b: nat)
    requires a != b
    ensures p + NatToString(a) != p + NatToString(b)
  {
    if p + NatToString(a) == p + NatToString(b) {
      assert NatToString(a) == (p + NatToString(a))[|p|..];
      assert NatToString(b) == (p + NatToString(b))[|p|..];
      NatToStringInjective(a, b);
    }
  }

  // ---------------------------------------------------------------------------
  // Default sort order on strings
  // ---------------------------------------------------------------------------

  /** The default comparison of `Array.prototype.sort` on strings: code point by code point. */
  predicate LessEq(a: string, b: string)
    decreases |a|
  {
    |a| == 0 || (|b| > 0 && (a[0] < b[0] || (a[0] == b[0] && LessEq(a[1..], b[1..]))))
  }

  lemma LessEqTotal(a: string, b: string)
    ensures LessEq(a, b) || LessEq(b, a)
    decreases |a|
  {
    if |a| > 0 && |b| > 0 && a[0] == b[0] {
      LessEqTotal(a[1..], b[1..]);
    }
  }

  lemma LessEqReflexive(a: string)
    ensures LessEq(a, a)
    decreases |a|
  {
    if |a| > 0 {
      LessEqReflexive(a[1..]);
    }
  }

  lemma LessEqTransitive(a: string, b: string, c: string)
    requires LessEq(a, b) && LessEq(b, c)
    ensures LessEq(a, c)
    decreases |a|
  {
    if |a| > 0 && a[0] == b[0] && b[0] == c[0] {
      LessEqTransitive(a[1..], b[1..], c[1..]);
    }
  }

  lemma {:induction false} LessEqAntisymmetric(a: string, b: string)
    requires LessEq(a, b) && LessEq(b, a)
    ensures a == b
    decreases |a|
  {
    if |a| > 0 {
      LessEqAntisymmetric(a[1..], b[1..]);
      assert a == [a[0]] + a[1..] && b == [b[0]] + b[1..];
    }
  }

  predicate Sorted(s: seq<string>) {
    forall i, j :: 0 <= i < j < |s| ==> LessEq(s[i], s[j])
  }

  function Insert(x: string, s: seq<string>): (r: seq<string>)
    ensures multiset(r) == multiset(s) + multiset{x}
    ensures Sorted(s) ==> Sorted(r)
    decreases |s|
  {
    if |s| == 0 then [x]
    else if LessEq(x, s[0]) then
      InsertFrontSorted(x, s);
      [x] + s
    else
      var rest := Insert(x, s[1..]);
      assert s == [s[0]] + s[1..];
      LessEqTotal(x, s[0]);
      InsertBehindSorted(x, s, rest);
      [s[0]] + rest
  }

  lemma InsertFrontSorted(x: string, s: seq<string>)
    requires |s| > 0 && LessEq(x, s[0])
    ensures Sorted(s) ==> Sorted([x] + s)
  {
    if Sorted(s) {
      forall j | 0 < j < |s| ensures LessEq(x, s[j]) {
        LessEqTransitive(x, s[0], s[j]);
      }
    }
  }

  lemma InsertBehindSorted(x: string, s: seq<string>, rest: seq<string>)
    requires |s| > 0 && LessEq(s[0], x)
    requires multiset(rest) == multiset(s[1..]) + multiset{x}
    requires Sorted(s[1..]) ==> Sorted(rest)
    ensures Sorted(s) ==> Sorted([s[0]] + rest)
  {
    if Sorted(s) {
      assert Sorted(s[1..]);
      forall j | 0 <= j < |rest| ensures LessEq(s[0], rest[j]) {
        assert rest[j] in multiset(rest);
        if rest[j] != x {
          assert rest[j] in multiset(s[1..]);
          var k :| 0 <= k < |s[1..]| && s[1..][k] == rest[j];
          assert s[k + 1] == rest[j];
        }
      }
    }
  }

  /** `a.sort()` on strings: the sorted permutation of `s`. */
  function Sort(s: seq<string>): (r: seq<string>)
    ensures multiset(r) == multiset(s)
    ensures Sorted(r)
    decreases |s|
  {
    if |s| == 0 then []
    else
      assert s == [s[0]] + s[1..];
      Insert(s[0], Sort(s[1..]))
  }

  /**
   * Any two sorted permutations of the same strings are equal, so `Sort`
   * gives what every correct sorting algorithm gives.
   */
  lemma {:induction false} SortedPermutationUnique(a: seq<string>, b: seq<string>)
    requires Sorted(a) && Sorted(b) && multiset(a) == multiset(b)
    ensures a == b
    decreases |a|
  {
    assert |a| == |multiset(a)| == |multiset(b)| == |b|;
    if |a| > 0 {
      SortedHeadIsLeast(a, b[0]);
      SortedHeadIsLeast(b, a[0]);
      LessEqAntisymmetric(a[0], b[0]);
      DropHead(a);
      DropHead(b);
      SortedPermutationUnique(a[1..], b[1..]);
      assert a == [a[0]] + a[1..] && b == [b[0]] + b[1..];
    }
  }

  /** The head of a sorted sequence is below everything it holds. */
  lemma SortedHeadIsLeast(a: seq<string>, x: string)
    requires Sorted(a) && x in multiset(a)
    ensures LessEq(a[0], x)
  {
    var i :| 0 <= i < |a| && a[i] == x;
    if i == 0 {
      LessEqReflexive(x);
    }
  }

  lemma DropHead(a: seq<string>)
    requires |a| > 0
    ensures multiset(a[1..]) == multiset(a) - multiset{a[0]}
  {
    assert a == [a[0]] + a[1..];
  }

  // ---------------------------------------------------------------------------
  // Rounding
  // ---------------------------------------------------------------------------

  /**
   * `Math.round(n / d)` computed exactly on the rational n/d: the nearest
   * integer, halves rounded up (towards +infinity).
   */
  function RoundDiv(n: int, d: int): (r: int)
    requires d > 0
    ensures 2 * d * r <= 2 * n + d < 2 * d * (r + 1)
  {
    (2 * n + d) / (2 * d)
  }

  /** Only one integer lies within a half of n/d with halves going up, so `RoundDiv` is that integer. */
  lemma RoundDivUnique(n: int, d: int, k: int)
    requires d > 0
    requires 2 * d * k <= 2 * n + d < 2 * d * (k + 1)
    ensures k == RoundDiv(n, d)
  {
    var r := RoundDiv(n, d);
    if k < r {
      MulMonotone(2 * d, k + 1, r);
    } else if k > r {
      MulMonotone(2 * d, r + 1, k);
    }
  }

  /** Rounding keeps n/d within any whole-number bounds that n/d itself respects. */
  lemma RoundDivBounds(n: int, d: int, lo: int, hi: int)
    requires d > 0 && lo * d <= n <= hi * d
    ensures lo <= RoundDiv(n, d) <= hi
  {
    var r := RoundDiv(n, d);
    if r < lo {
      MulMonotone(2 * d, r + 1, lo);
    }
    if r > hi {
      MulMonotone(2 * d, hi + 1, r);
    }
  }

  /** A whole quotient is its own rounding. */
  lemma RoundDivExact(k: int, d: int)
    requires d > 0
    ensures RoundDiv(k * d, d) == k
  {
    RoundDivUnique(k * d, d, k);
  }

  lemma MulMonotone(a: int, x: int, y: int)
    requires a >= 0 && x <= y
    ensures a * x <= a * y
  {
    assert a * y - a * x == a * (y - x);
  }

  // ---------------------------------------------------------------------------
  // Array.prototype.filter
  // ---------------------------------------------------------------------------

  /** `xs.filter(keep)`: the elements that pass, in their original order. */
  function Filter<T>(xs: seq<T>, keep: T -> bool): (r: seq<T>)
    ensures |r| <= |xs|
    ensures forall i :: 0 <= i < |r| ==> r[i] in xs && keep(r[i])
    ensures forall i :: 0 <= i < |xs| && keep(xs[i]) ==> xs[i] in r
    decreases |xs|
  {
    if xs == [] then []
    else if keep(xs[0]) then [xs[0]] + Filter(xs[1..], keep)
    else Filter(xs[1..], keep)
  }

  /** `a` can be obtained from `b` by deleting elements, so its elements keep their relative order. */
  ghost predicate IsSubsequence<T>(a: seq<T>, b: seq<T>)
    decreases |b|
  {
    if a == [] then true
    else if b == [] then false
    else (a[0] == b[0] && IsSubsequence(a[1..], b[1..])) || IsSubsequence(a, b[1..])
  }

  /** What a filter keeps is in the original order. */
  lemma {:induction false} FilterIsSubsequence<T>(xs: seq<T>, keep: T -> bool)
    ensures IsSubsequence(Filter(xs, keep), xs)
    decreases |xs|
  {
    if xs != [] {
      FilterIsSubsequence(xs[1..], keep);
      var r := Filter(xs, keep);
      if keep(xs[0]) {
        assert r[0] == xs[0] && r[1..] == Filter(xs[1..], keep);
      }
    }
  }

  /** A filter that every element passes keeps everything. */
  lemma {:induction false} FilterKeepsAll<T>(xs: seq<T>, keep: T -> bool)
    requires forall i :: 0 <= i < |xs| ==> keep(xs[i])
    ensures Filter(xs, keep) == xs
    decreases |xs|
  {
    if xs != [] {
      assert keep(xs[0]);
      FilterKeepsAll(xs[1..], keep);
      assert xs == [xs[0]] + xs[1..];
    }
  }

  /** Filtering a concatenation filters each part. */
  lemma {:induction false} FilterAppend<T>(a: seq<T>, b: seq<T>, keep: T -> bool)
    ensures Filter(a + b, keep) == Filter(a, keep) + Filter(b, keep)
    decreases |a|
  {
    if a == [] {
      assert a + b == b;
    } else {
      var ab := a + b;
      assert ab[0] == a[0] && ab[1..] == a[1..] + b;
      FilterAppend(a[1..], b, keep);
      var rest := Filter(a[1..], keep) + Filter(b, keep);
      if keep(a[0]) {
        calc {
          Filter(ab, keep);
          [a[0]] + rest;
          ([a[0]] + Filter(a[1..], keep)) + Filter(b, keep);
        }
      }
    }
  }
}
