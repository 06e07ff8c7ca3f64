/**
 * Text operations shared by the model: ordinal substring search and
 * replacement (C#'s `IndexOf`/`Contains`/`Replace`, Python's `in`/`replace`),
 * Python's `split`/`join`/`strip`, ASCII case mapping and the code-point
 * lexicographic order Python uses to compare strings.
 */
module Strings {

  /** `pat` occurs in `s` starting at index `i`. */
  predicate OccursAt(s: string, pat: string, i: int) {
    0 <= i && i + |pat| <= |s| && s[i..i + |pat|] == pat
  }

  /** First index `>= k` at which `pat` occurs in `s`, or -1. */
  function IndexFrom(s: string, pat: string, k: nat): (r: int)
    requires k <= |s|
    ensures r == -1 || (k <= r && OccursAt(s, pat, r))
    ensures r == -1 ==> forall i :: k <= i ==> !OccursAt(s, pat, i)
    ensures r != -1 ==> forall i :: k <= i < r ==> !OccursAt(s, pat, i)
    decreases |s| - k
  {
    if k + |pat| > |s| then -1
    else if s[k..k + |pat|] == pat then k
    else IndexFrom(s, pat, k + 1)
  }

  /** Index of the first occurrence of `pat` in `s`, or -1 (`IndexOf`, `find`). */
  function IndexOf(s: string, pat: string): (r: int)
    ensures r == -1 <==> forall i :: !OccursAt(s, pat, i)
    ensures r != -1 ==> OccursAt(s, pat, r) && forall i :: 0 <= i < r ==> !OccursAt(s, pat, i)
  {
    IndexFrom(s, pat, 0)
  }

  /** Ordinal substring test. */
  predicate Contains(s: string, pat: string) {
    IndexOf(s, pat) != -1
  }

  /** `pat` occurs somewhere in `s` iff `Contains` says so. */
  lemma ContainsAt(s: string, pat: string, i: int)
    requires OccursAt(s, pat, i)
    ensures Contains(s, pat)
  {
  }

  /** Python's `startswith`, C#'s `StartsWith` with ordinal comparison. */
  predicate StartsWith(s: string, prefix: string) {
    |prefix| <= |s| && s[..|prefix|] == prefix
  }

  /** Python's `endswith`, C#'s `EndsWith` with ordinal comparison. */
  predicate EndsWith(s: string, suffix: string) {
    |suffix| <= |s| && s[|s| - |suffix|..] == suffix
  }

  /**
   * Left-to-right, non-overlapping replacement of every occurrence of `pat`
   * by `rep`: Python's `str.replace` and C#'s `String.Replace`.
   */
  function ReplaceAll(s: string, pat: string, rep: string): string
    requires pat != []
    decreases |s|
  {
    if |s| < |pat| then s
    else if s[..|pat|] == pat then rep + ReplaceAll(s[|pat|..], pat, rep)
    else [s[0]] + ReplaceAll(s[1..], pat, rep)
  }

  /** Number of occurrences of the character `c` in `s`. */
  function CountChar(s: string, c: char): nat {
    if s == [] then 0 else (if s[0] == c then 1 else 0) + CountChar(s[1..], c)
  }

  lemma {:induction false} CountCharConcat(a: string, b: string, c: char)
    ensures CountChar(a + b, c) == CountChar(a, c) + CountChar(b, c)
  {
    if a == [] {
      assert a + b == b;
    } else {
      assert (a + b)[1..] == a[1..] + b;
      CountCharConcat(a[1..], b, c);
    }
  }

  lemma {:induction false} CountCharAbsent(s: string, c: char)
    requires c !in s
    ensures CountChar(s, c) == 0
  {
    if s != [] {
      CountCharAbsent(s[1..], c);
    }
  }

  lemma {:induction false} CountCharPositive(s: string, c: char)
    requires c in s
    ensures CountChar(s, c) > 0
  {
    if s[0] != c {
      CountCharPositive(s[1..], c);
    }
  }

  /** Replacing by text without `c` never adds a `c`. */
  lemma {:induction false} ReplaceAllCountChar(s: string, pat: string, rep: string, c: char)
    requires pat != [] && c !in rep
    ensures CountChar(ReplaceAll(s, pat, rep), c) <= CountChar(s, c)
    decreases |s|
  {
    if |s| < |pat| {
    } else if s[..|pat|] == pat {
      var rest := s[|pat|..];
      ReplaceAllCountChar(rest, pat, rep, c);
      CountCharConcat(rep, ReplaceAll(rest, pat, rep), c);
      CountCharAbsent(rep, c);
      assert s == s[..|pat|] + rest;
      CountCharConcat(s[..|pat|], rest, c);
    } else {
      ReplaceAllCountChar(s[1..], pat, rep, c);
      CountCharConcat([s[0]], ReplaceAll(s[1..], pat, rep), c);
      assert s == [s[0]] + s[1..];
      CountCharConcat([s[0]], s[1..], c);
    }
  }

  /**
   * When `pat` holds a `c`, `rep` holds none and `pat` occurs in `s`, the
   * replacement strictly lowers the number of `c`s.
   */
  lemma {:induction false} ReplaceAllCountCharStrict(s: string, pat: string, rep: string, c: char, i: int)
    requires pat != [] && c !in rep && c in pat
    requires OccursAt(s, pat, i)
    ensures CountChar(ReplaceAll(s, pat, rep), c) < CountChar(s, c)
    decreases |s|
  {
    if s[..|pat|] == pat {
      var rest := s[|pat|..];
      ReplaceAllCountChar(rest, pat, rep, c);
      CountCharConcat(rep, ReplaceAll(rest, pat, rep), c);
      CountCharAbsent(rep, c);
      assert s == s[..|pat|] + rest;
      CountCharConcat(s[..|pat|], rest, c);
      CountCharPositive(s[..|pat|], c);
    } else {
      assert i > 0;
      assert s[1..][i - 1..i - 1 + |pat|] == s[i..i + |pat|];
      ReplaceAllCountCharStrict(s[1..], pat, rep, c, i - 1);
      CountCharConcat([s[0]], ReplaceAll(s[1..], pat, rep), c);
      assert s == [s[0]] + s[1..];
      CountCharConcat([s[0]], s[1..], c);
    }
  }

  /** A string without `pat` is left unchanged by the replacement. */
  lemma {:induction false} ReplaceAllAbsent(s: string, pat: string, rep: string)
    requires pat != [] && !Contains(s, pat)
    ensures ReplaceAll(s, pat, rep) == s
    decreases |s|
  {
    if |s| >= |pat| {
      assert !OccursAt(s, pat, 0);
      assert !Contains(s[1..], pat) by {
        forall i | OccursAt(s[1..], pat, i) ensures false {
          assert s[1..][i..i + |pat|] == s[i + 1..i + 1 + |pat|];
          assert OccursAt(s, pat, i + 1);
        }
      }
      ReplaceAllAbsent(s[1..], pat, rep);
    }
  }

  /** A character Python's `str.strip()` removes (`str.isspace`). */
  predicate IsSpace(c: char) {
    var n := c as int;
    (9 <= n <= 13) || (28 <= n <= 32) || n == 0x85 || n == 0xA0 || n == 0x1680
    || (0x2000 <= n <= 0x200A) || n == 0x2028 || n == 0x2029 || n == 0x202F
    || n == 0x205F || n == 0x3000
  }

  /** How many whitespace characters follow position `i` before the first other one. */
  function LeadingSpaces(s: string, i: nat): (n: nat)
    requires i <= |s|
    ensures i + n <= |s| && (i + n == |s| || !IsSpace(s[i + n]))
    ensures forall k :: i <= k < i + n ==> IsSpace(s[k])
    decreases |s| - i
  {
    if i == |s| || !IsSpace(s[i]) then 0 else 1 + LeadingSpaces(s, i + 1)
  }

  /** How many whitespace characters precede position `j` after the last other one. */
  function TrailingSpaces(s: string, j: nat): (n: nat)
    requires j <= |s|
    ensures n <= j && (n == j || !IsSpace(s[j - n - 1]))
    ensures forall k :: j - n <= k < j ==> IsSpace(s[k])
  {
    if j == 0 || !IsSpace(s[j - 1]) then 0 else 1 + TrailingSpaces(s, j - 1)
  }

  /** `s` without its leading whitespace. */
  function StripLeft(s: string): (r: string)
    ensures |r| <= |s|
    ensures r == [] || !IsSpace(r[0])
  {
    s[LeadingSpaces(s, 0)..]
  }

  /** `s` without its trailing whitespace. */
  function StripRight(s: string): (r: string)
    ensures |r| <= |s| && (r == [] || r[0] == s[0])
    ensures r == [] || !IsSpace(r[|r| - 1])
  {
    s[..|s| - TrailingSpaces(s, |s|)]
  }

  /** Python's `str.strip()` with no argument. */
  function Strip(s: string): (r: string)
    ensures r == [] || (!IsSpace(r[0]) && !IsSpace(r[|r| - 1]))
    ensures |r| <= |s|
  {
    StripRight(StripLeft(s))
  }

  /** Python's `s.split(sep)` for a one-character separator. */
  function Split(s: string, sep: char): (r: seq<string>)
    ensures |r| >= 1
    ensures forall i :: 0 <= i < |r| ==> sep !in r[i]
  {
    if s == [] then [""]
    else
      var rest := Split(s[1..], sep);
      if s[0] == sep then [""] + rest
      else [[s[0]] + rest[0]] + rest[1..]
  }

  /** Python's `sep.join(parts)`. */
  function Join(parts: seq<string>, sep: string): string {
    if |parts| == 0 then ""
    else if |parts| == 1 then parts[0]
    else parts[0] + sep + Join(parts[1..], sep)
  }

  lemma {:induction false} JoinPrepend(x: string, parts: seq<string>, sep: string)
    requires |parts| >= 1
    ensures Join([x + parts[0]] + parts[1..], sep) == x + Join(parts, sep)
  {
    var q := [x + parts[0]] + parts[1..];
    assert q[1..] == parts[1..];
  }

  /** Splitting then joining on the same separator gives the text back. */
  lemma {:induction false} JoinSplit(s: string, sep: char)
    ensures Join(Split(s, sep), [sep]) == s
  {
    if s != [] {
      var rest := Split(s[1..], sep);
      JoinSplit(s[1..], sep);
      if s[0] == sep {
        assert ([""] + rest)[1..] == rest;
      } else {
        JoinPrepend([s[0]], rest, [sep]);
      }
    }
  }

  /** Joining all parts equals joining all but the last, the separator, then the last. */
  lemma {:induction false} JoinInit(parts: seq<string>, sep: string)
    requires |parts| >= 2
    ensures Join(parts, sep) == Join(parts[..|parts| - 1], sep) + sep + parts[|parts| - 1]
    decreases |parts|
  {
    if |parts| > 2 {
      JoinInit(parts[1..], sep);
      assert parts[1..][..|parts| - 2] == parts[..|parts| - 1][1..];
    }
  }

  /** Splitting text that starts with a separator-free piece glues that piece to the first part. */
  lemma {:induction false} SplitPrefix(x: string, s: string, sep: char)
    requires sep !in x
    ensures Split(x + s, sep) == [x + Split(s, sep)[0]] + Split(s, sep)[1..]
    decreases |x|
  {
    var r := Split(s, sep);
    if x == [] {
      assert x + s == s;
      assert x + r[0] == r[0];
      assert [r[0]] + r[1..] == r;
    } else {
      SplitPrefix(x[1..], s, sep);
      assert (x + s)[1..] == x[1..] + s;
      var rest := Split(x[1..] + s, sep);
      assert rest[0] == x[1..] + r[0] && rest[1..] == r[1..];
      assert [x[0]] + (x[1..] + r[0]) == x + r[0];
    }
  }

  /** Joining separator-free parts and splitting the result gives the parts back. */
  lemma {:induction false} SplitJoin(parts: seq<string>, sep: char)
    requires |parts| >= 1 && forall i :: 0 <= i < |parts| ==> sep !in parts[i]
    ensures Split(Join(parts, [sep]), sep) == parts
    decreases |parts|
  {
    if |parts| == 1 {
      SplitPrefix(parts[0], [], sep);
      assert parts[0] + [] == parts[0];
    } else {
      var rest := Join(parts[1..], [sep]);
      SplitJoin(parts[1..], sep);
      assert Join(parts, [sep]) == parts[0] + ([sep] + rest);
      SplitPrefix(parts[0], [sep] + rest, sep);
      assert ([sep] + rest)[1..] == rest;
      assert Split([sep] + rest, sep) == [""] + parts[1..];
      assert parts[0] + "" == parts[0];
      assert [parts[0]] + parts[1..] == parts;
    }
  }

  /** Stripping adds no character. */
  lemma StripWithin(s: string, c: char)
    requires c !in s
    ensures c !in Strip(s)
  {
    var l := StripLeft(s);
    assert forall i :: 0 <= i < |l| ==> l[i] == s[|s| - |l| + i];
    var r := StripRight(l);
    assert forall i :: 0 <= i < |r| ==> r[i] == l[i];
  }

  /** Text without whitespace at either end is left alone by `strip`. */
  lemma StripUnchanged(s: string)
    requires s == [] || (!IsSpace(s[0]) && !IsSpace(s[|s| - 1]))
    ensures Strip(s) == s
  {
  }

  /** ASCII lower-casing of one character. */
  function LowerChar(c: char): char {
    if 'A' <= c <= 'Z' then (c as int + 32) as char else c
  }

  /** ASCII lower-casing (Python's `lower`, C#'s `ToLower` on ASCII text). */
  function Lower(s: string): (r: string)
    ensures |r| == |s| && forall i :: 0 <= i < |s| ==> r[i] == LowerChar(s[i])
  {
    if s == [] then [] else [LowerChar(s[0])] + Lower(s[1..])
  }

  /** ASCII upper-casing of one character. */
  function UpperChar(c: char): char {
    if 'a' <= c <= 'z' then (c as int - 32) as char else c
  }

  /** Python's `capitalize` on ASCII text: first character upper, the rest lower. */
  function Capitalize(s: string): (r: string)
    ensures |r| == |s|
    ensures s != [] ==> r[0] == UpperChar(s[0]) && r[1..] == Lower(s[1..])
  {
    if s == [] then [] else [UpperChar(s[0])] + Lower(s[1..])
  }

  /** Code-point lexicographic order on strings, a proper prefix being smaller. */
  predicate StrLess(a: string, b: string) {
    if a == [] then b != []
    else if b == [] then false
    else if a[0] != b[0] then a[0] < b[0]
    else StrLess(a[1..], b[1..])
  }

  lemma {:induction false} StrLessIrreflexive(a: string)
    ensures !StrLess(a, a)
  {
    if a != [] {
      StrLessIrreflexive(a[1..]);
    }
  }

  lemma {:induction false} StrLessTransitive(a: string, b: string, c: string)
    requires StrLess(a, b) && StrLess(b, c)
    ensures StrLess(a, c)
  {
    if a != [] && b != [] && c != [] && a[0] == b[0] && b[0] == c[0] {
      StrLessTransitive(a[1..], b[1..], c[1..]);
    }
  }

  lemma {:induction false} StrLessTotal(a: string, b: string)
    requires a != b
    ensures StrLess(a, b) || StrLess(b, a)
  {
    if a != [] && b != [] && a[0] == b[0] {
      assert a == [a[0]] + a[1..] && b == [b[0]] + b[1..];
      StrLessTotal(a[1..], b[1..]);
    }
  }

  lemma {:induction false} StrLessAsymmetric(a: string, b: string)
    requires StrLess(a, b)
    ensures !StrLess(b, a)
  {
    if a != [] && b != [] && a[0] == b[0] {
      StrLessAsymmetric(a[1..], b[1..]);
    }
  }
}
