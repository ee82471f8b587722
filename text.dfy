/**
 * The string operations the generators use, on `seq<char>`:
 * ASCII case mapping (strings.ToLower / strings.ToUpper), replacing one
 * character by another (strings.Replace with a one-character old string,
 * for all or for the first n occurrences), substring search
 * (strings.Contains), strings.Split, strings.Join, strings.Replace with n < 0
 * (replace every occurrence), strings.LastIndex of one character and
 * strings.Compare's order.
 */
module Text {

  /** ASCII lower-casing of one character; every other character is kept. */
  function LowerChar(c: char): char
  {
    if 'A' <= c <= 'Z' then (c as int - 'A' as int + 'a' as int) as char else c
  }

  /** ASCII upper-casing of one character; every other character is kept. */
  function UpperChar(c: char): char
  {
    if 'a' <= c <= 'z' then (c as int - 'a' as int + 'A' as int) as char else c
  }

  predicate IsUpperAscii(c: char) { 'A' <= c <= 'Z' }

  predicate IsLowerAscii(c: char) { 'a' <= c <= 'z' }

  /** strings.ToLower on ASCII: same length, every character lowered. */
  function ToLower(s: string): (r: string)
    ensures |r| == |s|
    ensures forall i :: 0 <= i < |s| ==> r[i] == LowerChar(s[i])
    ensures forall i :: 0 <= i < |r| ==> !IsUpperAscii(r[i])
  {
    if s == [] then [] else [LowerChar(s[0])] + ToLower(s[1..])
  }

  /** strings.ToUpper on ASCII: same length, every character raised. */
  function ToUpper(s: string): (r: string)
    ensures |r| == |s|
    ensures forall i :: 0 <= i < |s| ==> r[i] == UpperChar(s[i])
    ensures forall i :: 0 <= i < |r| ==> !IsLowerAscii(r[i])
  {
    if s == [] then [] else [UpperChar(s[0])] + ToUpper(s[1..])
  }

  /** strings.Replace(s, [c], [d], -1): every `c` becomes `d`, nothing else moves. */
  function ReplaceChar(s: string, c: char, d: char): (r: string)
    ensures |r| == |s|
    ensures forall i :: 0 <= i < |s| ==> r[i] == (if s[i] == c then d else s[i])
    ensures c != d ==> c !in r
  {
    if s == [] then [] else [if s[0] == c then d else s[0]] + ReplaceChar(s[1..], c, d)
  }

  /** Number of occurrences of `c` in `s`. */
  function Count(s: string, c: char): nat
  {
    if s == [] then 0 else (if s[0] == c then 1 else 0) + Count(s[1..], c)
  }

  /** strings.Replace(s, [c], [d], n): only the first `n` occurrences of `c` become `d`. */
  function ReplaceFirst(s: string, c: char, d: char, n: nat): (r: string)
    ensures |r| == |s|
  {
    if s == [] then []
    else if s[0] == c && n > 0 then [d] + ReplaceFirst(s[1..], c, d, n - 1)
    else [s[0]] + ReplaceFirst(s[1..], c, d, n)
  }

  /**
   * Replacing the first n occurrences leaves exactly the occurrences past
   * the n-th, and when there are no more than n it is a replace-all.
   */
  lemma {:induction false} ReplaceFirstCount(s: string, c: char, d: char, n: nat)
    requires c != d
    ensures Count(ReplaceFirst(s, c, d, n), c) == if Count(s, c) <= n then 0 else Count(s, c) - n
    ensures Count(s, c) <= n ==> ReplaceFirst(s, c, d, n) == ReplaceChar(s, c, d)
  {
    if s != [] {
      if s[0] == c && n > 0 {
        ReplaceFirstCount(s[1..], c, d, n - 1);
      } else {
        ReplaceFirstCount(s[1..], c, d, n);
      }
    }
  }

  lemma {:induction false} CountZeroMeansAbsent(s: string, c: char)
    ensures Count(s, c) == 0 <==> c !in s
  {
    if s != [] {
      CountZeroMeansAbsent(s[1..], c);
      assert s == [s[0]] + s[1..];
    }
  }

  /** `pat` occurs at the start of `s`. */
  predicate StartsWith(s: string, pat: string)
  {
    |pat| <= |s| && s[..|pat|] == pat
  }

  /** strings.Contains: `pat` occurs somewhere in `s`. */
  predicate Contains(s: string, pat: string)
    decreases |s|
  {
    StartsWith(s, pat) || (|s| > 0 && Contains(s[1..], pat))
  }

  /** A text that has `pat` in its middle contains it. */
  lemma {:induction false} ContainsMiddle(a: string, pat: string, b: string)
    ensures Contains(a + pat + b, pat)
    decreases |a|
  {
    var s := a + pat + b;
    if a == [] {
      assert s[..|pat|] == pat;
    } else {
      ContainsMiddle(a[1..], pat, b);
      assert s[1..] == a[1..] + pat + b;
    }
  }

  /** strings.Join: the parts with `sep` between consecutive ones. */
  function Join(parts: seq<string>, sep: string): string
  {
    if |parts| == 0 then []
    else if |parts| == 1 then parts[0]
    else parts[0] + sep + Join(parts[1..], sep)
  }

  /**
   * strings.Split with a non-empty separator: the pieces between the
   * leftmost non-overlapping occurrences of `pat`. There is always at least
   * one piece, and Split("") is [""].
   */
  function Split(s: string, pat: string): (r: seq<string>)
    requires |pat| > 0
    ensures |r| > 0
    decreases |s|
  {
    if |s| < |pat| then [s]
    else if s[..|pat|] == pat then [[]] + Split(s[|pat|..], pat)
    else
      var t := Split(s[1..], pat);
      [[s[0]] + t[0]] + t[1..]
  }

  /**
   * strings.Replace(s, pat, rep, -1), scanning left to right as Go does:
   * each occurrence found is replaced and the scan continues after it.
   */
  function ReplaceAll(s: string, pat: string, rep: string): string
    requires |pat| > 0
    decreases |s|
  {
    if |s| < |pat| then s
    else if s[..|pat|] == pat then rep + ReplaceAll(s[|pat|..], pat, rep)
    else [s[0]] + ReplaceAll(s[1..], pat, rep)
  }

  lemma JoinConsFirst(a: string, b: string, rest: seq<string>, sep: string)
    ensures Join([a + b] + rest, sep) == a + Join([b] + rest, sep)
  {
    if |rest| > 0 {
      assert ([a + b] + rest)[1..] == rest;
      assert ([b] + rest)[1..] == rest;
    }
  }

  lemma JoinEmptyFirst(rest: seq<string>, sep: string)
    requires |rest| > 0
    ensures Join([[]] + rest, sep) == sep + Join(rest, sep)
  {
    assert ([[]] + rest)[1..] == rest;
  }

  /** Split's first piece is a prefix of the input. */
  lemma {:induction false} SplitFirstIsPrefix(s: string, pat: string)
    requires |pat| > 0
    ensures StartsWith(s, Split(s, pat)[0])
    decreases |s|
  {
    if |s| >= |pat| && s[..|pat|] != pat {
      SplitFirstIsPrefix(s[1..], pat);
    }
  }

  /** Joining the pieces back with the separator gives the input again. */
  lemma {:induction false} JoinSplit(s: string, pat: string)
    requires |pat| > 0
    ensures Join(Split(s, pat), pat) == s
    decreases |s|
  {
    if |s| < |pat| {
    } else if s[..|pat|] == pat {
      JoinSplit(s[|pat|..], pat);
      JoinEmptyFirst(Split(s[|pat|..], pat), pat);
      assert s == pat + s[|pat|..];
    } else {
      var t := Split(s[1..], pat);
      JoinSplit(s[1..], pat);
      JoinConsFirst([s[0]], t[0], t[1..], pat);
      assert [t[0]] + t[1..] == t;
      assert s == [s[0]] + s[1..];
    }
  }

  lemma StartsWithShorter(s: string, pat: string)
    requires |s| < |pat|
    ensures !Contains(s, pat)
    decreases |s|
  {
    if |s| > 0 { StartsWithShorter(s[1..], pat); }
  }

  lemma StartsWithTransitive(s: string, p: string, pat: string)
    requires StartsWith(s, p)
    ensures StartsWith(p, pat) ==> StartsWith(s, pat)
  {
    if StartsWith(p, pat) {
      assert s[..|pat|] == p[..|pat|];
    }
  }

  /** An occurrence inside a prefix is an occurrence in the whole. */
  lemma ContainsInPrefix(s: string, p: string, pat: string)
    requires StartsWith(s, p) && Contains(p, pat)
    ensures Contains(s, pat)
    decreases |p|
  {
    if !StartsWith(p, pat) {
      assert |p| > 0 && Contains(p[1..], pat);
      assert StartsWith(s[1..], p[1..]);
      ContainsInPrefix(s[1..], p[1..], pat);
    } else {
      assert s[..|pat|] == p[..|pat|];
    }
  }

  /** No piece of a split contains the separator. */
  lemma {:induction false} SplitPiecesFree(s: string, pat: string)
    requires |pat| > 0
    ensures forall i :: 0 <= i < |Split(s, pat)| ==> !Contains(Split(s, pat)[i], pat)
    decreases |s|
  {
    var r := Split(s, pat);
    if |s| < |pat| {
      StartsWithShorter(s, pat);
    } else if s[..|pat|] == pat {
      SplitPiecesFree(s[|pat|..], pat);
      assert !Contains([], pat);
      forall i | 0 <= i < |r| ensures !Contains(r[i], pat) {
        if i > 0 { assert r[i] == Split(s[|pat|..], pat)[i - 1]; }
      }
    } else {
      var t := Split(s[1..], pat);
      SplitPiecesFree(s[1..], pat);
      SplitFirstIsPrefix(s[1..], pat);
      var p := [s[0]] + t[0];
      assert StartsWith(s, p);
      assert p[1..] == t[0];
      StartsWithTransitive(s, p, pat);
      assert !Contains(p, pat);
      forall i | 0 <= i < |r| ensures !Contains(r[i], pat) {
        if i > 0 { assert r[i] == t[i]; }
      }
    }
  }

  /** A text without the one-character separator is a single piece. */
  lemma {:induction false} SplitWithout(s: string, c: char)
    requires c !in s
    ensures Split(s, [c]) == [s]
    decreases |s|
  {
    if |s| >= 1 {
      SplitWithout(s[1..], c);
      assert s == [s[0]] + s[1..];
    }
  }

  /** Splitting at the first occurrence of a one-character separator. */
  lemma {:induction false} SplitAtFirst(a: string, c: char, b: string)
    requires c !in a
    ensures Split(a + [c] + b, [c]) == [a] + Split(b, [c])
    decreases |a|
  {
    var s := a + [c] + b;
    if a == [] {
      assert s[..1] == [c];
      assert s[1..] == b;
    } else {
      assert s[0] == a[0] && a[0] in a;
      assert s[..1] != [c] by { assert s[..1][0] == a[0]; }
      assert s[1..] == a[1..] + [c] + b;
      SplitAtFirst(a[1..], c, b);
      assert [a[0]] + a[1..] == a;
    }
  }

  /** Split yields more than one piece exactly when the separator occurs. */
  lemma {:induction false} SplitManyIffContains(s: string, pat: string)
    requires |pat| > 0
    ensures |Split(s, pat)| > 1 <==> Contains(s, pat)
    decreases |s|
  {
    if |s| < |pat| {
      StartsWithShorter(s, pat);
    } else if s[..|pat|] == pat {
    } else {
      SplitManyIffContains(s[1..], pat);
    }
  }

  /**
   * Replace-all is split-then-join: the text between the occurrences is kept
   * and every occurrence becomes `rep`.
   */
  lemma {:induction false} ReplaceAllIsSplitJoin(s: string, pat: string, rep: string)
    requires |pat| > 0
    ensures ReplaceAll(s, pat, rep) == Join(Split(s, pat), rep)
    decreases |s|
  {
    if |s| < |pat| {
    } else if s[..|pat|] == pat {
      ReplaceAllIsSplitJoin(s[|pat|..], pat, rep);
      JoinEmptyFirst(Split(s[|pat|..], pat), rep);
    } else {
      var t := Split(s[1..], pat);
      ReplaceAllIsSplitJoin(s[1..], pat, rep);
      JoinConsFirst([s[0]], t[0], t[1..], rep);
      assert [t[0]] + t[1..] == t;
    }
  }

  /** A text without the pattern comes back unchanged. */
  lemma {:induction false} ReplaceAllAbsent(s: string, pat: string, rep: string)
    requires |pat| > 0 && !Contains(s, pat)
    ensures ReplaceAll(s, pat, rep) == s
    decreases |s|
  {
    if |s| >= |pat| {
      ReplaceAllAbsent(s[1..], pat, rep);
      assert s == [s[0]] + s[1..];
    }
  }

  /** strings.LastIndex(s, [c]): the last position of `c`, or -1. */
  function LastIndex(s: string, c: char): (r: int)
    ensures -1 <= r < |s|
    ensures r >= 0 ==> s[r] == c
    ensures forall j :: r < j < |s| ==> s[j] != c
  {
    if s == [] then -1
    else if s[|s| - 1] == c then |s| - 1
    else LastIndex(s[..|s| - 1], c)
  }

  /** strings.Compare(a, b) < 0: lexicographic order (byte order of UTF-8 is code-point order). */
  predicate Less(a: string, b: string)
  {
    if |a| == 0 then |b| > 0
    else if |b| == 0 then false
    else if a[0] != b[0] then a[0] < b[0]
    else Less(a[1..], b[1..])
  }

  /** `a` does not come after `b`. */
  predicate LessEq(a: string, b: string) { !Less(b, a) }

  lemma {:induction false} LessIrreflexive(a: string)
    ensures !Less(a, a)
  {
    if |a| > 0 { LessIrreflexive(a[1..]); }
  }

  lemma {:induction false} LessTotal(a: string, b: string)
    ensures Less(a, b) || a == b || Less(b, a)
  {
    if |a| > 0 && |b| > 0 && a[0] == b[0] {
      LessTotal(a[1..], b[1..]);
      if a[1..] == b[1..] { assert a == [a[0]] + a[1..] && b == [b[0]] + b[1..]; }
    }
  }

  lemma {:induction false} LessTransitive(a: string, b: string, c: string)
    requires Less(a, b) && Less(b, c)
    ensures Less(a, c)
  {
    if |a| > 0 && a[0] == b[0] && b[0] == c[0] {
      LessTransitive(a[1..], b[1..], c[1..]);
    }
  }

  /** LessEq is a total order, the order sort.Slice is asked to produce. */
  /** Two strings are never each before the other. */
  lemma LessAsymmetric(a: string, b: string)
    requires Less(a, b)
    ensures !Less(b, a)
  {
    if Less(b, a) {
      LessTransitive(a, b, a);
      LessIrreflexive(a);
    }
  }

  lemma LessEqTransitive(a: string, b: string, c: string)
    requires LessEq(a, b) && LessEq(b, c)
    ensures LessEq(a, c)
  {
    LessTotal(a, b);
    LessTotal(b, c);
    if Less(c, a) {
      if a == b { } else if b == c { } else {
        LessTransitive(c, a, b);
      }
    }
  }
}
