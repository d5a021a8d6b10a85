/**
 Texts and the searches the diff engine makes in them: the longest common prefix
 and suffix by bisection, the longest overlap of an end with a beginning.
 A text is a sequence of 16-bit code units, as a JavaScript string is.
 */
module DiffText {
  type CodeUnit = u: int | 0 <= u < 0x1_0000

  type Text = seq<CodeUnit>

  function Min(a: int, b: int): int {
    if a < b then a else b
  }

  function Clamp(i: int, length: nat): nat {
    if i < 0 then 0 else if i > length then length else i
  }

  /** JavaScript's `substring`: indices are brought into range, then put in order. */
  function Substring(s: Text, i: int, j: int): Text {
    var from, to := Clamp(i, |s|), Clamp(j, |s|);
    if from <= to then s[from..to] else s[to..from]
  }

  function SubstringFrom(s: Text, i: int): Text {
    s[Clamp(i, |s|)..]
  }

  predicate StartsWith(s: Text, p: Text) {
    |p| <= |s| && s[..|p|] == p
  }

  predicate EndsWith(s: Text, p: Text) {
    |p| <= |s| && s[|s| - |p|..] == p
  }

  predicate MatchesAt(s: Text, p: Text, i: int) {
    0 <= i <= |s| - |p| && s[i..i + |p|] == p
  }

  /** JavaScript's `indexOf`: the first match at or after `from`, or -1. */
  function IndexOf(s: Text, p: Text, from: nat): (i: int)
    ensures i == -1 || (from <= i && MatchesAt(s, p, i))
    ensures i == -1 ==> forall j :: from <= j ==> !MatchesAt(s, p, j)
    ensures forall j :: from <= j < i ==> !MatchesAt(s, p, j)
    decreases |s| - from
  {
    if from + |p| > |s| then -1
    else if MatchesAt(s, p, from) then from
    else IndexOf(s, p, from + 1)
  }

  /** `n` units begin both texts, and no more do. */
  predicate IsCommonPrefix(a: Text, b: Text, n: nat) {
    n <= |a| && n <= |b| && a[..n] == b[..n] && (n < |a| && n < |b| ==> a[n] != b[n])
  }

  /** `n` units end both texts, and no more do. */
  predicate IsCommonSuffix(a: Text, b: Text, n: nat) {
    n <= |a| && n <= |b| && a[|a| - n..] == b[|b| - n..] && (n < |a| && n < |b| ==> a[|a| - n - 1] != b[|b| - n - 1])
  }

  lemma {:induction false} OneSuffix(a: Text, b: Text, m: nat, n: nat)
    requires IsCommonSuffix(a, b, m) && IsCommonSuffix(a, b, n)
    ensures m == n
  {
    WithinSuffix(a, b, m, n);
    WithinSuffix(a, b, n, m);
  }

  lemma {:induction false} WithinSuffix(a: Text, b: Text, m: nat, n: nat)
    requires IsCommonSuffix(a, b, n)
    ensures m < n ==> a[|a| - m - 1] == b[|b| - m - 1]
  {
    if m < n {
      assert a[|a| - m - 1] == a[|a| - n..][n - m - 1] && b[|b| - m - 1] == b[|b| - n..][n - m - 1];
    }
  }

  predicate SameStart(a: Text, b: Text, n: int) {
    0 <= n <= |a| && n <= |b| && a[..n] == b[..n]
  }

  lemma PrefixGrows(a: Text, b: Text, c: nat, e: nat)
    requires c <= e <= |a| && e <= |b| && SameStart(a, b, c)
    ensures a[c..e] == b[c..e] <==> SameStart(a, b, e)
  {
    assert a[..e] == a[..c] + a[c..e] && b[..e] == b[..c] + b[c..e];
    assert a[..e][c..] == a[c..e] && b[..e][c..] == b[c..e];
  }

  lemma PrefixOneMore(a: Text, b: Text, n: nat)
    requires SameStart(a, b, n) && n < |a| && n < |b| && a[n] == b[n]
    ensures SameStart(a, b, n + 1)
  {
    assert a[..n + 1] == a[..n] + [a[n]];
    assert b[..n + 1] == b[..n] + [b[n]];
  }

  /** Bisection ends where one unit more would differ. */
  lemma PrefixFound(a: Text, b: Text, n: nat, high: nat)
    requires SameStart(a, b, n) && n <= high <= n + 1
    requires high == Min(|a|, |b|) == n || !SameStart(a, b, high)
    ensures IsCommonPrefix(a, b, n)
  {
    if n < |a| && n < |b| && a[n] == b[n] {
      PrefixOneMore(a, b, n);
    }
  }

  method CommonPrefix(a: Text, b: Text) returns (n: nat)
    ensures IsCommonPrefix(a, b, n)
  {
    if a == [] || b == [] || a[0] != b[0] {
      return 0;
    }
    var low, high := 0, Min(|a|, |b|);
    var mid, start := high, 0;
    while low < mid
      invariant 0 <= low <= mid <= high <= Min(|a|, |b|)
      invariant start == low && SameStart(a, b, low)
      invariant (mid == high == Min(|a|, |b|)) || (!SameStart(a, b, high) && low + high - 1 <= 2 * mid <= low + high)
      decreases high - low, mid - low
    {
      PrefixGrows(a, b, start, mid);
      if a[start..mid] == b[start..mid] {
        low := mid;
        start := mid;
      } else {
        high := mid;
      }
      mid := (high - low) / 2 + low;
    }
    PrefixFound(a, b, mid, high);
    return mid;
  }

  predicate SameEnd(a: Text, b: Text, n: int) {
    0 <= n <= |a| && n <= |b| && a[|a| - n..] == b[|b| - n..]
  }

  lemma SuffixGrows(a: Text, b: Text, c: nat, e: nat)
    requires c <= e <= |a| && e <= |b| && SameEnd(a, b, c)
    ensures a[|a| - e..|a| - c] == b[|b| - e..|b| - c] <==> SameEnd(a, b, e)
  {
    assert a[|a| - e..] == a[|a| - e..|a| - c] + a[|a| - c..] && b[|b| - e..] == b[|b| - e..|b| - c] + b[|b| - c..];
    assert a[|a| - e..][..e - c] == a[|a| - e..|a| - c] && b[|b| - e..][..e - c] == b[|b| - e..|b| - c];
  }

  /** Bisection ends where one unit more would differ. */
  lemma SuffixFound(a: Text, b: Text, n: nat, high: nat)
    requires SameEnd(a, b, n) && n <= high <= n + 1
    requires high == Min(|a|, |b|) == n || !SameEnd(a, b, high)
    ensures IsCommonSuffix(a, b, n)
  {
    if n < |a| && n < |b| && a[|a| - n - 1] == b[|b| - n - 1] {
      SuffixOneMore(a, b, n);
    }
  }

  lemma SuffixOneMore(a: Text, b: Text, n: nat)
    requires SameEnd(a, b, n) && n < |a| && n < |b| && a[|a| - n - 1] == b[|b| - n - 1]
    ensures SameEnd(a, b, n + 1)
  {
    assert a[|a| - (n + 1)..] == [a[|a| - n - 1]] + a[|a| - n..];
    assert b[|b| - (n + 1)..] == [b[|b| - n - 1]] + b[|b| - n..];
  }

  lemma NoCommonSuffix(a: Text, b: Text)
    requires a == [] || b == [] || a[|a| - 1] != b[|b| - 1]
    ensures IsCommonSuffix(a, b, 0)
  {
  }

  method CommonSuffix(a: Text, b: Text) returns (n: nat)
    ensures IsCommonSuffix(a, b, n)
  {
    if a == [] || b == [] || a[|a| - 1] != b[|b| - 1] {
      NoCommonSuffix(a, b);
      return 0;
    }
    var low, high := 0, Min(|a|, |b|);
    var mid, end := high, 0;
    assert SameEnd(a, b, 0);
    hide SameEnd, IsCommonSuffix;
    while low < mid
      invariant 0 <= low <= mid <= high <= Min(|a|, |b|)
      invariant end == low && SameEnd(a, b, low)
      invariant (mid == high == Min(|a|, |b|)) || (!SameEnd(a, b, high) && low + high - 1 <= 2 * mid <= low + high)
      decreases high - low, mid - low
    {
      SuffixGrows(a, b, end, mid);
      if a[|a| - mid..|a| - end] == b[|b| - mid..|b| - end] {
        low := mid;
        end := mid;
      } else {
        high := mid;
      }
      mid := (high - low) / 2 + low;
    }
    SuffixFound(a, b, mid, high);
    return mid;
  }

  /** The last `n` units of `a` are the first `n` of `b`. */
  predicate Overlaps(a: Text, b: Text, n: nat) {
    n <= |a| && n <= |b| && a[|a| - n..] == b[..n]
  }

  /** An overlap longer than `e` puts the last `e` units of `a` into `b`. */
  lemma LongOverlapContains(a: Text, b: Text, e: nat, n: nat)
    requires e <= n && Overlaps(a, b, n)
    ensures MatchesAt(b, a[|a| - e..], n - e)
  {
    assert a[|a| - e..] == a[|a| - n..][n - e..] == b[..n][n - e..] == b[n - e..n];
  }

  /** Cutting both texts to the shorter length loses no overlap. */
  lemma OverlapOfCut(a: Text, b: Text, n: nat)
    requires n <= |a| && n <= |b|
    ensures var c := Min(|a|, |b|); Overlaps(a, b, n) <==> Overlaps(a[|a| - c..], b[..c], n)
  {
    var c := Min(|a|, |b|);
    assert a[|a| - c..][c - n..] == a[|a| - n..];
    assert b[..c][..n] == b[..n];
  }

  /** The next overlap is no shorter than the first match of the end in the beginning allows. */
  lemma FirstMatchBounds(a: Text, b: Text, length: nat, found: int)
    requires length <= |a| == |b| && found == IndexOf(b, a[|a| - length..], 0)
    ensures forall n :: length <= n && Overlaps(a, b, n) ==> found != -1 && n >= length + found
  {
    forall n | length <= n && Overlaps(a, b, n) ensures found != -1 && n >= length + found {
      LongOverlapContains(a, b, length, n);
    }
  }

  /** The longest overlap is found among ever longer ends. */
  method LongestOverlap(a: Text, b: Text) returns (best: nat)
    requires |a| == |b| > 0 && a != b
    ensures Overlaps(a, b, best) && NoneLonger(a, b, best)
  {
    var c := |a|;
    best := 0;
    var length := 1;
    while true
      invariant best < length <= c && Overlaps(a, b, best)
      invariant NoneBetween(a, b, best, length)
      decreases c - length
    {
      var found := IndexOf(b, a[c - length..], 0);
      FirstMatchBounds(a, b, length, found);
      if found == -1 {
        return;
      }
      length := length + found;
      if found == 0 || a[c - length..] == b[..length] {
        assert Overlaps(a, b, length);
        WholeOverlapIsEquality(a, b, length);
        best := length;
        length := length + 1;
      }
    }
  }

  ghost predicate NoneBetween(a: Text, b: Text, low: nat, high: nat) {
    forall n :: low < n < high ==> !Overlaps(a, b, n)
  }

  ghost predicate NoneLonger(a: Text, b: Text, n: nat) {
    forall m :: n < m ==> !Overlaps(a, b, m)
  }

  lemma WholeOverlapIsEquality(a: Text, b: Text, n: nat)
    requires |a| == |b| && Overlaps(a, b, n)
    ensures n == |a| ==> a == b
  {
    assert n == |a| ==> a[|a| - n..] == a && b[..n] == b;
  }

  lemma EqualTextsOverlap(a: Text, b: Text)
    requires a == b
    ensures Overlaps(a, b, |a|) && NoneLonger(a, b, |a|)
  {
    assert a[|a| - |a|..] == a == b[..|a|];
  }

  lemma OverlapOfCuts(a: Text, b: Text, n: nat)
    requires var c := Min(|a|, |b|); Overlaps(a[|a| - c..], b[..c], n) && NoneLonger(a[|a| - c..], b[..c], n)
    ensures Overlaps(a, b, n) && NoneLonger(a, b, n)
  {
    forall m: nat | m <= |a|
      && m <= |b| ensures Overlaps(a, b, m) <==> Overlaps(a[|a| - Min(|a|, |b|)..], b[..Min(|a|, |b|)], m) {
      OverlapOfCut(a, b, m);
    }
  }

  method CommonOverlap(text1: Text, text2: Text) returns (best: nat)
    ensures Overlaps(text1, text2, best) && NoneLonger(text1, text2, best)
  {
    var a, b := text1, text2;
    var c := |a|;
    if c == 0 || |b| == 0 {
      return 0;
    }
    if c > |b| {
      a := a[c - |b|..];
    } else if c < |b| {
      b := b[..c];
    }
    c := Min(c, |b|);
    assert a == text1[|text1| - c..] && b == text2[..c];
    if a == b {
      EqualTextsOverlap(a, b);
      best := c;
    } else {
      best := LongestOverlap(a, b);
    }
    OverlapOfCuts(text1, text2, best);
  }
}
