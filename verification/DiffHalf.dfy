/**
 The search for a common half: a stretch at least half as long as the longer text that both texts share.
 The search looks around the places where a quarter of the longer text is found in the shorter one.
 */
module DiffHalf {
  import opened Wrappers
  import opened DiffText

  // ---------- common ends, one unit at a time ----------

  /** How many units begin both texts. */
  function PrefixLength(a: Text, b: Text): (n: nat)
    ensures n <= |a| && n <= |b|
  {
    if a == [] || b == [] || a[0] != b[0] then 0 else 1 + PrefixLength(a[1..], b[1..])
  }

  /** How many units end both texts. */
  function SuffixLength(a: Text, b: Text): (n: nat)
    ensures n <= |a| && n <= |b|
  {
    if a == [] || b == [] || a[|a| - 1] != b[|b| - 1] then 0 else 1 + SuffixLength(a[..|a| - 1], b[..|b| - 1])
  }

  lemma {:induction false} PrefixLengthIs(a: Text, b: Text)
    ensures IsCommonPrefix(a, b, PrefixLength(a, b))
  {
    if a != [] && b != [] && a[0] == b[0] {
      PrefixLengthIs(a[1..], b[1..]);
      var n := PrefixLength(a[1..], b[1..]);
      assert a[..n + 1] == [a[0]] + a[1..][..n] && b[..n + 1] == [b[0]] + b[1..][..n];
    }
  }

  lemma {:induction false} SuffixLengthIs(a: Text, b: Text)
    ensures IsCommonSuffix(a, b, SuffixLength(a, b))
  {
    if a == [] || b == [] || a[|a| - 1] != b[|b| - 1] {
      NoCommonSuffix(a, b);
    } else {
      SuffixLengthIs(a[..|a| - 1], b[..|b| - 1]);
      SuffixOneMore(a, b, SuffixLength(a[..|a| - 1], b[..|b| - 1]));
    }
  }

  lemma {:induction false} SuffixOneMore(a: Text, b: Text, n: nat)
    requires a != [] && b != [] && a[|a| - 1] == b[|b| - 1] && IsCommonSuffix(a[..|a| - 1], b[..|b| - 1], n)
    ensures IsCommonSuffix(a, b, n + 1)
  {
    EndOf(a, n);
    EndOf(b, n);
    NextOfEnd(a, n);
    NextOfEnd(b, n);
  }

  lemma {:induction false} EndOf(a: Text, n: nat)
    requires n < |a|
    ensures var p := a[..|a| - 1]; a[|a| - (n + 1)..] == p[|p| - n..] + [a[|a| - 1]]
  {
  }

  lemma {:induction false} NextOfEnd(a: Text, n: nat)
    requires n + 1 <= |a|
    ensures var p := a[..|a| - 1]; n < |p| ==> a[|a| - (n + 1) - 1] == p[|p| - n - 1]
  {
  }

  lemma {:induction false} PrefixLengthOnly(a: Text, b: Text, n: nat)
    requires IsCommonPrefix(a, b, n)
    ensures n == PrefixLength(a, b)
  {
    PrefixLengthIs(a, b);
    OnePrefix(a, b, n, PrefixLength(a, b));
  }

  lemma {:induction false} SuffixLengthOnly(a: Text, b: Text, n: nat)
    requires IsCommonSuffix(a, b, n)
    ensures n == SuffixLength(a, b)
  {
    SuffixLengthIs(a, b);
    OneSuffix(a, b, n, SuffixLength(a, b));
  }

  lemma {:induction false} OnePrefix(a: Text, b: Text, m: nat, n: nat)
    requires IsCommonPrefix(a, b, m) && IsCommonPrefix(a, b, n)
    ensures m == n
  {
    WithinPrefix(a, b, m, n);
    WithinPrefix(a, b, n, m);
  }

  lemma {:induction false} WithinPrefix(a: Text, b: Text, m: nat, n: nat)
    requires IsCommonPrefix(a, b, n)
    ensures m < n ==> a[m] == b[m]
  {
    if m < n {
      assert a[m] == a[..n][m] && b[m] == b[..n][m];
    }
  }

  // ---------- a stretch that both texts share ----------

  /** Both texts around a stretch they share. */
  datatype Half = Half(longPrefix: Text, longSuffix: Text, shortPrefix: Text, shortSuffix: Text, common: Text)

  predicate Shares(h: Half, long: Text, short: Text) {
    long == h.longPrefix + h.common + h.longSuffix && short == h.shortPrefix + h.common + h.shortSuffix
  }

  /** The stretch shared around position `i` of the one text and `j` of the other. */
  predicate SharedAround(long: Text, short: Text, i: nat, j: nat, before: nat, after: nat)
    requires i <= |long| && j <= |short|
  {
    IsCommonPrefix(long[i..], short[j..], after) && IsCommonSuffix(long[..i], short[..j], before)
  }

  lemma {:induction false} StretchShared(long: Text, short: Text, i: nat, j: nat, before: nat, after: nat)
    requires i <= |long| && j <= |short| && SharedAround(long, short, i, j, before, after)
    ensures before <= i && before <= j && i + after <= |long| && j + after <= |short|
    ensures var common := short[j - before..j] + short[j..j + after];
      long == long[..i - before] + common + long[i + after..]
        && short == short[..j - before] + common + short[j + after..]
  {
    var x, y := long[..i], short[..j];
    assert x[|x| - before..] == y[|y| - before..];
    EndUpTo(long, i, before);
    EndUpTo(short, j, before);
    StartFrom(long, i, after);
    StartFrom(short, j, after);
    StretchOf(long, i, before, after);
    StretchOf(short, j, before, after);
  }

  lemma {:induction false} EndUpTo(t: Text, i: nat, n: nat)
    requires n <= i <= |t|
    ensures t[..i][|t[..i]| - n..] == t[i - n..i]
  {
  }

  lemma {:induction false} StartFrom(t: Text, i: nat, n: nat)
    requires i + n <= |t|
    ensures t[i..][..n] == t[i..i + n]
  {
  }

  lemma {:induction false} StretchOf(t: Text, i: nat, before: nat, after: nat)
    requires before <= i && i + after <= |t|
    ensures t == t[..i - before] + (t[i - before..i] + t[i..i + after]) + t[i + after..]
  {
  }

  /** The half found at position `j` of the shorter text. */
  function HalfAt(long: Text, short: Text, i: nat, j: nat, s: nat, m: nat): Half {
    Half(Substring(long, 0, i - s), SubstringFrom(long, i + m), Substring(short, 0, j - s), SubstringFrom(short, j + m),
      Substring(short, j - s, j) + Substring(short, j, j + m))
  }

  lemma {:induction false} HalfAtShares(long: Text, short: Text, i: nat, j: nat, s: nat, m: nat)
    requires i <= |long| && j <= |short| && SharedAround(long, short, i, j, s, m)
    ensures Shares(HalfAt(long, short, i, j, s, m), long, short) && |HalfAt(long, short, i, j, s, m).common| == s + m
  {
    StretchShared(long, short, i, j, s, m);
  }

  /** The stretch shared around place `i` of the one text and `j` of the other. */
  function StretchAround(long: Text, short: Text, i: nat, j: nat): Half
    requires i <= |long| && j <= |short|
  {
    HalfAt(long, short, i, j, SuffixLength(long[..i], short[..j]), PrefixLength(long[i..], short[j..]))
  }

  const NO_HALF := Half([], [], [], [], [])

  /** The best of the stretches around the places where the seed is found, from `from` on, and of the best so far. */
  function BestFrom(long: Text, short: Text, seed: Text, i: nat, from: nat, best: Half): Half
    requires i <= |long| && seed != []
    decreases |short| - from
  {
    var j := IndexOf(short, seed, from);
    if j == -1 then best
    else BestFrom(long, short, seed, i, j + 1, Better(best, StretchAround(long, short, i, j)))
  }

  function Better(best: Half, half: Half): Half {
    if |best.common| < |half.common| then half else best
  }

  /** The stretch found with the quarter of the longer text that begins at `i`, if it is long enough. */
  function HalfFrom(long: Text, short: Text, i: nat): Option<Half>
    requires |long| >= 4 && i < |long|
  {
    var best := BestFrom(long, short, Substring(long, i, i + |long| / 4), i, 0, NO_HALF);
    if 2 * |best.common| >= |long| then Some(best) else None
  }

  /** Of the stretches found with the second and with the third quarter, the longer one; if they are as long, the
      latter. */
  function LongerHalf(second: Option<Half>, third: Option<Half>): Option<Half> {
    if third.None? || (second.Some? && |second.value.common| > |third.value.common|) then second else third
  }

  function InOrder(half: Half, longFirst: bool): Half {
    if longFirst then half else Half(half.shortPrefix, half.shortSuffix, half.longPrefix, half.longSuffix, half.common)
  }

  /** The common half that the search finds; its parts are in the order of the texts. */
  function HalfOf(a: Text, b: Text): Option<Half> {
    var long, short := if |a| > |b| then a else b, if |a| > |b| then b else a;
    if |long| < 4 || 2 * |short| < |long| then None
    else
      var best := LongerHalf(HalfFrom(long, short, (|long| + 3) / 4), HalfFrom(long, short, (|long| + 1) / 2));
      if best.None? then None else Some(InOrder(best.value, |a| > |b|))
  }

  // ---------- what the search finds is the longest ----------

  /** No stretch shared around a place where the seed is found before `from` is longer than `n`. */
  ghost predicate NoLongerBefore(long: Text, short: Text, seed: Text, i: nat, from: nat, n: nat)
    requires i <= |long|
  {
    forall k: nat, before: nat, after: nat ::
      k < from && k <= |short| && MatchesAt(short, seed, k) && SharedAround(long, short, i, k, before, after) ==>
      before + after <= n
  }

  /** The first place, from `from` on, where the seed is found. */
  ghost predicate FirstFrom(s: Text, seed: Text, from: nat, j: int) {
    && (j == -1 || from <= j)
    && forall k {:trigger MatchesAt(s, seed, k)} :: from <= k && (j == -1 || k < j) ==> !MatchesAt(s, seed, k)
  }

  lemma {:induction false} NoLongerBeforeNext(long: Text, short: Text, seed: Text, i: nat, from: nat, n: nat, j: nat,
        s: nat, m: nat, n': nat)
    requires i <= |long| && NoLongerBefore(long, short, seed, i, from, n) && FirstFrom(short, seed, from, j)
    requires j <= |short|
    requires SharedAround(long, short, i, j, s, m) && n' >= n && n' >= s + m
    ensures NoLongerBefore(long, short, seed, i, j + 1, n')
  {
    forall k: nat, before: nat, after: nat | k < j + 1 && k <= |short| && MatchesAt(short, seed, k)
      && SharedAround(long, short, i, k, before, after)
      ensures before + after <= n'
    {
      if k == j {
        OneStretch(long, short, i, j, s, m, before, after);
      } else {
        assert k < from || !MatchesAt(short, seed, k);
      }
    }
  }

  lemma {:induction false} NoLongerAnywhere(long: Text, short: Text, seed: Text, i: nat, from: nat, n: nat)
    requires i <= |long| && NoLongerBefore(long, short, seed, i, from, n) && FirstFrom(short, seed, from, -1)
    ensures NoLongerBefore(long, short, seed, i, |short| + 1, n)
  {
  }

  lemma {:induction false} OneStretch(long: Text, short: Text, i: nat, j: nat, before: nat, after: nat, s: nat, m: nat)
    requires i <= |long| && j <= |short|
    requires SharedAround(long, short, i, j, before, after) && SharedAround(long, short, i, j, s, m)
    ensures s == before && m == after
  {
    OnePrefix(long[i..], short[j..], m, after);
    OneSuffix(long[..i], short[..j], s, before);
  }

  /** The best half known before place `from` has been looked at. */
  ghost predicate BestBefore(long: Text, short: Text, seed: Text, i: nat, from: nat, best: Half)
    requires i <= |long|
  {
    && (best.common != [] ==> Shares(best, long, short))
    && NoLongerBefore(long, short, seed, i, from, |best.common|)
  }

  lemma {:induction false} BestBeforeNext(long: Text, short: Text, seed: Text, i: nat, from: nat, j: nat, best: Half)
    requires i <= |long| && j <= |short| && FirstFrom(short, seed, from, j)
    requires BestBefore(long, short, seed, i, from, best)
    ensures BestBefore(long, short, seed, i, j + 1, Better(best, StretchAround(long, short, i, j)))
  {
    hide NoLongerBefore, FirstFrom, SharedAround, Shares, HalfAt, SuffixLength, PrefixLength;
    var s, m := SuffixLength(long[..i], short[..j]), PrefixLength(long[i..], short[j..]);
    SharedWithLengths(long, short, i, j);
    HalfAtShares(long, short, i, j, s, m);
    NoLongerBeforeNext(long, short, seed, i, from, |best.common|, j, s, m,
      if |best.common| < s + m then s + m else |best.common|);
  }

  lemma {:induction false} SharedWithLengths(long: Text, short: Text, i: nat, j: nat)
    requires i <= |long| && j <= |short|
    ensures SharedAround(long, short, i, j, SuffixLength(long[..i], short[..j]), PrefixLength(long[i..], short[j..]))
  {
    PrefixLengthIs(long[i..], short[j..]);
    SuffixLengthIs(long[..i], short[..j]);
  }

  lemma {:induction false} BestOfAll(long: Text, short: Text, seed: Text, i: nat, from: nat, best: Half)
    requires i <= |long| && seed != [] && BestBefore(long, short, seed, i, from, best)
    ensures BestBefore(long, short, seed, i, |short| + 1, BestFrom(long, short, seed, i, from, best))
    decreases |short| - from
  {
    hide BestBefore, NoLongerBefore, StretchAround, Better;
    var j := IndexOf(short, seed, from);
    if j == -1 {
      NoLongerThere(long, short, seed, i, from, best);
    } else {
      BestBeforeNext(long, short, seed, i, from, j, best);
      BestOfAll(long, short, seed, i, j + 1, Better(best, StretchAround(long, short, i, j)));
    }
  }

  lemma {:induction false} NoLongerThere(long: Text, short: Text, seed: Text, i: nat, from: nat, best: Half)
    requires i <= |long| && BestBefore(long, short, seed, i, from, best) && FirstFrom(short, seed, from, -1)
    ensures BestBefore(long, short, seed, i, |short| + 1, best)
  {
    NoLongerAnywhere(long, short, seed, i, from, |best.common|);
  }

  /** No stretch of half the longer text is shared around a place where the seed from position `i` is found. */
  ghost predicate NoHalfAt(long: Text, short: Text, i: nat)
    requires i <= |long|
  {
    exists n: nat :: 2 * n < |long|
      && NoLongerBefore(long, short, Substring(long, i, i + |long| / 4), i, |short| + 1, n)
  }

  /** Found or not: the stretch found is shared, and none shared around a place where the quarter is found is longer. */
  lemma {:induction false} HalfFromIsLongest(long: Text, short: Text, i: nat)
    requires |long| >= 4 && i < |long|
    ensures var half, seed := HalfFrom(long, short, i), Substring(long, i, i + |long| / 4);
      && (half.None? ==> NoHalfAt(long, short, i))
      && (half.Some? ==> Shares(half.value, long, short) && 2 * |half.value.common| >= |long|)
      && (half.Some? ==> NoLongerBefore(long, short, seed, i, |short| + 1, |half.value.common|))
  {
    hide BestFrom, Shares, NoLongerBefore, Substring;
    var seed := Substring(long, i, i + |long| / 4);
    SeedLength(long, i);
    NoneBefore(long, short, seed, i);
    BestOfAll(long, short, seed, i, 0, NO_HALF);
  }

  /** `h` is the stretch of so many units before and after shared around the two places. */
  ghost predicate StretchIs(long: Text, short: Text, i: nat, j: nat, before: nat, after: nat, h: Half)
    requires i <= |long| && j <= |short|
  {
    && SharedAround(long, short, i, j, before, after)
    && h == HalfAt(long, short, i, j, before, after) && before + after == |h.common|
  }

  /** A half of the stretch shared around place `j`, where the seed is found, and no stretch shared around an earlier
      such place is as long. */
  ghost predicate FirstFoundAt(long: Text, short: Text, seed: Text, i: nat, j: nat, h: Half)
    requires i <= |long|
  {
    && j <= |short| && MatchesAt(short, seed, j)
    && (exists before: nat, after: nat :: StretchIs(long, short, i, j, before, after, h))
    && h.common != [] && NoLongerBefore(long, short, seed, i, j, |h.common| - 1)
  }

  /** The stretch that a seed leads to: of the longest ones the one found first. */
  ghost predicate SeedLeadsTo(long: Text, short: Text, seed: Text, i: nat, h: Half)
    requires i <= |long|
  {
    exists j: nat :: FirstFoundAt(long, short, seed, i, j, h)
  }

  /** The stretch that the quarter beginning at `i` leads to. */
  ghost predicate LedTo(long: Text, short: Text, i: nat, h: Half)
    requires i <= |long|
  {
    SeedLeadsTo(long, short, Substring(long, i, i + |long| / 4), i, h)
  }

  ghost predicate NoneOrFirst(long: Text, short: Text, seed: Text, i: nat, best: Half)
    requires i <= |long|
  {
    best.common == [] || SeedLeadsTo(long, short, seed, i, best)
  }

  lemma {:induction false} BetterIsFirst(long: Text, short: Text, seed: Text, i: nat, from: nat, j: nat, best: Half)
    requires i <= |long| && j <= |short| && FirstFrom(short, seed, from, j) && MatchesAt(short, seed, j)
    requires NoLongerBefore(long, short, seed, i, from, |best.common|) && NoneOrFirst(long, short, seed, i, best)
    ensures NoneOrFirst(long, short, seed, i, Better(best, StretchAround(long, short, i, j)))
  {
    hide Shares, HalfAt, SuffixLength, PrefixLength, SharedAround, NoLongerBefore, MatchesAt, FirstFrom;
    var s, m := SuffixLength(long[..i], short[..j]), PrefixLength(long[i..], short[j..]);
    SharedWithLengths(long, short, i, j);
    HalfAtShares(long, short, i, j, s, m);
    var h := StretchAround(long, short, i, j);
    if |best.common| < |h.common| {
      NoLongerSoFar(long, short, seed, i, from, j, |best.common|, |h.common| - 1);
      assert StretchIs(long, short, i, j, s, m, h);
      assert FirstFoundAt(long, short, seed, i, j, h);
    }
  }

  lemma {:induction false} NoLongerSoFar(long: Text, short: Text, seed: Text, i: nat, from: nat, j: nat, n: nat, m: nat)
    requires i <= |long| && NoLongerBefore(long, short, seed, i, from, n) && n <= m && FirstFrom(short, seed, from, j)
    ensures NoLongerBefore(long, short, seed, i, j, m)
  {
    forall k: nat, before: nat, after: nat | k < j && k <= |short| && MatchesAt(short, seed, k)
      && SharedAround(long, short, i, k, before, after)
      ensures before + after <= m
    {
      assert k < from || !MatchesAt(short, seed, k);
    }
  }

  lemma {:induction false} FirstOfAll(long: Text, short: Text, seed: Text, i: nat, from: nat, best: Half)
    requires i <= |long| && seed != [] && BestBefore(long, short, seed, i, from, best)
    requires NoneOrFirst(long, short, seed, i, best)
    ensures NoneOrFirst(long, short, seed, i, BestFrom(long, short, seed, i, from, best))
    decreases |short| - from
  {
    hide NoneOrFirst, NoLongerBefore, StretchAround, Better;
    var j := IndexOf(short, seed, from);
    if j != -1 {
      BestBeforeNext(long, short, seed, i, from, j, best);
      BetterIsFirst(long, short, seed, i, from, j, best);
      FirstOfAll(long, short, seed, i, j + 1, Better(best, StretchAround(long, short, i, j)));
    }
  }

  /** A quarter leads to nothing exactly if no half is shared around a place where it is found. */
  lemma {:induction false} HalfFromExactly(long: Text, short: Text, i: nat)
    requires |long| >= 4 && i < |long|
    ensures HalfFrom(long, short, i).None? <==> NoHalfAt(long, short, i)
    ensures HalfFrom(long, short, i).Some? ==> LedTo(long, short, i, HalfFrom(long, short, i).value)
  {
    hide BestFrom, NoLongerBefore, Substring, Shares;
    HalfFromIsLongest(long, short, i);
    var seed := Substring(long, i, i + |long| / 4);
    SeedLength(long, i);
    NoneBefore(long, short, seed, i);
    FirstOfAll(long, short, seed, i, 0, NO_HALF);
    if HalfFrom(long, short, i).Some? {
      var h := HalfFrom(long, short, i).value;
      var j: nat :| FirstFoundAt(long, short, seed, i, j, h);
      HalfThere(long, short, i, j, h);
    }
  }

  lemma {:induction false} HalfThere(long: Text, short: Text, i: nat, j: nat, h: Half)
    requires i <= |long| && 2 * |h.common| >= |long|
    requires FirstFoundAt(long, short, Substring(long, i, i + |long| / 4), i, j, h)
    ensures !NoHalfAt(long, short, i)
  {
    hide SharedAround, HalfAt;
    var seed := Substring(long, i, i + |long| / 4);
    var before: nat, after: nat :| StretchIs(long, short, i, j, before, after, h);
    forall n: nat | 2 * n < |long| ensures !NoLongerBefore(long, short, seed, i, |short| + 1, n) {
      assert j < |short| + 1 && j <= |short| && MatchesAt(short, seed, j);
    }
  }

  lemma {:induction false} SeedLength(long: Text, i: nat)
    requires |long| >= 4 && i < |long|
    ensures Substring(long, i, i + |long| / 4) != []
  {
  }

  lemma {:induction false} NoneBefore(long: Text, short: Text, seed: Text, i: nat)
    requires i <= |long|
    ensures BestBefore(long, short, seed, i, 0, NO_HALF)
  {
  }

  /** A common half is shared by both texts, and at least half as long as either. */
  lemma {:induction false} HalfOfShares(a: Text, b: Text)
    ensures HalfOf(a, b).Some? ==> Shares(HalfOf(a, b).value, a, b) && HalfOf(a, b).value.common != []
    ensures HalfOf(a, b).Some? ==> 2 * |HalfOf(a, b).value.common| >= |a| && 2 * |HalfOf(a, b).value.common| >= |b|
  {
    hide HalfFrom, Shares, NoLongerBefore, NoHalfAt, Substring, InOrder;
    var long, short := if |a| > |b| then a else b, if |a| > |b| then b else a;
    if |long| >= 4 {
      HalfFromIsLongest(long, short, (|long| + 3) / 4);
      HalfFromIsLongest(long, short, (|long| + 1) / 2);
      if HalfOf(a, b).Some? {
        var best := LongerHalf(HalfFrom(long, short, (|long| + 3) / 4), HalfFrom(long, short, (|long| + 1) / 2));
        SharesInOrder(best.value, a, b);
      }
    }
  }

  lemma {:induction false} SharesInOrder(half: Half, a: Text, b: Text)
    ensures InOrder(half, |a| > |b|).common == half.common
    ensures if |a| > |b| then Shares(half, a, b) ==> Shares(InOrder(half, true), a, b)
      else Shares(half, b, a) ==> Shares(InOrder(half, false), a, b)
  {
  }

  // ---------- the search ----------

  method StretchAt(long: Text, short: Text, i: nat, j: nat, best: Half) returns (best': Half)
    requires i <= |long| && j <= |short|
    ensures best' == Better(best, StretchAround(long, short, i, j))
  {
    var m := CommonPrefix(SubstringFrom(long, i), SubstringFrom(short, j));
    var s := CommonSuffix(Substring(long, 0, i), Substring(short, 0, j));
    PrefixLengthOnly(long[i..], short[j..], m);
    SuffixLengthOnly(long[..i], short[..j], s);
    HalfAtShares(long, short, i, j, s, m);
    best' := if |best.common| < s + m then HalfAt(long, short, i, j, s, m) else best;
  }

  /** Looks for the quarter of the longer text that begins at `i` in the shorter one, and around each place where it is
      found. */
  method HalfMatchAt(long: Text, short: Text, i: nat) returns (half: Option<Half>)
    requires |long| >= 4 && i < |long|
    ensures half == HalfFrom(long, short, i)
  {
    hide Substring, StretchAround, BestFrom, IndexOf, MatchesAt;
    var seed := Substring(long, i, i + |long| / 4);
    SeedLength(long, i);
    var best, from := NO_HALF, 0;
    var j := IndexOf(short, seed, from);
    while j != -1
      invariant j == IndexOf(short, seed, from) && from <= |short|
      invariant BestFrom(long, short, seed, i, from, best) == BestFrom(long, short, seed, i, 0, NO_HALF)
      decreases |short| - from
    {
      BestFromNext(long, short, seed, i, from, best);
      best := StretchAt(long, short, i, j, best);
      from := j + 1;
      j := IndexOf(short, seed, from);
    }
    BestFromNext(long, short, seed, i, from, best);
    return if 2 * |best.common| >= |long| then Some(best) else None;
  }

  lemma {:induction false} BestFromNext(long: Text, short: Text, seed: Text, i: nat, from: nat, best: Half)
    requires i <= |long| && seed != []
    ensures var j := IndexOf(short, seed, from);
      && (j == -1 ==> BestFrom(long, short, seed, i, from, best) == best)
      && (j != -1 ==> from <= j < |short|)
      && (j != -1 ==> var better := Better(best, StretchAround(long, short, i, j));
        BestFrom(long, short, seed, i, from, best) == BestFrom(long, short, seed, i, j + 1, better))
  {
  }

  /** No stretch shared around a place where the quarter beginning at `i` is found is longer than `n`. */
  ghost predicate NoLongerAround(long: Text, short: Text, i: nat, n: nat)
    requires i <= |long|
  {
    NoLongerBefore(long, short, Substring(long, i, i + |long| / 4), i, |short| + 1, n)
  }

  /** What the search is for.  One text must not be too short, nor shorter than half the other; then there is no half
      exactly if neither the second quarter nor the third of the longer text leads to one.  If there is, it is what the
      third leads to, unless the second leads to something longer. */
  ghost predicate IsHalfOf(a: Text, b: Text, half: Option<Half>) {
    var long, short := if |a| > |b| then a else b, if |a| > |b| then b else a;
    if |long| < 4 || 2 * |short| < |long| then half.None?
    else
      var second, third := (|long| + 3) / 4, (|long| + 1) / 2;
      if half.None? then NoHalfAt(long, short, second) && NoHalfAt(long, short, third)
      else
        var h := InOrder(half.value, |a| > |b|);
        && 2 * |h.common| >= |long|
        && ((LedTo(long, short, third, h) && NoLongerAround(long, short, second, |h.common|))
          || (LedTo(long, short, second, h) && NoLongerAround(long, short, third, |h.common| - 1)))
        && NoLongerAround(long, short, second, |h.common|) && NoLongerAround(long, short, third, |h.common|)
  }

  lemma {:induction false} ShorterAround(long: Text, short: Text, i: nat, n: nat, m: nat)
    requires i <= |long| && NoLongerAround(long, short, i, n) && n <= m
    ensures NoLongerAround(long, short, i, m)
  {
  }

  lemma {:induction false} NoHalfIsShorter(long: Text, short: Text, i: nat, m: nat)
    requires i <= |long| && NoHalfAt(long, short, i) && 2 * m >= |long| > 0
    ensures NoLongerAround(long, short, i, m - 1)
  {
    hide NoLongerBefore;
    var n: nat :| 2 * n < |long|
      && NoLongerBefore(long, short, Substring(long, i, i + |long| / 4), i, |short| + 1, n);
    ShorterAround(long, short, i, n, m - 1);
  }

  lemma {:induction false} InOrderTwice(half: Half, longFirst: bool)
    ensures InOrder(InOrder(half, longFirst), longFirst) == half
    ensures InOrder(half, longFirst).common == half.common
  {
  }

  lemma {:induction false} NoneLongerAround(long: Text, short: Text, i: nat)
    requires |long| >= 4 && i < |long|
    ensures var half := HalfFrom(long, short, i);
      half.Some? ==> 2 * |half.value.common| >= |long| && NoLongerAround(long, short, i, |half.value.common|)
  {
    HalfFromIsLongest(long, short, i);
    hide HalfFrom, NoHalfAt, NoLongerBefore, Shares;
  }

  lemma {:induction false} HalfOfIsHalf(a: Text, b: Text)
    ensures IsHalfOf(a, b, HalfOf(a, b))
  {
    hide HalfFrom, NoHalfAt, LedTo, NoLongerBefore, NoLongerAround, Shares, InOrder;
    var long, short := if |a| > |b| then a else b, if |a| > |b| then b else a;
    if !(|long| < 4 || 2 * |short| < |long|) {
      var i, k := (|long| + 3) / 4, (|long| + 1) / 2;
      HalfFromExactly(long, short, i);
      HalfFromExactly(long, short, k);
      NoneLongerAround(long, short, i);
      NoneLongerAround(long, short, k);
      if HalfOf(a, b).Some? {
        var best := LongerHalf(HalfFrom(long, short, i), HalfFrom(long, short, k)).value;
        InOrderTwice(best, |a| > |b|);
        NeitherLonger(long, short, i, HalfFrom(long, short, i), |best.common|);
        NeitherLonger(long, short, k, HalfFrom(long, short, k), |best.common|);
      }
    }
  }

  lemma {:induction false} NeitherLonger(long: Text, short: Text, i: nat, half: Option<Half>, n: nat)
    requires i <= |long| && 2 * n >= |long| > 0
    requires half.None? ==> NoHalfAt(long, short, i)
    requires half.Some? ==> |half.value.common| <= n && NoLongerAround(long, short, i, |half.value.common|)
    ensures NoLongerAround(long, short, i, n)
    ensures (half.Some? ==> |half.value.common| < n) ==> NoLongerAround(long, short, i, n - 1)
  {
    hide NoLongerAround, NoHalfAt;
    if half.None? {
      NoHalfIsShorter(long, short, i, n);
      ShorterAround(long, short, i, n - 1, n);
    } else {
      ShorterAround(long, short, i, |half.value.common|, n);
      if |half.value.common| < n {
        ShorterAround(long, short, i, |half.value.common|, n - 1);
      }
    }
  }

  /** A stretch at least half as long as the longer text that both share; its parts are in the order of the texts. */
  method HalfMatch(a: Text, b: Text) returns (half: Option<Half>)
    ensures half == HalfOf(a, b)
    ensures IsHalfOf(a, b, half)
  {
    HalfOfIsHalf(a, b);
    hide HalfFrom, IsHalfOf, LedTo, NoHalfAt, NoLongerBefore, NoLongerAround, Shares;
    var long, short := if |a| > |b| then a else b, if |a| > |b| then b else a;
    if |long| < 4 || 2 * |short| < |long| {
      return None;
    }
    var second := HalfMatchAt(long, short, (|long| + 3) / 4);
    var third := HalfMatchAt(long, short, (|long| + 1) / 2);
    var best: Half;
    if second.None? && third.None? {
      return None;
    } else if third.None? {
      best := second.value;
    } else if second.None? {
      best := third.value;
    } else {
      best := if |second.value.common| > |third.value.common| then second.value else third.value;
    }
    if |a| > |b| {
      return Some(best);
    }
    return Some(Half(best.shortPrefix, best.shortSuffix, best.longPrefix, best.longSuffix, best.common));
  }
}
