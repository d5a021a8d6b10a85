/**
 What the half match costs: two texts whose common half does not lie on a shortest way from one to the other.
 */
module DiffDetour {
  import opened Wrappers
  import opened DiffText
  import opened DiffDistance
  import opened DiffShortest
  import opened DiffHalf

  /** "abcdab" ... */
  const LONG: Text := [97, 98, 99, 100, 97, 98]
  /** ... and "bcabc", which share "abc". */
  const SHORT: Text := [98, 99, 97, 98, 99]

  // ---------- what the search for a half finds ----------

  lemma {:induction false} OneUnitFound(s: Text, c: CodeUnit, from: nat, i: nat)
    requires from <= i && forall j :: from <= j < i && j < |s| ==> s[j] != c
    ensures IndexOf(s, [c], from) == if i < |s| && s[i] == c then i else if i >= |s| then -1 else IndexOf(s, [c], i)
    decreases i - from
  {
    if from < |s| {
      assert s[from..from + 1] == [s[from]];
      if from < i {
        OneUnitFound(s, c, from + 1, i);
      }
    }
  }

  lemma {:induction false} BestNext(long: Text, short: Text, seed: Text, i: nat, from: nat, best: Half)
    requires i <= |long| && seed != []
    ensures var j := IndexOf(short, seed, from);
      BestFrom(long, short, seed, i, from, best) == if j == -1 then best
        else BestFrom(long, short, seed, i, j + 1, Better(best, StretchAround(long, short, i, j)))
  {
  }

  lemma {:induction false} SecondQuarter()
    ensures HalfFrom(LONG, SHORT, 2) == Some(Half([], [100, 97, 98], [98, 99], [], [97, 98, 99]))
  {
    hide IndexOf, StretchAround, BestFrom, MatchesAt;
    assert Substring(LONG, 2, 3) == [99];
    OneUnitFound(SHORT, 99, 0, 1);
    OneUnitFound(SHORT, 99, 2, 4);
    OneUnitFound(SHORT, 99, 5, 5);
    AroundFirst();
    AroundLast();
    var first, last := StretchAround(LONG, SHORT, 2, 1), StretchAround(LONG, SHORT, 2, 4);
    BestNext(LONG, SHORT, [99], 2, 0, NO_HALF);
    BestNext(LONG, SHORT, [99], 2, 2, first);
    BestNext(LONG, SHORT, [99], 2, 5, last);
  }

  lemma {:induction false} CutAt(t: Text, u: Text, v: Text)
    requires t == u + v
    ensures t[..|u|] == u && t[|u|..] == v
  {
  }

  lemma {:induction false} AroundFirst()
    ensures |StretchAround(LONG, SHORT, 2, 1).common| == 2
  {
    hide PrefixLength, SuffixLength, IsCommonPrefix, IsCommonSuffix;
    CutAt(LONG, [97, 98], [99, 100, 97, 98]);
    CutAt(SHORT, [98], [99, 97, 98, 99]);
    FirstEnds([99, 100, 97, 98], [99, 97, 98, 99], [97, 98], [98]);
  }

  lemma {:induction false} FirstEnds(a: Text, b: Text, c: Text, d: Text)
    requires a == [99, 100, 97, 98] && b == [99, 97, 98, 99] && c == [97, 98] && d == [98]
    ensures PrefixLength(a, b) == 1 && SuffixLength(c, d) == 1
  {
    assert a[..1] == b[..1] && c[1..] == d[0..];
    PrefixLengthOnly(a, b, 1);
    SuffixLengthOnly(c, d, 1);
  }

  lemma {:induction false} AroundLast()
    ensures StretchAround(LONG, SHORT, 2, 4) == Half([], [100, 97, 98], [98, 99], [], [97, 98, 99])
  {
    hide PrefixLength, SuffixLength, HalfAt;
    CutAt(LONG, [97, 98], [99, 100, 97, 98]);
    CutAt(SHORT, [98, 99, 97, 98], [99]);
    LastEnds([99, 100, 97, 98], [99], [97, 98], [98, 99, 97, 98]);
    HalfOfLast();
  }

  lemma {:induction false} HalfOfLast()
    ensures HalfAt(LONG, SHORT, 2, 4, 2, 1) == Half([], [100, 97, 98], [98, 99], [], [97, 98, 99])
  {
    CutAt(LONG, [97, 98, 99], [100, 97, 98]);
    CutAt(SHORT, [98, 99], [97, 98, 99]);
    assert Substring(SHORT, 2, 4) == [97, 98] && Substring(SHORT, 4, 5) == [99];
  }

  lemma {:induction false} LastEnds(a: Text, b: Text, c: Text, d: Text)
    requires a == [99, 100, 97, 98] && b == [99] && c == [97, 98] && d == [98, 99, 97, 98]
    ensures PrefixLength(a, b) == 1 && SuffixLength(c, d) == 2
  {
    assert a[..1] == b[..1] && c[0..] == d[2..];
    PrefixLengthOnly(a, b, 1);
    SuffixLengthOnly(c, d, 2);
  }

  lemma {:induction false} ThirdQuarter()
    ensures HalfFrom(LONG, SHORT, 3) == None
  {
    assert Substring(LONG, 3, 4) == [100];
    OneUnitFound(SHORT, 100, 0, 5);
  }

  // ---------- and what it costs ----------

  lemma {:induction false} ThreeEdits()
    ensures Distance(LONG, SHORT) <= 3
  {
    hide Distance;
    var a, b, c: Text := [98, 99], [97, 98], [99];
    LengthsApart([97], []);
    LengthsApart([100], []);
    LengthsApart([], c);
    PartsNoNearer([97], [], a + ([100] + b), a + (b + c));
    BeginningIsFree(a, [100] + b, b + c);
    PartsNoNearer([100], [], b, b + c);
    assert b == b + [];
    BeginningIsFree(b, [], c);
    assert LONG == [97] + (a + ([100] + b)) && SHORT == [] + (a + (b + c)) && b + c == [] + (b + c);
  }

  /** The half match leads away from the shortest way: around the half that it finds the texts are farther apart. */
  lemma {:induction false} HalfIsNotShortest()
    ensures var half := HalfOf(LONG, SHORT);
      half.Some? && Distance(half.value.longPrefix, half.value.shortPrefix)
        + Distance(half.value.longSuffix, half.value.shortSuffix) > Distance(LONG, SHORT)
  {
    hide Distance, HalfFrom;
    SecondQuarter();
    ThirdQuarter();
    LengthsApart([], [98, 99]);
    LengthsApart([100, 97, 98], []);
    ThreeEdits();
  }
}
