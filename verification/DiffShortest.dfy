/**
 What a shortest diff is: no diff that leads from one text to another inserts and deletes fewer units than the texts
 are apart, and each of the short cuts taken before the search attains it if what is left is diffed as well.
 */
module DiffShortest {
  import opened DiffText
  import opened Diffs
  import opened DiffDistance

  // ---------- the least that any diff must insert and delete ----------

  lemma {:induction false} SameIsNowhereApart(s: Text)
    ensures Distance(s, s) == 0
  {
    SharedIsFree(s, s, false, |s|, |s|, |s|);
  }

  /** What is shared in front of two points on the way is free. */
  lemma {:induction false} SharedIsFree(a: Text, b: Text, backwards: bool, i: nat, j: nat, k: nat)
    requires k <= i <= |a| && k <= j <= |b|
    requires forall p: nat, q: nat :: i - k <= p < i && p - q == i - j ==>
        UnitAt(a, p, backwards) == UnitAt(b, q, backwards)
    ensures Reach(a, b, backwards, i, j) == Reach(a, b, backwards, i - k, j - k)
    decreases k
  {
    hide UnitAt;
    if k > 0 {
      SharedIsFree(a, b, backwards, i - 1, j - 1, k - 1);
    }
  }

  /** Texts cut into two parts are no farther apart than their parts together. */
  lemma {:induction false} PartsNoNearer(a: Text, b: Text, c: Text, d: Text)
    ensures Distance(a + c, b + d) <= Distance(a, b) + Distance(c, d)
  {
    hide Distance;
    NoShorterWay(a + c, b + d, |a|, |b|);
    ThroughParts(a + c, b + d, |a|, |b|);
    assert (a + c)[..|a|] == a && (a + c)[|a|..] == c && (b + d)[..|b|] == b && (b + d)[|b|..] == d;
  }

  /** Every diff inserts and deletes at least as many units as its two texts are apart. */
  lemma {:induction false} NoDiffShorter(ds: seq<Diff>)
    ensures Distance(Text1(ds), Text2(ds)) <= EditChars(ds)
  {
    hide Distance;
    if ds == [] {
      SameIsNowhereApart([]);
    } else {
      NoDiffShorter(ds[1..]);
      OneEntryApart(ds[0]);
      PartsNoNearer(Own(ds[0], Insert), Own(ds[0], Delete), Text1(ds[1..]), Text2(ds[1..]));
    }
  }

  lemma {:induction false} OneEntryApart(d: Diff)
    ensures Distance(Own(d, Insert), Own(d, Delete)) <= if d.op != Equal then |d.text| else 0
  {
    SameIsNowhereApart(d.text);
    ReachBounds(Own(d, Insert), Own(d, Delete), false, |Own(d, Insert)|, |Own(d, Delete)|);
  }

  // ---------- the short cuts ----------

  lemma {:induction false} EndIsFree(a: Text, b: Text, suffix: Text)
    ensures Distance(a + suffix, b + suffix) == Distance(a, b)
  {
    var (c, d) := (a + suffix, b + suffix);
    SharedIsFree(c, d, false, |c|, |d|, |suffix|);
    ReachOfParts(c, d, a, b, false, |a|, |b|);
  }

  lemma {:induction false} BeginningIsFree(prefix: Text, a: Text, b: Text)
    ensures Distance(prefix + a, prefix + b) == Distance(a, b)
  {
    var (c, d) := (prefix + a, prefix + b);
    SameBackwards(c, d);
    SharedIsFree(c, d, true, |c|, |d|, |prefix|);
    ReachOfParts(c, d, a, b, true, |a|, |b|);
    SameBackwards(a, b);
  }

  /** Cutting off what two texts begin and end with does not bring them nearer. */
  lemma {:induction false} EndsAreFree(prefix: Text, a: Text, b: Text, suffix: Text)
    ensures Distance(prefix + a + suffix, prefix + b + suffix) == Distance(a, b)
  {
    hide Distance;
    EndIsFree(prefix + a, prefix + b, suffix);
    BeginningIsFree(prefix, a, b);
  }

  lemma {:induction false} Symmetric(a: Text, b: Text, i: nat, j: nat)
    requires i <= |a| && j <= |b|
    ensures Reach(a, b, false, i, j) == Reach(b, a, false, j, i)
    decreases i + j
  {
    if i > 0 && j > 0 {
      Symmetric(a, b, i - 1, j);
      Symmetric(a, b, i, j - 1);
      Symmetric(a, b, i - 1, j - 1);
    }
  }

  lemma {:induction false} UnitNotIn(a: Text, b: Text, j: nat)
    requires |a| == 1 && j <= |b| && a[0] !in b
    ensures Reach(a, b, false, 1, j) == 1 + j
    decreases j
  {
    if j > 0 {
      UnitNotIn(a, b, j - 1);
    }
  }

  /** A single unit that the other text does not have is as far from it as can be. */
  lemma {:induction false} OneUnitApart(a: Text, b: Text)
    requires (|a| == 1 && a[0] !in b) || (|b| == 1 && b[0] !in a)
    ensures Distance(a, b) == |a| + |b|
  {
    if |a| == 1 && a[0] !in b {
      UnitNotIn(a, b, |b|);
    } else {
      UnitNotIn(b, a, |a|);
      Symmetric(a, b, |a|, |b|);
    }
  }

  /** The texts are at least as far apart as their lengths. */
  lemma {:induction false} LengthsApart(a: Text, b: Text)
    ensures |a| - |b| <= Distance(a, b) && |b| - |a| <= Distance(a, b) <= |a| + |b|
  {
    ReachBounds(a, b, false, |a|, |b|);
  }

  // ---------- diffing every run of edits again ----------

  /** How far apart the texts of each run of edits are, added up; `run` is what is gathered of the first. */
  ghost function RunsApart(run: seq<Diff>, ds: seq<Diff>): nat
    decreases |ds|
  {
    if ds == [] then Distance(Text1(run), Text2(run))
    else if ds[0].op == Equal then Distance(Text1(run), Text2(run)) + RunsApart([], ds[1..])
    else RunsApart(run + [ds[0]], ds[1..])
  }

  lemma {:induction false} SentinelApart(run: seq<Diff>, ds: seq<Diff>)
    ensures RunsApart(run, ds + [Diff(Equal, [])]) == RunsApart(run, ds)
    decreases |ds|
  {
    hide Distance;
    SameIsNowhereApart([]);
    var es := ds + [Diff(Equal, [])];
    if ds == [] {
      assert es[1..] == [];
    } else {
      assert es[0] == ds[0] && es[1..] == ds[1..] + [Diff(Equal, [])];
      SentinelApart([], ds[1..]);
      SentinelApart(run + [ds[0]], ds[1..]);
    }
  }

  /** A run of insertions only, or of deletions only, is as short as can be. */
  lemma {:induction false} OneKindIsShortest(a: Text, b: Text)
    requires a == [] || b == []
    ensures Distance(a, b) == |a| + |b|
  {
    LengthsApart(a, b);
  }

  /** What the diffs of `front` and the runs still to come amount to. */
  ghost predicate AddsUp(shortest: bool, front: seq<Diff>, run: seq<Diff>, rest: seq<Diff>, total: nat) {
    shortest ==> EditChars(front) + RunsApart(run, rest) == total
  }

  lemma {:induction false} GatheringAddsUp(shortest: bool, front: seq<Diff>, run: seq<Diff>, d: Diff, back: seq<Diff>,
        total: nat)
    requires AddsUp(shortest, front, run, [d] + back, total) && d.op != Equal
    ensures AddsUp(shortest, front, run + [d], back, total)
  {
    hide Distance;
    assert ([d] + back)[1..] == back;
  }

  lemma {:induction false} PassingAddsUp(shortest: bool, front: seq<Diff>, run: seq<Diff>, instead: seq<Diff>, d: Diff,
        back: seq<Diff>, total: nat)
    requires AddsUp(shortest, front, run, [d] + back, total) && d.op == Equal
    requires shortest ==> EditChars(instead) == Distance(Text1(run), Text2(run))
    ensures AddsUp(shortest, front + (instead + [d]), [], back, total)
  {
    hide Distance;
    assert ([d] + back)[1..] == back;
    EditCharsConcat(instead, [d]);
    EditCharsConcat(front, instead + [d]);
  }

  lemma {:induction false} AddedUp(shortest: bool, items: seq<Diff>, was: seq<Diff>)
    requires items != [] && items[|items| - 1] == Diff(Equal, [])
    requires AddsUp(shortest, items, [], [], RunsApart([], was + [Diff(Equal, [])]))
    ensures shortest ==> EditChars(items[..|items| - 1]) == RunsApart([], was)
  {
    SentinelApart([], was);
    SameIsNowhereApart([]);
    hide Distance;
    assert items == items[..|items| - 1] + [Diff(Equal, [])];
    EditCharsConcat(items[..|items| - 1], [Diff(Equal, [])]);
  }
}
