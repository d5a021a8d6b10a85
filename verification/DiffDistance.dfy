/**
 How far apart two texts are: the least number of units that must be deleted or inserted.
 The distance is followed from either end, over the grid of the beginnings (or the ends) of both texts.
 */
module DiffDistance {
  import opened DiffText

  /** The `i`th unit counted from the end the walk starts at. */
  function UnitAt(s: Text, i: nat, backwards: bool): CodeUnit
    requires i < |s|
  {
    if backwards then s[|s| - i - 1] else s[i]
  }

  /** The distance between the first `i` units of one text and the first `j` of the other, as counted. */
  function Reach(a: Text, b: Text, backwards: bool, i: nat, j: nat): nat
    requires i <= |a| && j <= |b|
    decreases i + j
  {
    if i == 0 then j
    else if j == 0 then i
    else if UnitAt(a, i - 1, backwards) == UnitAt(b, j - 1, backwards) then Reach(a, b, backwards, i - 1, j - 1)
    else
      var (left, up) := (Reach(a, b, backwards, i - 1, j), Reach(a, b, backwards, i, j - 1));
      1 + if left <= up then left else up
  }

  function Distance(a: Text, b: Text): nat {
    Reach(a, b, false, |a|, |b|)
  }

  // ---------- neighbours ----------

  /** One unit more on one side makes the distance one more or one less. */
  ghost predicate Near(a: Text, b: Text, backwards: bool, i: nat, j: nat)
    requires i <= |a| && j <= |b|
  {
    var here := Reach(a, b, backwards, i, j);
    && (i > 0 ==> here == Reach(a, b, backwards, i - 1, j) + 1 || here == Reach(a, b, backwards, i - 1, j) - 1)
    && (j > 0 ==> here == Reach(a, b, backwards, i, j - 1) + 1 || here == Reach(a, b, backwards, i, j - 1) - 1)
  }

  lemma {:induction false} NeighboursNear(a: Text, b: Text, backwards: bool, i: nat, j: nat)
    requires i <= |a| && j <= |b|
    ensures Near(a, b, backwards, i, j)
    decreases i + j
  {
    if i > 0 {
      NeighboursNear(a, b, backwards, i - 1, j);
    }
    if j > 0 {
      NeighboursNear(a, b, backwards, i, j - 1);
    }
    if i > 0 && j > 0 {
      NeighboursNear(a, b, backwards, i - 1, j - 1);
    }
  }

  lemma {:induction false} OneAlong(a: Text, b: Text, backwards: bool, i: nat, j: nat)
    requires i < |a| && j < |b|
    ensures Reach(a, b, backwards, i, j) <= Reach(a, b, backwards, i + 1, j + 1)
  {
    NeighboursNear(a, b, backwards, i, j + 1);
    NeighboursNear(a, b, backwards, i + 1, j);
    NeighboursNear(a, b, backwards, i + 1, j + 1);
  }

  /** Along a diagonal the distance never gets less. */
  lemma {:induction false} AlongDiagonal(a: Text, b: Text, backwards: bool, i: nat, j: nat, k: nat)
    requires i + k <= |a| && j + k <= |b|
    ensures Reach(a, b, backwards, i, j) <= Reach(a, b, backwards, i + k, j + k)
    decreases k
  {
    hide Reach;
    if k > 0 {
      AlongDiagonal(a, b, backwards, i, j, k - 1);
      OneAlong(a, b, backwards, i + k - 1, j + k - 1);
    }
  }

  /** It is no less than the difference in length, no more than both lengths, and even with the lengths' difference. */
  lemma {:induction false} ReachBounds(a: Text, b: Text, backwards: bool, i: nat, j: nat)
    requires i <= |a| && j <= |b|
    ensures var reach := Reach(a, b, backwards, i, j);
      i - j <= reach && j - i <= reach <= i + j && (reach - (i - j)) % 2 == 0
    decreases i + j
  {
    if i > 0 {
      ReachBounds(a, b, backwards, i - 1, j);
      NeighboursNear(a, b, backwards, i, j);
    } else if j > 0 {
      ReachBounds(a, b, backwards, i, j - 1);
    }
    if i > 0 && j > 0 {
      ReachBounds(a, b, backwards, i, j - 1);
      ReachBounds(a, b, backwards, i - 1, j - 1);
    }
  }

  // ---------- ways through the grid ----------

  /** The distance of what is before a point and that of what is behind it. */
  function Through(a: Text, b: Text, i: nat, j: nat): nat
    requires i <= |a| && j <= |b|
  {
    Reach(a, b, false, i, j) + Reach(a, b, true, |a| - i, |b| - j)
  }

  /** No way through a point is shorter than the shortest. */
  lemma {:induction false} NoShorterWay(a: Text, b: Text, i: nat, j: nat)
    requires i <= |a| && j <= |b|
    ensures Distance(a, b) <= Through(a, b, i, j)
    decreases |a| - i + |b| - j
  {
    if i < |a| && j < |b| && a[i] == b[j] {
      NoShorterWay(a, b, i + 1, j + 1);
    } else {
      if i < |a| {
        NoShorterWay(a, b, i + 1, j);
        NeighboursNear(a, b, false, i + 1, j);
      }
      if j < |b| {
        NoShorterWay(a, b, i, j + 1);
        NeighboursNear(a, b, false, i, j + 1);
      }
    }
  }

  /** A shortest way that leads through a point has come there from another, no distance from it or one. */
  lemma {:induction false} OneBack(a: Text, b: Text, i: nat, j: nat) returns (x: nat, y: nat)
    requires i <= |a| && j <= |b| && Reach(a, b, false, i, j) > 0 && Through(a, b, i, j) == Distance(a, b)
    ensures x <= i && y <= j && x + y < i + j && Through(a, b, x, y) == Distance(a, b)
    ensures Reach(a, b, false, i, j) - 1 <= Reach(a, b, false, x, y) <= Reach(a, b, false, i, j)
  {
    hide Distance;
    if i > 0 && j > 0 && a[i - 1] == b[j - 1] {
      x, y := i - 1, j - 1;
    } else if j == 0 || (i > 0 && Reach(a, b, false, i - 1, j) < Reach(a, b, false, i, j)) {
      x, y := i - 1, j;
      NeighboursNear(a, b, true, |a| - x, |b| - y);
    } else {
      x, y := i, j - 1;
      NeighboursNear(a, b, true, |a| - x, |b| - y);
    }
    NoShorterWay(a, b, x, y);
  }

  /** A shortest way passes through a point at any distance from the beginning. */
  lemma {:induction false} PointOnWay(a: Text, b: Text, i: nat, j: nat, steps: nat) returns (x: nat, y: nat)
    requires i <= |a| && j <= |b| && Through(a, b, i, j) == Distance(a, b) && steps <= Reach(a, b, false, i, j)
    ensures x <= |a| && y <= |b| && Reach(a, b, false, x, y) == steps && Through(a, b, x, y) == Distance(a, b)
    decreases i + j
  {
    hide Through, Reach, Distance;
    x, y := i, j;
    if steps < Reach(a, b, false, i, j) {
      x, y := OneBack(a, b, i, j);
      x, y := PointOnWay(a, b, x, y, steps);
    }
  }

  lemma {:induction false} SameBackwards(a: Text, b: Text)
    ensures Reach(a, b, true, |a|, |b|) == Distance(a, b)
  {
    var x, y := PointOnWay(a, b, |a|, |b|, 0);
    WholeBehind(a, b, x, y);
    NoShorterWay(a, b, 0, 0);
  }

  /** What is at no distance from the beginning has all the distance behind it. */
  lemma {:induction false} WholeBehind(a: Text, b: Text, x: nat, y: nat)
    requires x <= |a| && y <= |b| && Reach(a, b, false, x, y) == 0
    ensures Reach(a, b, true, |a|, |b|) == Reach(a, b, true, |a| - x, |b| - y)
    decreases x + y
  {
    if x > 0 && y > 0 {
      WholeBehind(a, b, x - 1, y - 1);
    }
  }

  // ---------- parts of texts ----------

  lemma {:induction false} ReachOfParts(a: Text, b: Text, c: Text, d: Text, backwards: bool, i: nat, j: nat)
    requires i <= |a| && j <= |b| && i <= |c| && j <= |d|
    requires forall k :: 0 <= k < i ==> UnitAt(a, k, backwards) == UnitAt(c, k, backwards)
    requires forall k :: 0 <= k < j ==> UnitAt(b, k, backwards) == UnitAt(d, k, backwards)
    ensures Reach(a, b, backwards, i, j) == Reach(c, d, backwards, i, j)
    decreases i + j
  {
    hide UnitAt;
    if i > 0 && j > 0 {
      ReachOfParts(a, b, c, d, backwards, i - 1, j);
      ReachOfParts(a, b, c, d, backwards, i, j - 1);
      ReachOfParts(a, b, c, d, backwards, i - 1, j - 1);
    }
  }

  /** Through a point: the distance of the parts before it, and of those behind it. */
  lemma {:induction false} ThroughParts(a: Text, b: Text, i: nat, j: nat)
    requires i <= |a| && j <= |b|
    ensures Through(a, b, i, j) == Distance(a[..i], b[..j]) + Distance(a[i..], b[j..])
  {
    ReachOfParts(a, b, a[..i], b[..j], false, i, j);
    ReachOfParts(a, b, a[i..], b[j..], true, |a| - i, |b| - j);
    SameBackwards(a[i..], b[j..]);
  }
}
