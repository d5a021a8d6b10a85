/**
 Quicksort with a moving hole: the pivot is taken out, and entries are moved into the hole from
 either end in turn, until the hole is where the pivot belongs.
 */
module QuickSort {
  /** Nothing outside `low` and `high` has changed. */
  ghost predicate SameOutside<T>(s: seq<T>, t: seq<T>, low: int, high: int) {
    |s| == |t| && forall k :: 0 <= k < |s| && (k < low || k >= high) ==> s[k] == t[k]
  }

  /** Copying an entry into the hole and making its place the hole keeps the entries there are. */
  lemma HoleMoves<T>(s: seq<T>, hole: nat, source: nat, x: T)
    requires hole < |s| && source < |s| && hole != source
    ensures multiset(s[hole := s[source]][source := x]) == multiset(s[hole := x])
  {
    var t := s[hole := x];
    assert s[hole := s[source]][source := x] == t[hole := t[source]][source := t[hole]];
  }

  lemma InParts<T>(s: seq<T>, low: int, high: int)
    requires 0 <= low <= high <= |s|
    ensures multiset(s) == multiset(s[..low]) + multiset(s[low..high]) + multiset(s[high..])
  {
    assert s == s[..low] + s[low..high] + s[high..];
  }

  lemma SumsCancel<T>(x: multiset<T>, y: multiset<T>, y': multiset<T>, z: multiset<T>)
    requires x + y + z == x + y' + z
    ensures y == y'
  {
    assert y == (x + y + z) - x - z;
    assert y' == (x + y' + z) - x - z;
  }

  /** A rearrangement that leaves the outside alone rearranges the inside. */
  lemma InsideRearranged<T>(s: seq<T>, t: seq<T>, low: int, high: int)
    requires SameOutside(s, t, low, high) && 0 <= low <= high <= |s| && multiset(s) == multiset(t)
    ensures multiset(s[low..high]) == multiset(t[low..high])
  {
    InParts(s, low, high);
    InParts(t, low, high);
    assert s[..low] == t[..low] && s[high..] == t[high..];
    SumsCancel(multiset(s[..low]), multiset(s[low..high]), multiset(t[low..high]), multiset(s[high..]));
  }

  /** What stands in a stretch has stood in it before. */
  lemma StoodInside<T>(s: seq<T>, t: seq<T>, low: int, high: int, k: int) returns (m: int)
    requires SameOutside(s, t, low, high) && 0 <= low <= k < high <= |s| && multiset(s) == multiset(t)
    ensures low <= m < high && t[k] == s[m]
  {
    InsideRearranged(s, t, low, high);
    assert t[k] == t[low..high][k - low];
    assert t[k] in multiset(s[low..high]);
    var i :| 0 <= i < |s[low..high]| && s[low..high][i] == t[k];
    m := low + i;
  }

  // ---------- ascending ----------

  ghost predicate Ascending(s: seq<int>, low: int, high: int)
    requires 0 <= low && high <= |s|
  {
    forall i, j :: low <= i < j < high ==> s[i] <= s[j]
  }

  /** The stretch from `l` to `r` is divided at `i`. */
  ghost predicate Divided(s: seq<int>, l: int, r: int, i: int)
    requires 0 <= l <= i <= r < |s|
  {
    (forall k :: l <= k < i ==> s[k] < s[i]) && (forall k :: i < k <= r ==> s[k] >= s[i])
  }

  /** On the way there, the pivot `x` having been taken out at `hole`. */
  ghost predicate Dividing(s: seq<int>, was: seq<int>, l: int, r: int, i: int, j: int, hole: int, x: int) {
    && 0 <= l <= i <= j <= r < |s| && 0 <= hole < |s|
    && (forall k :: l <= k < i ==> s[k] < x) && (forall k :: j < k <= r ==> s[k] >= x)
    && multiset(s[hole := x]) == multiset(was) && SameOutside(was, s, l, r + 1)
  }

  /** From the right, the first entry less than `x`. */
  method ScanDown(s: array<int>, i: nat, start: nat, x: int) returns (j: nat)
    requires i <= start < s.Length
    ensures i <= j <= start && (forall k :: j < k <= start ==> s[k] >= x) && (i < j ==> s[j] < x)
  {
    j := start;
    while i < j && s[j] >= x
      invariant i <= j <= start && forall k :: j < k <= start ==> s[k] >= x
    {
      j := j - 1;
    }
  }

  /** From the left, the first entry not less than `x`. */
  method ScanUp(s: array<int>, start: nat, j: nat, x: int) returns (i: nat)
    requires start <= j < s.Length
    ensures start <= i <= j && (forall k :: start <= k < i ==> s[k] < x) && (i < j ==> s[i] >= x)
  {
    i := start;
    while i < j && s[i] < x
      invariant start <= i <= j && forall k :: start <= k < i ==> s[k] < x
    {
      i := i + 1;
    }
  }

  /** What has been scanned from the right stays there, and the entry found fills the hole and leaves another. */
  lemma {:induction false} TakenFromRight(s: seq<int>, was: seq<int>, l: int, r: int, i: int, j0: int, j: int, x: int)
    requires Dividing(s, was, l, r, i, j0, i, x) && i <= j <= j0 && forall k :: j < k <= j0 ==> s[k] >= x
    ensures Dividing(s, was, l, r, i, j, i, x)
    ensures i < j && s[j] < x ==> Dividing(s[i := s[j]], was, l, r, i + 1, j, j, x)
  {
    if i < j {
      HoleMoves(s, i, j, x);
    }
  }

  lemma {:induction false} TakenFromLeft(s: seq<int>, was: seq<int>, l: int, r: int, i0: int, i: int, j: int, x: int)
    requires Dividing(s, was, l, r, i0, j, j, x) && i0 <= i <= j && forall k :: i0 <= k < i ==> s[k] < x
    ensures i == j ==> Dividing(s, was, l, r, i, j, i, x)
    ensures i < j && s[i] >= x ==> Dividing(s[j := s[i]], was, l, r, i, j - 1, i, x)
  {
    if i < j {
      HoleMoves(s, j, i, x);
    }
  }

  /** One turn: an entry less than the pivot is moved from the right into the hole, then one not less from the left. */
  method Turn(s: array<int>, l: nat, r: nat, i0: nat, j0: nat, x: int, ghost was: seq<int>) returns (i: nat, j: nat)
    requires i0 < j0 && Dividing(s[..], was, l, r, i0, j0, i0, x)
    modifies s
    ensures Dividing(s[..], was, l, r, i, j, i, x) && j - i < j0 - i0
  {
    i := i0;
    assert j0 < s.Length;
    hide Dividing;
    j := ScanDown(s, i0, j0, x);
    TakenFromRight(s[..], was, l, r, i, j0, j, x);
    if i < j {
      ghost var before := s[..];
      s[i] := s[j];
      assert s[..] == before[i := before[j]];
      ghost var half := s[..];
      i := ScanUp(s, i + 1, j, x);
      TakenFromLeft(half, was, l, r, i0 + 1, i, j, x);
      if i < j {
        s[j] := s[i];
        assert s[..] == half[j := half[i]];
        j := j - 1;
      }
    }
  }

  /** Divides the stretch from `l` to `r` at the place the pivot comes to. */
  method Partition(s: array<int>, l: nat, r: nat) returns (i: nat)
    requires l < r < s.Length
    modifies s
    ensures l <= i <= r && Divided(s[..], l, r, i)
    ensures multiset(s[..]) == multiset(old(s[..])) && SameOutside(old(s[..]), s[..], l, r + 1)
  {
    i := l;
    var j, x := r, s[l];
    assert s[..][l := x] == s[..];
    while i < j
      invariant Dividing(s[..], old(s[..]), l, r, i, j, i, x)
      decreases j - i
    {
      i, j := Turn(s, l, r, i, j, x, old(s[..]));
    }
    ghost var before := s[..];
    s[i] := x;
    assert s[..] == before[i := x];
  }

  /** Sorting both sides of a divided stretch sorts it. */
  lemma SidesSorted(divided: seq<int>, half: seq<int>, after: seq<int>, l: int, i: int, r: int)
    requires 0 <= l <= i <= r < |divided| == |half| == |after| && Divided(divided, l, r, i)
    requires multiset(half) == multiset(divided) && SameOutside(divided, half, l, i) && Ascending(half, l, i)
    requires multiset(after) == multiset(half) && SameOutside(half, after, i + 1, r + 1)
    requires Ascending(after, i + 1, r + 1)
    ensures Ascending(after, l, r + 1)
  {
    forall k | l <= k <= r
      ensures (k < i ==> after[k] < divided[i]) && (k >= i ==> after[k] >= divided[i])
    {
      if k < i {
        var m := StoodInside(divided, half, l, i, k);
      } else if k > i {
        var m := StoodInside(half, after, i + 1, r + 1, k);
      }
    }
    forall k, m | l <= k < m < i
      ensures after[k] <= after[m]
    {
      assert after[k] == half[k] && after[m] == half[m];
    }
  }

  /** Sorts the stretch from `l` to `r`. */
  method Sort(s: array<int>, l: int, r: int)
    requires 0 <= l <= r + 1 <= s.Length
    modifies s
    ensures Ascending(s[..], l, r + 1)
    ensures multiset(s[..]) == multiset(old(s[..])) && SameOutside(old(s[..]), s[..], l, r + 1)
    decreases r + 1 - l
  {
    if l < r {
      var i: int := Partition(s, l, r);
      ghost var divided := s[..];
      Sort(s, l, i - 1);
      ghost var half := s[..];
      Sort(s, i + 1, r);
      SidesSorted(divided, half, s[..], l, i, r);
    }
  }
}
