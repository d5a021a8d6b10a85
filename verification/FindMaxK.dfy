/**
 The `k` greatest of an array of reals: the array is sorted in descending order by a quicksort
 with a moving hole, and its first `k` entries are taken.
 */
module FindMaxK {
  import opened Wrappers
  import opened QuickSort

  ghost predicate Descending(a: seq<real>, low: int, high: int)
    requires 0 <= low && high <= |a|
  {
    forall i, j :: low <= i < j < high ==> a[i] >= a[j]
  }

  /** The stretch from `first` to `last` is parted at `i`. */
  ghost predicate Parted(a: seq<real>, first: int, last: int, i: int)
    requires 0 <= first <= i <= last < |a|
  {
    (forall k :: first <= k < i ==> a[k] >= a[i]) && (forall k :: i < k <= last ==> a[k] <= a[i])
  }

  /** On the way there, the pivot `temp` having been taken out at `hole`. */
  ghost predicate Parting(a: seq<real>, was: seq<real>, first: int, last: int, i: int, j: int, hole: int, temp: real) {
    && 0 <= first <= i <= j <= last < |a| && 0 <= hole < |a|
    && (forall k :: first <= k < i ==> a[k] >= temp) && (forall k :: j < k <= last ==> a[k] <= temp)
    && multiset(a[hole := temp]) == multiset(was) && SameOutside(was, a, first, last + 1)
  }

  /** From the right, the first entry greater than `temp`. */
  method SkipSmaller(a: array<real>, i: nat, start: nat, temp: real) returns (j: nat)
    requires i <= start < a.Length
    ensures i <= j <= start && (forall k :: j < k <= start ==> a[k] <= temp) && (i < j ==> a[j] > temp)
  {
    j := start;
    while i < j && a[j] <= temp
      invariant i <= j <= start && forall k :: j < k <= start ==> a[k] <= temp
    {
      j := j - 1;
    }
  }

  /** From the left, the first entry less than `temp`. */
  method SkipGreater(a: array<real>, start: nat, j: nat, temp: real) returns (i: nat)
    requires start <= j < a.Length
    ensures start <= i <= j && (forall k :: start <= k < i ==> a[k] >= temp) && (i < j ==> a[i] < temp)
  {
    i := start;
    while i < j && a[i] >= temp
      invariant start <= i <= j && forall k :: start <= k < i ==> a[k] >= temp
    {
      i := i + 1;
    }
  }

  /** A greater entry is moved from the right into the hole at `i`; the hole is then at `j`. */
  method MoveFromRight(a: array<real>, first: nat, last: nat, i0: nat, j0: nat, temp: real, ghost was: seq<real>)
    returns (i: nat, j: nat)
    requires i0 < j0 && Parting(a[..], was, first, last, i0, j0, i0, temp)
    modifies a
    ensures Parting(a[..], was, first, last, i, j, j, temp) && j - i < j0 - i0
  {
    i := i0;
    j := SkipSmaller(a, i0, j0, temp);
    if i < j {
      HoleMoves(a[..], i, j, temp);
      a[i] := a[j];
      i := i + 1;
    }
  }

  /** A smaller entry is moved from the left into the hole at `j`; the hole is then at `i`. */
  method MoveFromLeft(a: array<real>, first: nat, last: nat, i0: nat, j0: nat, temp: real, ghost was: seq<real>)
    returns (i: nat, j: nat)
    requires Parting(a[..], was, first, last, i0, j0, j0, temp)
    modifies a
    ensures Parting(a[..], was, first, last, i, j, i, temp) && j - i <= j0 - i0
  {
    j := j0;
    i := SkipGreater(a, i0, j0, temp);
    if i < j {
      HoleMoves(a[..], j, i, temp);
      a[j] := a[i];
      j := j - 1;
    }
  }

  method PartitionDown(a: array<real>, first: nat, last: nat) returns (i: nat)
    requires first < last < a.Length
    modifies a
    ensures first <= i <= last && Parted(a[..], first, last, i)
    ensures multiset(a[..]) == multiset(old(a[..])) && SameOutside(old(a[..]), a[..], first, last + 1)
  {
    i := first;
    var j, temp := last, a[first];
    assert a[..][first := temp] == a[..];
    while i < j
      invariant Parting(a[..], old(a[..]), first, last, i, j, i, temp)
      decreases j - i
    {
      i, j := MoveFromRight(a, first, last, i, j, temp, old(a[..]));
      i, j := MoveFromLeft(a, first, last, i, j, temp, old(a[..]));
    }
    ghost var before := a[..];
    a[i] := temp;
    assert a[..] == before[i := temp];
  }

  /** Sorting both sides of a parted stretch sorts it. */
  lemma BothSidesSorted(parted: seq<real>, half: seq<real>, after: seq<real>, first: int, i: int, last: int)
    requires 0 <= first <= i <= last < |parted| == |half| == |after| && Parted(parted, first, last, i)
    requires multiset(half) == multiset(parted) && SameOutside(parted, half, first, i) && Descending(half, first, i)
    requires multiset(after) == multiset(half) && SameOutside(half, after, i + 1, last + 1)
    requires Descending(after, i + 1, last + 1)
    ensures Descending(after, first, last + 1)
  {
    forall k | first <= k <= last
      ensures (k < i ==> after[k] >= parted[i]) && (k >= i ==> after[k] <= parted[i])
    {
      if k < i {
        var m := StoodInside(parted, half, first, i, k);
      } else if k > i {
        var m := StoodInside(half, after, i + 1, last + 1, k);
      }
    }
    forall k, m | first <= k < m < i
      ensures after[k] >= after[m]
    {
      assert after[k] == half[k] && after[m] == half[m];
    }
  }

  method SortDown(a: array<real>, first: int, last: int)
    requires 0 <= first <= last + 1 <= a.Length
    modifies a
    ensures Descending(a[..], first, last + 1)
    ensures multiset(a[..]) == multiset(old(a[..])) && SameOutside(old(a[..]), a[..], first, last + 1)
    decreases last + 1 - first
  {
    if first < last {
      var i: int := PartitionDown(a, first, last);
      ghost var parted := a[..];
      SortDown(a, first, i - 1);
      ghost var half := a[..];
      SortDown(a, i + 1, last);
      BothSidesSorted(parted, half, a[..], first, i, last);
    }
  }

  /** In descending order, entries that together with the rest are all there are, none of the rest being greater. */
  ghost predicate GreatestOf(greatest: seq<real>, rest: seq<real>, all: seq<real>) {
    && multiset(greatest) + multiset(rest) == multiset(all) && Descending(greatest, 0, |greatest|)
    && forall x, y :: x in greatest && y in rest ==> x >= y
  }

  /** What `maxK` puts out, or nothing if there are fewer than `k` entries: they and the rest are the entries, and none
      of the rest is greater. */
  method MaxK(a: array<real>, k: int) returns (greatest: Option<seq<real>>)
    modifies a
    ensures greatest.Some? <==> k <= a.Length
    ensures greatest.None? ==> a[..] == old(a[..])
    ensures greatest.Some? ==>
      |greatest.value| == (if k < 0 then 0 else k) && GreatestOf(greatest.value, a[|greatest.value|..], old(a[..]))
  {
    if k > a.Length {
      return None;
    }
    SortDown(a, 0, a.Length - 1);
    var out: seq<real> := [];
    var i := 0;
    while i < k
      invariant 0 <= i && (i <= k || i == 0) && i <= a.Length && out == a[..i]
    {
      out := out + [a[i]];
      i := i + 1;
    }
    FirstAreGreatest(a[..], i);
    assert a[..][i..] == a[i..] && a[..][..i] == a[..i];
    return Some(out);
  }

  lemma FirstAreGreatest(s: seq<real>, k: nat)
    requires k <= |s| && Descending(s, 0, |s|)
    ensures multiset(s[..k]) + multiset(s[k..]) == multiset(s)
    ensures forall x, y :: x in s[..k] && y in s[k..] ==> x >= y
  {
    assert s == s[..k] + s[k..];
  }
}
