/**
 Heap sort of strings, in place.
 */
module HeapSort {
  type CodeUnit = u: int | 0 <= u < 0x1_0000

  type Str = seq<CodeUnit>

  /** `a.compareTo(b) < 0` */
  predicate Less(a: Str, b: Str) {
    b != [] && (a == [] || a[0] < b[0] || (a[0] == b[0] && Less(a[1..], b[1..])))
  }

  predicate AtMost(a: Str, b: Str) {
    !Less(b, a)
  }

  lemma {:induction false} LessTransitive(a: Str, b: Str, c: Str)
    ensures AtMost(a, b) && AtMost(b, c) ==> AtMost(a, c)
    decreases |a|
  {
    if a != [] && b != [] && c != [] {
      LessTransitive(a[1..], b[1..], c[1..]);
    }
  }

  lemma {:induction false} LessTotal(a: Str, b: Str)
    ensures AtMost(a, b) || AtMost(b, a)
    ensures AtMost(a, b) && AtMost(b, a) ==> a == b
    decreases |a|
  {
    if a != [] && b != [] {
      LessTotal(a[1..], b[1..]);
      assert a == [a[0]] + a[1..] && b == [b[0]] + b[1..];
    }
  }

  function Parent(i: int): int {
    (i - 1) / 2
  }

  function Left(i: int): int {
    2 * i + 1
  }

  function Right(i: int): int {
    2 * i + 2
  }

  /** A parent is nowhere less than its child, counting parents from `low` on and children below `n`. */
  ghost predicate Heap(s: seq<Str>, low: int, n: int)
    requires 0 <= low && n <= |s|
  {
    forall k :: 1 <= k < n && Parent(k) >= low ==> AtMost(s[k], s[Parent(k)])
  }

  /** The same but for what is below `index`, whose children are still no greater than its parent. */
  ghost predicate HeapBut(s: seq<Str>, low: int, n: int, index: int)
    requires 0 <= low <= index && n <= |s|
  {
    && (forall k :: 1 <= k < n && Parent(k) >= low && Parent(k) != index ==> AtMost(s[k], s[Parent(k)]))
    && (forall k :: 1 <= k < n && Parent(k) == index && index > 0 && Parent(index) >= low ==>
      AtMost(s[k], s[Parent(index)]))
  }

  function Swapped(s: seq<Str>, i: nat, j: nat): (t: seq<Str>)
    requires i < |s| && j < |s|
    ensures |t| == |s|
  {
    s[i := s[j]][j := s[i]]
  }

  /** A swap within the first `n` entries rearranges them. */
  lemma SwapRearranges(s: seq<Str>, i: nat, j: nat, n: nat)
    requires i < n && j < n && n <= |s|
    ensures multiset(Swapped(s, i, j)[..n]) == multiset(s[..n]) && Swapped(s, i, j)[n..] == s[n..]
  {
    assert Swapped(s, i, j)[..n] == s[..n][i := s[..n][j]][j := s[..n][i]];
  }

  method Swap(a: array<Str>, i: nat, j: nat)
    requires i < a.Length && j < a.Length
    modifies a
    ensures a[..] == Swapped(old(a[..]), i, j)
  {
    var temp := a[i];
    a[i] := a[j];
    a[j] := temp;
  }

  /** Of a node and its children, the greatest. */
  method Largest(a: array<Str>, heapSize: nat, index: nat) returns (largest: nat)
    requires index < heapSize <= a.Length
    ensures largest < heapSize && (largest == index || (Parent(largest) == index && largest > index))
    ensures AtMost(a[index], a[largest])
    ensures forall k :: 1 <= k < heapSize && Parent(k) == index ==> AtMost(a[k], a[largest])
  {
    var left, right := Left(index), Right(index);
    largest := index;
    LessTotal(a[index], a[index]);
    if left < heapSize && Less(a[index], a[left]) {
      LessTotal(a[index], a[left]);
      largest := left;
    }
    ghost var before := largest;
    if right < heapSize && Less(a[largest], a[right]) {
      LessTotal(a[largest], a[right]);
      LessTransitive(a[index], a[largest], a[right]);
      largest := right;
    }
    LessTotal(a[largest], a[largest]);
    if left < heapSize {
      LessTotal(a[left], a[left]);
      LessTransitive(a[left], a[before], a[largest]);
    }
    assert forall k :: 1 <= k && Parent(k) == index ==> k == left || k == right;
  }

  /** Nothing below `index` is greater than it: what was a heap but for `index` is one. */
  lemma NothingGreater(s: seq<Str>, low: int, n: int, index: int)
    requires 0 <= low <= index && n <= |s| && HeapBut(s, low, n, index) && index < |s|
    requires forall k :: 1 <= k < n && Parent(k) == index ==> AtMost(s[k], s[index])
    ensures Heap(s, low, n)
  {
  }

  /** Swapping `index` with its greatest child moves what is wrong down to that child. */
  lemma SwapDown(s: seq<Str>, low: int, n: int, index: nat, child: nat)
    requires 0 <= low <= index < child < n <= |s| && Parent(child) == index && HeapBut(s, low, n, index)
    requires AtMost(s[index], s[child]) && forall k :: 1 <= k < n && Parent(k) == index ==> AtMost(s[k], s[child])
    ensures HeapBut(Swapped(s, index, child), low, n, child)
  {
    var t := Swapped(s, index, child);
    forall k | 1 <= k < n && Parent(k) >= low && Parent(k) != child
      ensures AtMost(t[k], t[Parent(k)])
    {
      if Parent(k) == index && k == child {
        assert t[k] == s[index];
      }
    }
    forall k | 1 <= k < n && Parent(k) == child
      ensures AtMost(t[k], t[Parent(child)])
    {
      assert t[k] == s[k] && t[index] == s[child];
    }
  }

  /** Lets the entry at `index` sink until no child is greater. */
  method MaxHeap(a: array<Str>, heapSize: nat, index: nat, ghost low: nat)
    requires low <= index < heapSize <= a.Length || (heapSize <= a.Length && low == index == heapSize == 0)
    requires HeapBut(a[..], low, heapSize, index)
    modifies a
    ensures Heap(a[..], low, heapSize)
    ensures multiset(a[..heapSize]) == multiset(old(a[..heapSize])) && a[heapSize..] == old(a[heapSize..])
    decreases heapSize - index
  {
    if index < heapSize {
      var largest := Largest(a, heapSize, index);
      if largest != index {
        SwapDown(a[..], low, heapSize, index, largest);
        SwapRearranges(a[..], index, largest, heapSize);
        assert a[..][..heapSize] == a[..heapSize] && a[..][heapSize..] == a[heapSize..];
        Swap(a, index, largest);
        assert a[..][..heapSize] == a[..heapSize] && a[..][heapSize..] == a[heapSize..];
        MaxHeap(a, heapSize, largest, low);
      } else {
        NothingGreater(a[..], low, heapSize, index);
      }
    }
  }

  method BuildMaxHeap(a: array<Str>)
    modifies a
    ensures Heap(a[..], 0, a.Length) && multiset(a[..]) == multiset(old(a[..]))
  {
    var i := Parent(a.Length - 1);
    while i >= 0
      invariant -1 <= i < a.Length
      invariant Heap(a[..], i + 1, a.Length)
      invariant multiset(a[..]) == multiset(old(a[..]))
      decreases i
    {
      assert a[..a.Length] == a[..];
      MaxHeap(a, a.Length, i, i);
      assert a[..a.Length] == a[..];
      i := i - 1;
    }
  }

  ghost predicate Ascending(s: seq<Str>) {
    forall i, j :: 0 <= i < j < |s| ==> AtMost(s[i], s[j])
  }

  /** No entry before `n` is greater than one from `n` on. */
  ghost predicate Divided(s: seq<Str>, n: nat)
    requires n <= |s|
  {
    forall x, y :: x in s[..n] && y in s[n..] ==> AtMost(x, y)
  }

  lemma {:induction false} RootIsGreatest(s: seq<Str>, n: nat, k: nat)
    requires k < n <= |s| && Heap(s, 0, n)
    ensures AtMost(s[k], s[0])
    decreases k
  {
    if k == 0 {
      LessTotal(s[0], s[0]);
    } else {
      RootIsGreatest(s, n, Parent(k));
      LessTransitive(s[k], s[Parent(k)], s[0]);
    }
  }

  /** With its greatest entry at its end, the first part gives that entry to the second. */
  lemma MaximumMoved(s: seq<Str>, n: nat)
    requires 0 < n < |s| && Heap(s, 0, n + 1) && Divided(s, n + 1) && Ascending(s[n + 1..])
    ensures var t := Swapped(s, 0, n);
      HeapBut(t, 0, n, 0) && Divided(t, n) && Ascending(t[n..])
  {
    var t := Swapped(s, 0, n);
    SwapRearranges(s, 0, n, n + 1);
    assert t[n..] == [s[0]] + s[n + 1..];
    forall y | y in s[n + 1..]
      ensures AtMost(s[0], y)
    {
      assert s[0] in s[..n + 1];
    }
    forall x, y | x in t[..n] && y in t[n..]
      ensures AtMost(x, y)
    {
      var k :| 0 <= k < n && t[k] == x;
      RootIsGreatest(s, n + 1, if k == 0 then n else k);
      assert x in s[..n + 1] by {
        assert x == s[..n + 1][if k == 0 then n else k];
      }
    }
  }

  /** Rearranging the first part leaves the division as it was. */
  lemma StillDivided(s: seq<Str>, t: seq<Str>, n: nat)
    requires n <= |s| == |t| && Divided(s, n) && multiset(t[..n]) == multiset(s[..n]) && t[n..] == s[n..]
    ensures Divided(t, n)
  {
    forall x, y | x in t[..n] && y in t[n..]
      ensures AtMost(x, y)
    {
      assert x in multiset(t[..n]);
      assert x in multiset(s[..n]);
    }
  }

  /** Takes the greatest entry off the heap again and again; what is left is a sorted array. */
  method SortHeap(a: array<Str>)
    requires Heap(a[..], 0, a.Length)
    modifies a
    ensures Ascending(a[..]) && multiset(a[..]) == multiset(old(a[..]))
  {
    var i := a.Length - 1;
    assert a.Length > 0 ==> Divided(a[..], i + 1) && Ascending(a[..][i + 1..]);
    while i > 0
      invariant -1 <= i < a.Length && (i == -1 ==> a.Length == 0)
      invariant i >= 0 ==> Heap(a[..], 0, i + 1) && Divided(a[..], i + 1) && Ascending(a[..][i + 1..])
      invariant multiset(a[..]) == multiset(old(a[..]))
      decreases i
    {
      MaximumMoved(a[..], i);
      SwapRearranges(a[..], 0, i, a.Length);
      assert a[..][..a.Length] == a[..];
      Swap(a, 0, i);
      assert a[..][..a.Length] == a[..];
      ghost var swapped := a[..];
      assert swapped[..i] == a[..i] && swapped[i..] == a[i..];
      MaxHeap(a, i, 0, 0);
      assert a[..][..i] == a[..i] && a[..][i..] == a[i..];
      Recombined(swapped, a[..], i);
      StillDivided(swapped, a[..], i);
      i := i - 1;
    }
    if i == 0 {
      AllAscending(a[..]);
    }
  }

  lemma Recombined(s: seq<Str>, t: seq<Str>, n: nat)
    requires n <= |s| == |t| && multiset(t[..n]) == multiset(s[..n]) && t[n..] == s[n..]
    ensures multiset(t) == multiset(s)
  {
    assert s == s[..n] + s[n..] && t == t[..n] + t[n..];
  }

  lemma AllAscending(s: seq<Str>)
    requires s != [] && Divided(s, 1) && Ascending(s[1..])
    ensures Ascending(s)
  {
    forall i, j | 0 <= i < j < |s|
      ensures AtMost(s[i], s[j])
    {
      if i == 0 {
        assert s[0] in s[..1] && s[j] in s[1..];
      } else {
        assert s[i] == s[1..][i - 1] && s[j] == s[1..][j - 1];
      }
    }
  }

  /** The two passes together sort any array of strings. */
  method Sort(a: array<Str>)
    modifies a
    ensures Ascending(a[..]) && multiset(a[..]) == multiset(old(a[..]))
  {
    BuildMaxHeap(a);
    SortHeap(a);
  }
}
