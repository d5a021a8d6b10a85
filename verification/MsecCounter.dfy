/**
 A counter of running times that keeps the longest and the shortest of them.
 */
module MsecCounter {
  const MAX_INT: real := 2147483647.0

  // ---------- sorted lists ----------

  ghost predicate Ascending(s: seq<real>) {
    forall i, j :: 0 <= i < j < |s| ==> s[i] <= s[j]
  }

  function Insert(x: real, s: seq<real>): (t: seq<real>)
    ensures |t| == |s| + 1
  {
    if s == [] || x <= s[0] then [x] + s else [s[0]] + Insert(x, s[1..])
  }

  function Sorted(s: seq<real>): (t: seq<real>)
    ensures |t| == |s|
  {
    if s == [] then [] else Insert(s[0], Sorted(s[1..]))
  }

  ghost predicate AllAtLeast(s: seq<real>, low: real) {
    forall j :: 0 <= j < |s| ==> low <= s[j]
  }

  lemma InFront(x: real, s: seq<real>)
    requires Ascending(s) && AllAtLeast(s, x)
    ensures Ascending([x] + s)
  {
  }

  lemma {:induction false} InsertAtLeast(x: real, s: seq<real>, low: real)
    requires low <= x && AllAtLeast(s, low)
    ensures AllAtLeast(Insert(x, s), low)
  {
    if s != [] && x > s[0] {
      InsertAtLeast(x, s[1..], low);
    }
  }

  lemma {:induction false} InsertAscends(x: real, s: seq<real>)
    requires Ascending(s)
    ensures Ascending(Insert(x, s))
  {
    if s != [] && x > s[0] {
      InsertAscends(x, s[1..]);
      InsertAtLeast(x, s[1..], s[0]);
      InFront(s[0], Insert(x, s[1..]));
    } else {
      InFront(x, s);
    }
  }

  lemma {:induction false} InsertAdds(x: real, s: seq<real>)
    ensures multiset(Insert(x, s)) == multiset(s) + multiset{x}
  {
    if s != [] && x > s[0] {
      InsertAdds(x, s[1..]);
      assert s == [s[0]] + s[1..];
    }
  }

  lemma InsertSorts(x: real, s: seq<real>)
    requires Ascending(s)
    ensures Ascending(Insert(x, s)) && multiset(Insert(x, s)) == multiset(s) + multiset{x}
  {
    InsertAscends(x, s);
    InsertAdds(x, s);
  }

  /** The sorted list is the one ascending rearrangement. */
  lemma {:induction false} SortedSorts(s: seq<real>)
    ensures Ascending(Sorted(s)) && multiset(Sorted(s)) == multiset(s)
  {
    if s != [] {
      SortedSorts(s[1..]);
      InsertSorts(s[0], Sorted(s[1..]));
      assert s == [s[0]] + s[1..];
    }
  }

  lemma FirstIsLeast(s: seq<real>, x: real)
    requires Ascending(s) && x in multiset(s)
    ensures s != [] && s[0] <= x
  {
    var i :| 0 <= i < |s| && s[i] == x;
  }

  lemma WithoutFirst(s: seq<real>)
    requires s != []
    ensures multiset(s[1..]) == multiset(s) - multiset{s[0]}
  {
    assert s == [s[0]] + s[1..];
  }

  /** Where two ascending lists have the same entries they are the same. */
  lemma {:induction false} OneAscending(s: seq<real>, t: seq<real>)
    requires Ascending(s) && Ascending(t) && multiset(s) == multiset(t)
    ensures s == t
    decreases |s|
  {
    assert |multiset(s)| == |s| && |multiset(t)| == |t|;
    if s != [] {
      SameFirst(s, t);
      OneAscending(s[1..], t[1..]);
      assert s == [s[0]] + s[1..] && t == [t[0]] + t[1..];
    }
  }

  lemma SameFirst(s: seq<real>, t: seq<real>)
    requires Ascending(s) && Ascending(t) && multiset(s) == multiset(t) && s != [] && t != []
    ensures s[0] == t[0] && multiset(s[1..]) == multiset(t[1..])
  {
    assert s[0] in multiset(s);
    FirstIsLeast(t, s[0]);
    assert t[0] in multiset(t);
    FirstIsLeast(s, t[0]);
    WithoutFirst(s);
    WithoutFirst(t);
  }

  function Last(s: seq<real>, k: nat): seq<real>
    requires k <= |s|
  {
    s[|s| - k..]
  }

  /** A further entry in a list all of which is kept pushes out the first, or is itself not kept. */
  lemma AllKept(x: real, s: seq<real>)
    requires Ascending(s) && s != []
    ensures Insert(x, s)[1..] == if s[0] < x then Insert(x, s[1..]) else s
  {
  }

  lemma LastOfTail(y: real, s: seq<real>, k: nat)
    requires k <= |s|
    ensures Last([y] + s, k) == Last(s, k)
  {
  }

  /** A further entry changes the `k` greatest only if it is greater than the least of them, which it replaces. */
  lemma {:induction false} LastOfMore(x: real, s: seq<real>, k: nat)
    requires Ascending(s) && 0 < k <= |s|
    ensures Last(Insert(x, s), k) == if Last(s, k)[0] < x then Insert(x, Last(s, k)[1..]) else Last(s, k)
    decreases |s|
  {
    if k == |s| {
      assert Last(s, k) == s && Insert(x, s)[1..] == Last(Insert(x, s), k);
      AllKept(x, s);
    } else {
      assert s == [s[0]] + s[1..];
      LastOfTail(s[0], s[1..], k);
      if x <= s[0] {
        LastOfTail(x, s, k);
        assert Last(s, k)[0] == s[|s| - k];
      } else {
        LastOfMore(x, s[1..], k);
        LastOfTail(s[0], Insert(x, s[1..]), k);
      }
    }
  }

  /** A further entry changes the `k` least only if it is less than the greatest of them, which it replaces. */
  lemma {:induction false} FirstOfMore(x: real, s: seq<real>, k: nat)
    requires Ascending(s) && 0 < k <= |s|
    ensures Insert(x, s)[..k] == if s[k - 1] > x then Insert(x, s[..k - 1]) else s[..k]
    decreases k
  {
    if x > s[0] {
      var t := s[1..];
      FirstOf(s[0], t, k);
      FirstOf(s[0], Insert(x, t), k);
      assert s == [s[0]] + t;
      if k > 1 {
        FirstOf(s[0], t, k - 1);
        FirstOfMore(x, t, k - 1);
      }
    } else {
      FirstOf(x, s, k);
      if s[k - 1] <= x {
        AllTheSame(s, k, x);
      }
    }
  }

  lemma {:induction false} FirstOf(x: real, s: seq<real>, k: nat)
    requires 0 < k <= |s| + 1
    ensures ([x] + s)[..k] == [x] + s[..k - 1]
  {
  }

  lemma {:induction false} AllTheSame(s: seq<real>, k: nat, x: real)
    requires Ascending(s) && 0 < k <= |s| && s[k - 1] <= x <= s[0]
    ensures [x] + s[..k - 1] == s[..k]
  {
    forall i | 0 <= i < k ensures s[i] == x {
    }
  }

  // ---------- the counter ----------

  /** The samples counted, before them as many of `first` as are kept. */
  function WithSentinels(samples: seq<real>, size: nat, first: real): seq<real> {
    samples + Repeat(first, size)
  }

  function Repeat(x: real, n: nat): (s: seq<real>)
    ensures |s| == n
  {
    if n == 0 then [] else [x] + Repeat(x, n - 1)
  }

  /** The `size` greatest of the samples and as many zeros. */
  function LongestOf(samples: seq<real>, size: nat): seq<real> {
    Last(Sorted(WithSentinels(samples, size, 0.0)), size)
  }

  /** The `size` least of the samples and as many of the largest integer. */
  function ShortestOf(samples: seq<real>, size: nat): seq<real> {
    Sorted(WithSentinels(samples, size, MAX_INT))[..size]
  }

  /** `a += b` where `a` is a `long`: towards zero. */
  function Truncated(x: real): int {
    if x >= 0.0 then x.Floor else -((-x).Floor)
  }

  /** The running total, each sum cut off to a whole number. */
  function Total(samples: seq<real>): int {
    if samples == [] then 0 else Truncated(Total(samples[1..]) as real + samples[0])
  }

  lemma TotalOfMore(x: real, samples: seq<real>)
    ensures Total([x] + samples) == Truncated(Total(samples) as real + x)
  {
    assert ([x] + samples)[1..] == samples;
  }

  /** Counting one more sample, put in front of the others. */
  lemma LongestOfMore(x: real, samples: seq<real>, size: nat)
    requires size > 0
    ensures LongestOf([x] + samples, size) ==
      if LongestOf(samples, size)[0] < x then Insert(x, LongestOf(samples, size)[1..]) else LongestOf(samples, size)
  {
    var all := WithSentinels(samples, size, 0.0);
    assert WithSentinels([x] + samples, size, 0.0) == [x] + all;
    assert ([x] + all)[1..] == all;
    SortedSorts(all);
    LastOfMore(x, Sorted(all), size);
  }

  lemma ShortestOfMore(x: real, samples: seq<real>, size: nat)
    requires size > 0
    ensures ShortestOf([x] + samples, size) ==
      var s := ShortestOf(samples, size); if s[size - 1] > x then Insert(x, s[..size - 1]) else s
  {
    var all := WithSentinels(samples, size, MAX_INT);
    assert WithSentinels([x] + samples, size, MAX_INT) == [x] + all;
    assert ([x] + all)[1..] == all;
    SortedSorts(all);
    FirstOfMore(x, Sorted(all), size);
    assert Sorted(all)[..size][..size - 1] == Sorted(all)[..size - 1];
  }

  lemma KeptAscending(samples: seq<real>, size: nat)
    ensures Ascending(LongestOf(samples, size)) && |LongestOf(samples, size)| == size
    ensures Ascending(ShortestOf(samples, size)) && |ShortestOf(samples, size)| == size
  {
    SortedSorts(WithSentinels(samples, size, 0.0));
    SortedSorts(WithSentinels(samples, size, MAX_INT));
  }

  /** What a counter that has counted these samples holds. */
  ghost predicate Kept(samples: seq<real>, size: nat, longest: seq<real>, shortest: seq<real>, total: int, runs: nat) {
    longest == LongestOf(samples, size) && shortest == ShortestOf(samples, size) && total == Total(samples)
      && runs == |samples|
  }

  /** The longest after one more sample. */
  function WithLonger(longest: seq<real>, x: real): seq<real>
    requires longest != []
  {
    if longest[0] < x then Insert(x, longest[1..]) else longest
  }

  function WithShorter(shortest: seq<real>, x: real): seq<real>
    requires shortest != []
  {
    if shortest[|shortest| - 1] > x then Insert(x, shortest[..|shortest| - 1]) else shortest
  }

  /** All that counting one more sample changes. */
  lemma SampleAdded(x: real, samples: seq<real>, size: nat, longest: seq<real>, shortest: seq<real>, total: int,
        runs: nat)
    requires size > 0 && Kept(samples, size, longest, shortest, total, runs)
    ensures Ascending(longest) && |longest| == size && Ascending(shortest) && |shortest| == size
    ensures Kept([x] + samples, size, WithLonger(longest, x), WithShorter(shortest, x), Truncated(total as real + x),
      runs + 1)
  {
    KeptAscending(samples, size);
    LongestOfMore(x, samples, size);
    ShortestOfMore(x, samples, size);
    TotalOfMore(x, samples);
  }

  /** Before anything is counted only the sentinels are kept. */
  lemma NothingKept(size: nat)
    ensures LongestOf([], size) == Repeat(0.0, size) && ShortestOf([], size) == Repeat(MAX_INT, size)
  {
    SortedOfSame(size, 0.0);
    SortedOfSame(size, MAX_INT);
    assert [] + Repeat(0.0, size) == Repeat(0.0, size) && [] + Repeat(MAX_INT, size) == Repeat(MAX_INT, size);
  }

  lemma {:induction false} SortedOfSame(n: nat, x: real)
    ensures Sorted(Repeat(x, n)) == Repeat(x, n)
    decreases n
  {
    if n > 0 {
      assert Repeat(x, n)[1..] == Repeat(x, n - 1);
      SortedOfSame(n - 1, x);
    }
  }

  lemma {:induction false} RepeatIs(s: seq<real>, x: real)
    requires forall i :: 0 <= i < |s| ==> s[i] == x
    ensures s == Repeat(x, |s|)
  {
    if s != [] {
      RepeatIs(s[1..], x);
    }
  }

  /** `Arrays.sort`, by insertion. */
  method SortArray(a: array<real>)
    modifies a
    ensures a[..] == Sorted(old(a[..]))
  {
    var t := Sorted(a[..]);
    for i := 0 to a.Length
      invariant a[..i] == t[..i]
    {
      a[i] := t[i];
    }
    assert a[..] == t;
  }

  /** Sorting an ascending list in which one entry has been replaced puts the new one in its place. */
  lemma Resorted(s: seq<real>, x: real, i: nat)
    requires Ascending(s) && i < |s|
    ensures Sorted(s[i := x]) == Insert(x, s[..i] + s[i + 1..])
  {
    var rest := s[..i] + s[i + 1..];
    SortedSorts(s[i := x]);
    assert Ascending(rest);
    InsertSorts(x, rest);
    assert s[i := x] == s[..i] + [x] + s[i + 1..];
    OneAscending(Sorted(s[i := x]), Insert(x, rest));
  }

  lemma FirstReplaced(s: seq<real>, x: real)
    requires Ascending(s) && s != []
    ensures Sorted(s[0 := x]) == Insert(x, s[1..])
  {
    Resorted(s, x, 0);
    assert s[..0] + s[1..] == s[1..];
  }

  lemma LastReplaced(s: seq<real>, x: real)
    requires Ascending(s) && s != []
    ensures Sorted(s[|s| - 1 := x]) == Insert(x, s[..|s| - 1])
  {
    Resorted(s, x, |s| - 1);
    assert s[..|s| - 1] + s[|s|..] == s[..|s| - 1];
  }

  class Counter {
    var msecCount: int
    var runCount: nat
    const size: nat
    const shortest: array<real>
    const longest: array<real>
    /** What has been counted, the last first. */
    ghost var samples: seq<real>

    ghost predicate Valid()
      reads this, shortest, longest
    {
      && size > 0 && shortest != longest
      && longest.Length == size && shortest.Length == size
      && Kept(samples, size, longest[..], shortest[..], msecCount, runCount)
    }

    constructor (size: nat)
      requires size > 0
      ensures Valid() && samples == [] && this.size == size && fresh(shortest) && fresh(longest)
    {
      this.size := size;
      msecCount, runCount, samples := 0, 0, [];
      shortest := new real[size](_ => MAX_INT);
      longest := new real[size](_ => 0.0);
      new;
      NothingKept(size);
      RepeatIs(longest[..], 0.0);
      RepeatIs(shortest[..], MAX_INT);
    }

    method Count(mills: real)
      requires Valid()
      modifies this, shortest, longest
      ensures Valid() && samples == [mills] + old(samples)
    {
      SampleAdded(mills, samples, size, longest[..], shortest[..], msecCount, runCount);
      msecCount := Truncated(msecCount as real + mills);
      runCount := runCount + 1;
      DoShort(mills);
      DoLong(mills);
      samples := [mills] + samples;
    }

    method DoLong(mills: real)
      requires longest.Length > 0 && Ascending(longest[..])
      modifies longest
      ensures longest[..] == WithLonger(old(longest[..]), mills)
    {
      if longest[0] < mills {
        ghost var before := longest[..];
        longest[0] := mills;
        assert longest[..] == before[0 := mills];
        FirstReplaced(before, mills);
        SortArray(longest);
      }
    }

    method DoShort(mills: real)
      requires size > 0 && shortest.Length == size && Ascending(shortest[..])
      modifies shortest
      ensures shortest[..] == WithShorter(old(shortest[..]), mills)
    {
      if shortest[size - 1] > mills {
        ghost var before := shortest[..];
        shortest[size - 1] := mills;
        assert shortest[..] == before[size - 1 := mills];
        LastReplaced(before, mills);
        SortArray(shortest);
      }
    }

    method GetAvgMills() returns (average: int)
      requires Valid()
      ensures runCount == 0 ==> average == 0
      ensures runCount > 0 && msecCount >= 0 ==> average * runCount <= msecCount < (average + 1) * runCount
      ensures runCount > 0 && msecCount < 0 ==> (average - 1) * runCount < msecCount <= average * runCount
    {
      if runCount == 0 {
        return 0;
      }
      var n := if msecCount >= 0 then msecCount else -msecCount;
      average := if msecCount >= 0 then n / runCount else -(n / runCount);
    }
  }

  /** A counter for the `size` longest and shortest, if there is room for one at least. */
  method NewCounter(size: int) returns (counter: Counter?)
    ensures counter != null <==> size >= 1
    ensures counter != null ==> counter.Valid() && counter.samples == [] && counter.size == size && fresh(counter)
  {
    if size < 1 {
      return null;
    }
    counter := new Counter(size);
  }
}
