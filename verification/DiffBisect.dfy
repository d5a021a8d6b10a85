/**
 The search for a middle point by walking in from both corners of the edit grid at once.
 A point `(x, y)` lies on diagonal `x - y`; for each diagonal a front records the furthest
 `x` reached.  What is proved is that the point at which the fronts meet lies on the grid and
 is never one of the two corners, so that splitting there makes both halves smaller.
 */
module DiffBisect {
  import opened Wrappers
  import opened DiffDistance
  import opened DiffText
  import opened DiffMerge

  /** The size of the grid, and where diagonal 0 is kept in the arrays. */
  datatype Grid = Grid(d: nat, e: nat, g: nat) {
    /** The diagonal of the far corner. */
    function Delta(): int {
      d - e
    }

    /** One if the two fronts are compared a step apart, zero if in the same step. */
    function Rho(): int {
      if (d - e) % 2 != 0 then 1 else 0
    }

    predicate Valid() {
      d >= 1 && e >= 1 && g >= 1
    }

    predicate Holds(x: int, y: int) {
      0 <= x <= d && 0 <= y <= e
    }

    /** Both coordinates are at the far end or beyond. */
    predicate Done(x: int, n: int) {
      x >= d && x - n >= e
    }
  }

  /** The furthest `x` on diagonal `n`, or -1. */
  function Val(V: map<int, int>, G: Grid, n: int): int {
    if G.g + n in V then V[G.g + n] else -1
  }

  predicate SameParity(m: int, n: int) {
    (m - n) % 2 == 0
  }

  predicate AtRight(G: Grid, V: map<int, int>, n: int) {
    Val(V, G, n) >= G.d
  }

  predicate AtBottom(G: Grid, V: map<int, int>, n: int) {
    Val(V, G, n) >= 0 && Val(V, G, n) - n >= G.e
  }

  // ---------- a front between two steps ----------

  ghost predicate Keys(G: Grid, V: map<int, int>) {
    forall i :: 0 <= i < 2 * G.g ==> i in V
  }

  /** Before the first step only the seed is there. */
  ghost predicate Fresh(G: Grid, V: map<int, int>) {
    && Keys(G, V)
    && (forall n :: Val(V, G, n) == if n == 1 then 0 else -1)
  }

  /** The diagonals reached are those from `lo` to `hi`; `r` and `t` tell how many are skipped at either end. */
  ghost predicate Shape(G: Grid, V: map<int, int>, v: int, r: int, t: int, lo: int, hi: int) {
    && v >= 1
    && Keys(G, V)
    && r >= 0 && t >= 0 && r % 2 == 0 && t % 2 == 0
    && 1 - v <= lo <= 1 - v + r && v - 1 - t <= hi <= v - 1 && lo <= 0 <= hi
    && (forall n :: lo <= n <= hi ==> Val(V, G, n) >= 0 && Val(V, G, n) >= n)
    && (forall n :: n < lo || n > hi ==> Val(V, G, n) == if v == 1 && n == 1 then 0 else -1)
    && (v == 1 ==> Val(V, G, 0) == 0)
  }

  ghost predicate Bounded(G: Grid, V: map<int, int>, v: int, lo: int, hi: int) {
    forall n :: lo <= n <= hi ==>
      Val(V, G, n) <= G.d + v - 1 && Val(V, G, n) - n <= G.e + v - 1 && !G.Done(Val(V, G, n), n)
  }

  predicate Within(lo: int, n: int, hi: int) {
    lo <= n <= hi
  }

  /** A front that has gone over the right edge on one diagonal has reached that edge on the diagonal below. */
  ghost predicate LagHigh(G: Grid, V: map<int, int>, lo: int, hi: int) {
    forall n {:trigger Within(lo, n, hi)} :: Within(lo, n, hi) && n > G.Delta() && Val(V, G, n) >= G.d + 1 ==>
      AtRight(G, V, n - 1)
  }

  /** ... and over the lower edge, on the diagonal above. */
  ghost predicate LagLow(G: Grid, V: map<int, int>, lo: int, hi: int) {
    forall n {:trigger Within(lo, n, hi)} :: Within(lo, n, hi) && n < G.Delta() && Val(V, G, n) - n >= G.e + 1 ==>
      AtBottom(G, V, n + 1)
  }

  /** What had reached the right edge before the last step has passed it on to the diagonal below. */
  ghost predicate PassedHigh(G: Grid, V: map<int, int>, v: int, t: int) {
    forall c {:trigger SameParity(c, v)} :: G.Delta() < c <= v - t && SameParity(c, v) && AtRight(G, V, c) ==>
      AtRight(G, V, c - 1)
  }

  ghost predicate PassedLow(G: Grid, V: map<int, int>, v: int, r: int) {
    forall c {:trigger SameParity(c, v)} :: -v + r <= c < G.Delta() && SameParity(c, v) && AtBottom(G, V, c) ==>
      AtBottom(G, V, c + 1)
  }

  /** If diagonals are skipped at the upper end, one that is not has reached the right edge. */
  ghost predicate TouchedHigh(G: Grid, V: map<int, int>, v: int, t: int) {
    t > 0 ==> exists c :: G.Delta() < c <= v - t && SameParity(c, v) && AtRight(G, V, c)
  }

  ghost predicate TouchedLow(G: Grid, V: map<int, int>, v: int, r: int) {
    r > 0 ==> exists c :: -v + r <= c < G.Delta() && SameParity(c, v) && AtBottom(G, V, c)
  }

  /** The last step has gone as far either way as the far corner asks for. */
  ghost predicate Reached(G: Grid, v: int, lo: int, hi: int) {
    && (lo <= 1 - v || lo <= G.Delta() - (v - 1) - 2 + G.Rho())
    && (hi >= v - 1 || hi >= G.Delta() + (v - 1) + 2 - G.Rho())
  }

  /** A front at the beginning of step `v`, all but what the other front tells of it. */
  ghost predicate Front(G: Grid, V: map<int, int>, v: int, r: int, t: int, lo: int, hi: int) {
    && Shape(G, V, v, r, t, lo, hi)
    && Bounded(G, V, v, lo, hi)
    && LagHigh(G, V, lo, hi) && LagLow(G, V, lo, hi)
    && PassedHigh(G, V, v, t) && PassedLow(G, V, v, r)
    && TouchedHigh(G, V, v, t) && TouchedLow(G, V, v, r)
    && Reached(G, v, lo, hi)
  }

  /** On diagonal `n` the front is short of the edge that lies between it and the far corner. */
  ghost predicate KeepsOff(G: Grid, V: map<int, int>, n: int) {
    (n >= G.Delta() ==> !AtRight(G, V, n)) && (n <= G.Delta() ==> !AtBottom(G, V, n))
  }

  /** Near the far corner the front keeps off the edges. */
  ghost predicate Interior(G: Grid, V: map<int, int>, radius: int, lo: int, hi: int) {
    forall n :: lo <= n <= hi && -radius <= n - G.Delta() <= radius ==> KeepsOff(G, V, n)
  }

  // ---------- how much can have been skipped ----------

  lemma EdgesAreReached(G: Grid, V: map<int, int>, v: int, r: int, t: int, lo: int, hi: int, n: int)
    requires G.Valid() && Shape(G, V, v, r, t, lo, hi)
    ensures AtRight(G, V, n) || AtBottom(G, V, n) ==> lo <= n <= hi
  {
  }

  lemma SkippedLow(G: Grid, V: map<int, int>, v: int, r: int, t: int, lo: int, hi: int)
    requires G.Valid() && Front(G, V, v, r, t, lo, hi) && Interior(G, V, v - 1 - G.Rho(), lo, hi)
    ensures r > 0 ==> r <= G.Delta() - 2 + G.Rho() && lo < hi
  {
    if r > 0 {
      var c :| -v + r <= c < G.Delta() && SameParity(c, v) && AtBottom(G, V, c);
      assert AtBottom(G, V, c + 1);
      EdgesAreReached(G, V, v, r, t, lo, hi, c);
      EdgesAreReached(G, V, v, r, t, lo, hi, c + 1);
      assert -(v - 1 - G.Rho()) <= c + 1 - G.Delta() <= v - 1 - G.Rho() ==> KeepsOff(G, V, c + 1);
    }
  }

  lemma SkippedHigh(G: Grid, V: map<int, int>, v: int, r: int, t: int, lo: int, hi: int)
    requires G.Valid() && Front(G, V, v, r, t, lo, hi) && Interior(G, V, v - 1 - G.Rho(), lo, hi)
    ensures t > 0 ==> t <= -G.Delta() - 2 + G.Rho() && lo < hi
  {
    if t > 0 {
      var c :| G.Delta() < c <= v - t && SameParity(c, v) && AtRight(G, V, c);
      assert AtRight(G, V, c - 1);
      EdgesAreReached(G, V, v, r, t, lo, hi, c);
      EdgesAreReached(G, V, v, r, t, lo, hi, c - 1);
      assert -(v - 1 - G.Rho()) <= c - 1 - G.Delta() <= v - 1 - G.Rho() ==> KeepsOff(G, V, c - 1);
    }
  }

  // ---------- one cell ----------

  /** What holds of the value `x` that step `v` finds on diagonal `n`, the front having been `V`. */
  ghost predicate Cell(G: Grid, V: map<int, int>, v: int, n: int, x: int) {
    && x >= 0 && x >= n
    && x >= Val(V, G, n - 1) + 1 && x >= Val(V, G, n + 1)
    && x <= G.d + v && x - n <= G.e + v && !G.Done(x, n)
    && (n > G.Delta() && x >= G.d + 1 ==> AtRight(G, V, n - 1))
    && (n < G.Delta() && x - n >= G.e + 1 ==> AtBottom(G, V, n + 1))
    && (InZone(G, v, n) ==> x <= G.d && x - n <= G.e)
  }

  /** Whether the walk comes down from the diagonal above rather than right from the one below. */
  predicate ComesDown(G: Grid, V: map<int, int>, v: int, n: int) {
    n == -v || (n != v && Val(V, G, n - 1) < Val(V, G, n + 1))
  }

  function StartOf(G: Grid, V: map<int, int>, v: int, n: int): int {
    if ComesDown(G, V, v, n) then Val(V, G, n + 1) else Val(V, G, n - 1) + 1
  }

  /** Sliding along a diagonal stays on the grid and does not end at the far corner. */
  predicate SlidTo(G: Grid, n: int, x: int, x': int) {
    x' == x || (x < x' && x' <= G.d && x' - n <= G.e && !(x' == G.d && x' - n == G.e))
  }

  /** Where a step may find itself. */
  predicate InStep(v: int, r: int, t: int, n: int) {
    -v + r <= n <= v - t && SameParity(n, v)
  }

  lemma NeighboursReached(G: Grid, V: map<int, int>, v: int, r: int, t: int, lo: int, hi: int, n: int)
    requires G.Valid() && Shape(G, V, v, r, t, lo, hi) && InStep(v, r, t, n)
    requires t > 0 ==> lo < hi
    ensures if ComesDown(G, V, v, n) then lo <= n + 1 <= hi else lo <= n - 1 <= hi
    ensures StartOf(G, V, v, n) >= Val(V, G, n - 1) + 1 && StartOf(G, V, v, n) >= Val(V, G, n + 1)
  {
  }

  lemma StartFits(G: Grid, V: map<int, int>, v: int, r: int, t: int, lo: int, hi: int, n: int)
    requires G.Valid() && Shape(G, V, v, r, t, lo, hi) && Bounded(G, V, v, lo, hi) && InStep(v, r, t, n)
    requires t > 0 ==> lo < hi
    ensures var x := StartOf(G, V, v, n);
      x >= 0 && x >= n && x <= G.d + v && x - n <= G.e + v
  {
    NeighboursReached(G, V, v, r, t, lo, hi, n);
  }

  /** A walk that starts over the right edge comes from one that has reached it. */
  lemma StartLagsHigh(G: Grid, V: map<int, int>, v: int, r: int, t: int, lo: int, hi: int, n: int)
    requires G.Valid() && Front(G, V, v, r, t, lo, hi) && InStep(v, r, t, n) && (t > 0 ==> lo < hi)
    requires n > G.Delta() && StartOf(G, V, v, n) >= G.d + 1
    ensures AtRight(G, V, n - 1)
  {
    NeighboursReached(G, V, v, r, t, lo, hi, n);
    if ComesDown(G, V, v, n) {
      assert Within(lo, n + 1, hi);
      assert AtRight(G, V, n);
    }
  }

  lemma StartLagsLow(G: Grid, V: map<int, int>, v: int, r: int, t: int, lo: int, hi: int, n: int)
    requires G.Valid() && Front(G, V, v, r, t, lo, hi) && InStep(v, r, t, n) && (t > 0 ==> lo < hi)
    requires n < G.Delta() && StartOf(G, V, v, n) - n >= G.e + 1
    ensures AtBottom(G, V, n + 1)
  {
    NeighboursReached(G, V, v, r, t, lo, hi, n);
    if !ComesDown(G, V, v, n) {
      assert Within(lo, n - 1, hi);
      assert AtBottom(G, V, n);
    }
  }

  /** Close enough to the far corner for the front to be kept off the edges there. */
  predicate InZone(G: Grid, v: int, n: int) {
    -(v - G.Rho()) <= n - G.Delta() <= v - G.Rho()
  }

  /** In the zone a walk starts on the grid, and not at the far corner. */
  lemma StartInZone(G: Grid, V: map<int, int>, v: int, r: int, t: int, lo: int, hi: int, n: int)
    requires G.Valid() && Front(G, V, v, r, t, lo, hi) && Interior(G, V, v - 1 - G.Rho(), lo, hi)
    requires InStep(v, r, t, n) && (t > 0 ==> lo < hi) && InZone(G, v, n)
    ensures n > G.Delta() ==> StartOf(G, V, v, n) <= G.d
    ensures n < G.Delta() ==> StartOf(G, V, v, n) - n <= G.e
    ensures n == G.Delta() ==> StartOf(G, V, v, n) < G.d
  {
    if n > G.Delta() {
      assert KeepsOff(G, V, n - 1) || !(lo <= n - 1 <= hi);
      EdgesAreReached(G, V, v, r, t, lo, hi, n - 1);
      if StartOf(G, V, v, n) >= G.d + 1 {
        StartLagsHigh(G, V, v, r, t, lo, hi, n);
      }
    }
    if n < G.Delta() {
      assert KeepsOff(G, V, n + 1) || !(lo <= n + 1 <= hi);
      EdgesAreReached(G, V, v, r, t, lo, hi, n + 1);
      if StartOf(G, V, v, n) - n >= G.e + 1 {
        StartLagsLow(G, V, v, r, t, lo, hi, n);
      }
    }
    if n == G.Delta() {
      StartAtCornerDiagonal(G, V, v, r, t, lo, hi, n);
    }
  }

  lemma StartAtCornerDiagonal(G: Grid, V: map<int, int>, v: int, r: int, t: int, lo: int, hi: int, n: int)
    requires G.Valid() && Shape(G, V, v, r, t, lo, hi) && Interior(G, V, v - 1 - G.Rho(), lo, hi)
    requires InStep(v, r, t, n) && (t > 0 ==> lo < hi) && n == G.Delta()
    ensures StartOf(G, V, v, n) < G.d
  {
    NeighboursReached(G, V, v, r, t, lo, hi, n);
    if v > 1 {
      assert (lo <= n - 1 <= hi ==> KeepsOff(G, V, n - 1)) && (lo <= n + 1 <= hi ==> KeepsOff(G, V, n + 1));
    }
  }

  /** What a walk ends at, wherever it slides to from its start. */
  lemma CellFound(G: Grid, V: map<int, int>, v: int, r: int, t: int, lo: int, hi: int, n: int, x: int)
    requires G.Valid() && Front(G, V, v, r, t, lo, hi) && Interior(G, V, v - 1 - G.Rho(), lo, hi)
    requires InStep(v, r, t, n) && (t > 0 ==> lo < hi)
    requires SlidTo(G, n, StartOf(G, V, v, n), x)
    ensures Cell(G, V, v, n, x)
  {
    NeighboursReached(G, V, v, r, t, lo, hi, n);
    StartFits(G, V, v, r, t, lo, hi, n);
    if n > G.Delta() && x >= G.d + 1 {
      StartLagsHigh(G, V, v, r, t, lo, hi, n);
    }
    if n < G.Delta() && x - n >= G.e + 1 {
      StartLagsLow(G, V, v, r, t, lo, hi, n);
    }
    if InZone(G, v, n) {
      StartInZone(G, V, v, r, t, lo, hi, n);
    }
  }

  lemma FirstCell(G: Grid, V: map<int, int>)
    requires G.Valid() && Fresh(G, V)
    ensures StartOf(G, V, 0, 0) == 0 && Cell(G, V, 0, 0, 0)
  {
  }

  // ---------- one step ----------

  /** Step `v` has dealt with its diagonals below `n`; the others are as they were. */
  ghost predicate Walked(G: Grid, V: map<int, int>, V': map<int, int>, v: int, r: int, n: int) {
    && Keys(G, V')
    && (forall c {:trigger Val(V', G, c)} :: -v + r <= c < n && SameParity(c, v) ==> Cell(G, V, v, c, Val(V', G, c)))
    && (forall c {:trigger Val(V', G, c)} :: !(-v + r <= c < n && SameParity(c, v)) ==> Val(V', G, c) == Val(V, G, c))
  }

  /** The diagonals skipped from now on at the lower end, the last of them to have gone over the edge being `last`. */
  ghost predicate CountedLow(G: Grid, V': map<int, int>, v: int, r: int, r': int, n: int, last: int) {
    && r' >= r && r' % 2 == 0
    && (r' > r ==> -v + r <= last < n && SameParity(last, v) && Val(V', G, last) - last > G.e && r' <= last + v + 2)
  }

  ghost predicate CountedHigh(G: Grid, V': map<int, int>, v: int, r: int, t: int, t': int, n: int, last: int) {
    && t' >= t && t' % 2 == 0
    && (t' > t ==> -v + r <= last < n && SameParity(last, v) && Val(V', G, last) > G.d && last <= v - t' + 2)
  }

  /** What step `v` has done by the time it ends before diagonal `n`. */
  ghost predicate Stepped(G: Grid, V: map<int, int>, V': map<int, int>, v: int, r: int, t: int, r': int, t': int,
      n: int, lastLow: int, lastHigh: int)
  {
    && Walked(G, V, V', v, r, n)
    && CountedLow(G, V', v, r, r', n, lastLow) && CountedHigh(G, V', v, r, t, t', n, lastHigh)
    && SameParity(n, v) && -v + r + 2 <= n <= v - t + 2 && n > v - t'
  }

  /** How much may have been skipped before step `v`. */
  predicate FewSkipped(G: Grid, v: int, r: int, t: int, lo: int, hi: int) {
    && (r > 0 ==> r <= G.Delta() - 2 + G.Rho() && lo < hi)
    && (t > 0 ==> t <= -G.Delta() - 2 + G.Rho() && lo < hi)
  }

  lemma CellOverHigh(G: Grid, V: map<int, int>, v: int, n: int, x: int)
    requires G.Valid() && Cell(G, V, v, n, x) && x > G.d && SameParity(n, v)
    ensures n >= G.Delta() + v - G.Rho() + 2 || (n > G.Delta() && v < 1)
    ensures AtRight(G, V, n - 1)
  {
  }

  lemma CellOverLow(G: Grid, V: map<int, int>, v: int, n: int, x: int)
    requires G.Valid() && Cell(G, V, v, n, x) && x - n > G.e
    ensures n < G.Delta() && AtBottom(G, V, n + 1)
  {
  }

  /** Every diagonal in the zone has been dealt with. */
  lemma ZoneWalked(G: Grid, V: map<int, int>, V': map<int, int>, v: int, r: int, t: int, r': int, t': int,
      n: int, lastLow: int, lastHigh: int, lo: int, hi: int, c: int)
    requires G.Valid() && v >= 1 && Stepped(G, V, V', v, r, t, r', t', n, lastLow, lastHigh)
    requires FewSkipped(G, v, r, t, lo, hi)
    requires r >= 0 && t >= 0
    requires SameParity(c, v) && -v <= c <= v && InZone(G, v, c)
    ensures -v + r <= c < n
    ensures Cell(G, V, v, c, Val(V', G, c))
  {
    if t' > t {
      CellOverHigh(G, V, v, lastHigh, Val(V', G, lastHigh));
    }
  }

  /** The diagonals reached after step `v`, `n` being the one it ended before. */
  predicate Widened(v: int, r: int, n: int, lo: int, hi: int, lo': int, hi': int) {
    lo' == Min(lo, -v + r) && hi' == if n - 2 > hi then n - 2 else hi
  }

  lemma NewlyReached(v: int, r: int, t: int, n: int, lo: int, hi: int, lo': int, hi': int, c: int)
    requires lo <= 1 - v + r && v - 1 - t <= hi && r % 2 == 0
    requires SameParity(n, v) && -v + r + 2 <= n <= v - t + 2 && Widened(v, r, n, lo, hi, lo', hi') && lo' <= c <= hi'
    ensures lo <= c <= hi || (-v + r <= c < n && SameParity(c, v))
  {
  }

  lemma NextValue(G: Grid, V: map<int, int>, V': map<int, int>, v: int, r: int, t: int, n: int, lo: int, hi: int,
        lo': int, hi': int, c: int)
    requires Shape(G, V, v, r, t, lo, hi) && Walked(G, V, V', v, r, n)
    requires SameParity(n, v) && -v + r + 2 <= n <= v - t + 2 && Widened(v, r, n, lo, hi, lo', hi') && lo' <= c <= hi'
    ensures Val(V', G, c) >= 0 && Val(V', G, c) >= c
  {
    if -v + r <= c < n && SameParity(c, v) {
      assert Cell(G, V, v, c, Val(V', G, c));
    } else {
      NewlyReached(v, r, t, n, lo, hi, lo', hi', c);
    }
  }

  lemma NextUnreached(G: Grid, V: map<int, int>, V': map<int, int>, v: int, r: int, t: int, n: int, lo: int, hi: int,
        lo': int, hi': int, c: int)
    requires Shape(G, V, v, r, t, lo, hi) && Walked(G, V, V', v, r, n) && v >= 1
    requires SameParity(n, v) && Widened(v, r, n, lo, hi, lo', hi') && (c < lo' || c > hi')
    requires v == 1 ==> n > 1 
    ensures Val(V', G, c) == -1
  {
    assert Val(V', G, c) == Val(V, G, c);
  }

  lemma NextShape(G: Grid, V: map<int, int>, V': map<int, int>, v: int, r: int, t: int, r': int, t': int,
      n: int, lastLow: int, lastHigh: int, lo: int, hi: int, lo': int, hi': int)
    requires G.Valid() && Shape(G, V, v, r, t, lo, hi) && FewSkipped(G, v, r, t, lo, hi)
    requires Stepped(G, V, V', v, r, t, r', t', n, lastLow, lastHigh) && Widened(v, r, n, lo, hi, lo', hi')
    ensures Shape(G, V', v + 1, r', t', lo', hi')
  {
    forall c | lo' <= c <= hi'
      ensures Val(V', G, c) >= 0 && Val(V', G, c) >= c
    {
      NextValue(G, V, V', v, r, t, n, lo, hi, lo', hi', c);
    }
    if v == 1 {
      SecondStep(G, V, V', r, t, r', t', n, lastLow, lastHigh, lo, hi);
    }
    forall c | c < lo' || c > hi'
      ensures Val(V', G, c) == -1
    {
      NextUnreached(G, V, V', v, r, t, n, lo, hi, lo', hi', c);
    }
  }

  /** Step 1 deals with both its diagonals. */
  lemma SecondStep(G: Grid, V: map<int, int>, V': map<int, int>, r: int, t: int, r': int, t': int,
      n: int, lastLow: int, lastHigh: int, lo: int, hi: int)
    requires G.Valid() && Shape(G, V, 1, r, t, lo, hi) && FewSkipped(G, 1, r, t, lo, hi)
    requires Stepped(G, V, V', 1, r, t, r', t', n, lastLow, lastHigh)
    ensures n == 3
  {
    if t' > t {
      CellOverHigh(G, V, 1, lastHigh, Val(V', G, lastHigh));
      EdgesAreReached(G, V, 1, r, t, lo, hi, lastHigh - 1);
    }
  }

  lemma NextReached(G: Grid, V: map<int, int>, V': map<int, int>, v: int, r: int, t: int, r': int, t': int,
      n: int, lastLow: int, lastHigh: int, lo: int, hi: int, lo': int, hi': int)
    requires G.Valid() && v >= 1 && r >= 0 && t >= 0 && Widened(v, r, n, lo, hi, lo', hi')
    requires Stepped(G, V, V', v, r, t, r', t', n, lastLow, lastHigh) && FewSkipped(G, v, r, t, lo, hi)
    ensures Reached(G, v + 1, lo', hi')
  {
    if t' > t {
      CellOverHigh(G, V, v, lastHigh, Val(V', G, lastHigh));
    }
  }

  lemma NextBounded(G: Grid, V: map<int, int>, V': map<int, int>, v: int, r: int, n: int, t: int, lo: int, hi: int,
        lo': int, hi': int)
    requires G.Valid() && Bounded(G, V, v, lo, hi) && Walked(G, V, V', v, r, n)
    requires lo <= 1 - v + r && v - 1 - t <= hi && r % 2 == 0
    requires SameParity(n, v) && -v + r + 2 <= n <= v - t + 2 && Widened(v, r, n, lo, hi, lo', hi')
    ensures Bounded(G, V', v + 1, lo', hi')
  {
    forall c | lo' <= c <= hi'
      ensures Val(V', G, c) <= G.d + v && Val(V', G, c) - c <= G.e + v && !G.Done(Val(V', G, c), c)
    {
      NewlyReached(v, r, t, n, lo, hi, lo', hi', c);
      assert Within(lo, c, hi) || (-v + r <= c < n && SameParity(c, v));
      if -v + r <= c < n && SameParity(c, v) {
        assert Cell(G, V, v, c, Val(V', G, c));
      }
    }
  }

  /** A step passes on to each diagonal it deals with what its neighbours had reached. */
  lemma PassedOn(G: Grid, V: map<int, int>, V': map<int, int>, v: int, r: int, n: int, c: int)
    requires G.Valid() && Walked(G, V, V', v, r, n)
    requires -v + r <= c < n && SameParity(c, v)
    ensures AtRight(G, V, c + 1) ==> AtRight(G, V', c)
    ensures AtBottom(G, V, c - 1) ==> AtBottom(G, V', c)
  {
    assert Cell(G, V, v, c, Val(V', G, c));
  }

  lemma NextLagHigh(G: Grid, V: map<int, int>, V': map<int, int>, v: int, r: int, n: int, t: int, lo: int, hi: int,
        lo': int, hi': int)
    requires G.Valid() && LagHigh(G, V, lo, hi) && Walked(G, V, V', v, r, n)
    requires lo <= 1 - v + r && v - 1 - t <= hi && r % 2 == 0
    requires SameParity(n, v) && -v + r + 2 <= n <= v - t + 2 && Widened(v, r, n, lo, hi, lo', hi')
    ensures LagHigh(G, V', lo', hi')
  {
    forall c {:trigger Within(lo', c, hi')} | Within(lo', c, hi') && c > G.Delta() && Val(V', G, c) >= G.d + 1
      ensures AtRight(G, V', c - 1)
    {
      NewlyReached(v, r, t, n, lo, hi, lo', hi', c);
      assert Within(lo, c, hi) || (-v + r <= c < n && SameParity(c, v));
      if -v + r <= c < n && SameParity(c, v) {
        assert Cell(G, V, v, c, Val(V', G, c));
      } else if -v + r <= c - 1 < n && SameParity(c - 1, v) {
        PassedOn(G, V, V', v, r, n, c - 1);
      } else {
        assert Val(V', G, c) == Val(V, G, c);
        assert Val(V', G, c - 1) == Val(V, G, c - 1);
      }
    }
  }

  lemma NextLagLow(G: Grid, V: map<int, int>, V': map<int, int>, v: int, r: int, n: int, t: int, lo: int, hi: int,
        lo': int, hi': int)
    requires G.Valid() && LagLow(G, V, lo, hi) && Walked(G, V, V', v, r, n)
    requires lo <= 1 - v + r && v - 1 - t <= hi && r % 2 == 0
    requires SameParity(n, v) && -v + r + 2 <= n <= v - t + 2 && Widened(v, r, n, lo, hi, lo', hi')
    ensures LagLow(G, V', lo', hi')
  {
    forall c {:trigger Within(lo', c, hi')} | Within(lo', c, hi') && c < G.Delta() && Val(V', G, c) - c >= G.e + 1
      ensures AtBottom(G, V', c + 1)
    {
      NewlyReached(v, r, t, n, lo, hi, lo', hi', c);
      assert Within(lo, c, hi) || (-v + r <= c < n && SameParity(c, v));
      if -v + r <= c < n && SameParity(c, v) {
        assert Cell(G, V, v, c, Val(V', G, c));
      } else if -v + r <= c + 1 < n && SameParity(c + 1, v) {
        PassedOn(G, V, V', v, r, n, c + 1);
      }
    }
  }

  lemma DealtWithBelow(G: Grid, V: map<int, int>, V': map<int, int>, v: int, r: int, t: int, r': int, t': int,
      n: int, lastLow: int, lastHigh: int, lo: int, hi: int, c: int)
    requires G.Valid() && Shape(G, V, v, r, t, lo, hi) && FewSkipped(G, v, r, t, lo, hi)
    requires Stepped(G, V, V', v, r, t, r', t', n, lastLow, lastHigh)
    requires G.Delta() < c <= v + 1 - t' && SameParity(c, v + 1) && lo <= c <= hi
    ensures -v + r <= c - 1 < n && SameParity(c - 1, v)
  {
  }

  lemma DealtWithAbove(G: Grid, V: map<int, int>, V': map<int, int>, v: int, r: int, t: int, r': int, t': int,
      n: int, lastLow: int, lastHigh: int, lo: int, hi: int, c: int)
    requires G.Valid() && Shape(G, V, v, r, t, lo, hi) && FewSkipped(G, v, r, t, lo, hi)
    requires Stepped(G, V, V', v, r, t, r', t', n, lastLow, lastHigh)
    requires -(v + 1) + r' <= c < G.Delta() && SameParity(c, v + 1) && lo <= c <= hi
    ensures -v + r <= c + 1 < n && SameParity(c + 1, v)
  {
    if t' > t {
      CellOverHigh(G, V, v, lastHigh, Val(V', G, lastHigh));
    }
  }

  lemma Unmoved(G: Grid, V: map<int, int>, V': map<int, int>, v: int, r: int, n: int, c: int)
    requires Walked(G, V, V', v, r, n) && SameParity(c, v + 1)
    ensures Val(V', G, c) == Val(V, G, c)
  {
  }

  lemma NextPassedHigh(G: Grid, V: map<int, int>, V': map<int, int>, v: int, r: int, t: int, r': int, t': int,
      n: int, lastLow: int, lastHigh: int, lo: int, hi: int)
    requires G.Valid() && Shape(G, V, v, r, t, lo, hi) && FewSkipped(G, v, r, t, lo, hi)
    requires Stepped(G, V, V', v, r, t, r', t', n, lastLow, lastHigh)
    ensures PassedHigh(G, V', v + 1, t')
  {
    forall c | G.Delta() < c <= v + 1 - t' && SameParity(c, v + 1) && AtRight(G, V', c)
      ensures AtRight(G, V', c - 1)
    {
      Unmoved(G, V, V', v, r, n, c);
      EdgesAreReached(G, V, v, r, t, lo, hi, c);
      DealtWithBelow(G, V, V', v, r, t, r', t', n, lastLow, lastHigh, lo, hi, c);
      PassedOn(G, V, V', v, r, n, c - 1);
    }
  }

  lemma NextPassedLow(G: Grid, V: map<int, int>, V': map<int, int>, v: int, r: int, t: int, r': int, t': int,
      n: int, lastLow: int, lastHigh: int, lo: int, hi: int)
    requires G.Valid() && Shape(G, V, v, r, t, lo, hi) && FewSkipped(G, v, r, t, lo, hi)
    requires Stepped(G, V, V', v, r, t, r', t', n, lastLow, lastHigh)
    ensures PassedLow(G, V', v + 1, r')
  {
    forall c | -(v + 1) + r' <= c < G.Delta() && SameParity(c, v + 1) && AtBottom(G, V', c)
      ensures AtBottom(G, V', c + 1)
    {
      Unmoved(G, V, V', v, r, n, c);
      EdgesAreReached(G, V, v, r, t, lo, hi, c);
      DealtWithAbove(G, V, V', v, r, t, r', t', n, lastLow, lastHigh, lo, hi, c);
      PassedOn(G, V, V', v, r, n, c + 1);
    }
  }

  lemma NextTouchedHigh(G: Grid, V: map<int, int>, V': map<int, int>, v: int, r: int, t: int, r': int, t': int,
      n: int, lastHigh: int, lo: int, hi: int)
    requires G.Valid() && Shape(G, V, v, r, t, lo, hi) && Bounded(G, V, v, lo, hi)
    requires PassedHigh(G, V, v, t) && TouchedHigh(G, V, v, t)
    requires Walked(G, V, V', v, r, n) && CountedHigh(G, V', v, r, t, t', n, lastHigh)
    ensures TouchedHigh(G, V', v + 1, t')
  {
    hide Bounded, Shape;
    if t' > t {
      CellOverHigh(G, V, v, lastHigh, Val(V', G, lastHigh));
      NotAtCorner(G, V, v, r, t, lo, hi, lastHigh - 1);
      Unmoved(G, V, V', v, r, n, lastHigh - 1);
      assert AtRight(G, V', lastHigh - 1);
    } else if t > 0 {
      var c :| G.Delta() < c <= v - t && SameParity(c, v) && AtRight(G, V, c);
      NotAtCorner(G, V, v, r, t, lo, hi, c - 1);
      Unmoved(G, V, V', v, r, n, c - 1);
      assert AtRight(G, V', c - 1);
    }
  }

  lemma NextTouchedLow(G: Grid, V: map<int, int>, V': map<int, int>, v: int, r: int, t: int, r': int, t': int,
      n: int, lastLow: int, lo: int, hi: int)
    requires G.Valid() && Shape(G, V, v, r, t, lo, hi) && Bounded(G, V, v, lo, hi)
    requires PassedLow(G, V, v, r) && TouchedLow(G, V, v, r)
    requires Walked(G, V, V', v, r, n) && CountedLow(G, V', v, r, r', n, lastLow)
    ensures TouchedLow(G, V', v + 1, r')
  {
    if r' > r {
      CellOverLow(G, V, v, lastLow, Val(V', G, lastLow));
      NotAtCorner(G, V, v, r, t, lo, hi, lastLow + 1);
      Unmoved(G, V, V', v, r, n, lastLow + 1);
      assert AtBottom(G, V', lastLow + 1);
    } else if r > 0 {
      var c :| -v + r <= c < G.Delta() && SameParity(c, v) && AtBottom(G, V, c);
      NotAtCorner(G, V, v, r, t, lo, hi, c + 1);
      Unmoved(G, V, V', v, r, n, c + 1);
      assert AtBottom(G, V', c + 1);
    }
  }

  lemma NotAtCorner(G: Grid, V: map<int, int>, v: int, r: int, t: int, lo: int, hi: int, n: int)
    requires G.Valid() && Shape(G, V, v, r, t, lo, hi) && Bounded(G, V, v, lo, hi)
    ensures AtRight(G, V, n) || AtBottom(G, V, n) ==> n != G.Delta()
  {
    EdgesAreReached(G, V, v, r, t, lo, hi, n);
  }

  lemma NextFront(G: Grid, V: map<int, int>, V': map<int, int>, v: int, r: int, t: int, r': int, t': int,
      n: int, lastLow: int, lastHigh: int, lo: int, hi: int) returns (lo': int, hi': int)
    requires G.Valid() && Front(G, V, v, r, t, lo, hi) && FewSkipped(G, v, r, t, lo, hi)
    requires Stepped(G, V, V', v, r, t, r', t', n, lastLow, lastHigh)
    ensures Front(G, V', v + 1, r', t', lo', hi')
    ensures lo' <= lo && hi <= hi'
  {
    lo', hi' := Min(lo, -v + r), if n - 2 > hi then n - 2 else hi;
    NextShape(G, V, V', v, r, t, r', t', n, lastLow, lastHigh, lo, hi, lo', hi');
    NextReached(G, V, V', v, r, t, r', t', n, lastLow, lastHigh, lo, hi, lo', hi');
    NextBounded(G, V, V', v, r, n, t, lo, hi, lo', hi');
    NextLagHigh(G, V, V', v, r, n, t, lo, hi, lo', hi');
    NextLagLow(G, V, V', v, r, n, t, lo, hi, lo', hi');
    NextPassedHigh(G, V, V', v, r, t, r', t', n, lastLow, lastHigh, lo, hi);
    NextPassedLow(G, V, V', v, r, t, r', t', n, lastLow, lastHigh, lo, hi);
    NextTouchedHigh(G, V, V', v, r, t, r', t', n, lastHigh, lo, hi);
    NextTouchedLow(G, V, V', v, r, t, r', t', n, lastLow, lo, hi);
  }

  lemma FirstValues(G: Grid, V: map<int, int>, V': map<int, int>, n: int)
    requires G.Valid() && Fresh(G, V) && Walked(G, V, V', 0, 0, n) && n == 2 && Val(V', G, 0) == 0
    ensures forall c :: Val(V', G, c) == if c == 0 || c == 1 then 0 else -1
  {
    forall c
      ensures Val(V', G, c) == if c == 0 || c == 1 then 0 else -1
    {
      assert c != 0 ==> Val(V', G, c) == Val(V, G, c);
    }
  }

  lemma FirstFront(G: Grid, V: map<int, int>, V': map<int, int>)
    requires G.Valid() && Fresh(G, V) && Walked(G, V, V', 0, 0, 2) && Val(V', G, 0) == 0
    ensures Front(G, V', 1, 0, 0, 0, 0)
  {
    FirstValues(G, V, V', 2);
    FrontOfOne(G, V');
  }

  lemma FrontOfOne(G: Grid, V: map<int, int>)
    requires G.Valid() && forall c :: Val(V, G, c) == if c == 0 || c == 1 then 0 else -1
    requires Keys(G, V)
    ensures Front(G, V, 1, 0, 0, 0, 0)
  {
  }

  // ---------- walking ----------

  /** The texts agree at the point of diagonal `n` with first coordinate `x`. */
  predicate Matches(a: Text, b: Text, backwards: bool, n: int, x: int) {
    0 <= x < |a| && 0 <= x - n < |b| && UnitAt(a, x, backwards) == UnitAt(b, x - n, backwards)
  }

  /** From `start` to `x`, and no further, the texts agree along diagonal `n`. */
  ghost predicate SlidAsFarAs(a: Text, b: Text, backwards: bool, n: int, start: int, x: int) {
    x >= start && !Matches(a, b, backwards, n, x) && forall k :: start <= k < x ==> Matches(a, b, backwards, n, k)
  }

  /** Goes as far along diagonal `n` as the texts match. */
  method Slide(a: Text, b: Text, backwards: bool, G: Grid, n: int, start: int) returns (x: int)
    requires G.d == |a| && G.e == |b| && |a| > 0 && |b| > 0 && NothingShared(a, b)
    requires start >= 0 && start >= n
    ensures SlidAsFarAs(a, b, backwards, n, start, x)
    ensures SlidTo(G, n, start, x) && (start == 0 && n == 0 ==> x == 0)
  {
    x := start;
    while x < |a| && x - n < |b| && UnitAt(a, x, backwards) == UnitAt(b, x - n, backwards)
      invariant start <= x
      invariant forall k :: start <= k < x ==> Matches(a, b, backwards, n, k)
      invariant x > start ==> x <= |a| && x - n <= |b|
      decreases |a| - x
    {
      x := x + 1;
    }
    assert x > start ==> Matches(a, b, backwards, n, x - 1) && Matches(a, b, backwards, n, start);
  }

  // ---------- how far the fronts have come ----------

  /** The grid is that of the two texts. */
  predicate IsGridOf(G: Grid, a: Text, b: Text) {
    G.Valid() && G.d == |a| && G.e == |b|
  }

  predicate OnGrid(G: Grid, n: int, x: int) {
    G.Holds(x, x - n)
  }

  /** A diagonal nearer to that of the far corner has reached the edge: what lies beyond is of no more use. */
  ghost predicate WalledHigh(G: Grid, V: map<int, int>, n: int) {
    exists c :: G.Delta() < c < n && AtRight(G, V, c)
  }

  ghost predicate WalledLow(G: Grid, V: map<int, int>, n: int) {
    exists c :: n < c < G.Delta() && AtBottom(G, V, c)
  }

  /** If the point lies behind the front, fewer than `v` edits lead there. */
  ghost predicate Sound(a: Text, b: Text, backwards: bool, G: Grid, V: map<int, int>, v: int, n: int, x: int)
    requires IsGridOf(G, a, b)
  {
    OnGrid(G, n, x) && x <= Val(V, G, n) ==> Reach(a, b, backwards, x, x - n) <= v - 1
  }

  /** If fewer than `v` edits lead to the point, it lies behind the front, or behind a wall. */
  ghost predicate Complete(a: Text, b: Text, backwards: bool, G: Grid, V: map<int, int>, v: int, n: int, x: int)
    requires IsGridOf(G, a, b)
  {
    OnGrid(G, n, x) && Reach(a, b, backwards, x, x - n) <= v - 1 ==>
      x <= Val(V, G, n) || WalledHigh(G, V, n) || WalledLow(G, V, n)
  }

  /** The front before step `v` is as far as fewer than `v` edits lead. */
  ghost predicate Tight(a: Text, b: Text, backwards: bool, G: Grid, V: map<int, int>, v: int)
    requires IsGridOf(G, a, b)
  {
    v > 0 ==> forall n, x :: Sound(a, b, backwards, G, V, v, n, x) && Complete(a, b, backwards, G, V, v, n, x)
  }

  /** Every diagonal that step `v` has dealt with below `n` has been slid along as far as the texts agree. */
  ghost predicate SlidCells(a: Text, b: Text, backwards: bool, G: Grid, V: map<int, int>, V': map<int, int>, v: int,
        r: int, n: int) {
    forall c {:trigger Val(V', G, c)} :: -v + r <= c < n && SameParity(c, v) ==>
      SlidAsFarAs(a, b, backwards, c, StartOf(G, V, v, c), Val(V', G, c))
  }

  lemma {:induction false} WallsStay(G: Grid, V: map<int, int>, V': map<int, int>, v: int, r: int, t: int, lo: int,
        hi: int, end: int, n: int)
    requires G.Valid() && Front(G, V, v, r, t, lo, hi) && Walked(G, V, V', v, r, end)
    requires SameParity(end, v) && end <= v - t + 2
    ensures WalledHigh(G, V, n) ==> WalledHigh(G, V', n)
    ensures WalledLow(G, V, n) ==> WalledLow(G, V', n)
  {
    hide Shape, Bounded, LagHigh, LagLow, PassedHigh, PassedLow, TouchedHigh, TouchedLow, Reached, AtRight, AtBottom,
      Walked;
    if WalledHigh(G, V, n) {
      var c :| G.Delta() < c < n && AtRight(G, V, c);
      HighWallStays(G, V, V', v, r, t, lo, hi, end, c);
      assert AtRight(G, V', c) || AtRight(G, V', c - 1);
    }
    if WalledLow(G, V, n) {
      var c :| n < c < G.Delta() && AtBottom(G, V, c);
      LowWallStays(G, V, V', v, r, t, lo, hi, end, c);
      assert AtBottom(G, V', c) || AtBottom(G, V', c + 1);
    }
  }

  lemma {:induction false} HighWallStays(G: Grid, V: map<int, int>, V': map<int, int>, v: int, r: int, t: int, lo: int,
        hi: int, end: int, c: int)
    requires G.Valid() && Front(G, V, v, r, t, lo, hi) && Walked(G, V, V', v, r, end)
    requires SameParity(end, v) && end <= v - t + 2 && G.Delta() < c && AtRight(G, V, c)
    ensures AtRight(G, V', c) || (G.Delta() < c - 1 && AtRight(G, V', c - 1))
  {
    hide LagHigh, LagLow, PassedLow, TouchedHigh, TouchedLow, Reached;
    if -v + r <= c < end && SameParity(c, v) {
      assert AtRight(G, V, c - 1);
      NotAtCorner(G, V, v, r, t, lo, hi, c - 1);
      Unmoved(G, V, V', v, r, end, c - 1);
    } else {
      assert Val(V', G, c) == Val(V, G, c);
    }
  }

  lemma {:induction false} LowWallStays(G: Grid, V: map<int, int>, V': map<int, int>, v: int, r: int, t: int, lo: int,
        hi: int, end: int, c: int)
    requires G.Valid() && Front(G, V, v, r, t, lo, hi) && Walked(G, V, V', v, r, end)
    requires c < G.Delta() && AtBottom(G, V, c)
    ensures AtBottom(G, V', c) || (c + 1 < G.Delta() && AtBottom(G, V', c + 1))
  {
    hide LagHigh, LagLow, PassedHigh, TouchedHigh, TouchedLow, Reached;
    if -v + r <= c < end && SameParity(c, v) {
      assert AtBottom(G, V, c + 1);
      NotAtCorner(G, V, v, r, t, lo, hi, c + 1);
      Unmoved(G, V, V', v, r, end, c + 1);
    } else {
      assert Val(V', G, c) == Val(V, G, c);
    }
  }

  // ---------- the front is not too far ----------

  /** What lies before the start of a walk is a step from a neighbour. */
  lemma {:induction false} BeforeStart(a: Text, b: Text, backwards: bool, G: Grid, V: map<int, int>, v: int, r: int,
        t: int, lo: int, hi: int, n: int, x: int)
    requires IsGridOf(G, a, b) && v >= 1 && Shape(G, V, v, r, t, lo, hi) && InStep(v, r, t, n) && (t > 0 ==> lo < hi)
    requires Tight(a, b, backwards, G, V, v) && OnGrid(G, n, x) && x <= StartOf(G, V, v, n)
    ensures Reach(a, b, backwards, x, x - n) <= v
  {
    NeighboursNear(a, b, backwards, x, x - n);
    if ComesDown(G, V, v, n) {
      assert Sound(a, b, backwards, G, V, v, n + 1, x);
    } else {
      assert Sound(a, b, backwards, G, V, v, n - 1, x - 1);
    }
  }

  /** Sliding costs nothing. */
  lemma {:induction false} SlidingIsFree(a: Text, b: Text, backwards: bool, n: int, start: int, x: int)
    requires 0 <= start <= x <= |a| && 0 <= start - n && x - n <= |b|
    requires forall k :: start <= k < x ==> Matches(a, b, backwards, n, k)
    ensures Reach(a, b, backwards, x, x - n) == Reach(a, b, backwards, start, start - n)
    decreases x - start
  {
    if start < x {
      SlidingIsFree(a, b, backwards, n, start, x - 1);
      assert Matches(a, b, backwards, n, x - 1);
    }
  }

  lemma {:induction false} CellSound(a: Text, b: Text, backwards: bool, G: Grid, V: map<int, int>, v: int, r: int,
        t: int, lo: int, hi: int, n: int, found: int, x: int)
    requires IsGridOf(G, a, b) && v >= 1 && Shape(G, V, v, r, t, lo, hi) && InStep(v, r, t, n) && (t > 0 ==> lo < hi)
    requires Tight(a, b, backwards, G, V, v) && OnGrid(G, n, x) && x <= found
    requires SlidAsFarAs(a, b, backwards, n, StartOf(G, V, v, n), found)
    requires StartOf(G, V, v, n) >= 0 && StartOf(G, V, v, n) >= n
    ensures Reach(a, b, backwards, x, x - n) <= v
  {
    hide Tight, Reach, Shape, ComesDown;
    var start := StartOf(G, V, v, n);
    if x <= start {
      BeforeStart(a, b, backwards, G, V, v, r, t, lo, hi, n, x);
    } else {
      BeforeStart(a, b, backwards, G, V, v, r, t, lo, hi, n, start);
      SlidingIsFree(a, b, backwards, n, start, x);
    }
  }

  // ---------- the front is far enough ----------

  /** Where the texts differ, a point further on is reached by way of a neighbour. */
  lemma {:induction false} ByNeighbour(a: Text, b: Text, backwards: bool, n: int, z: int, x: int, v: int)
    requires 0 <= z < x <= |a| && n <= z && x - n <= |b| && !Matches(a, b, backwards, n, z)
    requires Reach(a, b, backwards, x, x - n) <= v
    ensures Reach(a, b, backwards, z, z + 1 - n) <= v - 1 || Reach(a, b, backwards, z + 1, z - n) <= v - 1
  {
    AlongDiagonal(a, b, backwards, z + 1, z + 1 - n, x - z - 1);
    hide UnitAt;
  }

  /** What few edits lead to on a diagonal lies behind what a walk along it finds, or behind a wall. */
  lemma {:induction false} CellComplete(a: Text, b: Text, backwards: bool, G: Grid, V: map<int, int>, v: int, r: int,
        t: int, lo: int, hi: int, n: int, found: int, x: int)
    requires IsGridOf(G, a, b) && v >= 1 && Front(G, V, v, r, t, lo, hi) && InStep(v, r, t, n) && (t > 0 ==> lo < hi)
    requires Tight(a, b, backwards, G, V, v) && OnGrid(G, n, x) && Reach(a, b, backwards, x, x - n) <= v
    requires SlidAsFarAs(a, b, backwards, n, StartOf(G, V, v, n), found)
    requires StartOf(G, V, v, n) >= 0 && StartOf(G, V, v, n) >= n
    ensures x <= found || WalledHigh(G, V, n) || WalledLow(G, V, n)
  {
    if x > found {
      NeighboursReached(G, V, v, r, t, lo, hi, n);
      ByNeighbour(a, b, backwards, n, found, x, v);
      assert Complete(a, b, backwards, G, V, v, n - 1, found) && Complete(a, b, backwards, G, V, v, n + 1, found + 1);
      hide Reach, StartOf, SlidAsFarAs, Shape, Bounded, Tight;
      BeyondNeighbour(G, V, v, r, t, lo, hi, n, found);
    }
  }

  /** A wall next to a diagonal dealt with is a wall for it, or the walk would have started beyond the edge. */
  lemma {:induction false} BeyondNeighbour(G: Grid, V: map<int, int>, v: int, r: int, t: int, lo: int, hi: int, n: int,
        found: int)
    requires G.Valid() && Front(G, V, v, r, t, lo, hi) && InStep(v, r, t, n)
    requires found >= Val(V, G, n - 1) + 1 && found >= Val(V, G, n + 1) && found < G.d && found - n < G.e
    ensures WalledHigh(G, V, n - 1) || WalledHigh(G, V, n + 1) ==> WalledHigh(G, V, n)
    ensures WalledLow(G, V, n - 1) || WalledLow(G, V, n + 1) ==> WalledLow(G, V, n)
  {
    hide Shape, Bounded, LagHigh, LagLow, TouchedHigh, TouchedLow, Reached;
    assert AtRight(G, V, n) && G.Delta() < n ==> AtRight(G, V, n - 1);
    assert AtBottom(G, V, n) && n < G.Delta() ==> AtBottom(G, V, n + 1);
  }

  /** Diagonals that step `v` passes by lie behind walls, as far as its edits could lead there. */
  lemma {:induction false} PassedByWalled(G: Grid, V': map<int, int>, v: int, r: int, r': int, t': int, end: int,
        n: int)
    requires TouchedHigh(G, V', v + 1, t') && TouchedLow(G, V', v + 1, r')
    requires SameParity(end, v) && end > v - t' && SameParity(n, v) && -v <= n <= v
    requires r <= r' && r' % 2 == 0 && r % 2 == 0 && t' >= 0 && t' % 2 == 0
    ensures n < -v + r ==> WalledLow(G, V', n)
    ensures n >= end ==> WalledHigh(G, V', n)
  {
  }

  // ---------- a step keeps the front tight ----------

  /** What step `v` has done, ending before diagonal `end`. */
  ghost predicate TrailTo(a: Text, b: Text, backwards: bool, G: Grid, V: map<int, int>, V': map<int, int>, v: int,
        r: int, t: int, r': int, t': int, end: int) {
    && Walked(G, V, V', v, r, end) && SlidCells(a, b, backwards, G, V, V', v, r, end)
    && SameParity(end, v) && v - t' < end <= v - t + 2 && r <= r'
  }

  ghost predicate Trail(a: Text, b: Text, backwards: bool, G: Grid, V: map<int, int>, V': map<int, int>, v: int,
        r: int, t: int, r': int, t': int) {
    exists end :: TrailTo(a, b, backwards, G, V, V', v, r, t, r', t', end)
  }

  lemma {:induction false} SoundNext(a: Text, b: Text, backwards: bool, G: Grid, V: map<int, int>, V': map<int, int>,
        v: int, r: int, t: int, r': int, t': int, end: int, lo: int, hi: int, n: int, x: int)
    requires IsGridOf(G, a, b) && v >= 1 && Front(G, V, v, r, t, lo, hi) && FewSkipped(G, v, r, t, lo, hi)
    requires TrailTo(a, b, backwards, G, V, V', v, r, t, r', t', end) && Tight(a, b, backwards, G, V, v)
    ensures Sound(a, b, backwards, G, V', v + 1, n, x)
  {
    hide Reach, Front;
    if OnGrid(G, n, x) && x <= Val(V', G, n) {
      if -v + r <= n < end && SameParity(n, v) {
        assert Cell(G, V, v, n, Val(V', G, n));
        ShapeOfFront(G, V, v, r, t, lo, hi);
        StartFits(G, V, v, r, t, lo, hi, n);
        CellSound(a, b, backwards, G, V, v, r, t, lo, hi, n, Val(V', G, n), x);
      } else {
        assert Val(V', G, n) == Val(V, G, n);
        assert Sound(a, b, backwards, G, V, v, n, x);
      }
    }
  }

  lemma ShapeOfFront(G: Grid, V: map<int, int>, v: int, r: int, t: int, lo: int, hi: int)
    requires Front(G, V, v, r, t, lo, hi)
    ensures Shape(G, V, v, r, t, lo, hi) && Bounded(G, V, v, lo, hi)
  {
  }

  lemma {:induction false} CompleteNext(a: Text, b: Text, backwards: bool, G: Grid, V: map<int, int>,
        V': map<int, int>, v: int, r: int, t: int, r': int, t': int, end: int, lo: int, hi: int, lo': int, hi': int,
        n: int, x: int)
    requires IsGridOf(G, a, b) && v >= 1 && Front(G, V, v, r, t, lo, hi) && FewSkipped(G, v, r, t, lo, hi)
    requires TrailTo(a, b, backwards, G, V, V', v, r, t, r', t', end) && Tight(a, b, backwards, G, V, v)
    requires Front(G, V', v + 1, r', t', lo', hi')
    ensures Complete(a, b, backwards, G, V', v + 1, n, x)
  {
    hide Reach, Cell, Shape, Bounded, LagHigh, LagLow, PassedHigh, PassedLow, TouchedHigh, TouchedLow, Reached,
      WalledHigh, WalledLow, SlidAsFarAs, StartOf;
    if OnGrid(G, n, x) && Reach(a, b, backwards, x, x - n) <= v {
      assert Complete(a, b, backwards, G, V, v, n, x);
      hide Tight;
      ReachBounds(a, b, backwards, x, x - n);
      if !SameParity(n, v) {
        WallsStay(G, V, V', v, r, t, lo, hi, end, n);
        assert Val(V', G, n) == Val(V, G, n);
      } else if -v + r <= n < end {
        CompleteWhereWalked(a, b, backwards, G, V, V', v, r, t, r', t', end, lo, hi, n, x);
      } else {
        SkipsAreEven(G, V, V', v, r, t, lo, hi, r', t', lo', hi');
        PassedByWalled(G, V', v, r, r', t', end, n);
      }
    }
  }

  lemma {:induction false} CompleteWhereWalked(a: Text, b: Text, backwards: bool, G: Grid, V: map<int, int>,
        V': map<int, int>, v: int, r: int, t: int, r': int, t': int, end: int, lo: int, hi: int, n: int, x: int)
    requires IsGridOf(G, a, b) && v >= 1 && Front(G, V, v, r, t, lo, hi) && FewSkipped(G, v, r, t, lo, hi)
    requires TrailTo(a, b, backwards, G, V, V', v, r, t, r', t', end) && Tight(a, b, backwards, G, V, v)
    requires -v + r <= n < end && SameParity(n, v) && OnGrid(G, n, x) && Reach(a, b, backwards, x, x - n) <= v
    ensures x <= Val(V', G, n) || WalledHigh(G, V', n) || WalledLow(G, V', n)
  {
    hide Reach, Cell, Front, FewSkipped, WalledHigh, WalledLow, SlidAsFarAs, StartOf, Tight;
    WallsStay(G, V, V', v, r, t, lo, hi, end, n);
    StartIsIn(G, V, V', v, r, t, lo, hi, end, n);
    CellComplete(a, b, backwards, G, V, v, r, t, lo, hi, n, Val(V', G, n), x);
  }

  lemma SkipsAreEven(G: Grid, V: map<int, int>, V': map<int, int>, v: int, r: int, t: int, lo: int, hi: int, r': int,
        t': int, lo': int, hi': int)
    requires Front(G, V, v, r, t, lo, hi) && Front(G, V', v + 1, r', t', lo', hi')
    ensures r % 2 == 0 && r' % 2 == 0 && t' >= 0 && t' % 2 == 0
  {
  }

  lemma StartIsIn(G: Grid, V: map<int, int>, V': map<int, int>, v: int, r: int, t: int, lo: int, hi: int, end: int,
        n: int)
    requires G.Valid() && Front(G, V, v, r, t, lo, hi) && FewSkipped(G, v, r, t, lo, hi)
    requires Walked(G, V, V', v, r, end) && -v + r <= n < end <= v - t + 2 && SameParity(n, v) && SameParity(end, v)
    ensures StartOf(G, V, v, n) >= 0 && StartOf(G, V, v, n) >= n && (t > 0 ==> lo < hi) && InStep(v, r, t, n)
  {
    StartFits(G, V, v, r, t, lo, hi, n);
  }

  /** A step keeps the front tight. */
  lemma {:induction false} TightNext(a: Text, b: Text, backwards: bool, G: Grid, V: map<int, int>, V': map<int, int>,
        v: int, r: int, t: int, r': int, t': int, lo: int, hi: int, lo': int, hi': int)
    requires IsGridOf(G, a, b) && v >= 1 && Ready(G, V, v, r, t, lo, hi) && Tight(a, b, backwards, G, V, v)
    requires Trail(a, b, backwards, G, V, V', v, r, t, r', t') && Front(G, V', v + 1, r', t', lo', hi')
    ensures Tight(a, b, backwards, G, V', v + 1)
  {
    FewAreSkipped(G, V, v, r, t, lo, hi);
    var end :| TrailTo(a, b, backwards, G, V, V', v, r, t, r', t', end);
    hide Front, FewSkipped, TrailTo, Sound, Complete;
    var next := v + 1;
    forall n, x
      ensures Sound(a, b, backwards, G, V', next, n, x) && Complete(a, b, backwards, G, V', next, n, x)
    {
      SoundNext(a, b, backwards, G, V, V', v, r, t, r', t', end, lo, hi, n, x);
      CompleteNext(a, b, backwards, G, V, V', v, r, t, r', t', end, lo, hi, lo', hi', n, x);
    }
  }

  lemma {:induction false} OffTheCorner(a: Text, b: Text, backwards: bool, x: nat, y: nat)
    requires NothingShared(a, b) && x <= |a| && y <= |b|
    ensures x > 0 || y > 0 ==> Reach(a, b, backwards, x, y) > 0
  {
    ReachBounds(a, b, backwards, x, y);
    if x > 0 && x == y {
      AlongDiagonal(a, b, backwards, 1, 1, x - 1);
    }
  }

  /** Step 0 leads to the corner it starts at, and nowhere else. */
  lemma {:induction false} TightFirst(a: Text, b: Text, backwards: bool, G: Grid, V: map<int, int>)
    requires IsGridOf(G, a, b) && NothingShared(a, b)
    requires forall c :: Val(V, G, c) == if c == 0 || c == 1 then 0 else -1
    ensures Tight(a, b, backwards, G, V, 1)
  {
    forall n, x ensures Sound(a, b, backwards, G, V, 1, n, x) && Complete(a, b, backwards, G, V, 1, n, x) {
      if OnGrid(G, n, x) {
        ReachBounds(a, b, backwards, x, x - n);
        OffTheCorner(a, b, backwards, x, x - n);
      }
    }
  }

  ghost predicate ZoneCell(G: Grid, v: int, c: int) {
    SameParity(c, v) && -v <= c <= v && InZone(G, v, c)
  }

  ghost predicate ZoneDealtWith(G: Grid, v: int, r: int, n: int) {
    forall c :: ZoneCell(G, v, c) ==> -v + r <= c < n
  }

  ghost predicate ZoneOnGrid(G: Grid, V: map<int, int>, v: int, lo: int, hi: int) {
    forall c :: ZoneCell(G, v, c) ==>
      lo <= c <= hi && G.Holds(Val(V, G, c), Val(V, G, c) - c)
  }

  /** Nowhere in the zone have the two fronts met. */
  ghost predicate Apart(G: Grid, X: map<int, int>, Y: map<int, int>, v: int) {
    forall c :: ZoneCell(G, v, c) && Val(Y, G, G.Delta() - c) != -1 ==>
      Val(X, G, c) + Val(Y, G, G.Delta() - c) < G.d
  }

  /** Diagonal `n` has met the other front at `x`, on the grid and not at the far corner. */
  ghost predicate Met(G: Grid, Y: map<int, int>, v: int, n: int, x: int) {
    && G.Holds(x, x - n) && !G.Done(x, n) && SameParity(n, v) && -v <= n <= v
    && Val(Y, G, G.Delta() - n) != -1 && x + Val(Y, G, G.Delta() - n) >= G.d
  }

  /** Those dealt with so far, if on the grid, have not met the other front. */
  ghost predicate ApartSoFar(G: Grid, V: map<int, int>, Y: map<int, int>, v: int, r: int, n: int) {
    forall c {:trigger SameParity(c, v)} :: -v + r <= c < n && SameParity(c, v) ==>
      G.Holds(Val(V, G, c), Val(V, G, c) - c) && 0 <= G.g + G.Delta() - c < 2 * G.g
        && Val(Y, G, G.Delta() - c) != -1 ==>
      Val(V, G, c) + Val(Y, G, G.Delta() - c) < G.d
  }

  /** What a front must be for step `v`. */
  ghost predicate Ready(G: Grid, V: map<int, int>, v: int, r: int, t: int, lo: int, hi: int) {
    if v == 0 then Fresh(G, V) && r == 0 && t == 0
    else Front(G, V, v, r, t, lo, hi) && Interior(G, V, v - 1 - G.Rho(), lo, hi)
  }

  lemma FewAreSkipped(G: Grid, V: map<int, int>, v: int, r: int, t: int, lo: int, hi: int)
    requires G.Valid() && v >= 1 && Ready(G, V, v, r, t, lo, hi)
    ensures FewSkipped(G, v, r, t, lo, hi) && -v + r <= v - t
  {
    SkippedLow(G, V, v, r, t, lo, hi);
    SkippedHigh(G, V, v, r, t, lo, hi);
    if r > 0 {
      var c :| -v + r <= c < G.Delta() && SameParity(c, v) && AtBottom(G, V, c);
      EdgesAreReached(G, V, v, r, t, lo, hi, c);
    }
    if t > 0 {
      var c :| G.Delta() < c <= v - t && SameParity(c, v) && AtRight(G, V, c);
      EdgesAreReached(G, V, v, r, t, lo, hi, c);
    }
  }

  lemma ReadyStart(G: Grid, V: map<int, int>, v: int, r: int, t: int, lo: int, hi: int, n: int)
    requires G.Valid() && v >= 0 && Ready(G, V, v, r, t, lo, hi) && InStep(v, r, t, n)
    ensures StartOf(G, V, v, n) >= 0 && StartOf(G, V, v, n) >= n
    ensures v == 0 ==> n == 0 && StartOf(G, V, v, n) == 0
  {
    if v == 0 {
      FirstCell(G, V);
    } else {
      FewAreSkipped(G, V, v, r, t, lo, hi);
      StartFits(G, V, v, r, t, lo, hi, n);
    }
  }

  lemma ReadyCell(G: Grid, V: map<int, int>, v: int, r: int, t: int, lo: int, hi: int, n: int, x: int)
    requires G.Valid() && v >= 0 && Ready(G, V, v, r, t, lo, hi) && InStep(v, r, t, n)
    requires SlidTo(G, n, StartOf(G, V, v, n), x) && (v == 0 ==> x == 0)
    ensures Cell(G, V, v, n, x)
  {
    if v == 0 {
      FirstCell(G, V);
    } else {
      FewAreSkipped(G, V, v, r, t, lo, hi);
      CellFound(G, V, v, r, t, lo, hi, n, x);
    }
  }

  lemma WalkedOn(G: Grid, V: map<int, int>, V': map<int, int>, v: int, r: int, n: int, x: int)
    requires G.Valid() && Walked(G, V, V', v, r, n) && SameParity(n, v) && -v + r <= n
    requires Cell(G, V, v, n, x)
    ensures Walked(G, V, V'[G.g + n := x], v, r, n + 2)
    ensures forall c {:trigger Val(V'[G.g + n := x], G, c)} ::
      Val(V'[G.g + n := x], G, c) == if c == n then x else Val(V', G, c)
  {
    var W := V'[G.g + n := x];
    forall c {:trigger Val(W, G, c)}
      ensures Val(W, G, c) == if c == n then x else Val(V', G, c)
    {
    }
    forall c {:trigger Val(W, G, c)} | -v + r <= c < n + 2 && SameParity(c, v)
      ensures Cell(G, V, v, c, Val(W, G, c))
    {
      assert c == n || Cell(G, V, v, c, Val(V', G, c));
    }
  }

  lemma SameStart(G: Grid, V: map<int, int>, V': map<int, int>, v: int, r: int, n: int)
    requires Walked(G, V, V', v, r, n) && SameParity(n, v)
    ensures ComesDown(G, V', v, n) == ComesDown(G, V, v, n) && StartOf(G, V', v, n) == StartOf(G, V, v, n)
  {
    Unmoved(G, V, V', v, r, n, n - 1);
    Unmoved(G, V, V', v, r, n, n + 1);
  }

  /** What has been dealt with when step `v` is over. */
  lemma StepOver(G: Grid, V: map<int, int>, V': map<int, int>, v: int, r: int, t: int, r': int, t': int,
      n: int, lastLow: int, lastHigh: int, lo: int, hi: int) returns (lo': int, hi': int)
    requires G.Valid() && v >= 0 && Ready(G, V, v, r, t, lo, hi)
    requires Stepped(G, V, V', v, r, t, r', t', n, lastLow, lastHigh)
    requires v == 0 ==> r' == 0 && t' == 0 && Val(V', G, 0) == 0
    ensures Front(G, V', v + 1, r', t', lo', hi')
    ensures ZoneDealtWith(G, v, r, n)
  {
    if v == 0 {
      FirstFront(G, V, V');
      lo', hi' := 0, 0;
    } else {
      FewAreSkipped(G, V, v, r, t, lo, hi);
      lo', hi' := NextFront(G, V, V', v, r, t, r', t', n, lastLow, lastHigh, lo, hi);
      ZoneIsWalked(G, V, V', v, r, t, r', t', n, lastLow, lastHigh, lo, hi);
    }
  }

  lemma ZoneIsWalked(G: Grid, V: map<int, int>, V': map<int, int>, v: int, r: int, t: int, r': int, t': int,
      n: int, lastLow: int, lastHigh: int, lo: int, hi: int)
    requires G.Valid() && v >= 1 && Stepped(G, V, V', v, r, t, r', t', n, lastLow, lastHigh)
    requires FewSkipped(G, v, r, t, lo, hi)
    requires r >= 0 && t >= 0
    ensures ZoneDealtWith(G, v, r, n)
  {
    forall c | ZoneCell(G, v, c)
      ensures -v + r <= c < n
    {
      ZoneWalked(G, V, V', v, r, t, r', t', n, lastLow, lastHigh, lo, hi, c);
    }
  }

  lemma ZoneIsOnGrid(G: Grid, V: map<int, int>, V': map<int, int>, v: int, r: int, r': int, t': int, n: int, lo': int,
        hi': int)
    requires G.Valid() && v >= 0 && Walked(G, V, V', v, r, n) && Shape(G, V', v + 1, r', t', lo', hi')
    requires ZoneDealtWith(G, v, r, n)
    ensures ZoneOnGrid(G, V', v, lo', hi')
  {
    forall c | ZoneCell(G, v, c)
      ensures lo' <= c <= hi' && G.Holds(Val(V', G, c), Val(V', G, c) - c)
    {
      assert Cell(G, V, v, c, Val(V', G, c));
      assert v == 0 ==> c == 0;
    }
  }

  lemma ZoneIsApart(G: Grid, V': map<int, int>, Y: map<int, int>, v: int, r: int, n: int, lo': int, hi': int)
    requires G.Valid() && 0 <= v < G.g && ApartSoFar(G, V', Y, v, r, n) && ZoneOnGrid(G, V', v, lo', hi')
    requires ZoneDealtWith(G, v, r, n)
    ensures Apart(G, V', Y, v)
  {
  }

  /** The walk along diagonal `n` in step `v`: down or right from a neighbour, then as far as the texts match. */
  method WalkCell(a: Text, b: Text, backwards: bool, G: Grid, v: int, V': map<int, int>, n: int,
      ghost V: map<int, int>, ghost r: int, ghost t: int, ghost lo: int, ghost hi: int) returns (x: int)
    requires G.d == |a| && G.e == |b| && G.Valid() && NothingShared(a, b)
    requires 0 <= v < G.g && Ready(G, V, v, r, t, lo, hi) && Walked(G, V, V', v, r, n) && InStep(v, r, t, n)
    requires r >= 0 && t >= 0
    ensures SlidAsFarAs(a, b, backwards, n, StartOf(G, V', v, n), x)
    ensures SlidAsFarAs(a, b, backwards, n, StartOf(G, V, v, n), x)
    ensures Cell(G, V, v, n, x) && (v == 0 ==> n == 0 && x == 0)
  {
    ReadyStart(G, V, v, r, t, lo, hi, n);
    SameStart(G, V, V', v, r, n);
    x := StartAt(G, V', v, n);
    x := Slide(a, b, backwards, G, n, x);
    ReadyCell(G, V, v, r, t, lo, hi, n, x);
  }

  /** Down from the diagonal above or right from the one below. */
  method StartAt(G: Grid, V: map<int, int>, v: int, n: int) returns (x: int)
    requires -v <= n <= v < G.g && SameParity(n, v) && Keys(G, V) && (v == 0 ==> G.g + 1 in V)
    ensures x == StartOf(G, V, v, n)
  {
    var l := G.g + n;
    if n == -v || (n != v && V[l - 1] < V[l + 1]) {
      x := V[l + 1];
    } else {
      x := V[l - 1] + 1;
    }
  }

  lemma SkipsFit(G: Grid, V: map<int, int>, v: int, r: int, t: int, lo: int, hi: int)
    requires G.Valid() && v >= 0 && Ready(G, V, v, r, t, lo, hi)
    ensures r >= 0 && t >= 0 && r % 2 == 0 && t % 2 == 0 && -v + r <= v - t
  {
    if v > 0 {
      FewAreSkipped(G, V, v, r, t, lo, hi);
    }
  }

  ghost predicate OtherParityKept(G: Grid, V: map<int, int>, V': map<int, int>, v: int) {
    forall c {:trigger Val(V', G, c)} :: SameParity(c, v + 1) ==> Val(V', G, c) == Val(V, G, c)
  }

  lemma ApartOneMore(G: Grid, V: map<int, int>, V': map<int, int>, Y: map<int, int>, v: int, r: int, n: int)
    requires ApartSoFar(G, V, Y, v, r, n) && SameParity(n, v)
    requires forall c {:trigger Val(V', G, c)} :: c != n ==> Val(V', G, c) == Val(V, G, c)
    requires var m := G.Delta() - n;
      G.Holds(Val(V', G, n), Val(V', G, n) - n) && 0 <= G.g + m < 2 * G.g && Val(Y, G, m) != -1 ==>
      Val(V', G, n) + Val(Y, G, G.Delta() - n) < G.d
    ensures ApartSoFar(G, V', Y, v, r, n + 2)
  {
  }

  lemma CountedOn(G: Grid, V: map<int, int>, V': map<int, int>, v: int, r: int, t: int, r': int, t': int, n: int,
        lastLow: int, lastHigh: int)
    requires CountedLow(G, V, v, r, r', n, lastLow) && CountedHigh(G, V, v, r, t, t', n, lastHigh)
    requires SameParity(n, v) && -v + r <= n <= v - t'
    requires forall c {:trigger Val(V', G, c)} :: c != n ==> Val(V', G, c) == Val(V, G, c)
    ensures CountedLow(G, V', v, r, r', n + 2, lastLow) && CountedHigh(G, V', v, r, t, t', n + 2, lastHigh)
    ensures Val(V', G, n) > G.d ==> CountedHigh(G, V', v, r, t, t' + 2, n + 2, n)
    ensures Val(V', G, n) - n > G.e ==> CountedLow(G, V', v, r, r' + 2, n + 2, n)
  {
  }

  /** Step `v` on its way, about to deal with diagonal `n`. */
  ghost predicate Going(G: Grid, V: map<int, int>, V': map<int, int>, Y: map<int, int>, checks: bool, v: int,
      r: int, t: int, r': int, t': int, n: int, lastLow: int, lastHigh: int)
  {
    && Walked(G, V, V', v, r, n)
    && CountedLow(G, V', v, r, r', n, lastLow) && CountedHigh(G, V', v, r, t, t', n, lastHigh)
    && (v == 0 ==> r' == 0 && t' == 0 && (n > 0 ==> Val(V', G, 0) == 0))
    && (checks ==> ApartSoFar(G, V', Y, v, r, n))
  }

  ghost predicate OnTheWay(G: Grid, V: map<int, int>, V': map<int, int>, Y: map<int, int>, checks: bool, v: int,
      r: int, t: int, r': int, t': int, n: int)
  {
    exists lastLow, lastHigh :: Going(G, V, V', Y, checks, v, r, t, r', t', n, lastLow, lastHigh)
  }

  /** The diagonals skipped at the lower end once `x` has been found on diagonal `n`. */
  function SkipLow(G: Grid, r: int, n: int, x: int): int {
    if x <= G.d && x - n > G.e then r + 2 else r
  }

  function SkipHigh(G: Grid, t: int, x: int): int {
    if x > G.d then t + 2 else t
  }

  lemma GoesOn(G: Grid, V: map<int, int>, V': map<int, int>, Y: map<int, int>, checks: bool, v: int,
      r: int, t: int, r': int, t': int, n: int, lastLow: int, lastHigh: int, x: int) returns (low: int, high: int)
    requires G.Valid() && 0 <= v && InStep(v, r, t', n)
    requires Going(G, V, V', Y, checks, v, r, t, r', t', n, lastLow, lastHigh)
    requires Cell(G, V, v, n, x) && (v == 0 ==> n == 0 && x == 0)
    requires !(checks && MeetsAt(G, Y, n, x))
    ensures Going(G, V, V'[G.g + n := x], Y, checks, v, r, t, SkipLow(G, r', n, x), SkipHigh(G, t', x), n + 2, low,
      high)
  {
    WalkedOn(G, V, V', v, r, n, x);
    CountedOn(G, V', V'[G.g + n := x], v, r, t, r', t', n, lastLow, lastHigh);
    low := if SkipLow(G, r', n, x) == r' then lastLow else n;
    high := if SkipHigh(G, t', x) == t' then lastHigh else n;
    if checks {
      ApartOneMore(G, V', V'[G.g + n := x], Y, v, r, n);
    }
  }

  lemma StartsGoing(G: Grid, V: map<int, int>, Y: map<int, int>, checks: bool, v: int, r: int, t: int)
    requires G.Valid() && v >= 0 && Prepared(G, V, v, r, t)
    ensures r >= 0 && t >= 0 && OnCourse(v, r, t, t, -v + r)
    ensures OnTheWay(G, V, V, Y, checks, v, r, t, r, t, -v + r)
  {
    var lo, hi :| Ready(G, V, v, r, t, lo, hi);
    SkipsFit(G, V, v, r, t, lo, hi);
    assert Going(G, V, V, Y, checks, v, r, t, r, t, -v + r, 0, 0);
  }

  /** What step `v` leaves when the fronts have not met. */
  ghost predicate StepDone(G: Grid, V: map<int, int>, V': map<int, int>, Y: map<int, int>, checks: bool, v: int,
      r': int, t': int, lo': int, hi': int)
  {
    && Front(G, V', v + 1, r', t', lo', hi') && ZoneOnGrid(G, V', v, lo', hi')
    && OtherParityKept(G, V, V', v)
    && (checks ==> Apart(G, V', Y, v))
  }

  /** A front ready for step `v`, whatever diagonals it has reached. */
  ghost predicate Prepared(G: Grid, V: map<int, int>, v: int, r: int, t: int) {
    exists lo, hi :: Ready(G, V, v, r, t, lo, hi)
  }

  ghost predicate StepMade(G: Grid, V: map<int, int>, V': map<int, int>, Y: map<int, int>, checks: bool, v: int,
        r': int, t': int) {
    exists lo', hi' :: StepDone(G, V, V', Y, checks, v, r', t', lo', hi')
  }

  /** Where the loop over the diagonals may find itself. */
  predicate OnCourse(v: int, r: int, t: int, t': int, n: int) {
    SameParity(n, v) && -v + r <= n <= v - t + 2 && t <= t' && (n == -v + r ==> n <= v - t')
  }

  lemma StaysOnCourse(v: int, r: int, t: int, t': int, t'': int, n: int)
    requires OnCourse(v, r, t, t', n) && n <= v - t' && t' <= t''
    ensures InStep(v, r, t', n) && OnCourse(v, r, t, t'', n + 2)
  {
  }

  /** What the end of a step leaves, seen from outside. */
  lemma StepLeaves(G: Grid, V: map<int, int>, V': map<int, int>, Y: map<int, int>, checks: bool, v: int,
      r: int, t: int, r': int, t': int, n: int)
    requires G.Valid() && 0 <= v < G.g && Prepared(G, V, v, r, t)
    requires OnTheWay(G, V, V', Y, checks, v, r, t, r', t', n)
    requires OnCourse(v, r, t, t', n) && n > v - t'
    ensures StepMade(G, V, V', Y, checks, v, r', t')
  {
    var lo, hi :| Ready(G, V, v, r, t, lo, hi);
    var lastLow, lastHigh :| Going(G, V, V', Y, checks, v, r, t, r', t', n, lastLow, lastHigh);
    var lo', hi' := StepOver(G, V, V', v, r, t, r', t', n, lastLow, lastHigh, lo, hi);
    ZoneIsOnGrid(G, V, V', v, r, r', t', n, lo', hi');
    if checks {
      ZoneIsApart(G, V', Y, v, r, n, lo', hi');
    }
    forall c | SameParity(c, v + 1)
      ensures Val(V', G, c) == Val(V, G, c)
    {
      Unmoved(G, V, V', v, r, n, c);
    }
    assert StepDone(G, V, V', Y, checks, v, r', t', lo', hi');
  }

  /** Whether a front that has come to `x` on diagonal `n` is on the grid and has met the other. */
  predicate MeetsAt(G: Grid, Y: map<int, int>, n: int, x: int) {
    && x <= G.d && x - n <= G.e && 0 <= G.g + (G.Delta() - n) < 2 * G.g
    && Val(Y, G, G.Delta() - n) != -1 && x + Val(Y, G, G.Delta() - n) >= G.d
  }

  /** What finding `x` on diagonal `n` means: diagonals to skip from now on, or the fronts meeting. */
  method Judge(G: Grid, n: int, x: int, r: int, t: int, other: map<int, int>, checks: bool)
    returns (r': int, t': int, hit: bool)
    requires Keys(G, other)
    ensures r' == SkipLow(G, r, n, x) && t' == SkipHigh(G, t, x)
    ensures hit <==> checks && MeetsAt(G, other, n, x)
  {
    r', t', hit := r, t, false;
    if x > G.d {
      t' := t + 2;
    } else if x - n > G.e {
      r' := r + 2;
    } else if checks {
      var l := G.g + G.Delta() - n;
      assert l == G.g + (G.Delta() - n);
      hit := 0 <= l < 2 * G.g && other[l] != -1 && x >= G.d - other[l];
    }
  }

  lemma {:induction false} SlidOneMore(a: Text, b: Text, backwards: bool, G: Grid, V: map<int, int>, V': map<int, int>,
        v: int, r: int, n: int, x: int)
    requires SlidCells(a, b, backwards, G, V, V', v, r, n) && SameParity(n, v)
    requires SlidAsFarAs(a, b, backwards, n, StartOf(G, V, v, n), x)
    ensures SlidCells(a, b, backwards, G, V, V'[G.g + n := x], v, r, n + 2)
  {
    hide SlidAsFarAs, StartOf;
    var W := V'[G.g + n := x];
    forall c {:trigger Val(W, G, c)} | -v + r <= c < n + 2 && SameParity(c, v)
      ensures SlidAsFarAs(a, b, backwards, c, StartOf(G, V, v, c), Val(W, G, c))
    {
      assert c != n ==> Val(W, G, c) == Val(V', G, c);
    }
  }

  /** One turn of the loop in `Walk`: diagonal `n` is dealt with, unless that is where the fronts meet. */
  method WalkOne(a: Text, b: Text, backwards: bool, G: Grid, v: int, V: map<int, int>, r: int, t: int, n: int,
      other: map<int, int>, checks: bool, ghost V0: map<int, int>, ghost r0: int, ghost t0: int)
    returns (V': map<int, int>, r': int, t': int, hit: bool, x: int)
    requires G.d == |a| && G.e == |b| && G.Valid() && NothingShared(a, b)
    requires 0 <= v < G.g && Prepared(G, V0, v, r0, t0) && InStep(v, r0, t, n) && r0 >= 0 && t0 >= 0 && t0 <= t
    requires OnTheWay(G, V0, V, other, checks, v, r0, t0, r, t, n)
    requires Keys(G, other) && SlidCells(a, b, backwards, G, V0, V, v, r0, n)
    ensures !hit ==> OnTheWay(G, V0, V', other, checks, v, r0, t0, r', t', n + 2)
    ensures t <= t'
    ensures hit ==> checks && Met(G, other, v, n, x)
    ensures SlidAsFarAs(a, b, backwards, n, StartOf(G, V0, v, n), x)
    ensures SlidCells(a, b, backwards, G, V0, V', v, r0, n + 2)
  {
    hide SlidAsFarAs, StartOf, SlidCells;
    hide Ready, Keys, NothingShared, ApartSoFar, CountedLow, CountedHigh;
    ghost var lo, hi :| Ready(G, V0, v, r0, t0, lo, hi);
    ghost var lastLow, lastHigh :| Going(G, V0, V, other, checks, v, r0, t0, r, t, n, lastLow, lastHigh);
    x := WalkCell(a, b, backwards, G, v, V, n, V0, r0, t0, lo, hi);
    V' := V[G.g + n := x];
    SlidOneMore(a, b, backwards, G, V0, V, v, r0, n, x);
    r', t', hit := Judge(G, n, x, r, t, other, checks);
    if !hit {
      lastLow, lastHigh := GoesOn(G, V0, V, other, checks, v, r0, t0, r, t, n, lastLow, lastHigh, x);
    }
  }

  lemma {:induction false} NoneSlid(a: Text, b: Text, backwards: bool, G: Grid, V: map<int, int>, v: int, r: int)
    ensures SlidCells(a, b, backwards, G, V, V, v, r, -v + r)
  {
  }

  /** The loop over the diagonals of a step. */
  method WalkRest(a: Text, b: Text, backwards: bool, G: Grid, v: int, V: map<int, int>, r: int, t: int,
      other: map<int, int>, checks: bool)
    returns (V': map<int, int>, r': int, t': int, hit: bool, x: int, n: int)
    requires G.d == |a| && G.e == |b| && G.Valid() && NothingShared(a, b)
    requires 0 <= v < G.g && Prepared(G, V, v, r, t) && Keys(G, other)
    requires r >= 0 && t >= 0 && OnCourse(v, r, t, t, -v + r) && OnTheWay(G, V, V, other, checks, v, r, t, r, t, -v + r)
    ensures !hit ==> OnCourse(v, r, t, t', n) && n > v - t' && OnTheWay(G, V, V', other, checks, v, r, t, r', t', n)
    ensures !hit ==> SlidCells(a, b, backwards, G, V, V', v, r, n)
    ensures hit ==> checks && Met(G, other, v, n, x)
    ensures hit ==> InStep(v, r, t, n) && SlidAsFarAs(a, b, backwards, n, StartOf(G, V, v, n), x)
  {
    hide SlidCells, SlidAsFarAs, StartOf;
    NoneSlid(a, b, backwards, G, V, v, r);
    hide OnTheWay, Prepared, Keys, NothingShared, Met;
    V', r', t', hit, x := V, r, t, false, 0;
    n := -v + r;
    while n <= v - t'
      invariant OnCourse(v, r, t, t', n)
      invariant OnTheWay(G, V, V', other, checks, v, r, t, r', t', n)
      invariant SlidCells(a, b, backwards, G, V, V', v, r, n)
      decreases v - n
    {
      StaysOnCourse(v, r, t, t', t', n);
      ghost var before := t';
      V', r', t', hit, x := WalkOne(a, b, backwards, G, v, V', r', t', n, other, checks, V, r, t);
      if hit {
        return;
      }
      StaysOnCourse(v, r, t, before, t', n);
      n := n + 2;
    }
  }

  /**
   Step `v` of one of the two walks: `V` is its front, `r` and `t` tell how many diagonals are skipped, and
   `other` is the front of the other walk, looked at when `checks` is set.
   */
  method Walk(a: Text, b: Text, backwards: bool, G: Grid, v: int, V: map<int, int>, r: int, t: int,
      other: map<int, int>, checks: bool)
    returns (V': map<int, int>, r': int, t': int, hit: bool, x: int, n: int)
    requires G.d == |a| && G.e == |b| && G.Valid() && NothingShared(a, b)
    requires 0 <= v < G.g && Prepared(G, V, v, r, t)
    requires Keys(G, other)
    ensures !hit ==> StepMade(G, V, V', other, checks, v, r', t') && Trail(a, b, backwards, G, V, V', v, r, t, r', t')
    ensures hit ==> checks && Met(G, other, v, n, x)
    ensures hit ==> InStep(v, r, t, n) && SlidAsFarAs(a, b, backwards, n, StartOf(G, V, v, n), x)
  {
    hide SlidAsFarAs, StartOf, SlidCells;
    StartsGoing(G, V, other, checks, v, r, t);
    V', r', t', hit, x, n := WalkRest(a, b, backwards, G, v, V, r, t, other, checks);
    if !hit {
      StepLeaves(G, V, V', other, checks, v, r, t, r', t', n);
      LeavesTrail(a, b, backwards, G, V, V', other, checks, v, r, t, r', t', n);
    }
  }

  lemma {:induction false} LeavesTrail(a: Text, b: Text, backwards: bool, G: Grid, V: map<int, int>, V': map<int, int>,
        Y: map<int, int>, checks: bool, v: int, r: int, t: int, r': int, t': int, n: int)
    requires OnTheWay(G, V, V', Y, checks, v, r, t, r', t', n) && SlidCells(a, b, backwards, G, V, V', v, r, n)
    requires OnCourse(v, r, t, t', n) && n > v - t'
    ensures Trail(a, b, backwards, G, V, V', v, r, t, r', t')
  {
    var lastLow, lastHigh :| Going(G, V, V', Y, checks, v, r, t, r', t', n, lastLow, lastHigh);
    hide Walked, SlidCells;
    assert TrailTo(a, b, backwards, G, V, V', v, r, t, r', t', n);
  }

  // ---------- the two fronts ----------

  ghost predicate KeepsOffAll(G: Grid, V: map<int, int>, radius: int, v: int) {
    forall n :: SameParity(n, v) && -radius <= n - G.Delta() <= radius ==> KeepsOff(G, V, n)
  }

  /** The front looked at in step `v`: it has made `v - G.Rho()` as its last step. */
  ghost predicate Partner(G: Grid, Y: map<int, int>, v: int, p: int, w: int, low: int, high: int) {
    v >= G.Rho() ==>
      Shape(G, Y, v - G.Rho() + 1, p, w, low, high) && Reached(G, v - G.Rho() + 1, low, high)
  }

  lemma PartnerReached(G: Grid, Y: map<int, int>, v: int, p: int, w: int, low: int, high: int, c: int)
    requires G.Valid() && Partner(G, Y, v, p, w, low, high) && ZoneCell(G, v, c)
    ensures var n := G.Delta() - c;
      Val(Y, G, n) >= 0 && Val(Y, G, n) >= n
  {
  }

  /** If the fronts have not met, the one that has made its step keeps off the edges. */
  lemma ApartKeepsOff(G: Grid, X: map<int, int>, Y: map<int, int>, v: int, r: int, t: int, lo: int, hi: int,
      p: int, w: int, low: int, high: int)
    requires G.Valid() && v >= 0 && Shape(G, X, v + 1, r, t, lo, hi) && Partner(G, Y, v, p, w, low, high)
    requires Apart(G, X, Y, v)
    ensures KeepsOffAll(G, X, v - G.Rho(), v)
  {
    forall n | SameParity(n, v) && -(v - G.Rho()) <= n - G.Delta() <= v - G.Rho()
      ensures KeepsOff(G, X, n)
    {
      if ZoneCell(G, v, n) {
        PartnerReached(G, Y, v, p, w, low, high, n);
      } else {
        EdgesAreReached(G, X, v + 1, r, t, lo, hi, n);
      }
    }
  }

  /** ... and so does the other. */
  lemma PartnerKeepsOff(G: Grid, X: map<int, int>, Y: map<int, int>, v: int, lo: int, hi: int,
      p: int, w: int, low: int, high: int)
    requires G.Valid() && v >= 0 && Partner(G, Y, v, p, w, low, high)
    requires Apart(G, X, Y, v) && ZoneOnGrid(G, X, v, lo, hi)
    ensures v >= G.Rho() ==> KeepsOffAll(G, Y, v - 2 * G.Rho(), v - G.Rho())
  {
    if v >= G.Rho() {
      forall n | SameParity(n, v - G.Rho()) && -(v - 2 * G.Rho()) <= n - G.Delta() <= v - 2 * G.Rho()
        ensures KeepsOff(G, Y, n)
      {
        EdgesAreReached(G, Y, v - G.Rho() + 1, p, w, low, high, n);
        if low <= n <= high {
          assert ZoneCell(G, v, G.Delta() - n);
          assert G.Delta() - (G.Delta() - n) == n;
        }
      }
    }
  }

  lemma KeptOff(G: Grid, V: map<int, int>, V': map<int, int>, radius: int, v: int)
    requires KeepsOffAll(G, V, radius, v + 1) && OtherParityKept(G, V, V', v)
    ensures KeepsOffAll(G, V', radius, v + 1)
  {
    forall n | SameParity(n, v + 1) && -radius <= n - G.Delta() <= radius
      ensures KeepsOff(G, V', n)
    {
      assert KeepsOff(G, V, n) && Val(V', G, n) == Val(V, G, n);
    }
  }

  lemma InteriorKeepsOff(G: Grid, V: map<int, int>, v: int, r: int, t: int, lo: int, hi: int, radius: int, parity: int)
    requires G.Valid() && Shape(G, V, v, r, t, lo, hi) && Interior(G, V, radius, lo, hi)
    ensures KeepsOffAll(G, V, radius, parity)
  {
    forall n | SameParity(n, parity) && -radius <= n - G.Delta() <= radius
      ensures KeepsOff(G, V, n)
    {
      EdgesAreReached(G, V, v, r, t, lo, hi, n);
    }
  }

  /** Diagonals of either parity: those of the one are a step nearer to the far corner. */
  lemma BothParities(G: Grid, V: map<int, int>, radius: int, radius': int, v: int, v': int, lo: int, hi: int)
    requires KeepsOffAll(G, V, radius, v) && KeepsOffAll(G, V, radius', v') && SameParity(radius + G.Delta(), v)
    requires radius' == radius - 1 && v' == v + 1
    ensures Interior(G, V, radius, lo, hi)
  {
    forall n | lo <= n <= hi && -radius <= n - G.Delta() <= radius
      ensures KeepsOff(G, V, n)
    {
      assert n == G.Delta() - radius ==> n == (radius + G.Delta()) - 2 * radius;
      assert SameParity(n, v) || (SameParity(n, v') && -radius' <= n - G.Delta() <= radius');
    }
  }

  // ---------- the fronts meet on a shortest way ----------

  lemma {:induction false} StepTight(a: Text, b: Text, backwards: bool, G: Grid, V: map<int, int>, V': map<int, int>,
        v: int, r: int, t: int, r': int, t': int, lo: int, hi: int, lo': int, hi': int)
    requires IsGridOf(G, a, b) && NothingShared(a, b) && v >= 0
    requires Ready(G, V, v, r, t, lo, hi) && Tight(a, b, backwards, G, V, v)
    requires Trail(a, b, backwards, G, V, V', v, r, t, r', t') && Front(G, V', v + 1, r', t', lo', hi')
    ensures Tight(a, b, backwards, G, V', v + 1)
  {
    hide Tight, Trail, NothingShared;
    if v == 0 {
      TightFirst(a, b, backwards, G, V');
    } else {
      TightNext(a, b, backwards, G, V, V', v, r, t, r', t', lo, hi, lo', hi');
    }
  }

  /** What step `v` finds on a diagonal is no further than `v` edits lead. */
  lemma {:induction false} FoundSound(a: Text, b: Text, backwards: bool, G: Grid, V: map<int, int>, v: int, r: int,
        t: int, lo: int, hi: int, n: int, found: int, x: int)
    requires IsGridOf(G, a, b) && NothingShared(a, b) && v >= 0 && Ready(G, V, v, r, t, lo, hi) && InStep(v, r, t, n)
    requires Tight(a, b, backwards, G, V, v) && SlidAsFarAs(a, b, backwards, n, StartOf(G, V, v, n), found)
    requires OnGrid(G, n, x) && x <= found
    ensures Reach(a, b, backwards, x, x - n) <= v
  {
    hide Tight, Reach, NothingShared;
    ReadyStart(G, V, v, r, t, lo, hi, n);
    if v == 0 {
      NoFirstMatch(a, b, backwards);
      assert found > 0 ==> Matches(a, b, backwards, 0, 0);
      ReachBounds(a, b, backwards, 0, 0);
    } else {
      FewAreSkipped(G, V, v, r, t, lo, hi);
      ShapeOfFront(G, V, v, r, t, lo, hi);
      hide Front, Shape, Bounded, SlidAsFarAs, StartOf, Interior;
      CellSound(a, b, backwards, G, V, v, r, t, lo, hi, n, found, x);
    }
  }

  lemma NoFirstMatch(a: Text, b: Text, backwards: bool)
    requires NothingShared(a, b)
    ensures !Matches(a, b, backwards, 0, 0)
  {
  }

  /** Where a forward diagonal meets the reverse front there is a shortest way through. */
  lemma {:induction false} ForwardMeetsShortest(a: Text, b: Text, G: Grid, J: map<int, int>, I: map<int, int>, v: int,
        r: int, t: int, lo: int, hi: int, n: int, x: int)
    requires IsGridOf(G, a, b) && NothingShared(a, b) && v >= 0 && Ready(G, J, v, r, t, lo, hi) && InStep(v, r, t, n)
    requires SlidAsFarAs(a, b, false, n, StartOf(G, J, v, n), x) && Met(G, I, v, n, x) && G.Rho() == 1
    requires Tight(a, b, false, G, J, v) && Tight(a, b, true, G, I, v) && Distance(a, b) >= 2 * v - 1
    requires v == 0 ==> Fresh(G, I)
    ensures Through(a, b, x, x - n) == Distance(a, b)
  {
    hide Reach, Ready, SlidAsFarAs, StartOf;
    FoundSound(a, b, false, G, J, v, r, t, lo, hi, n, x, x);
    if v == 0 {
      AtTheStart(a, b, G, J, r, t, lo, hi, n, x);
    } else {
      assert Sound(a, b, true, G, I, v, G.Delta() - n, G.d - x);
    }
    NoShorterWay(a, b, x, x - n);
  }

  lemma AtTheStart(a: Text, b: Text, G: Grid, J: map<int, int>, r: int, t: int, lo: int, hi: int, n: int, x: int)
    requires IsGridOf(G, a, b) && NothingShared(a, b) && Ready(G, J, 0, r, t, lo, hi) && InStep(0, r, t, n)
    requires SlidAsFarAs(a, b, false, n, StartOf(G, J, 0, n), x)
    ensures n == 0 && x == 0
  {
    FirstCell(G, J);
    NoFirstMatch(a, b, false);
    assert Fresh(G, J) && n == 0;
    hide Front, Interior, Ready, NothingShared, Matches, ComesDown, InStep;
    assert x > 0 ==> Matches(a, b, false, 0, 0);
  }

  /** Where a reverse diagonal meets the forward front there is a shortest way through the point that has come to. */
  lemma {:induction false} ReverseMeetsShortest(a: Text, b: Text, G: Grid, J: map<int, int>, I: map<int, int>, v: int,
        r: int, t: int, lo: int, hi: int, n: int, u: int)
    requires IsGridOf(G, a, b) && NothingShared(a, b) && v >= 0 && Ready(G, I, v, r, t, lo, hi) && InStep(v, r, t, n)
    requires SlidAsFarAs(a, b, true, n, StartOf(G, I, v, n), u) && Met(G, J, v, n, u) && G.Rho() == 0
    requires Tight(a, b, false, G, J, v + 1) && Tight(a, b, true, G, I, v) && Distance(a, b) >= 2 * v
    requires var m := G.Delta() - n; OnGrid(G, m, Val(J, G, m))
    ensures var m := G.Delta() - n; var x := Val(J, G, m); Through(a, b, x, x - m) == Distance(a, b)
  {
    hide Reach, Ready, SlidAsFarAs, StartOf;
    var m := G.Delta() - n;
    var x := Val(J, G, m);
    FoundSound(a, b, true, G, I, v, r, t, lo, hi, n, u, G.d - x);
    assert Sound(a, b, false, G, J, v + 1, m, x);
    NoShorterWay(a, b, x, x - m);
  }

  // ---------- fronts that have not met are not near enough ----------

  /** Near the far corner nothing has reached an edge. */
  ghost predicate ClearNear(G: Grid, V: map<int, int>, radius: int) {
    forall n :: -radius <= n - G.Delta() <= radius ==> KeepsOff(G, V, n)
  }

  lemma {:induction false} NoWallNear(G: Grid, V: map<int, int>, radius: int, n: int)
    requires ClearNear(G, V, radius) && -radius - 1 <= n - G.Delta() <= radius + 1
    ensures !WalledHigh(G, V, n) && !WalledLow(G, V, n)
  {
    forall c | G.Delta() < c < n ensures !AtRight(G, V, c) {
      assert KeepsOff(G, V, c);
    }
    forall c | n < c < G.Delta() ensures !AtBottom(G, V, c) {
      assert KeepsOff(G, V, c);
    }
  }

  /** The fronts have met on diagonal `n`, `forward` and `reverse` steps from the corners. */
  ghost predicate MeetOn(G: Grid, J: map<int, int>, I: map<int, int>, forward: int, reverse: int, n: int) {
    && SameParity(n, forward) && -forward <= n <= forward && -reverse <= n - G.Delta() <= reverse
    && Val(J, G, n) >= 0 && Val(I, G, G.Delta() - n) >= 0 && Val(J, G, n) + Val(I, G, G.Delta() - n) >= G.d
  }

  /** If so many edits are enough, the fronts have met on some diagonal in the zone. */
  lemma {:induction false} NearEnoughMeet(a: Text, b: Text, G: Grid, J: map<int, int>, I: map<int, int>, forward: int,
        reverse: int) returns (n: int)
    requires IsGridOf(G, a, b) && forward >= 0 && reverse >= 0
    requires Tight(a, b, false, G, J, forward + 1) && Tight(a, b, true, G, I, reverse + 1)
    requires ClearNear(G, J, reverse - 1) && ClearNear(G, I, forward - 1)
    ensures Distance(a, b) == forward + reverse ==> MeetOn(G, J, I, forward, reverse, n)
  {
    hide Reach;
    n := 0;
    if Distance(a, b) == forward + reverse {
      ReachBounds(a, b, true, 0, 0);
      var x, y := PointOnWay(a, b, |a|, |b|, forward);
      n := x as int - y as int;
      ReachBounds(a, b, false, x, y);
      ReachBounds(a, b, true, |a| - x, |b| - y);
      assert Complete(a, b, false, G, J, forward + 1, n, x);
      assert Complete(a, b, true, G, I, reverse + 1, G.Delta() - n, |a| - x);
      NoWallNear(G, J, reverse - 1, n);
      NoWallNear(G, I, forward - 1, G.Delta() - n);
    }
  }

  lemma {:induction false} ApartNotOdd(G: Grid, J: map<int, int>, I: map<int, int>, v: int, n: int)
    requires G.Rho() == 1 && v >= 1 && Apart(G, J, I, v)
    ensures !MeetOn(G, J, I, v, v - 1, n)
  {
    assert MeetOn(G, J, I, v, v - 1, n) ==> ZoneCell(G, v, n);
  }

  lemma {:induction false} ApartNotEven(G: Grid, J: map<int, int>, I: map<int, int>, v: int, n: int)
    requires G.Rho() == 0 && Apart(G, I, J, v)
    ensures !MeetOn(G, J, I, v, v, n)
  {
    assert MeetOn(G, J, I, v, v, n) ==> ZoneCell(G, v, G.Delta() - n);
    assert G.Delta() - (G.Delta() - n) == n;
  }

  lemma {:induction false} InteriorIsClear(G: Grid, V: map<int, int>, v: int, r: int, t: int, lo: int, hi: int,
        radius: int)
    requires G.Valid() && Shape(G, V, v, r, t, lo, hi) && Interior(G, V, radius, lo, hi)
    ensures ClearNear(G, V, radius)
  {
    forall n | -radius <= n - G.Delta() <= radius ensures KeepsOff(G, V, n) {
      EdgesAreReached(G, V, v, r, t, lo, hi, n);
    }
  }

  lemma {:induction false} ClearOfBoth(G: Grid, V: map<int, int>, radius: int, v: int)
    requires KeepsOffAll(G, V, radius, v) && KeepsOffAll(G, V, radius, v + 1)
    ensures ClearNear(G, V, radius)
  {
    forall n | -radius <= n - G.Delta() <= radius ensures KeepsOff(G, V, n) {
      assert SameParity(n, v) || SameParity(n, v + 1);
    }
  }

  /** The front looked at keeps off the edges as widely as the other has come. */
  lemma {:induction false} PartnerKeepsOffWide(G: Grid, X: map<int, int>, Y: map<int, int>, v: int, lo: int, hi: int,
      p: int, w: int, low: int, high: int)
    requires G.Valid() && v >= 0 && Ready(G, Y, v, p, w, low, high) && G.Rho() == 1
    requires Apart(G, X, Y, v) && ZoneOnGrid(G, X, v, lo, hi)
    ensures KeepsOffAll(G, Y, v, v + 1)
  {
    forall n | SameParity(n, v + 1) && -v <= n - G.Delta() <= v
      ensures KeepsOff(G, Y, n)
    {
      if v > 0 {
        WideCell(G, X, Y, v, lo, hi, p, w, low, high, n);
      }
    }
  }

  lemma {:induction false} WideCell(G: Grid, X: map<int, int>, Y: map<int, int>, v: int, lo: int, hi: int,
      p: int, w: int, low: int, high: int, n: int)
    requires G.Valid() && v >= 1 && Shape(G, Y, v, p, w, low, high) && G.Rho() == 1
    requires Apart(G, X, Y, v) && ZoneOnGrid(G, X, v, lo, hi)
    requires SameParity(n, v + 1) && -v <= n - G.Delta() <= v
    ensures KeepsOff(G, Y, n)
  {
    EdgesAreReached(G, Y, v, p, w, low, high, n);
    if low <= n <= high {
      assert ZoneCell(G, v, G.Delta() - n);
      assert G.Delta() - (G.Delta() - n) == n;
    }
  }

  lemma {:induction false} OddOrEven(a: Text, b: Text, G: Grid)
    requires IsGridOf(G, a, b)
    ensures G.Rho() == 1 ==> Distance(a, b) % 2 == 1
    ensures G.Rho() == 0 ==> Distance(a, b) % 2 == 0
  {
    hide Reach;
    ReachBounds(a, b, false, |a|, |b|);
  }

  lemma FrontReady(G: Grid, V: map<int, int>, v: int, r: int, t: int, q: Range)
    requires v >= 0 && Ready(G, V, v + 1, r, t, q.lo, q.hi)
    ensures Shape(G, V, v + 1, r, t, q.lo, q.hi) && Interior(G, V, v - G.Rho(), q.lo, q.hi)
  {
  }

  lemma {:induction false} NarrowerKeepsOff(G: Grid, V: map<int, int>, radius: int, v: int)
    requires KeepsOffAll(G, V, radius, v)
    ensures KeepsOffAll(G, V, radius - 1, v)
  {
  }

  lemma {:induction false} ClearNarrower(G: Grid, V: map<int, int>, radius: int)
    requires ClearNear(G, V, radius)
    ensures ClearNear(G, V, radius - 1)
  {
  }

  /** What a turn that has found no meeting tells of the distance, if it is odd ... */
  lemma {:induction false} FartherOdd(a: Text, b: Text, G: Grid, J: map<int, int>, I: map<int, int>, v: int, r: int,
        t: int, q: Range)
    requires IsGridOf(G, a, b) && v >= 0 && G.Rho() == 1 && Distance(a, b) >= 2 * v - 1
    requires Tight(a, b, false, G, J, v + 1) && Tight(a, b, true, G, I, v) && Apart(G, J, I, v)
    requires Ready(G, J, v + 1, r, t, q.lo, q.hi)
    requires KeepsOffAll(G, I, v - 1, v) && KeepsOffAll(G, I, v, v + 1)
    ensures Distance(a, b) >= 2 * (v + 1) - 1
  {
    hide Front, Apart, KeepsOffAll, Tight, Distance, ClearNear, Interior, Shape, MeetOn;
    OddOrEven(a, b, G);
    if v > 0 {
      FrontReady(G, J, v, r, t, q);
      InteriorIsClear(G, J, v + 1, r, t, q.lo, q.hi, v - 1);
      NarrowerKeepsOff(G, I, v, v + 1);
      ClearOfBoth(G, I, v - 1, v);
      ClearNarrower(G, J, v - 1);
      var n := NearEnoughMeet(a, b, G, J, I, v, v - 1);
      ApartNotOdd(G, J, I, v, n);
    }
  }

  /** ... and if it is even. */
  lemma {:induction false} FartherEven(a: Text, b: Text, G: Grid, J: map<int, int>, I: map<int, int>, v: int, r: int,
        t: int, q: Range, p: int, w: int, k: Range)
    requires IsGridOf(G, a, b) && v >= 0 && G.Rho() == 0 && Distance(a, b) >= 2 * v
    requires Tight(a, b, false, G, J, v + 1) && Tight(a, b, true, G, I, v + 1) && Apart(G, I, J, v)
    requires Ready(G, J, v + 1, r, t, q.lo, q.hi) && Ready(G, I, v + 1, p, w, k.lo, k.hi)
    ensures Distance(a, b) >= 2 * (v + 1)
  {
    hide Front, Apart, Tight, Distance, ClearNear, Interior, Shape, MeetOn;
    OddOrEven(a, b, G);
    FrontReady(G, J, v, r, t, q);
    FrontReady(G, I, v, p, w, k);
    InteriorIsClear(G, J, v + 1, r, t, q.lo, q.hi, v);
    InteriorIsClear(G, I, v + 1, p, w, k.lo, k.hi, v);
    ClearNarrower(G, J, v);
    ClearNarrower(G, I, v);
    var n := NearEnoughMeet(a, b, G, J, I, v, v);
    ApartNotEven(G, J, I, v, n);
  }

  // ---------- the search ----------

  /** The range of diagonals a front has reached. */
  datatype Range = Range(lo: int, hi: int)

  /** The two fronts at the beginning of step `v`; the one from the far end is `I`. */
  ghost predicate Both(G: Grid, J: map<int, int>, I: map<int, int>, v: int, r: int, t: int, p: int, w: int, q: Range,
        k: Range) {
    && Ready(G, J, v, r, t, q.lo, q.hi)
    && ReverseReady(G, I, v, p, w, k)
  }

  /** The front from the far end, before the forward front makes step `v`. */
  ghost predicate ReverseReady(G: Grid, I: map<int, int>, v: int, p: int, w: int, k: Range) {
    if G.Rho() == 0 || v == 0 then Ready(G, I, v, p, w, k.lo, k.hi)
    else Front(G, I, v, p, w, k.lo, k.hi) && KeepsOffAll(G, I, v - 3, v)
  }

  lemma FirstBoth(G: Grid, J: map<int, int>, I: map<int, int>)
    requires G.Valid() && Fresh(G, J) && Fresh(G, I)
    ensures Both(G, J, I, 0, 0, 0, 0, 0, Range(0, 0), Range(0, 0))
  {
  }

  /** On the diagonals that step `v` does not deal with, the front keeps off the edges as it did. */
  lemma StillKeepsOff(G: Grid, V: map<int, int>, V': map<int, int>, v: int, r: int, t: int, q: Range)
    requires G.Valid() && 0 <= v && Ready(G, V, v, r, t, q.lo, q.hi) && OtherParityKept(G, V, V', v)
    ensures KeepsOffAll(G, V', v - 1 - G.Rho(), v + 1)
  {
    if v > 0 {
      InteriorKeepsOff(G, V, v, r, t, q.lo, q.hi, v - 1 - G.Rho(), v + 1);
    }
    KeptOff(G, V, V', v - 1 - G.Rho(), v);
  }

  /** The front that has made step `v` keeps off the edges on the diagonals of either parity. */
  lemma StepInterior(G: Grid, V: map<int, int>, V': map<int, int>, v: int, r: int, t: int, q: Range, q': Range)
    requires G.Valid() && 0 <= v && Ready(G, V, v, r, t, q.lo, q.hi) && OtherParityKept(G, V, V', v)
    requires KeepsOffAll(G, V', v - G.Rho(), v)
    ensures Interior(G, V', v - G.Rho(), q'.lo, q'.hi)
  {
    StillKeepsOff(G, V, V', v, r, t, q);
    BothParities(G, V', v - G.Rho(), v - 1 - G.Rho(), v, v + 1, q'.lo, q'.hi);
  }

  lemma PartnerOfForward(G: Grid, I: map<int, int>, v: int, p: int, w: int, k: Range)
    requires G.Valid() && 0 <= v && G.Rho() == 1 && ReverseReady(G, I, v, p, w, k)
    ensures Partner(G, I, v, p, w, k.lo, k.hi)
  {
  }

  /** A forward step whose checks found nothing leaves the forward front ready ... */
  lemma OddForward(G: Grid, J: map<int, int>, J': map<int, int>, I: map<int, int>, v: int, r: int, t: int, p: int,
        w: int,
      q: Range, k: Range, r': int, t': int, q': Range)
    requires G.Valid() && 0 <= v && G.Rho() == 1 && Ready(G, J, v, r, t, q.lo, q.hi)
    requires Partner(G, I, v, p, w, k.lo, k.hi)
    requires StepDone(G, J, J', I, true, v, r', t', q'.lo, q'.hi)
    ensures Ready(G, J', v + 1, r', t', q'.lo, q'.hi)
  {
    ApartKeepsOff(G, J', I, v, r', t', q'.lo, q'.hi, p, w, k.lo, k.hi);
    StepInterior(G, J, J', v, r, t, q, q');
  }

  /** ... and the reverse front too. */
  lemma OddForwardPartner(G: Grid, J: map<int, int>, I: map<int, int>, v: int, p: int, w: int, k: Range, q: Range)
    requires G.Valid() && 0 <= v && G.Rho() == 1 && ReverseReady(G, I, v, p, w, k)
    requires Apart(G, J, I, v) && ZoneOnGrid(G, J, v, q.lo, q.hi)
    ensures Ready(G, I, v, p, w, k.lo, k.hi)
  {
    if v > 0 {
      OddPartnerInterior(G, J, I, v, p, w, k, q);
    }
  }

  lemma OddPartnerInterior(G: Grid, J: map<int, int>, I: map<int, int>, v: int, p: int, w: int, k: Range, q: Range)
    requires G.Valid() && 0 < v && G.Rho() == 1 && KeepsOffAll(G, I, v - 3, v)
    requires Shape(G, I, v, p, w, k.lo, k.hi) && Reached(G, v, k.lo, k.hi)
    requires Apart(G, J, I, v) && ZoneOnGrid(G, J, v, q.lo, q.hi)
    ensures Interior(G, I, v - 1 - G.Rho(), k.lo, k.hi)
  {
    OddPartnerKeepsOff(G, J, I, v, p, w, k, q);
    BothParities(G, I, v - 2, v - 3, v - 1, v, k.lo, k.hi);
  }

  lemma OddPartnerKeepsOff(G: Grid, J: map<int, int>, I: map<int, int>, v: int, p: int, w: int, k: Range, q: Range)
    requires G.Valid() && 0 < v && G.Rho() == 1
    requires Shape(G, I, v, p, w, k.lo, k.hi) && Reached(G, v, k.lo, k.hi)
    requires Apart(G, J, I, v) && ZoneOnGrid(G, J, v, q.lo, q.hi)
    ensures KeepsOffAll(G, I, v - 2, v - 1)
  {
    PartnerKeepsOff(G, J, I, v, q.lo, q.hi, p, w, k.lo, k.hi);
  }

  lemma OddReverse(G: Grid, I: map<int, int>, I': map<int, int>, v: int, p: int, w: int, k: Range, p': int, w': int,
        k': Range)
    requires G.Valid() && 0 <= v && G.Rho() == 1 && Ready(G, I, v, p, w, k.lo, k.hi) && OtherParityKept(G, I, I', v)
    requires Front(G, I', v + 1, p', w', k'.lo, k'.hi)
    ensures ReverseReady(G, I', v + 1, p', w', k')
  {
    StillKeepsOff(G, I, I', v, p, w, k);
  }

  /** A reverse step whose checks found nothing leaves the reverse front ready ... */
  lemma EvenReverse(G: Grid, J': map<int, int>, I: map<int, int>, I': map<int, int>, v: int,
      r': int, t': int, q': Range, p: int, w: int, k: Range, p': int, w': int, k': Range)
    requires G.Valid() && 0 <= v && G.Rho() == 0 && Ready(G, I, v, p, w, k.lo, k.hi)
    requires Front(G, J', v + 1, r', t', q'.lo, q'.hi) && StepDone(G, I, I', J', true, v, p', w', k'.lo, k'.hi)
    ensures Ready(G, I', v + 1, p', w', k'.lo, k'.hi)
  {
    ApartKeepsOff(G, I', J', v, p', w', k'.lo, k'.hi, r', t', q'.lo, q'.hi);
    StepInterior(G, I, I', v, p, w, k, k');
  }

  /** ... and the forward front too. */
  lemma EvenReversePartner(G: Grid, J: map<int, int>, J': map<int, int>, I: map<int, int>, v: int,
      r: int, t: int, q: Range, r': int, t': int, q': Range, k: Range)
    requires G.Valid() && 0 <= v && G.Rho() == 0 && Ready(G, J, v, r, t, q.lo, q.hi) && OtherParityKept(G, J, J', v)
    requires Front(G, J', v + 1, r', t', q'.lo, q'.hi) && Apart(G, I, J', v) && ZoneOnGrid(G, I, v, k.lo, k.hi)
    ensures Ready(G, J', v + 1, r', t', q'.lo, q'.hi)
  {
    EvenPartnerKeepsOff(G, J', I, v, r', t', q', k);
    StepInterior(G, J, J', v, r, t, q, q');
  }

  lemma EvenPartnerKeepsOff(G: Grid, J: map<int, int>, I: map<int, int>, v: int, r: int, t: int, q: Range, k: Range)
    requires G.Valid() && 0 <= v && G.Rho() == 0
    requires Shape(G, J, v + 1, r, t, q.lo, q.hi) && Reached(G, v + 1, q.lo, q.hi)
    requires Apart(G, I, J, v) && ZoneOnGrid(G, I, v, k.lo, k.hi)
    ensures KeepsOffAll(G, J, v - G.Rho(), v)
  {
    PartnerKeepsOff(G, I, J, v, k.lo, k.hi, r, t, q.lo, q.hi);
  }

  /** Where a forward diagonal meets the reverse front is a place to split. */
  lemma ForwardMeeting(G: Grid, I: map<int, int>, v: int, p: int, w: int, k: Range, n: int, x: int)
    requires G.Valid() && v >= 0 && ReverseReady(G, I, v, p, w, k) && Met(G, I, v, n, x)
    ensures G.Holds(x, x - n) && 0 < x + (x - n) < G.d + G.e
  {
    if x == 0 && n == 0 && v > 0 {
      EdgesAreReached(G, I, v, p, w, k.lo, k.hi, G.Delta());
    }
  }

  /** ... and so is the point the forward front has reached where a reverse diagonal meets it. */
  lemma ReverseMeeting(G: Grid, J: map<int, int>, v: int, r: int, t: int, q: Range, n: int, u: int)
    requires G.Valid() && v >= 0 && G.Rho() == 0 && Front(G, J, v + 1, r, t, q.lo, q.hi)
    requires ZoneOnGrid(G, J, v, q.lo, q.hi)
    requires Met(G, J, v, n, u)
    ensures var m := G.Delta() - n; var x := Val(J, G, m);
      x != -1 && G.Holds(x, x - m) && 0 < x + (x - m) < G.d + G.e
  {
    var m := G.Delta() - n;
    assert ZoneCell(G, v, m);
  }

  /** A point at which both texts can be cut, neither cut leaving one pair of parts as it was. */
  predicate SplitsAt(a: Text, b: Text, x: int, y: int) {
    0 <= x <= |a| && 0 <= y <= |b| && 0 < x + y < |a| + |b|
  }

  /** Such a point through which a shortest way leads. */
  ghost predicate SplitsWell(a: Text, b: Text, x: int, y: int) {
    SplitsAt(a, b, x, y) && Through(a, b, x, y) == Distance(a, b)
  }

  /** Both fronts before step `v` are as far as its edits lead, and the texts are that far apart at least. */
  ghost predicate Exact(a: Text, b: Text, G: Grid, J: map<int, int>, I: map<int, int>, v: int)
    requires IsGridOf(G, a, b)
  {
    && Tight(a, b, false, G, J, v) && Tight(a, b, true, G, I, v) && Distance(a, b) >= 2 * v - G.Rho()
    && (G.Rho() == 1 ==> KeepsOffAll(G, I, v - 1, v))
  }

  /** The same after the forward half of turn `v`. */
  ghost predicate HalfExact(a: Text, b: Text, G: Grid, J: map<int, int>, I: map<int, int>, v: int)
    requires IsGridOf(G, a, b)
  {
    && Tight(a, b, false, G, J, v + 1) && Tight(a, b, true, G, I, v)
    && Distance(a, b) >= (if G.Rho() == 1 then 2 * (v + 1) - 1 else 2 * v)
    && (G.Rho() == 1 ==> KeepsOffAll(G, I, v, v + 1))
  }

  lemma {:induction false} StartsExact(a: Text, b: Text, G: Grid, V: map<int, int>)
    requires IsGridOf(G, a, b)
    ensures Exact(a, b, G, V, V, 0)
  {
  }

  lemma {:induction false} ForwardExact(a: Text, b: Text, G: Grid, j: map<int, int>, j': map<int, int>,
        i: map<int, int>, v: int, odd: bool, r: int, t: int, q: Range, r': int, t': int, q': Range, p: int, w: int,
        k: Range)
    requires IsGridOf(G, a, b) && NothingShared(a, b) && odd == (G.Rho() == 1) && v >= 0
    requires Exact(a, b, G, j, i, v) && Ready(G, j, v, r, t, q.lo, q.hi)
    requires Trail(a, b, false, G, j, j', v, r, t, r', t') && StepDone(G, j, j', i, odd, v, r', t', q'.lo, q'.hi)
    requires odd ==> Ready(G, j', v + 1, r', t', q'.lo, q'.hi) && Ready(G, i, v, p, w, k.lo, k.hi)
    ensures HalfExact(a, b, G, j', i, v)
  {
    hide Tight, Trail, NothingShared, Ready, Front, Distance, KeepsOffAll;
    StepTight(a, b, false, G, j, j', v, r, t, r', t', q.lo, q.hi, q'.lo, q'.hi);
    if odd {
      PartnerKeepsOffWide(G, j', i, v, q'.lo, q'.hi, p, w, k.lo, k.hi);
      FartherOdd(a, b, G, j', i, v, r', t', q');
    }
  }

  lemma {:induction false} ReverseExact(a: Text, b: Text, G: Grid, j: map<int, int>, i: map<int, int>,
        i': map<int, int>, v: int, odd: bool, r: int, t: int, q: Range, p: int, w: int, k: Range, p': int, w': int,
        k': Range)
    requires IsGridOf(G, a, b) && NothingShared(a, b) && odd == (G.Rho() == 1) && v >= 0
    requires HalfExact(a, b, G, j, i, v) && Ready(G, i, v, p, w, k.lo, k.hi)
    requires Trail(a, b, true, G, i, i', v, p, w, p', w') && StepDone(G, i, i', j, !odd, v, p', w', k'.lo, k'.hi)
    requires Both(G, j, i', v + 1, r, t, p', w', q, k')
    ensures Exact(a, b, G, j, i', v + 1)
  {
    hide Tight, Trail, NothingShared, Ready, Front, Distance, KeepsOffAll;
    StepTight(a, b, true, G, i, i', v, p, w, p', w', k.lo, k.hi, k'.lo, k'.hi);
    if odd {
      KeptOff(G, i, i', v, v);
    } else {
      FartherEven(a, b, G, j, i', v, r, t, q, p', w', k');
    }
  }

  lemma AfterStep(G: Grid, V: map<int, int>, V': map<int, int>, Y: map<int, int>, checks: bool, v: int, r': int,
        t': int) returns (q: Range)
    requires StepMade(G, V, V', Y, checks, v, r', t')
    ensures StepDone(G, V, V', Y, checks, v, r', t', q.lo, q.hi)
  {
    var lo, hi :| StepDone(G, V, V', Y, checks, v, r', t', lo, hi);
    q := Range(lo, hi);
  }

  /** The forward half of turn `v`. */
  method ForwardTurn(a: Text, b: Text, G: Grid, v: int, j: map<int, int>, r: int, t: int, i: map<int, int>, odd: bool,
      ghost p: int, ghost w: int, ghost q: Range, ghost k: Range)
    returns (j': map<int, int>, r': int, t': int, split: Option<(int, int)>, ghost q': Range)
    requires G.d == |a| && G.e == |b| && G.Valid() && NothingShared(a, b) && odd == (G.Rho() == 1)
    requires 0 <= v < G.g && Both(G, j, i, v, r, t, p, w, q, k) && Exact(a, b, G, j, i, v)
    requires Keys(G, i)
    ensures split.Some? ==> SplitsWell(a, b, split.value.0, split.value.1)
    ensures split.None? ==> ForwardDone(G, j, j', v, odd, r', t', q') && Ready(G, i, v, p, w, k.lo, k.hi)
    ensures split.None? ==> HalfExact(a, b, G, j', i, v)
  {
    hide Exact, HalfExact, Through, Distance, SlidAsFarAs, StartOf, Trail, NothingShared;
    hide Front, KeepsOffAll, ZoneOnGrid, OtherParityKept, Apart, Keys, Met, InStep, Ready;
    var hit, x, n;
    j', r', t', hit, x, n := Walk(a, b, false, G, v, j, r, t, i, odd);
    q' := q;
    split := None;
    if hit {
      ForwardMeeting(G, i, v, p, w, k, n, x);
      ForwardHit(a, b, G, j, i, v, r, t, p, w, q, k, n, x);
      split := Some((x, x - n));
    } else {
      q' := AfterStep(G, j, j', i, odd, v, r', t');
    }
    if split.None? && odd {
      PartnerOfForward(G, i, v, p, w, k);
      OddForward(G, j, j', i, v, r, t, p, w, q, k, r', t', q');
      OddForwardPartner(G, j', i, v, p, w, k, q');
    }
    if split.None? {
      ForwardExact(a, b, G, j, j', i, v, odd, r, t, q, r', t', q', p, w, k);
    }
  }

  lemma {:induction false} ForwardHit(a: Text, b: Text, G: Grid, j: map<int, int>, i: map<int, int>, v: int, r: int,
        t: int, p: int, w: int, q: Range, k: Range, n: int, x: int)
    requires IsGridOf(G, a, b) && NothingShared(a, b) && v >= 0 && Both(G, j, i, v, r, t, p, w, q, k)
    requires InStep(v, r, t, n) && SlidAsFarAs(a, b, false, n, StartOf(G, j, v, n), x) && Met(G, i, v, n, x)
    requires G.Rho() == 1 && Exact(a, b, G, j, i, v)
    ensures Through(a, b, x, x - n) == Distance(a, b)
  {
    hide Tight, Through, Distance, SlidAsFarAs, StartOf, Front, Interior, KeepsOffAll;
    ForwardMeetsShortest(a, b, G, j, i, v, r, t, q.lo, q.hi, n, x);
  }

  /** A reverse step that has found no meeting leaves both fronts ready for the next turn. */
  lemma TurnOver(G: Grid, was: map<int, int>, J: map<int, int>, I: map<int, int>, I': map<int, int>, v: int, odd: bool,
      rWas: int, tWas: int, qWas: Range, r: int, t: int, q: Range, p: int, w: int, k: Range, p': int, w': int,
        k': Range)
    requires G.Valid() && 0 <= v && odd == (G.Rho() == 1)
    requires Ready(G, was, v, rWas, tWas, qWas.lo, qWas.hi) && Ready(G, I, v, p, w, k.lo, k.hi)
    requires ForwardDone(G, was, J, v, odd, r, t, q)
    requires StepDone(G, I, I', J, !odd, v, p', w', k'.lo, k'.hi)
    ensures Both(G, J, I', v + 1, r, t, p', w', q, k')
  {
    if odd {
      OddReverse(G, I, I', v, p, w, k, p', w', k');
    } else {
      EvenReverse(G, J, I, I', v, r, t, q, p, w, k, p', w', k');
      EvenReversePartner(G, was, J, I', v, rWas, tWas, qWas, r, t, q, k');
    }
  }

  /** What the forward half of turn `v` leaves when it has found no meeting. */
  ghost predicate ForwardDone(G: Grid, was: map<int, int>, J: map<int, int>, v: int, odd: bool, r: int, t: int,
        q: Range) {
    && Front(G, J, v + 1, r, t, q.lo, q.hi) && ZoneOnGrid(G, J, v, q.lo, q.hi) && OtherParityKept(G, was, J, v)
    && (odd ==> Ready(G, J, v + 1, r, t, q.lo, q.hi))
  }

  /** The point to split at when reverse diagonal `n` has met the forward front. */
  method ReversePoint(a: Text, b: Text, G: Grid, v: int, j: map<int, int>, n: int, ghost was: map<int, int>,
      ghost odd: bool, ghost r: int, ghost t: int, ghost q: Range, ghost u: int) returns (point: (int, int))
    requires G.d == |a| && G.e == |b| && G.Valid() && v >= 0 && G.Rho() == 0
    requires ForwardDone(G, was, j, v, odd, r, t, q) && Met(G, j, v, n, u)
    ensures SplitsAt(a, b, point.0, point.1)
    ensures point.0 == Val(j, G, G.Delta() - n) && point.1 == point.0 - (G.Delta() - n)
  {
    ReverseMeeting(G, j, v, r, t, q, n, u);
    var l := G.g + (|a| - |b| - n);
    point := (j[l], G.g + j[l] - l);
  }

  lemma FrontKeys(G: Grid, V: map<int, int>, v: int, r: int, t: int, q: Range)
    requires Front(G, V, v, r, t, q.lo, q.hi)
    ensures Keys(G, V)
  {
  }

  /** The reverse half of turn `v`; `was` is the forward front before the turn. */
  method ReverseTurn(a: Text, b: Text, G: Grid, v: int, j: map<int, int>, i: map<int, int>, p: int, w: int, odd: bool,
      ghost was: map<int, int>, ghost rWas: int, ghost tWas: int, ghost qWas: Range, ghost r: int, ghost t: int,
        ghost q: Range, ghost k: Range)
    returns (i': map<int, int>, p': int, w': int, split: Option<(int, int)>, ghost k': Range)
    requires G.d == |a| && G.e == |b| && G.Valid() && NothingShared(a, b) && odd == (G.Rho() == 1)
    requires 0 <= v < G.g && Ready(G, was, v, rWas, tWas, qWas.lo, qWas.hi) && Ready(G, i, v, p, w, k.lo, k.hi)
    requires ForwardDone(G, was, j, v, odd, r, t, q) && HalfExact(a, b, G, j, i, v)
    ensures split.Some? ==> SplitsWell(a, b, split.value.0, split.value.1)
    ensures split.None? ==> Both(G, j, i', v + 1, r, t, p', w', q, k') && Exact(a, b, G, j, i', v + 1)
  {
    hide Exact, HalfExact, Through, Distance, SlidAsFarAs, StartOf, Trail, NothingShared;
    hide Front, Interior, KeepsOffAll, ZoneOnGrid, OtherParityKept, Apart, Keys, Met, InStep, ReverseReady, Ready;
    FrontKeys(G, j, v + 1, r, t, q);
    var hit, x, n;
    i', p', w', hit, x, n := Walk(a, b, true, G, v, i, p, w, j, !odd);
    k' := k;
    split := None;
    if hit {
      var point := ReversePoint(a, b, G, v, j, n, was, odd, r, t, q, x);
      ReverseHit(a, b, G, j, i, v, p, w, k, n, x);
      split := Some(point);
    } else {
      k' := AfterStep(G, i, i', j, !odd, v, p', w');
      TurnOver(G, was, j, i, i', v, odd, rWas, tWas, qWas, r, t, q, p, w, k, p', w', k');
      ReverseExact(a, b, G, j, i, i', v, odd, r, t, q, p, w, k, p', w', k');
    }
  }

  lemma {:induction false} ReverseHit(a: Text, b: Text, G: Grid, j: map<int, int>, i: map<int, int>, v: int, p: int,
        w: int, k: Range, n: int, u: int)
    requires IsGridOf(G, a, b) && NothingShared(a, b) && v >= 0 && Ready(G, i, v, p, w, k.lo, k.hi)
    requires InStep(v, p, w, n) && SlidAsFarAs(a, b, true, n, StartOf(G, i, v, n), u) && Met(G, j, v, n, u)
    requires G.Rho() == 0 && HalfExact(a, b, G, j, i, v)
    requires var m := G.Delta() - n; OnGrid(G, m, Val(j, G, m))
    ensures var m := G.Delta() - n; var x := Val(j, G, m); Through(a, b, x, x - m) == Distance(a, b)
  {
    hide Tight, Through, Distance, SlidAsFarAs, StartOf, Ready;
    ReverseMeetsShortest(a, b, G, j, i, v, p, w, k.lo, k.hi, n, u);
  }

  /** The two walks are under way. */
  ghost predicate UnderWay(G: Grid, J: map<int, int>, I: map<int, int>, v: int, r: int, t: int, p: int, w: int) {
    exists q, k :: Both(G, J, I, v, r, t, p, w, q, k)
  }

  /** Turn `v`: a step of either walk. */
  method Turn(a: Text, b: Text, G: Grid, v: int, j: map<int, int>, r: int, t: int, i: map<int, int>, p: int, w: int,
        odd: bool)
    returns (j': map<int, int>, r': int, t': int, i': map<int, int>, p': int, w': int, split: Option<(int, int)>)
    requires G.d == |a| && G.e == |b| && G.Valid() && NothingShared(a, b) && odd == (G.Rho() == 1)
    requires 0 <= v < G.g && UnderWay(G, j, i, v, r, t, p, w) && Exact(a, b, G, j, i, v)
    ensures split.Some? ==> SplitsWell(a, b, split.value.0, split.value.1)
    ensures split.None? ==> UnderWay(G, j', i', v + 1, r', t', p', w') && Exact(a, b, G, j', i', v + 1)
  {
    hide Exact, HalfExact, SplitsWell;
    ghost var q, k :| Both(G, j, i, v, r, t, p, w, q, k);
    ReverseKeys(G, j, i, v, r, t, p, w, q, k);
    i', p', w' := i, p, w;
    ghost var q', k';
    j', r', t', split, q' := ForwardTurn(a, b, G, v, j, r, t, i, odd, p, w, q, k);
    if split.None? {
      i', p', w', split, k' := ReverseTurn(a, b, G, v, j', i, p, w, odd, j, r, t, q, r', t', q', k);
    }
  }

  lemma ReverseKeys(G: Grid, j: map<int, int>, i: map<int, int>, v: int, r: int, t: int, p: int, w: int, q: Range,
        k: Range)
    requires Both(G, j, i, v, r, t, p, w, q, k)
    ensures Keys(G, i)
  {
  }

  function Filled(h: nat, seed: nat): (V: map<int, int>) {
    (map k {:trigger k + 0} | 0 <= k < h :: -1)[seed := 0]
  }

  lemma StartsUnderWay(G: Grid, V: map<int, int>)
    requires G.Valid() && V == Filled(2 * G.g, G.g + 1)
    ensures UnderWay(G, V, V, 0, 0, 0, 0, 0)
  {
    FirstBoth(G, V, V);
  }

  /** Turn after turn, until the fronts meet, the deadline passes or every turn has been made. */
  method Turns(a: Text, b: Text, G: Grid, odd: bool, front: map<int, int>, timed: bool)
    returns (split: Option<(int, int)>)
    requires G.d == |a| && G.e == |b| && G.Valid() && NothingShared(a, b) && odd == (G.Rho() == 1)
    requires UnderWay(G, front, front, 0, 0, 0, 0, 0) && Exact(a, b, G, front, front, 0)
    ensures split.Some? ==> SplitsWell(a, b, split.value.0, split.value.1)
    ensures split.None? && !timed ==> Distance(a, b) >= 2 * G.g - G.Rho()
  {
    hide UnderWay, SplitsWell, Tight, KeepsOffAll, NothingShared, Distance;
    var j, i, r, t, p, w, v := front, front, 0, 0, 0, 0, 0;
    var late :| late ==> timed;
    while v < G.g && !late
      invariant 0 <= v <= G.g && (late ==> timed)
      invariant UnderWay(G, j, i, v, r, t, p, w) && Exact(a, b, G, j, i, v)
    {
      j, r, t, i, p, w, split := Turn(a, b, G, v, j, r, t, i, p, w, odd);
      if split.Some? {
        return;
      }
      v := v + 1;
      late :| late ==> timed;
    }
    split := None;
  }

  /** The search for the point at which to split.  If it is `timed`, the deadline may pass before any turn.  A shortest
      way leads through the point found; if none is found and time cannot run out, nothing is common to the texts. */
  method FindSplit(a: Text, b: Text, timed: bool) returns (split: Option<(int, int)>)
    requires |a| > 0 && |b| > 0 && NothingShared(a, b)
    ensures split.Some? ==> SplitsAt(a, b, split.value.0, split.value.1)
    ensures split.Some? ==> var (x, y) := split.value;
      Distance(a[..x], b[..y]) + Distance(a[x..], b[y..]) == Distance(a, b)
    ensures split.None? && !timed ==> Distance(a, b) == |a| + |b|
  {
    hide Tight, KeepsOffAll, UnderWay, NothingShared, Reach;
    var f := (|a| + |b| + 1) / 2;
    var front := Filled(2 * f, f + 1);
    StartsUnderWay(Grid(|a|, |b|, f), front);
    StartsExact(a, b, Grid(|a|, |b|, f), front);
    split := Turns(a, b, Grid(|a|, |b|, f), (|a| - |b|) % 2 != 0, front, timed);
    if split.Some? {
      ThroughParts(a, b, split.value.0, split.value.1);
    }
    ReachBounds(a, b, false, |a|, |b|);
  }
}
