/** The clean-ups that trade small equalities for larger edits.  Each works with a stack of
    equalities and goes back over the list after every change; each keeps both texts, dissolves
    only equalities to which its rule applies, and leaves none to which it does. */
module DiffCleanup {
  import opened DiffText
  import opened Diffs
  import opened DiffMerge

  function Max(a: int, b: int): int {
    if a > b then a else b
  }

  function CountEqual(ds: seq<Diff>): nat {
    if ds == [] then 0 else (if ds[0].op == Equal then 1 else 0) + CountEqual(ds[1..])
  }

  lemma {:induction false} CountEqualConcat(ds: seq<Diff>, es: seq<Diff>)
    ensures CountEqual(ds + es) == CountEqual(ds) + CountEqual(es)
  {
    if ds == [] {
      assert ds + es == es;
    } else {
      CountEqualConcat(ds[1..], es);
      assert (ds + es)[1..] == ds[1..] + es;
    }
  }

  // ---------- when an equality is to be dissolved ----------

  /** What a run of edits amounts to: how many units are inserted and deleted, and whether any entries do so. */
  datatype Side = Side(insertions: nat, deletions: nat, inserts: bool, deletes: bool) {
    function With(d: Diff): Side {
      match d.op
      case Insert => this.(insertions := insertions + |d.text|, inserts := true)
      case Delete => this.(deletions := deletions + |d.text|, deletes := true)
      case Equal => this
    }

    predicate Within(other: Side) {
      && insertions <= other.insertions && deletions <= other.deletions
      && (inserts ==> other.inserts) && (deletes ==> other.deletes)
    }
  }

  const NO_EDITS := Side(0, 0, false, false)

  function SideOf(ds: seq<Diff>, lo: int, hi: int): Side
    requires 0 <= lo && hi <= |ds|
    decreases hi - lo
  {
    if hi <= lo then NO_EDITS else SideOf(ds, lo, hi - 1).With(ds[hi - 1])
  }

  function CountTrue(a: bool, b: bool, c: bool, d: bool): nat {
    (if a then 1 else 0) + (if b then 1 else 0) + (if c then 1 else 0) + (if d then 1 else 0)
  }

  /** An equality is outweighed if the edits on either side of it are no shorter; it is costly if it is short and
      there are edits of both kinds on both sides, or of both kinds on one side and it is very short. */
  datatype Rule = Outweighed | Costly(editCost: int) {
    predicate Applies(before: Side, text: Text, after: Side) {
      && text != []
      && match this
         case Outweighed => |text| <= Max(before.insertions, before.deletions)
           && |text| <= Max(after.insertions, after.deletions)
         case Costly(editCost) =>
           var sides := CountTrue(before.inserts, before.deletes, after.inserts, after.deletes);
           |text| < editCost && (sides == 4 || (2 * |text| < editCost && sides == 3))
    }
  }

  /** The last equality before `p`, or -1. */
  function LastEqual(ds: seq<Diff>, p: int): (l: int)
    requires 0 <= p <= |ds|
    ensures -1 <= l < p && (l >= 0 ==> ds[l].op == Equal)
    ensures forall i :: l < i < p ==> ds[i].op != Equal
    decreases p
  {
    if p == 0 then -1 else if ds[p - 1].op == Equal then p - 1 else LastEqual(ds, p - 1)
  }

  /** The first equality from `p` on, or the end of the list. */
  function NextEqual(ds: seq<Diff>, p: int): (n: int)
    requires 0 <= p <= |ds|
    ensures p <= n <= |ds| && (n < |ds| ==> ds[n].op == Equal)
    ensures forall i :: p <= i < n ==> ds[i].op != Equal
    decreases |ds| - p
  {
    if p == |ds| || ds[p].op == Equal then p else NextEqual(ds, p + 1)
  }

  /** The edits from the last equality up to `p`. */
  function Before(ds: seq<Diff>, p: int): Side
    requires 0 <= p <= |ds|
  {
    SideOf(ds, LastEqual(ds, p) + 1, p)
  }

  /** The edits from `p` up to the next equality. */
  function Behind(ds: seq<Diff>, p: int): Side
    requires 0 <= p <= |ds|
  {
    SideOf(ds, p, NextEqual(ds, p))
  }

  predicate AppliesAt(ds: seq<Diff>, i: int, rule: Rule)
    requires 0 <= i < |ds|
  {
    ds[i].op == Equal && rule.Applies(Before(ds, i), ds[i].text, Behind(ds, i + 1))
  }

  /** All that lies between two equalities, or between one and an end of the list. */
  ghost predicate RunOfEdits(ds: seq<Diff>, lo: int, hi: int) {
    && 0 <= lo <= hi <= |ds| && (lo == 0 || ds[lo - 1].op == Equal) && (hi == |ds| || ds[hi].op == Equal)
    && forall k :: lo <= k < hi ==> ds[k].op != Equal
  }

  /** How many units the entries of one kind have. */
  function UnitsOf(ds: seq<Diff>, op: Op): nat {
    if ds == [] then 0 else UnitsOf(ds[..|ds| - 1], op) + if ds[|ds| - 1].op == op then |ds[|ds| - 1].text| else 0
  }

  ghost predicate Has(ds: seq<Diff>, op: Op) {
    exists d :: d in ds && d.op == op
  }

  ghost predicate HasBoth(ds: seq<Diff>) {
    Has(ds, Insert) && Has(ds, Delete)
  }

  ghost predicate HasOne(ds: seq<Diff>) {
    Has(ds, Insert) != Has(ds, Delete)
  }

  lemma {:induction false} HasMore(ds: seq<Diff>, d: Diff, op: Op)
    ensures Has(ds + [d], op) <==> Has(ds, op) || d.op == op
  {
    if Has(ds, op) {
      var e :| e in ds && e.op == op;
      assert e in ds + [d];
    }
    assert d in ds + [d];
  }

  lemma {:induction false} SideUnits(ds: seq<Diff>, lo: int, hi: int)
    requires 0 <= lo <= hi <= |ds|
    ensures SideOf(ds, lo, hi).insertions == UnitsOf(ds[lo..hi], Insert)
    ensures SideOf(ds, lo, hi).deletions == UnitsOf(ds[lo..hi], Delete)
    decreases hi - lo
  {
    if lo < hi {
      SideUnits(ds, lo, hi - 1);
      var run, less := ds[lo..hi], ds[lo..hi - 1];
      assert run[..|run| - 1] == less && run[|run| - 1] == ds[hi - 1];
    }
  }

  lemma {:induction false} SideKinds(ds: seq<Diff>, lo: int, hi: int)
    requires 0 <= lo <= hi <= |ds|
    ensures SideOf(ds, lo, hi).inserts <==> Has(ds[lo..hi], Insert)
    ensures SideOf(ds, lo, hi).deletes <==> Has(ds[lo..hi], Delete)
    decreases hi - lo
  {
    if lo < hi {
      SideKinds(ds, lo, hi - 1);
      assert ds[lo..hi] == ds[lo..hi - 1] + [ds[hi - 1]];
      HasMore(ds[lo..hi - 1], ds[hi - 1], Insert);
      HasMore(ds[lo..hi - 1], ds[hi - 1], Delete);
      hide Has;
    }
  }

  /** An equality is outweighed if it is no longer than what is inserted or what is deleted, whichever is more, before
      it and behind it. */
  lemma {:induction false} OutweighedExactly(ds: seq<Diff>, lo: int, i: int, hi: int)
    requires RunOfEdits(ds, lo, i) && i < |ds| && ds[i].op == Equal && RunOfEdits(ds, i + 1, hi)
    ensures AppliesAt(ds, i, Outweighed) <==>
      && 0 < |ds[i].text| <= Max(UnitsOf(ds[lo..i], Insert), UnitsOf(ds[lo..i], Delete))
      && |ds[i].text| <= Max(UnitsOf(ds[i + 1..hi], Insert), UnitsOf(ds[i + 1..hi], Delete))
  {
    SidesAre(ds, lo, i, hi);
    SideUnits(ds, lo, i);
    SideUnits(ds, i + 1, hi);
    hide SideOf;
  }

  /** An equality is costly if it is shorter than an edit is worth and there are edits of both kinds on both sides, or
      if it is shorter than half of that and one of the four is missing. */
  lemma {:induction false} CostlyExactly(ds: seq<Diff>, lo: int, i: int, hi: int, editCost: int)
    requires RunOfEdits(ds, lo, i) && i < |ds| && ds[i].op == Equal && RunOfEdits(ds, i + 1, hi)
    ensures var (before, behind) := (ds[lo..i], ds[i + 1..hi]);
      AppliesAt(ds, i, Costly(editCost)) <==>
        && 0 < |ds[i].text| < editCost
        && ((HasBoth(before) && HasBoth(behind)) || (2 * |ds[i].text| < editCost
          && ((HasBoth(before) && HasOne(behind)) || (HasOne(before) && HasBoth(behind)))))
  {
    SidesAre(ds, lo, i, hi);
    SideKinds(ds, lo, i);
    SideKinds(ds, i + 1, hi);
    hide SideOf, UnitsOf, Has;
  }

  lemma {:induction false} SidesAre(ds: seq<Diff>, lo: int, i: int, hi: int)
    requires RunOfEdits(ds, lo, i) && i < |ds| && RunOfEdits(ds, i + 1, hi)
    ensures Before(ds, i) == SideOf(ds, lo, i) && Behind(ds, i + 1) == SideOf(ds, i + 1, hi)
  {
    hide SideOf;
    assert LastEqual(ds, i) == lo - 1;
    assert NextEqual(ds, i + 1) == hi;
  }

  ghost predicate NoneApplies(ds: seq<Diff>, rule: Rule) {
    forall i :: 0 <= i < |ds| ==> !AppliesAt(ds, i, rule)
  }

  function DissolvedAt(ds: seq<Diff>, i: int): (es: seq<Diff>)
    requires 0 <= i < |ds|
    ensures |es| == |ds| + 1
  {
    ds[..i] + [Diff(Delete, ds[i].text), Diff(Insert, ds[i].text)] + ds[i + 1..]
  }

  /** In `n` steps, each of which dissolves an equality to which the rule applies. */
  ghost predicate DissolvesInto(ds: seq<Diff>, es: seq<Diff>, rule: Rule, n: nat)
    decreases n
  {
    if n == 0 then ds == es
    else exists mid, i ::
      DissolvesInto(ds, mid, rule, n - 1) && 0 <= i < |mid| && AppliesAt(mid, i, rule) && es == DissolvedAt(mid, i)
  }

  /** Only equalities to which the rule applies have been dissolved, and it applies to none that is left. */
  ghost predicate Reduced(ds: seq<Diff>, es: seq<Diff>, rule: Rule) {
    NoneApplies(es, rule) && exists n :: DissolvesInto(ds, es, rule, n)
  }

  /** Something is dissolved only where the rule applies to begin with. */
  lemma {:induction false} AppliedFirst(ds: seq<Diff>, es: seq<Diff>, rule: Rule, n: nat)
    requires DissolvesInto(ds, es, rule, n) && n > 0
    ensures !NoneApplies(ds, rule)
    decreases n
  {
    var mid, i :| DissolvesInto(ds, mid, rule, n - 1) && 0 <= i < |mid| && AppliesAt(mid, i, rule)
      && es == DissolvedAt(mid, i);
    if n > 1 {
      AppliedFirst(ds, mid, rule, n - 1);
    }
  }

  // ---------- dissolving an equality ----------

  /** An equality is as good as deleting its text and inserting it again. */
  lemma {:induction false} DissolvedTexts(front: seq<Diff>, e: Text, back: seq<Diff>)
    ensures var was, now := front + [Diff(Equal, e)] + back, front + [Diff(Delete, e), Diff(Insert, e)] + back;
      SameTexts(now, was) && CountEqual(now) == CountEqual(was) - 1
  {
    var two := [Diff(Delete, e), Diff(Insert, e)];
    TextOfThree(Diff(Delete, e), Diff(Insert, e), Diff(Insert, e), Insert);
    TextOfThree(Diff(Delete, e), Diff(Insert, e), Diff(Insert, e), Delete);
    TextOfOne(Diff(Equal, e), Insert);
    TextOfOne(Diff(Equal, e), Delete);
    SplicedTexts(front, [Diff(Equal, e)], two, back);
    CountEqualConcat(front, [Diff(Equal, e)]);
    CountEqualConcat(front + [Diff(Equal, e)], back);
    CountEqualConcat(front, two);
    CountEqualConcat(front + two, back);
    assert two[1..] == [Diff(Insert, e)];
  }

  /** Put a deletion before the equality at `at` and make the equality an insertion. */
  method Dissolve(a: DiffList, at: nat, e: Text)
    requires at < |a.items| && a.items[at] == Diff(Equal, e)
    modifies a
    ensures a.items == DissolvedAt(old(a.items), at) && |a.items| == |old(a.items)| + 1
    ensures SameTexts(a.items, old(a.items)) && CountEqual(a.items) == CountEqual(old(a.items)) - 1
  {
    ghost var front, back := a.items[..at], a.items[at + 1..];
    assert a.items == front + [Diff(Equal, e)] + back;
    a.Splice(at, 0, [Diff(Delete, e)]);
    a.items := a.items[at + 1 := Diff(Insert, a.items[at + 1].text)];
    assert a.items == front + [Diff(Delete, e), Diff(Insert, e)] + back;
    DissolvedTexts(front, e, back);
  }

  // ---------- runs of edits ----------

  lemma {:induction false} LastIs(ds: seq<Diff>, p: int, l: int)
    requires -1 <= l < p <= |ds| && (l >= 0 ==> ds[l].op == Equal) && forall i :: l < i < p ==> ds[i].op != Equal
    ensures LastEqual(ds, p) == l
  {
    var k := LastEqual(ds, p);
    assert k >= 0 ==> ds[k].op == Equal;
  }

  lemma {:induction false} NextIs(ds: seq<Diff>, p: int, n: int)
    requires 0 <= p <= n <= |ds| && (n < |ds| ==> ds[n].op == Equal) && forall i :: p <= i < n ==> ds[i].op != Equal
    ensures NextEqual(ds, p) == n
  {
    var k := NextEqual(ds, p);
    assert k < |ds| ==> ds[k].op == Equal;
  }

  /** The edits between an equality and the next are those before the next. */
  lemma {:induction false} RunsMeet(ds: seq<Diff>, p: int)
    requires 0 <= p <= |ds| && LastEqual(ds, p) >= 0 && (p < |ds| ==> ds[p].op == Equal)
    ensures NextEqual(ds, LastEqual(ds, p) + 1) == p && Behind(ds, LastEqual(ds, p) + 1) == Before(ds, p)
  {
    NextIs(ds, LastEqual(ds, p) + 1, p);
  }

  /** With one edit more, the run before is larger by that edit. */
  lemma {:induction false} RunMore(ds: seq<Diff>, p: int)
    requires 0 <= p < |ds| && ds[p].op != Equal
    ensures LastEqual(ds, p + 1) == LastEqual(ds, p) && Before(ds, p + 1) == Before(ds, p).With(ds[p])
  {
  }

  lemma {:induction false} SideOfMore(ds: seq<Diff>, lo: int, mid: int, hi: int)
    requires 0 <= lo && mid <= hi <= |ds|
    ensures SideOf(ds, lo, mid).Within(SideOf(ds, lo, hi))
    decreases hi - mid
  {
    if mid < hi {
      SideOfMore(ds, lo, mid, hi - 1);
    }
  }

  lemma {:induction false} SideOfSame(ds: seq<Diff>, es: seq<Diff>, lo: int, hi: int)
    requires 0 <= lo && hi <= |ds| && hi <= |es| && forall i :: lo <= i < hi ==> ds[i] == es[i]
    ensures SideOf(ds, lo, hi) == SideOf(es, lo, hi)
    decreases hi - lo
  {
    if lo < hi {
      SideOfSame(ds, es, lo, hi - 1);
    }
  }

  ghost predicate SameTo(ds: seq<Diff>, es: seq<Diff>, m: int) {
    m <= |ds| && m <= |es| && forall i :: 0 <= i < m ==> ds[i] == es[i]
  }

  /** Where two lists begin alike they have the same runs ... */
  lemma {:induction false} SameBefore(ds: seq<Diff>, es: seq<Diff>, m: int, p: int)
    requires 0 <= p <= m && SameTo(ds, es, m)
    ensures LastEqual(es, p) == LastEqual(ds, p) && Before(es, p) == Before(ds, p)
  {
    LastIs(es, p, LastEqual(ds, p));
    SideOfSame(ds, es, LastEqual(ds, p) + 1, p);
  }

  /** ... and, up to and with the next equality, the rule applies to both or neither. */
  lemma {:induction false} SameApplies(ds: seq<Diff>, es: seq<Diff>, m: int, i: int, rule: Rule)
    requires 0 <= i < m && SameTo(ds, es, m) && NextEqual(ds, i + 1) < m
    ensures AppliesAt(es, i, rule) <==> AppliesAt(ds, i, rule)
  {
    SameBefore(ds, es, m, i);
    NextIs(es, i + 1, NextEqual(ds, i + 1));
    SideOfSame(ds, es, i + 1, NextEqual(ds, i + 1));
  }

  lemma {:induction false} MoreApplies(rule: Rule, before: Side, text: Text, some: Side, all: Side)
    requires some.Within(all) && rule.Applies(before, text, some)
    ensures rule.Applies(before, text, all)
  {
  }

  /** What applies with the edits so far applies with all the edits up to the next equality. */
  lemma {:induction false} AppliesHere(ds: seq<Diff>, p: int, rule: Rule, last: Text)
    requires 0 <= p < |ds| && ds[p].op != Equal && LastEqual(ds, p) >= 0 && ds[LastEqual(ds, p)].text == last
    requires rule.Applies(Before(ds, LastEqual(ds, p)), last, Before(ds, p).With(ds[p]))
    ensures AppliesAt(ds, LastEqual(ds, p), rule)
  {
    WithinBehind(ds, p);
    MoreAppliesAt(ds, LastEqual(ds, p), rule, Before(ds, p).With(ds[p]));
  }

  lemma {:induction false} MoreAppliesAt(ds: seq<Diff>, l: int, rule: Rule, some: Side)
    requires 0 <= l < |ds| && ds[l].op == Equal && some.Within(Behind(ds, l + 1))
    requires rule.Applies(Before(ds, l), ds[l].text, some)
    ensures AppliesAt(ds, l, rule)
  {
    MoreApplies(rule, Before(ds, l), ds[l].text, some, Behind(ds, l + 1));
  }

  lemma {:induction false} WithinBehind(ds: seq<Diff>, p: int)
    requires 0 <= p < |ds| && ds[p].op != Equal
    ensures Before(ds, p).With(ds[p]).Within(Behind(ds, LastEqual(ds, p) + 1))
  {
    RunMore(ds, p);
    NextIsBeyond(ds, p);
    SideOfMore(ds, LastEqual(ds, p) + 1, p + 1, NextEqual(ds, LastEqual(ds, p) + 1));
  }

  lemma {:induction false} NextIsBeyond(ds: seq<Diff>, p: int)
    requires 0 <= p < |ds| && ds[p].op != Equal
    ensures NextEqual(ds, LastEqual(ds, p) + 1) > p
  {
    var n := NextEqual(ds, LastEqual(ds, p) + 1);
    assert n < |ds| ==> ds[n].op == Equal;
  }

  // ---------- how far a pass has come ----------

  /** Before `p` the rule applies to no equality; to the last one, if it is `pending`, as far as `p`. */
  ghost predicate Swept(ds: seq<Diff>, p: int, rule: Rule, pending: bool)
    requires 0 <= p <= |ds|
  {
    var l := LastEqual(ds, p);
    && (forall i :: 0 <= i < l ==> !AppliesAt(ds, i, rule))
    && (l >= 0 && pending ==> !rule.Applies(Before(ds, l), ds[l].text, Before(ds, p)))
    && (l >= 0 && !pending ==> !AppliesAt(ds, l, rule))
  }

  /** The equalities on the stack follow each other in the list, up to `p`.  The pointer may go
      below zero, and what the stack then holds does not matter. */
  ghost predicate Stacked(ds: seq<Diff>, equalities: map<int, int>, length: int, p: int)
    requires 0 <= p <= |ds|
  {
    && (forall k :: 0 <= k < length ==> k in equalities && 0 <= equalities[k] < p)
    && (forall j, k :: 0 <= j < k < length ==> equalities[j] < equalities[k])
    && (forall k :: 0 < k < length ==> LastEqual(ds, equalities[k]) == equalities[k - 1])
    && (length > 0 ==> LastEqual(ds, p) == equalities[length - 1])
  }

  /** The last equality, if it may still be dissolved, is the one on top of the stack. */
  ghost predicate OnTop(ds: seq<Diff>, equalities: map<int, int>, length: int, p: int, last: Text)
    requires 0 <= p <= |ds|
  {
    last != [] ==> var l := LastEqual(ds, p);
      length - 1 in equalities && equalities[length - 1] == l && l >= 0 && ds[l].text == last
  }

  ghost predicate Sweeping(ds: seq<Diff>, p: int, rule: Rule, equalities: map<int, int>, length: int, last: Text) {
    && 0 <= p <= |ds|
    && Swept(ds, p, rule, last != [])
    && Stacked(ds, equalities, length, p)
    && OnTop(ds, equalities, length, p, last)
  }

  /** What has been counted of the edits on either side of the last equality. */
  ghost predicate Counted(ds: seq<Diff>, p: int, last: Text, before: Side, after: Side)
    requires 0 <= p <= |ds|
  {
    after == Before(ds, p) && (last != [] ==> LastEqual(ds, p) >= 0 && before == Before(ds, LastEqual(ds, p)))
  }

  /** A pass that began with `was` has come to `p`. */
  ghost predicate Underway(was: seq<Diff>, ds: seq<Diff>, p: int, rule: Rule, equalities: map<int, int>, length: int,
        last: Text,
      before: Side, after: Side)
  {
    exists n :: DissolvesInto(was, ds, rule, n) && Sweeping(ds, p, rule, equalities, length, last)
      && Counted(ds, p, last, before, after)
  }

  /** A pass has come to an equality, or to the end: what was pending is settled. */
  lemma {:induction false} SettledBefore(ds: seq<Diff>, p: int, rule: Rule, pending: bool)
    requires 0 <= p <= |ds| && Swept(ds, p, rule, pending) && (p < |ds| ==> ds[p].op == Equal)
    ensures forall i :: 0 <= i < p ==> !AppliesAt(ds, i, rule)
  {
    if LastEqual(ds, p) >= 0 {
      RunsMeet(ds, p);
    }
    forall i | LastEqual(ds, p) < i < p ensures !AppliesAt(ds, i, rule) {
      assert ds[i].op != Equal;
    }
  }

  /** An equality that a pass does not put on the stack is one to which the rule will not apply. */
  predicate Skipped(ds: seq<Diff>, p: int, rule: Rule)
    requires 0 <= p < |ds|
  {
    Refuses(rule, ds[p].text, Before(ds, p))
  }

  predicate Refuses(rule: Rule, text: Text, before: Side) {
    rule.Costly? && !(|text| < rule.editCost && (before.inserts || before.deletes))
  }

  lemma {:induction false} SweptEqual(ds: seq<Diff>, p: int, rule: Rule, pending: bool)
    requires 0 <= p < |ds| && Swept(ds, p, rule, pending) && ds[p].op == Equal
    ensures LastEqual(ds, p + 1) == p && Before(ds, p + 1) == NO_EDITS
    ensures Swept(ds, p + 1, rule, ds[p].text != [])
    ensures Skipped(ds, p, rule) ==> Swept(ds, p + 1, rule, false)
  {
    SettledBefore(ds, p, rule, pending);
  }

  /** A pass goes over an equality, with a stack from then on that either has it on top or is empty. */
  lemma {:induction false} PassEqual(ds: seq<Diff>, p: int, rule: Rule, equalities: map<int, int>, length: int,
        last: Text)
    requires Sweeping(ds, p, rule, equalities, length, last) && p < |ds| && ds[p].op == Equal
    ensures Sweeping(ds, p + 1, rule, equalities[length := p], length + 1, ds[p].text)
    ensures Skipped(ds, p, rule) ==> Sweeping(ds, p + 1, rule, equalities, 0, [])
    ensures LastEqual(ds, p + 1) == p && Before(ds, p + 1) == NO_EDITS
  {
    SweptEqual(ds, p, rule, last != []);
    hide Swept, AppliesAt, Skipped, Before, SideOf;
    StackedMore(ds, p, equalities, length);
  }

  lemma {:induction false} StackedMore(ds: seq<Diff>, p: int, equalities: map<int, int>, length: int)
    requires 0 <= p < |ds| && Stacked(ds, equalities, length, p) && LastEqual(ds, p + 1) == p
    ensures Stacked(ds, equalities[length := p], length + 1, p + 1)
  {
    hide LastEqual;
  }

  /** A pass goes over an edit that does not bring the rule to apply. */
  lemma {:induction false} PassEdit(ds: seq<Diff>, p: int, rule: Rule, equalities: map<int, int>, length: int,
        last: Text)
    requires Sweeping(ds, p, rule, equalities, length, last) && p < |ds| && ds[p].op != Equal
    requires last == [] || !rule.Applies(Before(ds, LastEqual(ds, p)), last, Before(ds, p).With(ds[p]))
    ensures Sweeping(ds, p + 1, rule, equalities, length, last)
  {
    RunMore(ds, p);
  }

  /** Dissolving an equality leaves what is before the equality before it as it was. */
  lemma {:induction false} SweptBefore(ds: seq<Diff>, l: int, rule: Rule)
    requires 0 <= l < |ds| && ds[l].op == Equal && forall i :: 0 <= i < l ==> !AppliesAt(ds, i, rule)
    ensures SameTo(ds, DissolvedAt(ds, l), l)
    ensures forall i :: 0 <= i < LastEqual(ds, l) ==> !AppliesAt(DissolvedAt(ds, l), i, rule)
  {
    var q := LastEqual(ds, l);
    var es := DissolvedAt(ds, l);
    forall i | 0 <= i < q ensures !AppliesAt(es, i, rule) {
      assert ds[q].op == Equal;
      assert NextEqual(ds, i + 1) <= q;
      SameApplies(ds, es, l, i, rule);
    }
  }

  /** After a change a pass goes back to the equality before the one before, or to the beginning. */
  lemma {:induction false} GoBack(ds: seq<Diff>, p: int, rule: Rule, equalities: map<int, int>, length: int, last: Text)
    requires Sweeping(ds, p, rule, equalities, length, last) && last != []
    ensures var p' := if 0 < length - 2 then equalities[length - 3] + 1 else 0;
      var es := DissolvedAt(ds, LastEqual(ds, p));
      Sweeping(es, p', rule, equalities, length - 2, []) && Before(es, p') == NO_EDITS
  {
    if 0 < length - 2 {
      var l, q, r := LastEqual(ds, p), equalities[length - 2], equalities[length - 3];
      var es := DissolvedAt(ds, l);
      SweptBefore(ds, l, rule);
      LastIs(es, r + 1, r);
      assert Swept(es, r + 1, rule, false);
      forall k | 0 < k < length - 2 ensures LastEqual(es, equalities[k]) == equalities[k - 1] {
        SameBefore(ds, es, l, equalities[k]);
      }
      assert Stacked(es, equalities, length - 2, r + 1);
    }
  }

  /** Or, where there are edits of both kinds before the equality, it just goes on. */
  lemma {:induction false} GoOn(ds: seq<Diff>, p: int, rule: Rule, equalities: map<int, int>, length: int, last: Text)
    requires Sweeping(ds, p, rule, equalities, length, last) && last != [] && p < |ds| && ds[p].op != Equal
    requires var run := Before(ds, LastEqual(ds, p)); rule.Costly? && run.inserts && run.deletes
    ensures var es := DissolvedAt(ds, LastEqual(ds, p));
      Sweeping(es, p + 1, rule, equalities, 0, []) && Before(es, p + 1).inserts && Before(es, p + 1).deletes
  {
    var l := LastEqual(ds, p);
    SweptBefore(ds, l, rule);
    DissolvedRun(ds, p);
    if LastEqual(ds, l) >= 0 {
      StillNotCostly(ds, DissolvedAt(ds, l), l, rule);
    }
  }

  /** The run before `p` now reaches back over the equality dissolved. */
  lemma {:induction false} DissolvedRun(ds: seq<Diff>, p: int)
    requires 0 <= p < |ds| && LastEqual(ds, p) >= 0
    ensures var l := LastEqual(ds, p); var es := DissolvedAt(ds, l);
      && LastEqual(es, p + 1) == LastEqual(ds, l) && Before(es, p + 1).inserts && Before(es, p + 1).deletes
  {
    var l := LastEqual(ds, p);
    var q := LastEqual(ds, l);
    var es := DissolvedAt(ds, l);
    forall i | q < i < p + 1 ensures es[i].op != Equal {
      if i > l + 1 {
        assert es[i] == ds[i - 1];
      }
    }
    LastIs(es, p + 1, q);
    assert SideOf(es, q + 1, l + 1) == SideOf(es, q + 1, l).With(es[l]);
    SideOfMore(es, q + 1, l + 1, p + 1);
    SideOfMore(es, q + 1, l + 2, p + 1);
  }

  lemma {:induction false} NextIsNotBefore(ds: seq<Diff>, es: seq<Diff>, l: int)
    requires 0 <= l < |ds| && SameTo(ds, es, l)
    ensures l <= NextEqual(es, LastEqual(ds, l) + 1)
  {
    var n := NextEqual(es, LastEqual(ds, l) + 1);
    assert n < |es| ==> es[n].op == Equal;
  }

  /** More edits behind those of both kinds make no difference. */
  lemma {:induction false} StillNotCostly(ds: seq<Diff>, es: seq<Diff>, l: int, rule: Rule)
    requires 0 <= l < |ds| && LastEqual(ds, l) >= 0 && ds[l].op == Equal && SameTo(ds, es, l)
    requires rule.Costly? && Before(ds, l).inserts && Before(ds, l).deletes
    requires !AppliesAt(ds, LastEqual(ds, l), rule)
    ensures !AppliesAt(es, LastEqual(ds, l), rule)
  {
    var q := LastEqual(ds, l);
    NextIsNotBefore(ds, es, l);
    SameBefore(ds, es, l, q);
    RunsMeet(ds, l);
    SideOfSame(ds, es, q + 1, l);
    SideOfMore(es, q + 1, l, NextEqual(es, q + 1));
  }

  // ---------- the steps of a pass ----------

  lemma {:induction false} Begins(ds: seq<Diff>, rule: Rule)
    ensures Underway(ds, ds, 0, rule, map[], 0, [], NO_EDITS, NO_EDITS)
  {
    assert DissolvesInto(ds, ds, rule, 0);
  }

  /** A pass goes over an equality. */
  lemma {:induction false} MeetsEqual(was: seq<Diff>, ds: seq<Diff>, p: int, rule: Rule, equalities: map<int, int>,
        length: int, last: Text,
      before: Side, after: Side)
    requires Underway(was, ds, p, rule, equalities, length, last, before, after) && 0 <= p < |ds| && ds[p].op == Equal
    ensures Underway(was, ds, p + 1, rule, equalities[length := p], length + 1, ds[p].text, after, NO_EDITS)
    ensures Refuses(rule, ds[p].text, after) ==> Underway(was, ds, p + 1, rule, equalities, 0, [], before, NO_EDITS)
  {
    var n :| DissolvesInto(was, ds, rule, n) && Sweeping(ds, p, rule, equalities, length, last)
      && Counted(ds, p, last, before, after);
    PassEqual(ds, p, rule, equalities, length, last);
  }

  /** A pass goes over an edit. */
  lemma {:induction false} MeetsEdit(was: seq<Diff>, ds: seq<Diff>, p: int, rule: Rule, equalities: map<int, int>,
        length: int, last: Text,
      before: Side, after: Side)
    requires Underway(was, ds, p, rule, equalities, length, last, before, after) && 0 <= p < |ds| && ds[p].op != Equal
    requires !rule.Applies(before, last, after.With(ds[p]))
    ensures Underway(was, ds, p + 1, rule, equalities, length, last, before, after.With(ds[p]))
  {
    var n :| DissolvesInto(was, ds, rule, n) && Sweeping(ds, p, rule, equalities, length, last)
      && Counted(ds, p, last, before, after);
    PassEdit(ds, p, rule, equalities, length, last);
    RunMore(ds, p);
  }

  /** Dissolving an equality to which the rule applies is one more step. */
  lemma {:induction false} OneStepMore(was: seq<Diff>, ds: seq<Diff>, n: nat, rule: Rule, i: int)
    requires DissolvesInto(was, ds, rule, n) && 0 <= i < |ds| && AppliesAt(ds, i, rule)
    ensures DissolvesInto(was, DissolvedAt(ds, i), rule, n + 1) && !NoneApplies(was, rule)
  {
    AppliedFirst(was, DissolvedAt(ds, i), rule, n + 1);
  }

  /** The last equality is on top of the stack, and the one to go back to two below it. */
  lemma {:induction false} WhereUnderway(was: seq<Diff>, ds: seq<Diff>, p: int, rule: Rule, equalities: map<int, int>,
        length: int, last: Text,
      before: Side, after: Side)
    requires Underway(was, ds, p, rule, equalities, length, last, before, after) && last != []
    ensures 0 <= p <= |ds| && LastEqual(ds, p) >= 0 && ds[LastEqual(ds, p)] == Diff(Equal, last)
    ensures length - 1 in equalities && equalities[length - 1] == LastEqual(ds, p)
    ensures 0 < length - 2 ==> length - 3 in equalities
  {
  }

  /** An edit brings the rule to apply to the last equality: the pass goes back once that is dissolved ... */
  lemma {:induction false} DissolvesBack(was: seq<Diff>, ds: seq<Diff>, p: int, rule: Rule, equalities: map<int, int>,
        length: int, last: Text,
      before: Side, after: Side, es: seq<Diff>, back: int, any: Side)
    requires Underway(was, ds, p, rule, equalities, length, last, before, after) && 0 <= p < |ds| && ds[p].op != Equal
    requires rule.Applies(before, last, after.With(ds[p]))
    requires LastEqual(ds, p) >= 0 && es == DissolvedAt(ds, LastEqual(ds, p))
    requires if 0 < length - 2 then length - 3 in equalities && back == equalities[length - 3] else back == -1
    ensures !NoneApplies(was, rule) && 0 <= back + 1 <= |es|
    ensures Underway(was, es, back + 1, rule, equalities, length - 2, [], any, NO_EDITS)
  {
    hide DissolvesInto, Swept, Stacked, Before, SideOf, DissolvedAt;
    var n :| DissolvesInto(was, ds, rule, n) && Sweeping(ds, p, rule, equalities, length, last)
      && Counted(ds, p, last, before, after);
    AppliesHere(ds, p, rule, last);
    OneStepMore(was, ds, n, rule, LastEqual(ds, p));
    GoBack(ds, p, rule, equalities, length, last);
  }

  /** ... or goes on. */
  lemma {:induction false} DissolvesOn(was: seq<Diff>, ds: seq<Diff>, p: int, rule: Rule, equalities: map<int, int>,
        length: int, last: Text,
      before: Side, after: Side, es: seq<Diff>)
      returns (now: Side)
    requires Underway(was, ds, p, rule, equalities, length, last, before, after) && 0 <= p < |ds| && ds[p].op != Equal
    requires rule.Applies(before, last, after.With(ds[p])) && rule.Costly? && before.inserts && before.deletes
    requires LastEqual(ds, p) >= 0 && es == DissolvedAt(ds, LastEqual(ds, p))
    ensures !NoneApplies(was, rule) && now.inserts && now.deletes
    ensures Underway(was, es, p + 1, rule, equalities, 0, [], before, now)
  {
    hide DissolvesInto, Swept, Stacked, Before, SideOf, DissolvedAt;
    var n :| DissolvesInto(was, ds, rule, n) && Sweeping(ds, p, rule, equalities, length, last)
      && Counted(ds, p, last, before, after);
    AppliesHere(ds, p, rule, last);
    OneStepMore(was, ds, n, rule, LastEqual(ds, p));
    GoOn(ds, p, rule, equalities, length, last);
    now := Before(es, p + 1);
  }

  lemma {:induction false} Ends(was: seq<Diff>, ds: seq<Diff>, rule: Rule, equalities: map<int, int>, length: int,
        last: Text, before: Side, after: Side)
    requires Underway(was, ds, |ds|, rule, equalities, length, last, before, after)
    ensures Reduced(was, ds, rule)
  {
    var n :| DissolvesInto(was, ds, rule, n) && Sweeping(ds, |ds|, rule, equalities, length, last)
      && Counted(ds, |ds|, last, before, after);
    SettledBefore(ds, |ds|, rule, last != []);
  }

  // ---------- the two passes ----------

  /** Dissolves the last equality, and tells where to go back to and how far the stack then reaches. */
  method DissolveAndGoBack(a: DiffList, equalities: map<int, int>, equalitiesLength: int, lastequality: Text,
      ghost was: seq<Diff>, ghost p: int, ghost rule: Rule, ghost before: Side, ghost after: Side, ghost any: Side)
    returns (length: int, pointer: int)
    requires Underway(was, a.items, p, rule, equalities, equalitiesLength, lastequality, before, after)
    requires 0 <= p < |a.items| && a.items[p].op != Equal && rule.Applies(before, lastequality, after.With(a.items[p]))
    modifies a
    ensures Underway(was, a.items, pointer + 1, rule, equalities, length, [], any, NO_EDITS)
    ensures !NoneApplies(was, rule) && 0 <= pointer + 1 <= |a.items|
    ensures SameTexts(a.items, old(a.items)) && CountEqual(a.items) < CountEqual(old(a.items))
  {
    ghost var ds := a.items;
    WhereUnderway(was, ds, p, rule, equalities, equalitiesLength, lastequality, before, after);
    Dissolve(a, equalities[equalitiesLength - 1], lastequality);
    length := equalitiesLength - 2;
    pointer := if 0 < length then equalities[length - 1] else -1;
    DissolvesBack(was, ds, p, rule, equalities, equalitiesLength, lastequality, before, after, a.items, pointer, any);
  }

  /** Dissolves the last equality where that cannot affect the one before. */
  method DissolveAndGoOn(a: DiffList, equalities: map<int, int>, equalitiesLength: int, lastequality: Text,
      ghost was: seq<Diff>, ghost p: int, ghost rule: Rule, ghost before: Side, ghost after: Side)
    returns (ghost now: Side)
    requires Underway(was, a.items, p, rule, equalities, equalitiesLength, lastequality, before, after)
    requires 0 <= p < |a.items| && a.items[p].op != Equal && rule.Applies(before, lastequality, after.With(a.items[p]))
    requires rule.Costly? && before.inserts && before.deletes
    modifies a
    ensures Underway(was, a.items, p + 1, rule, equalities, 0, [], before, now) && now.inserts && now.deletes
    ensures !NoneApplies(was, rule) && |a.items| == |old(a.items)| + 1
    ensures SameTexts(a.items, old(a.items)) && CountEqual(a.items) < CountEqual(old(a.items))
  {
    ghost var ds := a.items;
    WhereUnderway(was, ds, p, rule, equalities, equalitiesLength, lastequality, before, after);
    Dissolve(a, equalities[equalitiesLength - 1], lastequality);
    now := DissolvesOn(was, ds, p, rule, equalities, equalitiesLength, lastequality, before, after, a.items);
  }

  /** Dissolve every equality that is no longer than the edits on either side of it. */
  method DissolveSemantic(a: DiffList) returns (changes: bool)
    modifies a
    ensures SameTexts(a.items, old(a.items)) && Reduced(old(a.items), a.items, Outweighed)
    ensures changes <==> !NoneApplies(old(a.items), Outweighed)
    ensures !changes ==> a.items == old(a.items)
  {
    changes := false;
    var equalities: map<int, int> := map[];
    var equalitiesLength, pointer := 0, 0;
    var lastequality: Text := [];
    var insertions1, deletions1, insertions2, deletions2 := 0, 0, 0, 0;
    hide Underway;
    ghost var was, before, after := a.items, NO_EDITS, NO_EDITS;
    Begins(was, Outweighed);
    while pointer < |a.items|
      invariant 0 <= pointer <= |a.items|
      invariant Underway(was, a.items, pointer, Outweighed, equalities, equalitiesLength, lastequality, before, after)
      invariant insertions1 == before.insertions && deletions1 == before.deletions
      invariant insertions2 == after.insertions && deletions2 == after.deletions
      invariant SameTexts(a.items, was) && (if changes then !NoneApplies(was, Outweighed) else a.items == was)
      decreases CountEqual(a.items), |a.items| - pointer
    {
      if a.items[pointer].op == Equal {
        MeetsEqual(was, a.items, pointer, Outweighed, equalities, equalitiesLength, lastequality, before, after);
        equalities := equalities[equalitiesLength := pointer];
        equalitiesLength := equalitiesLength + 1;
        insertions1, deletions1 := insertions2, deletions2;
        insertions2, deletions2 := 0, 0;
        lastequality := a.items[pointer].text;
        before, after := after, NO_EDITS;
      } else {
        if a.items[pointer].op == Insert {
          insertions2 := insertions2 + |a.items[pointer].text|;
        } else {
          deletions2 := deletions2 + |a.items[pointer].text|;
        }
        if lastequality != [] && |lastequality| <= Max(insertions1, deletions1)
          && |lastequality| <= Max(insertions2, deletions2) {
          equalitiesLength, pointer :=
            DissolveAndGoBack(a, equalities, equalitiesLength, lastequality, was, pointer, Outweighed, before, after,
              NO_EDITS);
          insertions1, deletions1, insertions2, deletions2 := 0, 0, 0, 0;
          lastequality := [];
          changes := true;
          before, after := NO_EDITS, NO_EDITS;
        } else {
          MeetsEdit(was, a.items, pointer, Outweighed, equalities, equalitiesLength, lastequality, before, after);
          after := after.With(a.items[pointer]);
        }
      }
      pointer := pointer + 1;
    }
    Ends(was, a.items, Outweighed, equalities, equalitiesLength, lastequality, before, after);
  }

  /** Dissolve equalities that cost more to keep than to edit, and merge what that leaves. */
  method CleanupEfficiency(a: DiffList, editCost: int) returns (ghost dissolved: seq<Diff>)
    modifies a
    ensures SameTexts(a.items, old(a.items)) && Reduced(old(a.items), dissolved, Costly(editCost))
    ensures if NoneApplies(old(a.items), Costly(editCost)) then a.items == dissolved == old(a.items)
      else RunsMerged(a.items) && Settled(a.items) && NoLarger(a.items, dissolved)
  {
    var changes := false;
    var equalities: map<int, int> := map[];
    var equalitiesLength, pointer := 0, 0;
    var lastequality: Text := [];
    var preIns, preDel, postIns, postDel := false, false, false, false;
    hide Underway;
    ghost var rule, was, before, after := Costly(editCost), a.items, NO_EDITS, NO_EDITS;
    Begins(was, rule);
    while pointer < |a.items|
      invariant 0 <= pointer <= |a.items|
      invariant Underway(was, a.items, pointer, rule, equalities, equalitiesLength, lastequality, before, after)
      invariant preIns == before.inserts && preDel == before.deletes && postIns == after.inserts
      invariant postDel == after.deletes
      invariant lastequality != [] ==> |lastequality| < editCost
      invariant SameTexts(a.items, was) && (if changes then !NoneApplies(was, rule) else a.items == was)
      decreases CountEqual(a.items), |a.items| - pointer
    {
      if a.items[pointer].op == Equal {
        MeetsEqual(was, a.items, pointer, rule, equalities, equalitiesLength, lastequality, before, after);
        if |a.items[pointer].text| < editCost && (postIns || postDel) {
          equalities := equalities[equalitiesLength := pointer];
          equalitiesLength := equalitiesLength + 1;
          preIns, preDel := postIns, postDel;
          lastequality := a.items[pointer].text;
          before := after;
        } else {
          equalitiesLength := 0;
          lastequality := [];
        }
        postIns, postDel := false, false;
        after := NO_EDITS;
      } else {
        if a.items[pointer].op == Delete {
          postDel := true;
        } else {
          postIns := true;
        }
        if lastequality != [] && ((preIns && preDel && postIns && postDel)
            || (2 * |lastequality| < editCost && CountTrue(preIns, preDel, postIns, postDel) == 3)) {
          if preIns && preDel {
            after := DissolveAndGoOn(a, equalities, equalitiesLength, lastequality, was, pointer, rule, before, after);
            postIns, postDel := true, true;
            equalitiesLength := 0;
          } else {
            equalitiesLength, pointer :=
              DissolveAndGoBack(a, equalities, equalitiesLength, lastequality, was, pointer, rule, before, after,
                before);
            postIns, postDel := false, false;
            after := NO_EDITS;
          }
          lastequality := [];
          changes := true;
        } else {
          MeetsEdit(was, a.items, pointer, rule, equalities, equalitiesLength, lastequality, before, after);
          after := after.With(a.items[pointer]);
        }
      }
      pointer := pointer + 1;
    }
    Ends(was, a.items, rule, equalities, equalitiesLength, lastequality, before, after);
    dissolved := a.items;
    if changes {
      CleanupMerge(a);
    }
  }
}
