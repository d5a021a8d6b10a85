/** The merging clean-up: runs of edits become one deletion and one insertion, and an equality
    that an edit can be slid over is dissolved. */
module DiffMerge {
  import opened DiffText
  import opened Diffs

  // ---------- what a merged list looks like ----------

  predicate NothingShared(a: Text, b: Text) {
    IsCommonPrefix(a, b, 0) && IsCommonSuffix(a, b, 0)
  }

  /** `y` may follow `x`: an equality and an edit, or a deletion and an insertion that share no end. */
  predicate Fits(x: Diff, y: Diff) {
    || (x.op == Equal && y.op != Equal)
    || (x.op != Equal && y.op == Equal)
    || (x.op == Delete && y.op == Insert && NothingShared(x.text, y.text))
  }

  predicate RunsMerged(ds: seq<Diff>) {
    forall i :: 0 < i < |ds| ==> Fits(ds[i - 1], ds[i])
  }

  /** The edit at `i` stands between equalities and can be slid over neither. */
  predicate CannotSlide(ds: seq<Diff>, i: int)
    requires 0 < i < |ds| - 1
  {
    ds[i - 1].op == Equal && ds[i + 1].op == Equal ==>
      !EndsWith(ds[i].text, ds[i - 1].text) && !StartsWith(ds[i].text, ds[i + 1].text)
  }

  predicate Settled(ds: seq<Diff>) {
    forall i :: 0 < i < |ds| - 1 ==> CannotSlide(ds, i)
  }

  /** Lexicographically no larger: fewer edited units, or as many and no more entries. */
  predicate NoLarger(ds: seq<Diff>, es: seq<Diff>) {
    EditChars(ds) < EditChars(es) || (EditChars(ds) == EditChars(es) && |ds| <= |es|)
  }

  // ---------- merging one run of edits ----------

  /** What has been counted and gathered of a run of edits. */
  ghost predicate Gathered(run: seq<Diff>, deletes: nat, inserts: nat, deleted: Text, inserted: Text) {
    && |run| == deletes + inserts
    && (forall d :: d in run ==> d.op != Equal)
    && Text1(run) == deleted && Text2(run) == inserted
    && EditChars(run) == |deleted| + |inserted|
    && (deletes == 0 ==> deleted == []) && (inserts == 0 ==> inserted == [])
  }

  lemma GatherOne(run: seq<Diff>, d: Diff, deletes: nat, inserts: nat, deleted: Text, inserted: Text)
    requires Gathered(run, deletes, inserts, deleted, inserted)
    ensures d.op == Delete ==> Gathered(run + [d], deletes + 1, inserts, deleted + d.text, inserted)
    ensures d.op == Insert ==> Gathered(run + [d], deletes, inserts + 1, deleted, inserted + d.text)
  {
    TextConcat(run, [d], Insert);
    TextConcat(run, [d], Delete);
    EditCharsConcat(run, [d]);
  }

  /** What is left of a run: at most one deletion, then at most one insertion. */
  function Edits(deletes: nat, inserts: nat, deleted: Text, inserted: Text): seq<Diff> {
    (if deletes == 0 then [] else [Diff(Delete, deleted)]) + (if inserts == 0 then [] else [Diff(Insert, inserted)])
  }

  /** `front` with a shared prefix added to its last equality, or as a new equality if it has none. */
  function Lead(front: seq<Diff>, shared: Text): seq<Diff> {
    if shared == [] then front
    else if front == [] then [Diff(Equal, shared)]
    else front[..|front| - 1] + [Diff(Equal, front[|front| - 1].text + shared)]
  }

  predicate EndsInEqual(ds: seq<Diff>) {
    ds == [] || ds[|ds| - 1].op == Equal
  }

  lemma LeadTexts(front: seq<Diff>, shared: Text, without: Op)
    requires EndsInEqual(front) && without != Equal
    ensures TextOf(Lead(front, shared), without) == TextOf(front, without) + shared
    ensures EditChars(Lead(front, shared)) == EditChars(front)
  {
    if front != [] {
      var n := |front| - 1;
      var last := front[n];
      assert front == front[..n] + [last];
      TextConcat(front[..n], [last], without);
      EditCharsConcat(front[..n], [last]);
      if shared != [] {
        TextConcat(front[..n], [Diff(Equal, last.text + shared)], without);
        EditCharsConcat(front[..n], [Diff(Equal, last.text + shared)]);
      }
    }
  }

  lemma EditsTexts(deletes: nat, inserts: nat, deleted: Text, inserted: Text)
    requires (deletes == 0 ==> deleted == []) && (inserts == 0 ==> inserted == [])
    ensures Text1(Edits(deletes, inserts, deleted, inserted)) == deleted
    ensures Text2(Edits(deletes, inserts, deleted, inserted)) == inserted
    ensures EditChars(Edits(deletes, inserts, deleted, inserted)) == |deleted| + |inserted|
  {
    var ds := if deletes == 0 then [] else [Diff(Delete, deleted)];
    var es := if inserts == 0 then [] else [Diff(Insert, inserted)];
    TextConcat(ds, es, Insert);
    TextConcat(ds, es, Delete);
    EditCharsConcat(ds, es);
  }

  /** A run, with the equality after it, stands for the same texts once the shared ends are taken out. */
  lemma RunTexts(front: seq<Diff>, run: seq<Diff>, last: Text, p: Text, s: Text, deleted: Text, inserted: Text,
        deletes: nat, inserts: nat)
    requires EndsInEqual(front)
    requires Gathered(run, deletes, inserts, p + deleted + s, p + inserted + s)
    ensures SameTexts(front + run + [Diff(Equal, last)],
                      Lead(front, p) + Edits(deletes, inserts, deleted, inserted) + [Diff(Equal, s + last)])
    ensures EditChars(Lead(front, p) + Edits(deletes, inserts, deleted, inserted) + [Diff(Equal, s + last)]) + 2 * |p|
      + 2 * |s|
      == EditChars(front + run + [Diff(Equal, last)])
  {
    EditsTexts(deletes, inserts, deleted, inserted);
    var edits := Edits(deletes, inserts, deleted, inserted);
    forall without: Op | without != Equal
      ensures TextOf(front + run + [Diff(Equal, last)], without) ==
        TextOf(Lead(front, p) + edits + [Diff(Equal, s + last)], without)
    {
      RunText(front, run, last, p, s, edits, without);
    }
    LeadTexts(front, p, Insert);
    SplicedEditChars(front, run, [Diff(Equal, last)]);
    SplicedEditChars(Lead(front, p), edits, [Diff(Equal, s + last)]);
  }

  lemma RunText(front: seq<Diff>, run: seq<Diff>, last: Text, p: Text, s: Text, edits: seq<Diff>, without: Op)
    requires EndsInEqual(front) && without != Equal
    requires TextOf(run, without) == p + TextOf(edits, without) + s
    ensures TextOf(front + run + [Diff(Equal, last)], without) ==
      TextOf(Lead(front, p) + edits + [Diff(Equal, s + last)], without)
  {
    LeadTexts(front, p, without);
    TextConcat(front, run, without);
    TextConcat(front + run, [Diff(Equal, last)], without);
    TextConcat(Lead(front, p), edits, without);
    TextConcat(Lead(front, p) + edits, [Diff(Equal, s + last)], without);
    TextOfOne(Diff(Equal, last), without);
    TextOfOne(Diff(Equal, s + last), without);
    RegroupRun(TextOf(front, without), p, TextOf(edits, without), s, last);
  }

  lemma RegroupRun(front: Text, p: Text, edits: Text, s: Text, last: Text)
    ensures (front + (p + edits + s)) + last == ((front + p) + edits) + (s + last)
  {
  }

  /** A run with its shared ends taken out, between what comes before and after it. */
  function Merged(front: seq<Diff>, p: Text, edits: seq<Diff>, last: Text, back: seq<Diff>): seq<Diff> {
    Lead(front, p) + edits + [Diff(Equal, last)] + back
  }

  lemma MergedTexts(front: seq<Diff>, run: seq<Diff>, last: Text, back: seq<Diff>, p: Text, s: Text, deleted: Text,
        inserted: Text, deletes: nat, inserts: nat)
    requires EndsInEqual(front)
    requires Gathered(run, deletes, inserts, p + deleted + s, p + inserted + s)
    requires deletes + inserts > 1
    ensures var ds := front + run + [Diff(Equal, last)] + back;
      var es := Merged(front, p, Edits(deletes, inserts, deleted, inserted), s + last, back);
      && SameTexts(es, ds) && NoLarger(es, ds)
      && (EditChars(es) == EditChars(ds) ==> s == [])
  {
    var edits := Edits(deletes, inserts, deleted, inserted);
    var ds := front + run + [Diff(Equal, last)];
    var es := Lead(front, p) + edits + [Diff(Equal, s + last)];
    RunTexts(front, run, last, p, s, deleted, inserted, deletes, inserts);
    TextConcat(ds, back, Insert);
    TextConcat(ds, back, Delete);
    TextConcat(es, back, Insert);
    TextConcat(es, back, Delete);
    EditCharsConcat(ds, back);
    EditCharsConcat(es, back);
  }

  lemma FitTogether(ds: seq<Diff>, es: seq<Diff>)
    requires RunsMerged(ds) && RunsMerged(es)
    requires ds != [] && es != [] ==> Fits(ds[|ds| - 1], es[0])
    ensures RunsMerged(ds + es)
  {
  }

  lemma LeadFits(front: seq<Diff>, p: Text)
    requires EndsInEqual(front) && RunsMerged(front)
    ensures RunsMerged(Lead(front, p)) && EndsInEqual(Lead(front, p))
  {
    var lead := Lead(front, p);
    forall i | 0 < i < |lead| ensures Fits(lead[i - 1], lead[i]) {
      assert Fits(front[i - 1], front[i]);
    }
  }

  lemma MergedFits(front: seq<Diff>, p: Text, deleted: Text, inserted: Text, deletes: nat, inserts: nat, last: Text)
    requires EndsInEqual(front) && RunsMerged(front) && deletes + inserts > 0
    requires deletes > 0 && inserts > 0 ==> NothingShared(deleted, inserted)
    ensures var ds := Lead(front, p) + Edits(deletes, inserts, deleted, inserted) + [Diff(Equal, last)];
      RunsMerged(ds) && EndsInEqual(ds)
  {
    var edits := Edits(deletes, inserts, deleted, inserted);
    LeadFits(front, p);
    FitTogether(Lead(front, p), edits);
    FitTogether(Lead(front, p) + edits, [Diff(Equal, last)]);
  }

  lemma NoPrefixLeft(e: Text, f: Text, n: nat)
    requires IsCommonPrefix(f, e, n)
    ensures IsCommonPrefix(e[n..], f[n..], 0)
  {
  }

  lemma NoSuffixLeft(e: Text, f: Text, n: nat)
    requires IsCommonPrefix(e, f, 0) && IsCommonSuffix(f, e, n)
    ensures NothingShared(e[..|e| - n], f[..|f| - n])
  {
  }

  /** Move what two edits share at their beginning into the equality before them. */
  method FactorPrefix(a: DiffList, start: nat, e: Text, f: Text, ghost front: seq<Diff>, ghost rest: seq<Diff>)
    returns (p: Text, shift: nat)
    requires a.items == front + rest && |front| == start && EndsInEqual(front)
    modifies a
    ensures a.items == Lead(front, p) + rest
    ensures shift == |Lead(front, p)| - start
    ensures StartsWith(e, p) && StartsWith(f, p) && IsCommonPrefix(e[|p|..], f[|p|..], 0)
  {
    var g := CommonPrefix(f, e);
    NoPrefixLeft(e, f, g);
    p, shift := f[..g], 0;
    if g != 0 {
      if 0 < start && a.items[start - 1].op == Equal {
        a.items := a.items[start - 1 := Diff(Equal, a.items[start - 1].text + f[..g])];
      } else {
        a.Splice(0, 0, [Diff(Equal, f[..g])]);
        shift := 1;
      }
    }
  }

  /** Move what two edits share at their end into the equality after them. */
  method FactorSuffix(a: DiffList, b: nat, e: Text, f: Text, ghost front: seq<Diff>, ghost last: Text,
        ghost back: seq<Diff>) returns (s: Text)
    requires a.items == front + ([Diff(Equal, last)] + back) && b == |front|
    requires IsCommonPrefix(e, f, 0)
    modifies a
    ensures a.items == front + ([Diff(Equal, s + last)] + back)
    ensures EndsWith(e, s) && EndsWith(f, s) && NothingShared(e[..|e| - |s|], f[..|f| - |s|])
  {
    var g := CommonSuffix(f, e);
    NoSuffixLeft(e, f, g);
    s := f[|f| - g..];
    assert a.items[b] == Diff(Equal, last);
    if g != 0 {
      a.items := a.items[b := Diff(Equal, f[|f| - g..] + a.items[b].text)];
    } else {
      assert s + last == last;
    }
  }

  /** Put the merged edits in the place of the run that ends at `b`. */
  method ReplaceRun(a: DiffList, b: nat, deletes: nat, inserts: nat, e: Text, f: Text, ghost front: seq<Diff>,
        ghost run: seq<Diff>, ghost rest: seq<Diff>)
    returns (next: nat)
    requires a.items == front + run + rest && b == |front| + |run| && |run| == deletes + inserts > 0
    modifies a
    ensures a.items == front + Edits(deletes, inserts, e, f) + rest
    ensures next == |front| + |Edits(deletes, inserts, e, f)| + 1
  {
    if deletes == 0 {
      a.Splice(b - inserts, deletes + inserts, [Diff(Insert, f)]);
    } else if inserts == 0 {
      a.Splice(b - deletes, deletes + inserts, [Diff(Delete, e)]);
    } else {
      a.Splice(b - deletes - inserts, deletes + inserts, [Diff(Delete, e), Diff(Insert, f)]);
    }
    next := b - deletes - inserts + (if deletes != 0 then 1 else 0) + (if inserts != 0 then 1 else 0) + 1;
  }

  lemma CutEnds(text: Text, p: Text, s: Text)
    requires StartsWith(text, p) && EndsWith(text[|p|..], s)
    ensures text == p + text[|p|..][..|text| - |p| - |s|] + s
  {
  }

  /** Take out of a deletion and an insertion what they share at their ends. */
  method FactorEnds(a: DiffList, pointer: nat, runLength: nat, textDelete: Text, textInsert: Text,
                    ghost front: seq<Diff>, ghost run: seq<Diff>, ghost last: Text, ghost back: seq<Diff>)
    returns (b: nat, e: Text, f: Text, p: Text, s: Text)
    requires a.items == front + run + ([Diff(Equal, last)] + back) && pointer == |front| + |run| && |run| == runLength
    requires EndsInEqual(front)
    modifies a
    ensures a.items == Lead(front, p) + run + ([Diff(Equal, s + last)] + back) && b == |Lead(front, p)| + |run|
    ensures textDelete == p + e + s && textInsert == p + f + s && NothingShared(e, f)
  {
    var shift;
    Regroup(front, run, [Diff(Equal, last)] + back);
    p, shift := FactorPrefix(a, pointer - runLength, textDelete, textInsert, front, run + ([Diff(Equal, last)] + back));
    Regroup(Lead(front, p), run, [Diff(Equal, last)] + back);
    b, e, f := pointer + shift, textDelete[|p|..], textInsert[|p|..];
    s := FactorSuffix(a, b, e, f, Lead(front, p) + run, last, back);
    CutEnds(textDelete, p, s);
    CutEnds(textInsert, p, s);
    e, f := e[..|e| - |s|], f[..|f| - |s|];
  }

  lemma EmptyEnds<T>(x: seq<T>)
    ensures [] + x == x && [] + x + [] == x
  {
  }

  /** Merge the run of edits that ends before the equality at `pointer`. */
  method MergeRun(a: DiffList, pointer: nat, deletes: nat, inserts: nat, textDelete: Text, textInsert: Text,
                  ghost front: seq<Diff>, ghost run: seq<Diff>, ghost last: Text,
                    ghost back: seq<Diff>) returns (next: nat)
    requires a.items == front + run + ([Diff(Equal, last)] + back) && pointer == |front| + |run|
    requires Gathered(run, deletes, inserts, textDelete, textInsert) && deletes + inserts > 1
    requires EndsInEqual(front) && RunsMerged(front)
    modifies a
    ensures 0 < next <= |a.items| && a.items[next..] == back
    ensures RunsMerged(a.items[..next]) && EndsInEqual(a.items[..next])
    ensures SameTexts(a.items, old(a.items)) && NoLarger(a.items, old(a.items))
    ensures EditChars(a.items) == EditChars(old(a.items)) ==> a.items[next - 1].text == last
  {
    var b, e, f := pointer, textDelete, textInsert;
    var p, s: Text := [], [];
    if deletes != 0 && inserts != 0 {
      b, e, f, p, s := FactorEnds(a, pointer, deletes + inserts, textDelete, textInsert, front, run, last, back);
    } else {
      EmptyEnds(last);
      EmptyEnds(e);
      EmptyEnds(f);
    }
    next := ReplaceRun(a, b, deletes, inserts, e, f, Lead(front, p), run, [Diff(Equal, s + last)] + back);
    RunMerged(old(a.items), a.items, front, run, last, back, p, s, e, f, deletes, inserts, next);
  }

  lemma RunMerged(was: seq<Diff>, now: seq<Diff>, front: seq<Diff>, run: seq<Diff>, last: Text, back: seq<Diff>,
                  p: Text, s: Text, deleted: Text, inserted: Text, deletes: nat, inserts: nat, next: nat)
    requires EndsInEqual(front) && RunsMerged(front) && deletes + inserts > 1
    requires Gathered(run, deletes, inserts, p + deleted + s, p + inserted + s)
    requires deletes > 0 && inserts > 0 ==> NothingShared(deleted, inserted)
    requires was == front + run + ([Diff(Equal, last)] + back)
    requires now == Lead(front, p) + Edits(deletes, inserts, deleted, inserted) + ([Diff(Equal, s + last)] + back)
    requires next == |Lead(front, p)| + |Edits(deletes, inserts, deleted, inserted)| + 1
    ensures next <= |now| && now[next..] == back
    ensures RunsMerged(now[..next]) && EndsInEqual(now[..next])
    ensures SameTexts(now, was) && NoLarger(now, was)
    ensures EditChars(now) == EditChars(was) ==> now[next - 1].text == last
  {
    var edits := Edits(deletes, inserts, deleted, inserted);
    MergedTexts(front, run, last, back, p, s, deleted, inserted, deletes, inserts);
    MergedFits(front, p, deleted, inserted, deletes, inserts, s + last);
    Regroup(front + run, [Diff(Equal, last)], back);
    Regroup(Lead(front, p) + edits, [Diff(Equal, s + last)], back);
    CutAfter(Lead(front, p) + edits, Diff(Equal, s + last), back);
  }

  lemma CutAfter<T>(front: seq<T>, x: T, back: seq<T>)
    ensures var s := front + [x] + back; s[..|front| + 1] == front + [x] && s[|front| + 1..] == back && s[|front|] == x
  {
  }

  // ---------- the two passes ----------

  lemma JoinedEqual(front: seq<Diff>, d: Diff, rest: seq<Diff>)
    requires front != [] && front[|front| - 1].op == Equal && d.op == Equal && RunsMerged(front)
    ensures var n := |front| - 1;
      var joined := front[..n] + [Diff(Equal, front[n].text + d.text)];
      && RunsMerged(joined) && EndsInEqual(joined)
      && SameTexts(joined + rest, front + [d] + rest)
      && EditChars(joined + rest) == EditChars(front + [d] + rest)
  {
    var n := |front| - 1;
    var one := Diff(Equal, front[n].text + d.text);
    var two := [front[n], d];
    forall without: Op | without != Equal ensures TextOf(two, without) == TextOf([one], without) {
      assert two == [front[n]] + [d];
      TextConcat([front[n]], [d], without);
    }
    assert two == [front[n]] + [d];
    EditCharsConcat([front[n]], [d]);
    SplicedTexts(front[..n], two, [one], rest);
    SplicedEditChars(front[..n], two, rest);
    SplicedEditChars(front[..n], [one], rest);
    assert front + [d] + rest == front[..n] + two + rest;
    forall i | 0 < i < |front| ensures Fits((front[..n] + [one])[i - 1], (front[..n] + [one])[i]) {
      assert Fits(front[i - 1], front[i]);
    }
  }

  lemma NextEqual(front: seq<Diff>, run: seq<Diff>, d: Diff)
    requires RunsMerged(front) && EndsInEqual(front) && d.op == Equal && |run| <= 1
      && (forall x :: x in run ==> x.op != Equal)
    requires run == [] ==> front == []
    ensures RunsMerged(front + run + [d]) && EndsInEqual(front + run + [d])
  {
  }

  /** What the merging pass has reached: a merged front, a run being gathered, and the rest untouched. */
  ghost predicate Reached(ds: seq<Diff>, was: seq<Diff>, front: seq<Diff>, run: seq<Diff>, rest: seq<Diff>) {
    && ds == front + run + rest
    && RunsMerged(front) && EndsInEqual(front)
    && SameTexts(ds, was) && NoLarger(ds, was)
    && (rest != [] ==> rest[|rest| - 1] == Diff(Equal, []))
    && (rest == [] ==> run == [] && front != [])
    && (rest == [] && EditChars(ds) == EditChars(was) && |ds| == |was| ==> front[|front| - 1].text == [])
  }

  method JoinEqual(a: DiffList, pointer: nat, ghost was: seq<Diff>, ghost front: seq<Diff>, ghost d: Diff,
        ghost back: seq<Diff>)
    returns (ghost front': seq<Diff>)
    requires Reached(a.items, was, front, [], [d] + back) && d.op == Equal && pointer == |front| > 0
    modifies a
    ensures Reached(a.items, was, front', [], back) && |front'| == pointer
  {
    assert back == [] ==> ([d] + back)[0] == Diff(Equal, []);
    assert back != [] ==> back[|back| - 1] == ([d] + back)[|back|];
    Regroup(front, [d], back);
    EmptyEnds(front);
    JoinedEqual(front, d, back);
    front' := front[..|front| - 1] + [Diff(Equal, front[|front| - 1].text + d.text)];
    a.items := a.items[pointer - 1 := Diff(Equal, a.items[pointer - 1].text + a.items[pointer].text)];
    a.Splice(pointer, 1, []);
    assert a.items == front' + back;
    EmptyEnds(front');
  }

  /** An equality ends the run before it: merge the run, or join the equality to the one before, or pass on. */
  method MeetEqual(a: DiffList, pointer: nat, countDelete: nat, countInsert: nat, textDelete: Text, textInsert: Text,
                   ghost was: seq<Diff>, ghost front: seq<Diff>, ghost run: seq<Diff>, ghost d: Diff,
                     ghost back: seq<Diff>)
    returns (next: nat, ghost front': seq<Diff>)
    requires Reached(a.items, was, front, run, [d] + back) && d.op == Equal && pointer == |front| + |run|
    requires Gathered(run, countDelete, countInsert, textDelete, textInsert)
    modifies a
    ensures Reached(a.items, was, front', [], back) && next == |front'|
  {
    assert a.items[pointer] == d;
    assert pointer != 0 ==> a.items[pointer - 1] == (front + run)[pointer - 1];
    assert back == [] ==> ([d] + back)[0] == Diff(Equal, []);
    assert back != [] ==> back[|back| - 1] == ([d] + back)[|back|];
    if countDelete + countInsert > 1 {
      next := MergeRun(a, pointer, countDelete, countInsert, textDelete, textInsert, front, run, d.text, back);
      front' := a.items[..next];
      assert a.items == front' + [] + back;
    } else if pointer != 0 && a.items[pointer - 1].op == Equal {
      assert run == [];
      front' := JoinEqual(a, pointer, was, front, d, back);
      next := pointer;
    } else {
      NextEqual(front, run, d);
      next := pointer + 1;
      front' := front + run + [d];
      assert a.items == front' + [] + back;
    }
  }

  /** The first pass: merge every run of edits, and equalities that meet. */
  method MergeRuns(a: DiffList)
    modifies a
    ensures SameTexts(a.items, old(a.items)) && RunsMerged(a.items) && NoLarger(a.items, old(a.items))
  {
    hide Fits;
    a.items := a.items + [Diff(Equal, [])];
    ghost var was := a.items;
    SentinelAdds(old(a.items));
    var pointer, countDelete, countInsert := 0, 0, 0;
    var textDelete, textInsert: Text := [], [];
    ghost var front: seq<Diff>, run: seq<Diff>, rest := [], [], a.items;
    while pointer < |a.items|
      invariant pointer == |front| + |run|
      invariant Reached(a.items, was, front, run, rest)
      invariant Gathered(run, countDelete, countInsert, textDelete, textInsert)
      decreases |rest|
    {
      ghost var d, back := rest[0], rest[1..];
      assert rest == [d] + back;
      assert a.items[pointer] == d;
      match a.items[pointer].op {
        case Insert =>
          GatherOne(run, d, countDelete, countInsert, textDelete, textInsert);
          countInsert := countInsert + 1;
          textInsert := textInsert + a.items[pointer].text;
          pointer := pointer + 1;
          GatheredOne(front, run, d, back);
          run, rest := run + [d], back;
        case Delete =>
          GatherOne(run, d, countDelete, countInsert, textDelete, textInsert);
          countDelete := countDelete + 1;
          textDelete := textDelete + a.items[pointer].text;
          pointer := pointer + 1;
          GatheredOne(front, run, d, back);
          run, rest := run + [d], back;
        case Equal =>
          pointer, front := MeetEqual(a, pointer, countDelete, countInsert, textDelete, textInsert, was, front, run, d,
            back);
          run, rest := [], back;
          countDelete, countInsert := 0, 0;
          textDelete, textInsert := [], [];
      }
    }
    DropSentinel(a);
  }

  /** The last entry, an equality, goes if it is empty. */
  method DropSentinel(a: DiffList)
    requires a.items != [] && EndsInEqual(a.items) && RunsMerged(a.items)
    modifies a
    ensures SameTexts(a.items, old(a.items)) && RunsMerged(a.items) && NoLarger(a.items, old(a.items))
    ensures EditChars(a.items) == EditChars(old(a.items))
    ensures (old(a.items)[|old(a.items)| - 1].text == [] ==> |a.items| < |old(a.items)|)
  {
    if a.items[|a.items| - 1].text == [] {
      SentinelAdds(a.items[..|a.items| - 1]);
      assert a.items == a.items[..|a.items| - 1] + [Diff(Equal, [])];
      a.items := a.items[..|a.items| - 1];
    }
  }

  lemma GatheredOne(front: seq<Diff>, run: seq<Diff>, d: Diff, back: seq<Diff>)
    ensures front + run + ([d] + back) == front + (run + [d]) + back
  {
  }

  lemma SentinelAdds(ds: seq<Diff>)
    ensures SameTexts(ds + [Diff(Equal, [])], ds) && EditChars(ds + [Diff(Equal, [])]) == EditChars(ds)
  {
    TextConcat(ds, [Diff(Equal, [])], Insert);
    TextConcat(ds, [Diff(Equal, [])], Delete);
    EditCharsConcat(ds, [Diff(Equal, [])]);
  }

  /** An edit that ends with the equality before it can take that equality's place. */
  lemma SlideLeftTexts(p: Text, op: Op, q: Text, n: Text)
    ensures SameTexts([Diff(Equal, p), Diff(op, q + p), Diff(Equal, n)], [Diff(op, p + q), Diff(Equal, p + n)])
    ensures EditChars([Diff(Equal, p), Diff(op, q + p), Diff(Equal, n)]) ==
      EditChars([Diff(op, p + q), Diff(Equal, p + n)])
  {
    SlideLeftText(p, op, q, n, Insert);
    SlideLeftText(p, op, q, n, Delete);
    EditCharsOfThree(Diff(Equal, p), Diff(op, q + p), Diff(Equal, n));
    EditCharsOfThree(Diff(op, p + q), Diff(Equal, p + n), Diff(Equal, n));
  }

  lemma SlideLeftText(p: Text, op: Op, q: Text, n: Text, without: Op)
    requires without != Equal
    ensures TextOf([Diff(Equal, p), Diff(op, q + p), Diff(Equal, n)], without) ==
      TextOf([Diff(op, p + q), Diff(Equal, p + n)], without)
  {
    TextOfThree(Diff(Equal, p), Diff(op, q + p), Diff(Equal, n), without);
    TextOfThree(Diff(op, p + q), Diff(Equal, p + n), Diff(Equal, n), without);
    RegroupFour(p, q, p, n);
  }

  lemma RegroupFour<T>(a: seq<T>, b: seq<T>, c: seq<T>, d: seq<T>)
    ensures a + (b + c) + d == (a + b) + (c + d)
    ensures a + [] + d == [] + (a + d) == (a + d) + [] == a + d
  {
  }

  /** An edit that begins with the equality after it can make way for that equality. */
  lemma SlideRightTexts(p: Text, op: Op, q: Text, n: Text)
    ensures SameTexts([Diff(Equal, p), Diff(op, n + q), Diff(Equal, n)], [Diff(Equal, p + n), Diff(op, q + n)])
    ensures EditChars([Diff(Equal, p), Diff(op, n + q), Diff(Equal, n)]) ==
      EditChars([Diff(Equal, p + n), Diff(op, q + n)])
  {
    SlideRightText(p, op, q, n, Insert);
    SlideRightText(p, op, q, n, Delete);
    EditCharsOfThree(Diff(Equal, p), Diff(op, n + q), Diff(Equal, n));
    EditCharsOfThree(Diff(Equal, p + n), Diff(op, q + n), Diff(Equal, n));
  }

  lemma SlideRightText(p: Text, op: Op, q: Text, n: Text, without: Op)
    requires without != Equal
    ensures TextOf([Diff(Equal, p), Diff(op, n + q), Diff(Equal, n)], without) ==
      TextOf([Diff(Equal, p + n), Diff(op, q + n)], without)
  {
    TextOfThree(Diff(Equal, p), Diff(op, n + q), Diff(Equal, n), without);
    TextOfThree(Diff(Equal, p + n), Diff(op, q + n), Diff(Equal, n), without);
    RegroupFour(p, n, q, n);
  }

  /** Dissolve an equality next to the edit at `b` if the edit can be slid over it. */
  method SlideOne(a: DiffList, b: nat) returns (slid: bool)
    requires 0 < b < |a.items| - 1 && a.items[b - 1].op == Equal && a.items[b + 1].op == Equal
    modifies a
    ensures SameTexts(a.items, old(a.items)) && EditChars(a.items) == EditChars(old(a.items))
    ensures slid ==> |a.items| == |old(a.items)| - 1
    ensures !slid ==> a.items == old(a.items) && CannotSlide(a.items, b)
  {
    var p, t, n := a.items[b - 1].text, a.items[b].text, a.items[b + 1].text;
    ghost var op := a.items[b].op;
    ghost var front, back := a.items[..b - 1], a.items[b + 2..];
    ghost var was := a.items;
    assert was == front + [Diff(Equal, p), Diff(op, t), Diff(Equal, n)] + back;
    if SubstringFrom(t, |t| - |p|) == p {
      ghost var q := t[..|t| - |p|];
      assert t == q + p;
      a.items := a.items[b := Diff(a.items[b].op, p + Substring(t, 0, |t| - |p|))];
      a.items := a.items[b + 1 := Diff(Equal, p + n)];
      a.Splice(b - 1, 1, []);
      assert a.items == front + [Diff(op, p + q), Diff(Equal, p + n)] + back;
      SlideLeftTexts(p, op, q, n);
      Replaced(front, [Diff(Equal, p), Diff(op, t), Diff(Equal, n)], [Diff(op, p + q), Diff(Equal, p + n)], back);
      slid := true;
    } else if Substring(t, 0, |n|) == n {
      ghost var q := t[|n|..];
      assert t == n + q;
      a.items := a.items[b - 1 := Diff(Equal, p + n)];
      a.items := a.items[b := Diff(a.items[b].op, SubstringFrom(t, |n|) + n)];
      a.Splice(b + 1, 1, []);
      assert a.items == front + [Diff(Equal, p + n), Diff(op, q + n)] + back;
      SlideRightTexts(p, op, q, n);
      Replaced(front, [Diff(Equal, p), Diff(op, t), Diff(Equal, n)], [Diff(Equal, p + n), Diff(op, q + n)], back);
      slid := true;
    } else {
      slid := false;
    }
  }

  lemma Replaced(front: seq<Diff>, mid: seq<Diff>, mid': seq<Diff>, back: seq<Diff>)
    requires SameTexts(mid, mid') && EditChars(mid) == EditChars(mid')
    ensures SameTexts(front + mid' + back, front + mid + back)
    ensures EditChars(front + mid' + back) == EditChars(front + mid + back)
  {
    SplicedTexts(front, mid, mid', back);
    SplicedEditChars(front, mid, back);
    SplicedEditChars(front, mid', back);
  }

  /** The second pass: slide single edits sideways over the equalities next to them. */
  method SlideEdits(a: DiffList) returns (changes: bool)
    modifies a
    ensures SameTexts(a.items, old(a.items)) && EditChars(a.items) == EditChars(old(a.items))
    ensures changes ==> |a.items| < |old(a.items)|
    ensures !changes ==> a.items == old(a.items) && Settled(a.items)
  {
    changes := false;
    var pointer := 1;
    while pointer < |a.items| - 1
      invariant pointer > 0
      invariant SameTexts(a.items, old(a.items)) && EditChars(a.items) == EditChars(old(a.items))
      invariant changes ==> |a.items| < |old(a.items)|
      invariant !changes ==> a.items == old(a.items) && forall i :: 0 < i < pointer && i < |a.items| - 1 ==>
        CannotSlide(a.items, i)
      decreases |a.items| - pointer
    {
      if a.items[pointer - 1].op == Equal && a.items[pointer + 1].op == Equal {
        var slid := SlideOne(a, pointer);
        changes := changes || slid;
      }
      pointer := pointer + 1;
    }
  }

  /** Merge runs and slide edits until nothing can be slid. */
  method CleanupMerge(a: DiffList)
    modifies a
    ensures SameTexts(a.items, old(a.items))
    ensures RunsMerged(a.items) && Settled(a.items)
    ensures NoLarger(a.items, old(a.items))
    decreases EditChars(a.items), |a.items|
  {
    MergeRuns(a);
    var changes := SlideEdits(a);
    if changes {
      CleanupMerge(a);
    }
  }
}
