/**
 The diff itself: common ends are cut off, and what is left is diffed by containment, by halves,
 by lines or by bisection, each of which diffs smaller texts in turn.
 Whatever the way taken and whenever the deadline passes, the diff must read as the first text
 without its insertions and as the second without its deletions.
 */
module DiffMain {
  import opened Wrappers
  import opened DiffText
  import opened Diffs
  import opened DiffMerge
  import opened DiffDistance
  import opened DiffShortest
  import opened DiffLossless
  import opened DiffBisect
  import opened DiffLines
  import opened DiffHalf
  import opened DiffLoss

  /** The diff leads from `a` to `b`. */
  predicate Leads(ds: seq<Diff>, a: Text, b: Text) {
    Text1(ds) == a && Text2(ds) == b
  }

  // ---------- putting diffs together ----------

  lemma LeadsConcat(ds: seq<Diff>, es: seq<Diff>, a: Text, b: Text, c: Text, d: Text)
    requires Leads(ds, a, b) && Leads(es, c, d)
    ensures Leads(ds + es, a + c, b + d)
  {
    TextConcat(ds, es, Insert);
    TextConcat(ds, es, Delete);
  }

  lemma LeadsOne(d: Diff)
    ensures Leads([d], Own(d, Insert), Own(d, Delete))
  {
    TextOfOne(d, Insert);
    TextOfOne(d, Delete);
  }

  /** A diff with an equality before it and after it, if they are not empty. */
  function Framed(prefix: Text, ds: seq<Diff>, suffix: Text): seq<Diff> {
    (if prefix == [] then [] else [Diff(Equal, prefix)]) + ds + (if suffix == [] then [] else [Diff(Equal, suffix)])
  }

  lemma FramedText(prefix: Text, ds: seq<Diff>, suffix: Text, without: Op)
    requires without != Equal
    ensures TextOf(Framed(prefix, ds, suffix), without) == prefix + TextOf(ds, without) + suffix
  {
    var front := if prefix == [] then [] else [Diff(Equal, prefix)];
    var back := if suffix == [] then [] else [Diff(Equal, suffix)];
    TextOfOne(Diff(Equal, prefix), without);
    TextOfOne(Diff(Equal, suffix), without);
    assert TextOf(front, without) == prefix && TextOf(back, without) == suffix;
    TextConcat(front, ds, without);
    TextConcat(front + ds, back, without);
  }

  /** The framed diff leads from one whole text to the other exactly if the diff in the frame leads from what is left of
      them, and what that one has lost the frame does not make up for. */
  lemma {:induction false} FramedLeads(prefix: Text, ds: seq<Diff>, suffix: Text, a: Text, b: Text)
    requires Telling(ds, a, b)
    ensures var whole := Framed(prefix, ds, suffix);
      && (Leads(whole, prefix + a + suffix, prefix + b + suffix) <==> Leads(ds, a, b))
      && Telling(whole, prefix + a + suffix, prefix + b + suffix)
  {
    hide Regains;
    FramedText(prefix, ds, suffix, Insert);
    FramedText(prefix, ds, suffix, Delete);
    MiddleOf(prefix, Text1(ds), a, suffix);
    MiddleOf(prefix, Text2(ds), b, suffix);
    FrameRegains(prefix, Text1(ds), suffix, a);
    if Text1(ds) == a {
      FrameRegains(prefix, Text2(ds), suffix, b);
    }
  }

  lemma MiddleOf(prefix: Text, x: Text, y: Text, suffix: Text)
    ensures prefix + x + suffix == prefix + y + suffix <==> x == y
  {
    if prefix + x + suffix == prefix + y + suffix {
      assert |x| == |y|;
      assert x == (prefix + x + suffix)[|prefix|..|prefix| + |x|];
      assert y == (prefix + y + suffix)[|prefix|..|prefix| + |y|];
    }
  }

  // ---------- one text within the other ----------

  /** The shorter text is found in the longer: what surrounds it is inserted or deleted. */
  lemma ContainedLeads(x: Text, short: Text, z: Text, op: Op)
    requires op != Equal
    ensures var ds := [Diff(op, x), Diff(Equal, short), Diff(op, z)];
      if op == Insert then Leads(ds, short, x + short + z) else Leads(ds, x + short + z, short)
  {
    TextOfThree(Diff(op, x), Diff(Equal, short), Diff(op, z), Insert);
    TextOfThree(Diff(op, x), Diff(Equal, short), Diff(op, z), Delete);
    EmptyEnds(short);
  }

  lemma MatchSplits(long: Text, short: Text, at: nat)
    requires MatchesAt(long, short, at)
    ensures long == Substring(long, 0, at) + short + SubstringFrom(long, at + |short|)
  {
  }

  /** What surrounds the shorter text is all that has to be inserted or deleted. */
  lemma {:induction false} ContainedIsShortest(x: Text, short: Text, z: Text, op: Op)
    requires op != Equal
    ensures var ds := [Diff(op, x), Diff(Equal, short), Diff(op, z)]; var long := x + short + z;
      EditChars(ds) == Distance(long, short) == Distance(short, long)
  {
    var ds, long := [Diff(op, x), Diff(Equal, short), Diff(op, z)], x + short + z;
    EditCharsOfThree(Diff(op, x), Diff(Equal, short), Diff(op, z));
    ContainedLeads(x, short, z, op);
    NoDiffShorter(ds);
    Symmetric(long, short, |long|, |short|);
    LengthsApart(long, short);
  }

  /** A single unit that is not found in the longer text makes replacing all of it the shortest way. */
  lemma {:induction false} SingleUnitApart(long: Text, short: Text, a: Text, b: Text)
    requires |short| == 1 && IndexOf(long, short, 0) == -1 && ((a == long && b == short) || (a == short && b == long))
    ensures Distance(a, b) == |a| + |b|
  {
    hide Distance;
    forall j | 0 <= j < |long| ensures long[j] != short[0] {
      assert !MatchesAt(long, short, j);
    }
    OneUnitApart(a, b);
  }

  lemma ReplacedLeads(a: Text, b: Text)
    ensures Leads([Diff(Delete, a), Diff(Insert, b)], a, b)
    ensures EditChars([Diff(Delete, a), Diff(Insert, b)]) == |a| + |b|
  {
    TextOfThree(Diff(Delete, a), Diff(Insert, b), Diff(Equal, []), Insert);
    TextOfThree(Diff(Delete, a), Diff(Insert, b), Diff(Equal, []), Delete);
    assert a + [] == a && [] + b == b;
    EditCharsConcat([Diff(Delete, a)], [Diff(Insert, b)]);
  }

  // ---------- the semantic clean-up comes to an end on decoded lines ----------

  lemma {:induction false} UnitsInText(ds: seq<Diff>, i: nat, c: CodeUnit)
    requires i < |ds| && c in ds[i].text
    ensures c in Text1(ds) || c in Text2(ds)
  {
    if i > 0 {
      UnitsInText(ds[1..], i - 1, c);
    }
  }

  lemma DecodedNotEmpty(chars: Text, lineArray: seq<Text>)
    requires chars != [] && LineOf(lineArray, chars[0]) != []
    ensures Decode(chars, lineArray) != []
  {
  }

  lemma EncodedUnits(s: Text, chars: Text, lineArray: seq<Text>, lineHash: map<Text, nat>)
    requires Numbered(lineArray, lineHash) && Encodes(chars, Lines(s), lineHash) && |lineArray| <= UNITS
    requires forall l :: l in lineHash ==> l != []
    ensures forall c :: c in chars ==> LineOf(lineArray, c) != []
  {
    forall c | c in chars
      ensures LineOf(lineArray, c) != []
    {
      var i :| 0 <= i < |chars| && chars[i] == c;
      assert Lines(s)[i] in lineHash;
    }
  }

  lemma DecodedNoHang(ds: seq<Diff>, lineArray: seq<Text>)
    requires NoHang(ds)
    requires forall c :: c in Text1(ds) || c in Text2(ds) ==> LineOf(lineArray, c) != []
    ensures NoHang(DecodedDiffs(ds, lineArray))
  {
    var es := DecodedDiffs(ds, lineArray);
    forall k | 0 <= k && Between(es, k)
      ensures es[k].text != [] || es[k + 1].text != []
    {
      assert Between(ds, k);
      DecodedEntryNotEmpty(ds, lineArray, k);
      DecodedEntryNotEmpty(ds, lineArray, k + 1);
    }
  }

  lemma DecodedEntryNotEmpty(ds: seq<Diff>, lineArray: seq<Text>, i: nat)
    requires i < |ds| && forall c :: c in Text1(ds) || c in Text2(ds) ==> LineOf(lineArray, c) != []
    ensures ds[i].text != [] ==> DecodedDiffs(ds, lineArray)[i].text != []
  {
    if ds[i].text != [] {
      UnitsInText(ds, i, ds[i].text[0]);
      DecodedNotEmpty(ds[i].text, lineArray);
    }
  }

  // ---------- the diff ----------

  /** A diff is made, or the semantic clean-up never comes to an end, or a line has taken the place of a method. */
  datatype Outcome = Done | Endless | TypeError

  /**
   The diff of two texts.  `checklines` asks for line mode where it applies; `halves` stands for a timeout being set,
   without which the search for a common half is not tried; `timed` tells whether there is a deadline that may pass.
   Without any of the three the diff is a shortest, and line mode applies only to texts of more than 100 units.
   */
  method DiffMain(a: Text, b: Text, checklines: bool, halves: bool, timed: bool)
    returns (ds: seq<Diff>, outcome: Outcome)
    ensures outcome == Done ==> RunsMerged(ds) && Settled(ds)
    ensures !checklines ==> outcome == Done && Leads(ds, a, b)
    ensures checklines ==> (outcome == Done && Leads(ds, a, b) <==> LosesNothing(a, b, halves))
    ensures !halves && !timed && (!checklines || |a| <= 100 || |b| <= 100) ==> EditChars(ds) == Distance(a, b)
    ensures outcome == Done ==> Telling(ds, a, b)
    decreases if checklines then 1 else 0, |a| + |b|, 3
  {
    if a == b {
      ds := if a == [] then [] else [Diff(Equal, a)];
      SameTextLeads(a, halves);
      LeadsTells(ds, a, b);
      SameIsNowhereApart(a);
      return ds, Done;
    }
    hide Distance, EditChars, Leads, LosesNothing, LosesNothingBetween, SameTexts, Telling;
    var prefix, a2, b2, suffix := CutEnds(a, b);
    var inner;
    inner, outcome := Compute(a2, b2, checklines, halves, timed);
    EndsCutFor(a, b, prefix, a2, b2, suffix, halves);
    if outcome != Done {
      return [], outcome;
    }
    var list := new DiffList(Framed(prefix, inner, suffix));
    FramedLeads(prefix, inner, suffix, a2, b2);
    CleanupMerge(list);
    ds := list.items;
    SameTextsLead(ds, Framed(prefix, inner, suffix), a, b);
    CutIsShortest(prefix, inner, suffix, a2, b2, ds, a, b);
  }

  /** A diff between the ends cut off, once merged, is a shortest if it was one of what was left. */
  lemma {:induction false} CutIsShortest(prefix: Text, inner: seq<Diff>, suffix: Text, a2: Text, b2: Text,
        ds: seq<Diff>, a: Text, b: Text)
    requires EndsCut(a, b, prefix, a2, b2, suffix) && NoLarger(ds, Framed(prefix, inner, suffix))
    ensures Leads(ds, a, b) && EditChars(inner) == Distance(a2, b2) ==> EditChars(ds) == Distance(a, b)
  {
    hide Distance, TextOf;
    FramedEditChars(prefix, inner, suffix);
    EndsAreFree(prefix, a2, b2, suffix);
    NoDiffShorter(ds);
  }

  lemma {:induction false} FramedEditChars(prefix: Text, ds: seq<Diff>, suffix: Text)
    ensures EditChars(Framed(prefix, ds, suffix)) == EditChars(ds)
  {
    var front := if prefix == [] then [] else [Diff(Equal, prefix)];
    var back := if suffix == [] then [] else [Diff(Equal, suffix)];
    SplicedEditChars(front, ds, back);
  }

  lemma {:induction false} SameTextsLead(ds: seq<Diff>, es: seq<Diff>, a: Text, b: Text)
    requires SameTexts(ds, es)
    ensures Leads(ds, a, b) <==> Leads(es, a, b)
    ensures Telling(ds, a, b) <==> Telling(es, a, b)
  {
  }

  lemma {:induction false} LeadsTells(ds: seq<Diff>, a: Text, b: Text)
    ensures Leads(ds, a, b) ==> Telling(ds, a, b)
  {
  }

  lemma {:induction false} SameTextLeads(a: Text, halves: bool)
    ensures Leads([Diff(Equal, a)], a, a) && Leads([], [], []) && LosesNothing(a, a, halves)
  {
    LeadsOne(Diff(Equal, a));
    assert Ends(a, a, |a|, 0);
    BetweenTheEnds(a, a, |a|, 0, halves);
  }

  /** What cutting off the common ends leaves. */
  ghost predicate EndsCut(a: Text, b: Text, prefix: Text, a2: Text, b2: Text, suffix: Text) {
    && a == prefix + a2 + suffix && b == prefix + b2 + suffix && NothingShared(a2, b2) && |a2| <= |a| && |b2| <= |b|
    && exists n, m :: Ends(a, b, n, m) && a2 == Middle(a, n, m) && b2 == Middle(b, n, m)
  }

  lemma {:induction false} EndsCutFor(a: Text, b: Text, prefix: Text, a2: Text, b2: Text, suffix: Text, halves: bool)
    requires EndsCut(a, b, prefix, a2, b2, suffix)
    ensures LosesNothing(a, b, halves) <==> LosesNothingBetween(a2, b2, halves)
  {
    var n, m :| Ends(a, b, n, m) && a2 == Middle(a, n, m) && b2 == Middle(b, n, m);
    BetweenTheEnds(a, b, n, m, halves);
  }

  lemma EndsAreCut(a: Text, b: Text, n: nat, m: nat)
    requires Ends(a, b, n, m)
    ensures EndsCut(a, b, a[..n], Middle(a, n, m), Middle(b, n, m), a[|a| - m..])
  {
    MiddleRejoined(a, b, n, m);
    NothingSharedBetween(a, b, n, m);
  }

  lemma MiddleRejoined(a: Text, b: Text, n: nat, m: nat)
    requires Ends(a, b, n, m)
    ensures a == a[..n] + Middle(a, n, m) + a[|a| - m..] && b == a[..n] + Middle(b, n, m) + a[|a| - m..]
  {
    RejoinedAt(a, n, m);
    RejoinedAt(b, n, m);
    EndWithin(a, n, m);
    EndWithin(b, n, m);
  }

  lemma RejoinedAt(a: Text, n: nat, m: nat)
    requires n + m <= |a|
    ensures a == a[..n] + Middle(a, n, m) + a[|a| - m..]
  {
  }

  lemma EndWithin(a: Text, n: nat, m: nat)
    requires n + m <= |a|
    ensures a[n..][|a[n..]| - m..] == a[|a| - m..]
  {
  }

  lemma NothingSharedBetween(a: Text, b: Text, n: nat, m: nat)
    requires Ends(a, b, n, m)
    ensures NothingShared(Middle(a, n, m), Middle(b, n, m))
  {
    var x, y := Middle(a, n, m), Middle(b, n, m);
    assert x[..0] == y[..0] && x[|x|..] == y[|y|..];
  }

  lemma CutTwice(a: Text, n: nat, m: nat)
    requires n + m <= |a|
    ensures Substring(SubstringFrom(a, n), 0, |a| - n - m) == Middle(a, n, m)
    ensures SubstringFrom(SubstringFrom(a, n), |a| - n - m) == a[|a| - m..]
  {
    EndWithin(a, n, m);
  }

  lemma EndsAreCutAs(a: Text, b: Text, n: nat, m: nat, prefix: Text, a2: Text, b2: Text, suffix: Text)
    requires Ends(a, b, n, m) && prefix == Substring(a, 0, n)
    requires suffix == SubstringFrom(SubstringFrom(a, n), |a| - n - m)
    requires a2 == Substring(SubstringFrom(a, n), 0, |a| - n - m)
    requires b2 == Substring(SubstringFrom(b, n), 0, |b| - n - m)
    ensures EndsCut(a, b, prefix, a2, b2, suffix)
  {
    CutTwice(a, n, m);
    CutTwice(b, n, m);
    assert prefix == a[..n];
    EndsAreCut(a, b, n, m);
  }

  /** The lengths of the common beginning and, in what is left, of the common end. */
  method CommonEnds(a: Text, b: Text) returns (n: nat, m: nat)
    ensures Ends(a, b, n, m)
  {
    n := CommonPrefix(a, b);
    m := CommonSuffix(SubstringFrom(a, n), SubstringFrom(b, n));
  }

  /** Cut off the common beginning, then the common end of what is left. */
  method CutEnds(a: Text, b: Text) returns (prefix: Text, a2: Text, b2: Text, suffix: Text)
    ensures EndsCut(a, b, prefix, a2, b2, suffix)
  {
    var n, m := CommonEnds(a, b);
    prefix := Substring(a, 0, n);
    var a1, b1 := SubstringFrom(a, n), SubstringFrom(b, n);
    suffix, a2, b2 := SubstringFrom(a1, |a1| - m), Substring(a1, 0, |a1| - m), Substring(b1, 0, |b1| - m);
    EndsAreCutAs(a, b, n, m, prefix, a2, b2, suffix);
  }

  /** The diff of what is before the common half, that half, and the diff of what is behind it. */
  ghost predicate AroundHalf(ds: seq<Diff>, half: Half) {
    exists front, back :: ds == front + [Diff(Equal, half.common)] + back
      && Leads(front, half.longPrefix, half.shortPrefix) && Leads(back, half.longSuffix, half.shortSuffix)
  }

  /** One text in place of the other if they have nothing in common, or the diffs of the parts on either side of a point
      on a shortest way. */
  ghost predicate SplitOnShortest(ds: seq<Diff>, a: Text, b: Text) {
    || (ds == [Diff(Delete, a), Diff(Insert, b)] && Distance(a, b) == |a| + |b|)
    || exists x, y, front, back :: SplitsInto(ds, a, b, x, y, front, back)
  }

  ghost predicate SplitsInto(ds: seq<Diff>, a: Text, b: Text, x: int, y: int, front: seq<Diff>, back: seq<Diff>) {
    && SplitsAt(a, b, x, y) && ds == front + back
    && Leads(front, a[..x], b[..y]) && Leads(back, a[x..], b[y..])
    && Distance(a[..x], b[..y]) + Distance(a[x..], b[y..]) == Distance(a, b)
  }

  /** The diff of two texts that share neither a beginning nor an end. */
  method Compute(a: Text, b: Text, checklines: bool, halves: bool, timed: bool)
    returns (ds: seq<Diff>, outcome: Outcome)
    requires NothingShared(a, b)
    ensures !checklines ==> outcome == Done && Leads(ds, a, b)
    ensures checklines ==> (outcome == Done && Leads(ds, a, b) <==> LosesNothingBetween(a, b, halves))
    ensures !halves && !timed && (!checklines || |a| <= 100 || |b| <= 100) ==> EditChars(ds) == Distance(a, b)
    ensures outcome == Done ==> Telling(ds, a, b)
    ensures !checklines && WayOf(a, b, halves).Halved? ==> AroundHalf(ds, WayOf(a, b, halves).half)
    decreases if checklines then 1 else 0, |a| + |b|, 2
  {
    hide Distance, EditChars, Leads, Telling, HalfOf, NothingShared, Lines, LineSet;
    if a == [] {
      InsertedLeads(b);
      ds := [Diff(Insert, b)];
      LeadsTells(ds, a, b);
      return ds, Done;
    }
    if b == [] {
      DeletedLeads(a);
      ds := [Diff(Delete, a)];
      LeadsTells(ds, a, b);
      return ds, Done;
    }
    var long, short := if |a| > |b| then a else b, if |a| > |b| then b else a;
    var g := IndexOf(long, short, 0);
    if g != -1 {
      var op := if |a| > |b| then Delete else Insert;
      MatchSplits(long, short, g);
      ContainedLeads(Substring(long, 0, g), short, SubstringFrom(long, g + |short|), op);
      ds := [Diff(op, Substring(long, 0, g)), Diff(Equal, short), Diff(op, SubstringFrom(long, g + |short|))];
      LeadsTells(ds, a, b);
      ContainedIsShortest(Substring(long, 0, g), short, SubstringFrom(long, g + |short|), op);
      return ds, Done;
    }
    if |short| == 1 {
      ReplacedLeads(a, b);
      SingleUnitApart(long, short, a, b);
      ds := [Diff(Delete, a), Diff(Insert, b)];
      LeadsTells(ds, a, b);
      return ds, Done;
    }
    var half := None;
    if halves {
      half := HalfMatch(a, b);
    }
    if half.Some? {
      assert WayOf(a, b, halves) == Halved(half.value);
      ds, outcome := DiffHalves(half.value, a, b, checklines, halves, timed);
    } else if checklines && |a| > 100 && |b| > 100 {
      assert WayOf(a, b, halves) == ByLine;
      ds, outcome := LineMode(a, b, halves, timed);
    } else {
      ds := Bisect(a, b, halves, timed);
      outcome := Done;
      LeadsTells(ds, a, b);
    }
  }

  lemma {:induction false} InsertedLeads(b: Text)
    ensures Leads([Diff(Insert, b)], [], b) && EditChars([Diff(Insert, b)]) == Distance([], b)
  {
    LeadsOne(Diff(Insert, b));
    LengthsApart([], b);
  }

  lemma {:induction false} DeletedLeads(a: Text)
    ensures Leads([Diff(Delete, a)], a, []) && EditChars([Diff(Delete, a)]) == Distance(a, [])
  {
    LeadsOne(Diff(Delete, a));
    LengthsApart(a, []);
  }

  /** The diffs of what comes before a common stretch and of what comes after it. */
  method DiffHalves(half: Half, a: Text, b: Text, checklines: bool, halves: bool, timed: bool)
    returns (ds: seq<Diff>, outcome: Outcome)
    requires WayOf(a, b, halves) == Halved(half)
    ensures !checklines ==> outcome == Done && Leads(ds, a, b)
    ensures checklines ==> (outcome == Done && Leads(ds, a, b) <==> LosesNothingBetween(a, b, halves))
    ensures outcome == Done ==> Telling(ds, a, b)
    ensures !checklines ==> AroundHalf(ds, half)
    decreases if checklines then 1 else 0, |a| + |b|, 0
  {
    hide Leads, Telling, WayOf, Shares;
    HalvesAreSmaller(a, b, halves);
    var front, back;
    front, outcome := DiffMain(half.longPrefix, half.shortPrefix, checklines, halves, timed);
    if outcome != Done {
      return [], outcome;
    }
    back, outcome := DiffMain(half.longSuffix, half.shortSuffix, checklines, halves, timed);
    if outcome != Done {
      return [], outcome;
    }
    ds := front + [Diff(Equal, half.common)] + back;
    HalvesLead(half, a, b, front, back);
    assert !checklines ==> AroundHalf(ds, half);
  }

  /** The whole leads exactly if both diffs do, since what one has lost the other does not make up for. */
  lemma {:induction false} HalvesLead(half: Half, a: Text, b: Text, front: seq<Diff>, back: seq<Diff>)
    requires Shares(half, a, b)
    requires Telling(front, half.longPrefix, half.shortPrefix) && Telling(back, half.longSuffix, half.shortSuffix)
    ensures var ds := front + [Diff(Equal, half.common)] + back;
      && (Leads(ds, a, b) <==>
        Leads(front, half.longPrefix, half.shortPrefix) && Leads(back, half.longSuffix, half.shortSuffix))
      && Telling(ds, a, b)
  {
    hide Regains;
    TextAround(front, half.common, back, Insert);
    TextAround(front, half.common, back, Delete);
    PartsRegain(Text1(front), half.common, Text1(back), half.longPrefix, half.longSuffix);
    if Text1(front) == half.longPrefix && Text1(back) == half.longSuffix {
      PartsRegain(Text2(front), half.common, Text2(back), half.shortPrefix, half.shortSuffix);
    }
  }

  lemma {:induction false} TextAround(front: seq<Diff>, common: Text, back: seq<Diff>, without: Op)
    requires without != Equal
    ensures TextOf(front + [Diff(Equal, common)] + back, without) ==
      TextOf(front, without) + common + TextOf(back, without)
  {
    TextConcat(front, [Diff(Equal, common)], without);
    TextConcat(front + [Diff(Equal, common)], back, without);
    TextOfOne(Diff(Equal, common), without);
  }

  /** Split where the two fronts meet, or replace one text by the other if time has run out. */
  method Bisect(a: Text, b: Text, halves: bool, timed: bool) returns (ds: seq<Diff>)
    requires a != [] && b != [] && NothingShared(a, b)
    ensures Leads(ds, a, b)
    ensures !halves && !timed ==> EditChars(ds) == Distance(a, b)
    ensures !timed ==> SplitOnShortest(ds, a, b)
    decreases 0, |a| + |b|, 1
  {
    hide Distance, EditChars, Leads;
    var split := FindSplit(a, b, timed);
    if split.None? {
      ReplacedLeads(a, b);
      return [Diff(Delete, a), Diff(Insert, b)];
    }
    ghost var front, back;
    ds, front, back := BisectSplit(a, b, split.value.0, split.value.1, halves, timed);
    assert SplitsInto(ds, a, b, split.value.0, split.value.1, front, back);
  }

  /** The diffs of the parts before the split point and of the parts after it. */
  method BisectSplit(a: Text, b: Text, x: int, y: int, halves: bool, timed: bool)
    returns (ds: seq<Diff>, ghost front: seq<Diff>, ghost back: seq<Diff>)
    requires SplitsAt(a, b, x, y)
    ensures Leads(ds, a, b)
    ensures ds == front + back && Leads(front, a[..x], b[..y]) && Leads(back, a[x..], b[y..])
    ensures !halves && !timed ==>
      EditChars(ds) == Distance(a[..x], b[..y]) + Distance(a[x..], b[y..])
    decreases 0, |a| + |b|, 0
  {
    hide Distance, EditChars;
    var before, _ := DiffMain(Substring(a, 0, x), Substring(b, 0, y), false, halves, timed);
    var behind, _ := DiffMain(SubstringFrom(a, x), SubstringFrom(b, y), false, halves, timed);
    LeadsConcat(before, behind, a[..x], b[..y], a[x..], b[y..]);
    EditCharsConcat(before, behind);
    assert a == a[..x] + a[x..] && b == b[..y] + b[y..];
    return before + behind, before, behind;
  }

  // ---------- line mode ----------

  /** Diff line by line, then diff again whatever lines were replaced. */
  method LineMode(a: Text, b: Text, halves: bool, timed: bool) returns (ds: seq<Diff>, outcome: Outcome)
    requires a != [] && b != [] && NothingShared(a, b)
    ensures outcome == TypeError <==> HAS_OWN_PROPERTY in Lines(a)
    ensures outcome == Done ==> (Leads(ds, a, b) <==> |LineSet(a, b)| < UNITS)
    ensures |LineSet(a, b)| < UNITS ==> outcome != Endless
    ensures outcome == Done ==> Telling(ds, a, b)
    decreases 1, |a| + |b|, 1
  {
    hide Encodes, Grown, GrownBut, Listed, Numbered, SameTexts, NoHang, EndsFrom, Lines, Settled, RunsMerged,
      NothingShared, Telling;
    var table := new LineTable();
    var chars1 := table.Munge(a);
    ghost var firstArray, first := table.lineArray, table.lineHash;
    GrownUnlessTwice(map[], first, Lines(a));
    ProtoOnce(a, b, first);
    var chars2 := table.Munge(b);
    if chars2.Some? {
      GrownUnlessTwice(first, table.lineHash, Lines(b));
    }
    TableOfBoth(a, b, chars1.value, first, table.lineHash);
    if chars2.None? {
      return [], TypeError;
    }
    BothDecodedExactly(a, b, chars1.value, chars2.value, table.lineArray, table.lineHash);
    var lineDiffs, _ := DiffMain(chars1.value, chars2.value, false, halves, timed);
    var list := new DiffList(lineDiffs);
    CharsToLines(list, table.lineArray);
    DecodedComesToAnEnd(a, b, chars1.value, chars2.value, table.lineArray, table.lineHash, lineDiffs);
    ghost var decoded := list.items;
    DecodedTells(decoded, a, b, chars1.value, chars2.value, firstArray, first, table.lineArray, table.lineHash);
    var ok := CleanupSemantic(list);
    if !ok {
      return [], Endless;
    }
    ghost var clean := list.items;
    RediffRuns(list, halves, timed);
    SameTextsLead(list.items, clean, a, b);
    SameTextsLead(clean, decoded, a, b);
    return list.items, Done;
  }

  /** The decoded diff has fewer lines than a text that it has lost something of. */
  lemma {:induction false} DecodedTells(ds: seq<Diff>, a: Text, b: Text, charsA: Text, charsB: Text,
        firstArray: seq<Text>, first: map<Text, nat>, lineArray: seq<Text>, lineHash: map<Text, nat>)
    requires Numbered(firstArray, first) && Grown(map[], first, Lines(a))
    requires Numbered(lineArray, lineHash) && Grown(first, lineHash, Lines(b))
    requires Encodes(charsA, Lines(a), lineHash) && Encodes(charsB, Lines(b), lineHash)
    requires Leads(ds, Decode(charsA, lineArray), Decode(charsB, lineArray))
    ensures Telling(ds, a, b)
  {
    hide Regains, Lines, Encodes, Numbered, Grown;
    LossShows(a, b, charsA, charsB, firstArray, first, lineArray, lineHash);
    FewerLinesAreMissed(Text1(ds), a);
    if Text1(ds) == a {
      FewerLinesAreMissed(Text2(ds), b);
    }
  }

  /** Texts that end differently do not both have the line that is never found. */
  lemma {:induction false} ProtoOnce(a: Text, b: Text, first: map<Text, nat>)
    requires a != [] && b != [] && NothingShared(a, b) && Grown(map[], first, Lines(a))
    ensures PROTO in first ==> PROTO !in Lines(b)
  {
    EndsInProto(a);
    EndsInProto(b);
    hide IsCommonSuffix, Lines;
    LastUnitsDiffer(a, b);
  }

  lemma {:induction false} LastUnitsDiffer(a: Text, b: Text)
    requires a != [] && b != [] && NothingShared(a, b)
    ensures a[|a| - 1] != b[|b| - 1]
  {
  }

  lemma {:induction false} EndsInProto(a: Text)
    ensures PROTO in Lines(a) ==> a != [] && a[|a| - 1] == 95
  {
    if PROTO in Lines(a) {
      EndsInLine(a, PROTO);
      assert a[|a| - 1] == a[|a| - |PROTO|..][|PROTO| - 1];
    }
  }

  /** The table once the lines of both texts are entered. */
  lemma {:induction false} TableOfBoth(a: Text, b: Text, chars: Text, first: map<Text, nat>, after: map<Text, nat>)
    requires Grown(map[], first, Lines(a)) && Encodes(chars, Lines(a), first)
    ensures HAS_OWN_PROPERTY in first <==> HAS_OWN_PROPERTY in Lines(a)
    ensures Grown(first, after, Lines(b)) ==> after.Keys == LineSet(a, b) && Encodes(chars, Lines(a), after)
  {
    if Grown(first, after, Lines(b)) {
      EncodesMore(chars, Lines(a), first, after);
    }
  }

  /** With few enough lines, none of which is empty, the decoded diff leaves nothing empty that was not. */
  lemma {:induction false} DecodedComesToAnEnd(a: Text, b: Text, charsA: Text, charsB: Text, lineArray: seq<Text>,
        lineHash: map<Text, nat>, ds: seq<Diff>)
    requires Numbered(lineArray, lineHash) && lineHash.Keys == LineSet(a, b)
    requires Encodes(charsA, Lines(a), lineHash) && Encodes(charsB, Lines(b), lineHash)
    requires Leads(ds, charsA, charsB) && Settled(ds)
    ensures |LineSet(a, b)| < UNITS ==> NoHang(DecodedDiffs(ds, lineArray))
  {
    if |LineSet(a, b)| < UNITS {
      LinesArePieces(a);
      LinesArePieces(b);
      TableSize(lineArray, lineHash);
      EncodedUnits(a, charsA, lineArray, lineHash);
      EncodedUnits(b, charsB, lineArray, lineHash);
      SettledNoHang(ds);
      DecodedNoHang(ds, lineArray);
    }
  }

  lemma EncodesMore(chars: Text, ls: seq<Text>, before: map<Text, nat>, after: map<Text, nat>)
    requires Encodes(chars, ls, before) && forall l :: l in before ==> l in after && after[l] == before[l]
    ensures Encodes(chars, ls, after)
  {
  }

  /** In the midst of diffing runs again: `front` is done, `run` is gathered, `rest`, which ends with the sentinel, is
      still to be looked at. */
  ghost predicate Rediffing(items: seq<Diff>, was: seq<Diff>, front: seq<Diff>, run: seq<Diff>, rest: seq<Diff>) {
    && items == front + run + rest && SameTexts(items, was)
    && if rest == [] then run == [] && EndsInSentinel(front) else EndsInSentinel(rest)
  }

  ghost predicate EndsInSentinel(ds: seq<Diff>) {
    ds != [] && ds[|ds| - 1] == Diff(Equal, [])
  }

  lemma RediffBegins(ds: seq<Diff>)
    ensures Rediffing(ds + [Diff(Equal, [])], ds, [], [], ds + [Diff(Equal, [])])
  {
    SentinelAdds(ds);
  }

  lemma RediffGathers(items: seq<Diff>, was: seq<Diff>, front: seq<Diff>, run: seq<Diff>, d: Diff, back: seq<Diff>)
    requires Rediffing(items, was, front, run, [d] + back) && d.op != Equal
    ensures Rediffing(items, was, front, run + [d], back)
  {
    hide SameTexts;
    GatheredOne(front, run, d, back);
    SentinelBehind(d, back);
  }

  lemma RediffPasses(items: seq<Diff>, was: seq<Diff>, front: seq<Diff>, run: seq<Diff>, instead: seq<Diff>, d: Diff,
        back: seq<Diff>)
    requires Rediffing(items, was, front, run, [d] + back) && SameTexts(run, instead)
    ensures Rediffing(front + instead + ([d] + back), was, front + (instead + [d]), [], back)
  {
    SplicedTexts(front, run, instead, [d] + back);
    GatheredOne(front, instead, d, back);
    EmptyEnds(front + (instead + [d]));
    SentinelBehind(d, back);
  }

  lemma SentinelBehind(d: Diff, back: seq<Diff>)
    requires EndsInSentinel([d] + back)
    ensures if back == [] then d == Diff(Equal, []) else EndsInSentinel(back)
  {
  }

  lemma RediffEnds(items: seq<Diff>, was: seq<Diff>, front: seq<Diff>, run: seq<Diff>)
    requires Rediffing(items, was, front, run, [])
    ensures EndsInSentinel(items) && SameTexts(items[..|items| - 1], was)
  {
    assert items == front;
    assert items == items[..|items| - 1] + [Diff(Equal, [])];
    SentinelAdds(items[..|items| - 1]);
  }

  /** Every run with both deletions and insertions is replaced by a diff, unit by unit, of what it deletes and
      inserts; without half matches and deadline it then deletes and inserts no more than its texts are apart. */
  method RediffRuns(list: DiffList, halves: bool, timed: bool)
    modifies list
    ensures SameTexts(list.items, old(list.items))
    ensures !halves && !timed ==> EditChars(list.items) == RunsApart([], old(list.items))
    decreases 1, 0, 0
  {
    hide SameTexts, Gathered, EndsInSentinel, EditChars, Distance, RunsApart, AddsUp;
    list.items := list.items + [Diff(Equal, [])];
    RediffBegins(old(list.items));
    var pointer, deletes, inserts := 0, 0, 0;
    var textDelete, textInsert: Text := [], [];
    ghost var front: seq<Diff>, run: seq<Diff>, rest := [], [], list.items;
    ghost var shortest, total := !halves && !timed, RunsApart([], list.items);
    GatherNone();
    NoneAddsUp(shortest, list.items);
    while pointer < |list.items|
      invariant Rediffing(list.items, old(list.items), front, run, rest) && pointer == |front| + |run|
      invariant Gathered(run, deletes, inserts, textDelete, textInsert)
      invariant AddsUp(shortest, front, run, rest, total)
      decreases |rest|
    {
      ghost var d, back := rest[0], rest[1..];
      assert rest == [d] + back;
      assert list.items[pointer] == d;
      match list.items[pointer].op {
        case Insert =>
          GatherOne(run, d, deletes, inserts, textDelete, textInsert);
          RediffGathers(list.items, old(list.items), front, run, d, back);
          GatheringAddsUp(shortest, front, run, d, back, total);
          inserts, textInsert := inserts + 1, textInsert + list.items[pointer].text;
          run, rest := run + [d], back;
        case Delete =>
          GatherOne(run, d, deletes, inserts, textDelete, textInsert);
          RediffGathers(list.items, old(list.items), front, run, d, back);
          GatheringAddsUp(shortest, front, run, d, back, total);
          deletes, textDelete := deletes + 1, textDelete + list.items[pointer].text;
          run, rest := run + [d], back;
        case Equal =>
          ghost var instead := run;
          SameAsItself(run);
          OneKindRun(run, deletes, inserts, textDelete, textInsert);
          ghost var before := list.items;
          if deletes >= 1 && inserts >= 1 {
            pointer, instead := RediffRun(list, pointer, deletes, inserts, textDelete, textInsert, halves, timed, front,
              run, rest);
          }
          RediffPasses(before, old(list.items), front, run, instead, d, back);
          PassingAddsUp(shortest, front, run, instead, d, back, total);
          front, run, rest := front + (instead + [d]), [], back;
          deletes, inserts, textDelete, textInsert := 0, 0, [], [];
          GatherNone();
      }
      pointer := pointer + 1;
    }
    RediffEnds(list.items, old(list.items), front, run);
    SentinelLast(list.items);
    assert list.items == front;
    AddedUp(shortest, list.items, old(list.items));
    assert |list.items| == pointer > 0;
    list.items := list.items[..|list.items| - 1];
  }

  lemma SentinelLast(ds: seq<Diff>)
    requires EndsInSentinel(ds)
    ensures ds != [] && ds[|ds| - 1] == Diff(Equal, [])
  {
  }

  lemma NoneAddsUp(shortest: bool, ds: seq<Diff>)
    ensures AddsUp(shortest, [], [], ds, RunsApart([], ds))
  {
  }

  /** A gathered run is as short as can be if it does not both delete and insert. */
  lemma {:induction false} OneKindRun(run: seq<Diff>, deletes: nat, inserts: nat, textDelete: Text, textInsert: Text)
    requires Gathered(run, deletes, inserts, textDelete, textInsert)
    ensures deletes == 0 || inserts == 0 ==> EditChars(run) == Distance(Text1(run), Text2(run))
    ensures Text1(run) == textDelete && Text2(run) == textInsert
  {
    if deletes == 0 || inserts == 0 {
      OneKindIsShortest(textDelete, textInsert);
    }
  }

  lemma GatherNone()
    ensures Gathered([], 0, 0, [], [])
  {
  }

  lemma SameAsItself(ds: seq<Diff>)
    ensures SameTexts(ds, ds)
  {
  }

  /** One run, just before `pointer`, makes way for the diff of its texts. */
  method RediffRun(list: DiffList, pointer: nat, deletes: nat, inserts: nat, textDelete: Text, textInsert: Text,
        halves: bool, timed: bool,
      ghost front: seq<Diff>, ghost run: seq<Diff>, ghost rest: seq<Diff>) returns (next: nat, instead: seq<Diff>)
    requires list.items == front + run + rest && pointer == |front| + |run|
    requires Gathered(run, deletes, inserts, textDelete, textInsert)
    modifies list
    ensures list.items == front + instead + rest && next == |front| + |instead|
    ensures SameTexts(run, instead)
    ensures !halves && !timed ==> EditChars(instead) == Distance(textDelete, textInsert)
    decreases 0, |textDelete| + |textInsert|, 4
  {
    SplicedOut(front, run, rest);
    list.Splice(pointer - deletes - inserts, deletes + inserts, []);
    next := pointer - deletes - inserts;
    var remade, _ := DiffMain(textDelete, textInsert, false, halves, timed);
    instead := remade;
    InsertAll(list, next, instead, front, rest);
    next := next + |instead|;
  }

  lemma SplicedOut(front: seq<Diff>, run: seq<Diff>, rest: seq<Diff>)
    ensures (front + run + rest)[..|front|] == front && (front + run + rest)[|front| + |run|..] == rest
    ensures front + [] + rest == front + rest
  {
  }

  /** Splices diffs in one at a time, the last one first. */
  method InsertAll(list: DiffList, at: nat, ds: seq<Diff>, ghost front: seq<Diff>, ghost rest: seq<Diff>)
    requires list.items == front + rest && at == |front|
    modifies list
    ensures list.items == front + ds + rest
  {
    var e := |ds| - 1;
    EmptyEnds(front);
    while e >= 0
      invariant -1 <= e < |ds|
      invariant list.items == front + (ds[e + 1..] + rest)
    {
      assert list.items[..at] == front && list.items[at..] == ds[e + 1..] + rest;
      list.Splice(at, 0, [ds[e]]);
      assert ds[e..] == [ds[e]] + ds[e + 1..];
      Regroup([ds[e]], ds[e + 1..], rest);
      Regroup(front, [ds[e]], ds[e + 1..] + rest);
      e := e - 1;
    }
    assert ds[0..] == ds;
    Regroup(front, ds, rest);
  }
}
