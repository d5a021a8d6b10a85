/** Sliding single edits sideways to a word or line boundary, and the semantic clean-up that uses it. */
module DiffLossless {
  import opened DiffText
  import opened Diffs
  import opened DiffMerge
  import opened DiffCleanup

  // ---------- how good a boundary is ----------

  const LF: CodeUnit := 10
  const CR: CodeUnit := 13

  predicate IsAlphaNumeric(c: CodeUnit) {
    48 <= c <= 57 || 65 <= c <= 90 || 97 <= c <= 122
  }

  predicate IsWhitespace(c: CodeUnit) {
    || 9 <= c <= 13 || c == 32 || c == 0xA0 || c == 0x1680 || 0x2000 <= c <= 0x200A
    || c == 0x2028 || c == 0x2029 || c == 0x202F || c == 0x205F || c == 0x3000 || c == 0xFEFF
  }

  predicate IsLinebreak(c: CodeUnit) {
    c == LF || c == CR
  }

  predicate EndsInBlankLine(s: Text) {
    EndsWith(s, [LF, LF]) || EndsWith(s, [LF, CR, LF])
  }

  predicate StartsWithBlankLine(s: Text) {
    StartsWith(s, [LF, LF]) || StartsWith(s, [CR, LF, LF]) || StartsWith(s, [LF, CR, LF])
      || StartsWith(s, [CR, LF, CR, LF])
  }

  function BoundaryScore(one: Text, two: Text): nat {
    if one == [] || two == [] then 6
    else
      var char1, char2 := one[|one| - 1], two[0];
      var nonAlphaNumeric1, nonAlphaNumeric2 := !IsAlphaNumeric(char1), !IsAlphaNumeric(char2);
      var whitespace1, whitespace2 := nonAlphaNumeric1 && IsWhitespace(char1), nonAlphaNumeric2 && IsWhitespace(char2);
      var lineBreak1, lineBreak2 := whitespace1 && IsLinebreak(char1), whitespace2 && IsLinebreak(char2);
      var blankLine1, blankLine2 := lineBreak1 && EndsInBlankLine(one), lineBreak2 && StartsWithBlankLine(two);
      if blankLine1 || blankLine2 then 5
      else if lineBreak1 || lineBreak2 then 4
      else if nonAlphaNumeric1 && !whitespace1 && whitespace2 then 3
      else if whitespace1 || whitespace2 then 2
      else if nonAlphaNumeric1 || nonAlphaNumeric2 then 1
      else 0
  }

  /** The white space and the line terminators of ECMA-262 (sections 11.2 and 11.3 of its 8th edition). */
  const WHITESPACE: seq<int> := [9, 10, 11, 12, 13, 32, 0xA0, 0x1680, 0x2000, 0x2001, 0x2002, 0x2003, 0x2004, 0x2005,
    0x2006, 0x2007, 0x2008, 0x2009, 0x200A, 0x2028, 0x2029, 0x202F, 0x205F, 0x3000, 0xFEFF]

  lemma {:induction false} LettersAndDigits(c: CodeUnit)
    ensures IsAlphaNumeric(c) <==>
      '0' as int <= c <= '9' as int || 'A' as int <= c <= 'Z' as int || 'a' as int <= c <= 'z' as int
  {
  }

  lemma {:induction false} WhitespaceIs(c: CodeUnit)
    ensures IsWhitespace(c) <==> c in WHITESPACE
  {
    if IsWhitespace(c) {
      var i := if c <= 13 then c - 9 else if c == 32 then 5 else if c == 0xA0 then 6 else if c == 0x1680 then 7
        else if c <= 0x200A then c - 0x2000 + 8 else if c <= 0x2029 then c - 0x2028 + 19
        else if c == 0x202F then 21 else if c == 0x205F then 22 else if c == 0x3000 then 23 else 24;
      assert WHITESPACE[i] == c;
    }
  }

  /** What stands before a boundary ends in two line feeds, perhaps with a carriage return between them, or what
      stands behind it begins with two line ends. */
  predicate BlankLine(one: Text, two: Text) {
    var n := |one|;
    || (n >= 2 && one[n - 2] == 10 && one[n - 1] == 10)
    || (n >= 3 && one[n - 3] == 10 && one[n - 2] == 13 && one[n - 1] == 10)
    || (LineEndsAt(two, 0) > 0 && LineEndsAt(two, LineEndsAt(two, 0)) > LineEndsAt(two, 0))
  }

  /** Where the line end that begins at `i` ends, or `i` if none does. */
  function LineEndsAt(s: Text, i: nat): (j: nat)
    ensures j <= |s| || j == i
  {
    if i < |s| && s[i] == 10 then i + 1
    else if i + 1 < |s| && s[i] == 13 && s[i + 1] == 10 then i + 2
    else i
  }

  lemma {:induction false} BlankLineFound(one: Text, two: Text)
    ensures EndsInBlankLine(one) || StartsWithBlankLine(two) <==> BlankLine(one, two)
    ensures EndsInBlankLine(one) ==> one != [] && one[|one| - 1] == 10
    ensures StartsWithBlankLine(two) ==> two != [] && (two[0] == 10 || two[0] == 13)
  {
    EndsInTwo(one);
    EndsInThree(one);
    StartsWithEach(two);
  }

  lemma {:induction false} EndsInTwo(s: Text)
    ensures EndsWith(s, [LF, LF]) <==> |s| >= 2 && s[|s| - 2] == 10 && s[|s| - 1] == 10
  {
    if |s| >= 2 {
      assert s[|s| - 2..] == [s[|s| - 2], s[|s| - 1]];
    }
  }

  lemma {:induction false} EndsInThree(s: Text)
    ensures EndsWith(s, [LF, CR, LF]) <==> |s| >= 3 && s[|s| - 3] == 10 && s[|s| - 2] == 13 && s[|s| - 1] == 10
  {
    if |s| >= 3 {
      assert s[|s| - 3..] == [s[|s| - 3], s[|s| - 2], s[|s| - 1]];
    }
  }

  lemma {:induction false} StartsWithEach(s: Text)
    ensures StartsWith(s, [LF, LF]) <==> |s| >= 2 && s[0] == 10 && s[1] == 10
    ensures StartsWith(s, [CR, LF, LF]) <==> |s| >= 3 && s[0] == 13 && s[1] == 10 && s[2] == 10
    ensures StartsWith(s, [LF, CR, LF]) <==> |s| >= 3 && s[0] == 10 && s[1] == 13 && s[2] == 10
    ensures StartsWith(s, [CR, LF, CR, LF]) <==> |s| >= 4 && s[0] == 13 && s[1] == 10 && s[2] == 13 && s[3] == 10
  {
    if |s| >= 2 {
      assert s[..2] == [s[0], s[1]];
    }
    if |s| >= 3 {
      assert s[..3] == [s[0], s[1], s[2]];
    }
    if |s| >= 4 {
      assert s[..4] == [s[0], s[1], s[2], s[3]];
    }
  }

  /** The ladder: an end of the text, a blank line, a line break, the end of a sentence before whitespace, whitespace,
      another character that is no letter or digit, the midst of a word.  `c` and `d` meet at the boundary. */
  lemma {:induction false} Ladder(one: Text, two: Text)
    ensures BoundaryScore(one, two) <= 6 && (BoundaryScore(one, two) == 6 <==> one == [] || two == [])
    ensures one != [] && two != [] ==>
      var (c, d, score) := (one[|one| - 1], two[0], BoundaryScore(one, two));
      && (score == 5 <==> BlankLine(one, two))
      && (score >= 4 <==> c == 10 || c == 13 || d == 10 || d == 13)
      && (score >= 3 <==> score >= 4 || (!IsAlphaNumeric(c) && !IsWhitespace(c) && IsWhitespace(d)))
      && (score >= 2 <==> score >= 3 || IsWhitespace(c) || IsWhitespace(d))
      && (score >= 1 <==> score >= 2 || !IsAlphaNumeric(c) || !IsAlphaNumeric(d))
  {
    BlankLineFound(one, two);
    hide EndsInBlankLine, StartsWithBlankLine;
  }

  // ---------- the places an edit can be slid to ----------

  /** An edit between two equalities. */
  datatype Place = Place(equality1: Text, edit: Text, equality2: Text) {
    function Score(): nat {
      BoundaryScore(equality1, edit) + BoundaryScore(edit, equality2)
    }

    /** The same texts are read off both places. */
    ghost predicate Alike(other: Place) {
      && equality1 + edit + equality2 == other.equality1 + other.edit + other.equality2
      && equality1 + equality2 == other.equality1 + other.equality2
      && |edit| == |other.edit|
    }

    predicate CanStep() {
      edit != [] && equality2 != [] && edit[0] == equality2[0]
    }

    function Step(): Place
      requires CanStep()
    {
      Place(equality1 + [edit[0]], edit[1..] + [equality2[0]], equality2[1..])
    }
  }

  predicate CanStepTo(p: Place, n: nat)
    decreases n
  {
    n == 0 || (p.CanStep() && CanStepTo(p.Step(), n - 1))
  }

  /** The place `n` units to the right of `p`. */
  function At(p: Place, n: nat): Place
    requires CanStepTo(p, n)
    decreases n
  {
    if n == 0 then p else At(p.Step(), n - 1)
  }

  lemma StepAlike(p: Place)
    requires p.CanStep()
    ensures p.Step().Alike(p)
  {
    var c := [p.edit[0]];
    assert p.edit == c + p.edit[1..] && p.equality2 == c + p.equality2[1..];
    var q := p.Step();
    assert q.equality1 + q.edit + q.equality2 == p.equality1 + (c + p.edit[1..]) + (c + p.equality2[1..]);
    assert q.equality1 + q.equality2 == p.equality1 + (c + p.equality2[1..]);
  }

  lemma {:induction false} AtAlike(p: Place, n: nat)
    requires CanStepTo(p, n)
    ensures At(p, n).Alike(p)
    decreases n
  {
    if n > 0 {
      StepAlike(p);
      AtAlike(p.Step(), n - 1);
    }
  }

  lemma {:induction false} AtLengths(p: Place, n: nat)
    requires CanStepTo(p, n)
    ensures |At(p, n).equality1| == |p.equality1| + n
    ensures p.edit == [] ==> n == 0
    decreases n
  {
    if n > 0 {
      AtLengths(p.Step(), n - 1);
    }
  }

  lemma {:induction false} StepLast(p: Place, n: nat)
    requires CanStepTo(p, n)
    ensures CanStepTo(p, n + 1) <==> At(p, n).CanStep()
    ensures CanStepTo(p, n + 1) ==> At(p, n + 1) == At(p, n).Step()
    decreases n
  {
    if n > 0 {
      StepLast(p.Step(), n - 1);
    }
  }

  lemma {:induction false} StepsDownward(p: Place, n: nat, m: nat)
    requires CanStepTo(p, n) && m <= n
    ensures CanStepTo(p, m)
    decreases n
  {
    if m > 0 {
      StepsDownward(p.Step(), n - 1, m - 1);
    }
  }

  /** None of the first `n` places scores better than `best`, and none of those further right as well. */
  ghost predicate BestAmong(p: Place, n: nat, best: nat) {
    && best <= n && CanStepTo(p, best)
    && forall m: nat :: m <= n && CanStepTo(p, m) ==>
      At(p, m).Score() <= At(p, best).Score() && (m > best ==> At(p, m).Score() < At(p, best).Score())
  }

  /** No place to the right of `p` scores better than `best`, and none further right as well. */
  ghost predicate BestPlace(p: Place, best: nat) {
    && CanStepTo(p, best)
    && forall m: nat :: CanStepTo(p, m) ==>
      At(p, m).Score() <= At(p, best).Score() && (m > best ==> At(p, m).Score() < At(p, best).Score())
  }

  lemma BestOfMore(p: Place, n: nat, best: nat)
    requires BestAmong(p, n, best) && CanStepTo(p, n + 1)
    ensures BestAmong(p, n + 1, if At(p, n + 1).Score() >= At(p, best).Score() then n + 1 else best)
  {
  }

  lemma BestOfAll(p: Place, n: nat, best: nat)
    requires BestAmong(p, n, best) && CanStepTo(p, n) && !At(p, n).CanStep()
    ensures BestPlace(p, best)
  {
    forall m: nat | CanStepTo(p, m) ensures m <= n {
      NoneBeyond(p, n, m);
    }
  }

  lemma NoneBeyond(p: Place, n: nat, m: nat)
    requires CanStepTo(p, n) && !At(p, n).CanStep() && CanStepTo(p, m)
    ensures m <= n
  {
    StepLast(p, n);
    if m > n {
      StepsDownward(p, m, n + 1);
    }
  }

  lemma {:induction false} FirstPlace(start: Place)
    ensures CanStepTo(start, 0) && At(start, 0) == start && BestAmong(start, 0, 0)
  {
  }

  /** Both boundaries are within words. */
  predicate WithinWords(p: Place) {
    && p.equality1 != [] && p.edit != [] && p.equality2 != []
    && IsAlphaNumeric(p.equality1[|p.equality1| - 1]) && IsAlphaNumeric(p.edit[0])
    && IsAlphaNumeric(p.edit[|p.edit| - 1]) && IsAlphaNumeric(p.equality2[0])
  }

  predicate BesideWhitespace(one: Text, two: Text) {
    one != [] && two != [] && (IsWhitespace(one[|one| - 1]) || IsWhitespace(two[0]))
  }

  /** There is whitespace at both boundaries. */
  predicate BetweenWords(p: Place) {
    BesideWhitespace(p.equality1, p.edit) && BesideWhitespace(p.edit, p.equality2)
  }

  /** An edit that can be slid to where there is whitespace at both boundaries is not left in the midst of words. */
  lemma {:induction false} NotWithinWords(p: Place, best: nat, n: nat)
    requires BestPlace(p, best) && CanStepTo(p, best) && CanStepTo(p, n)
    requires BetweenWords(At(p, n))
    ensures !WithinWords(At(p, best))
  {
    var q, r := At(p, best), At(p, n);
    assert r.Score() <= q.Score();
    Ladder(q.equality1, q.edit);
    Ladder(q.edit, q.equality2);
    Ladder(r.equality1, r.edit);
    Ladder(r.edit, r.equality2);
    hide BoundaryScore, IsWhitespace, IsAlphaNumeric, At, CanStepTo;
    if WithinWords(q) {
      NoBreakBetween(q.equality1[|q.equality1| - 1]);
      NoBreakBetween(q.edit[0]);
      NoBreakBetween(q.edit[|q.edit| - 1]);
      NoBreakBetween(q.equality2[0]);
    }
  }

  lemma {:induction false} NoBreakBetween(c: CodeUnit)
    ensures IsAlphaNumeric(c) ==> !IsWhitespace(c) && c != 10 && c != 13
  {
  }

  /** Slide the edit right one unit at a time and keep the last place that scores best.  With
      an empty edit before an empty equality the search finds one more place for ever: it `hangs`. */
  method SlideToBest(start: Place) returns (bestPlace: Place, hangs: bool, ghost best: nat)
    ensures hangs <==> start.edit == [] && start.equality2 == []
    ensures !hangs ==> CanStepTo(start, best) && BestPlace(start, best) && bestPlace == At(start, best)
    ensures !hangs ==> forall n: nat ::
      CanStepTo(start, n) && BetweenWords(At(start, n)) ==> !WithinWords(bestPlace)
  {
    hide BestAmong, BestPlace, CanStepTo, At;
    FirstPlace(start);
    var p := start;
    bestPlace, hangs, best := start, false, 0;
    var bestScore := start.Score();
    ghost var n := 0;
    while (p.edit == [] && p.equality2 == []) || p.CanStep()
      invariant CanStepTo(start, n) && p == At(start, n) && |p.edit| == |start.edit|
      invariant BestAmong(start, n, best) && CanStepTo(start, best)
      invariant bestPlace == At(start, best) && bestScore == bestPlace.Score()
      invariant p == start || start.edit != []
      decreases |p.equality2|
    {
      if p.edit == [] {
        return bestPlace, true, best;
      }
      StepLast(start, n);
      BestOfMore(start, n, best);
      p := p.Step();
      n := n + 1;
      var score := p.Score();
      if score >= bestScore {
        bestScore := score;
        bestPlace, best := p, n;
      }
    }
    BestOfAll(start, n, best);
    forall k: nat | CanStepTo(start, k) && BetweenWords(At(start, k))
      ensures !WithinWords(bestPlace)
    {
      NotWithinWords(start, best, k);
    }
  }

  // ---------- the sliding clean-up ----------

  /** The entries of a place; an equality that has become empty is dropped. */
  function Entries(p: Place, op: Op): seq<Diff> {
    KeptEquality(p.equality1) + [Diff(op, p.edit)] + KeptEquality(p.equality2)
  }

  function KeptEquality(text: Text): seq<Diff> {
    if text == [] then [] else [Diff(Equal, text)]
  }

  lemma EntriesText(p: Place, op: Op, without: Op)
    requires without != Equal
    ensures TextOf(Entries(p, op), without) == p.equality1 + (if op == without then [] else p.edit) + p.equality2
  {
    var one, two := KeptEquality(p.equality1), KeptEquality(p.equality2);
    TextConcat(one, [Diff(op, p.edit)], without);
    TextConcat(one + [Diff(op, p.edit)], two, without);
    TextOfOne(Diff(op, p.edit), without);
    TextOfOne(Diff(Equal, p.equality1), without);
    TextOfOne(Diff(Equal, p.equality2), without);
  }

  lemma AlikeTexts(p: Place, q: Place, op: Op)
    requires p.Alike(q)
    ensures SameTexts(Entries(p, op), [Diff(Equal, q.equality1), Diff(op, q.edit), Diff(Equal, q.equality2)])
  {
    forall without: Op ensures without != Equal ==>
      TextOf(Entries(p, op), without) ==
        TextOf([Diff(Equal, q.equality1), Diff(op, q.edit), Diff(Equal, q.equality2)], without) {
      TextOfThree(Diff(Equal, q.equality1), Diff(op, q.edit), Diff(Equal, q.equality2), without);
      if without != Equal {
        EntriesText(p, op, without);
        if op == without {
          Hole(p.equality1, p.equality2);
          Hole(q.equality1, q.equality2);
        }
      }
    }
  }

  lemma Hole<T>(a: seq<T>, b: seq<T>)
    ensures a + [] + b == a + b
  {
  }

  /** The place `n` units to the left, where the equality before ends as the edit does. */
  function LeftBy(p: Place, n: nat): Place
    requires n <= |p.equality1| && n <= |p.edit|
  {
    var common := p.edit[|p.edit| - n..];
    Place(p.equality1[..|p.equality1| - n], common + p.edit[..|p.edit| - n], common + p.equality2)
  }

  /** First slide the edit left by all it has in common with the equality before it. */
  method SlideLeft(p: Place) returns (q: Place)
    ensures exists n :: IsCommonSuffix(p.equality1, p.edit, n) && q == LeftBy(p, n)
    ensures q.Alike(p) && (p.edit == [] ==> q == p)
    ensures |q.equality1| < |p.equality1| ==> q.equality2 != []
    ensures |q.equality1| <= |p.equality1| && (|q.equality1| == |p.equality1| ==> q == p)
  {
    hide LeftBy;
    var n := CommonSuffix(p.equality1, p.edit);
    q := p;
    LeftByNothing(p);
    if n > 0 {
      q := LeftBy(p, n);
      LeftAlike(p, n);
      LeftLengths(p, n);
    }
  }

  lemma LeftLengths(p: Place, n: nat)
    requires n <= |p.equality1| && n <= |p.edit|
    ensures |LeftBy(p, n).equality1| == |p.equality1| - n && |LeftBy(p, n).equality2| == |p.equality2| + n
  {
  }

  lemma LeftByNothing(p: Place)
    ensures LeftBy(p, 0) == p
  {
    assert p.edit[|p.edit|..] == [];
  }

  lemma LeftAlike(p: Place, n: nat)
    requires IsCommonSuffix(p.equality1, p.edit, n)
    ensures LeftBy(p, n).Alike(p)
  {
    var common := p.edit[|p.edit| - n..];
    var x, y := p.equality1[..|p.equality1| - n], p.edit[..|p.edit| - n];
    CutSuffix(p.equality1, n);
    CutSuffix(p.edit, n);
    assert p.equality1 == x + common && p.edit == y + common;
    hide IsCommonSuffix;
    RegroupFive(x, common, y, p.equality2);
  }

  lemma CutSuffix<T>(t: seq<T>, n: nat)
    requires n <= |t|
    ensures t == t[..|t| - n] + t[|t| - n..]
  {
  }

  lemma RegroupFive<T>(x: seq<T>, c: seq<T>, y: seq<T>, z: seq<T>)
    ensures x + (c + y) + (c + z) == (x + c) + (y + c) + z
    ensures x + (c + z) == (x + c) + z
  {
  }

  lemma AlikeTrans(p: Place, q: Place, r: Place)
    requires p.Alike(q) && q.Alike(r)
    ensures p.Alike(r)
  {
  }

  predicate Between(ds: seq<Diff>, i: int) {
    0 < i < |ds| - 1 && ds[i - 1].op == Equal && ds[i + 1].op == Equal
  }

  /** No entry from `i` on makes the sliding loop run for ever. */
  ghost predicate NoHangFrom(ds: seq<Diff>, i: int) {
    forall k :: i <= k && Between(ds, k) ==> ds[k].text != [] || ds[k + 1].text != []
  }

  ghost predicate NoHang(ds: seq<Diff>) {
    NoHangFrom(ds, 0)
  }

  /** Put `place` where the entry at `pointer` and the equalities around it are. */
  method PutPlace(a: DiffList, pointer: nat, place: Place, ghost front: seq<Diff>, ghost mid: seq<Diff>,
        ghost back: seq<Diff>) returns (next: nat)
    requires a.items == front + mid + back && |mid| == 3 && |front| == pointer - 1
    requires mid[0].op == Equal && mid[2].op == Equal && !(place.equality1 == [] && place.equality2 == [])
    modifies a
    ensures a.items == front + Entries(place, mid[1].op) + back
    ensures next == |front| + |Entries(place, mid[1].op)| - 2
  {
    ghost var head, edit := front + KeptEquality(place.equality1), [Diff(mid[1].op, place.edit)];
    OneAfterOther(front, mid, back);
    PutEquality(a, pointer - 1, place.equality1, front, mid[0], [mid[1]] + ([mid[2]] + back));
    next := if place.equality1 != [] then pointer else pointer - 1;
    PutOne(head, mid[1], edit[0], [mid[2]] + back);
    a.items := a.items[next := Diff(a.items[next].op, place.edit)];
    Regroup(head + edit, [mid[2]], back);
    PutEquality(a, next + 1, place.equality2, head + edit, mid[2], back);
    next := if place.equality2 != [] then next else next - 1;
    ThreeParts(front, KeptEquality(place.equality1), edit, KeptEquality(place.equality2), back);
  }

  /** The equality at `at` gets a new text, or goes if that is empty. */
  method PutEquality(a: DiffList, at: nat, text: Text, ghost front: seq<Diff>, ghost entry: Diff, ghost back: seq<Diff>)
    requires a.items == front + [entry] + back && |front| == at
    modifies a
    ensures a.items == front + KeptEquality(text) + back
  {
    if text != [] {
      a.items := a.items[at := Diff(Equal, text)];
      PutOne(front, entry, Diff(Equal, text), back);
    } else {
      CutAfter(front, entry, back);
      a.Splice(at, 1, []);
      Hole(front, back);
    }
  }

  lemma PutOne<T>(front: seq<T>, x: T, y: T, back: seq<T>)
    ensures var s, t := front + [x] + back, front + ([x] + back);
      s == t && s[|front|] == x && s[|front| := y] == front + [y] + back
  {
  }

  lemma OneAfterOther<T>(front: seq<T>, mid: seq<T>, back: seq<T>)
    requires |mid| == 3
    ensures front + mid + back == front + [mid[0]] + ([mid[1]] + ([mid[2]] + back))
  {
    assert mid == [mid[0], mid[1], mid[2]];
  }

  lemma ThreeParts<T>(front: seq<T>, x: seq<T>, y: seq<T>, z: seq<T>, back: seq<T>)
    ensures front + x + y + z + back == front + (x + y + z) + back
  {
  }

  lemma StillNoHang(front: seq<Diff>, mid: seq<Diff>, place: Place, back: seq<Diff>)
    requires |mid| == 3 && mid[0].op == Equal && mid[2].op == Equal && |place.edit| == |mid[1].text| > 0
    requires NoHangFrom(front + mid + back, |front| + 1)
    ensures var now := front + Entries(place, mid[1].op) + back;
      NoHangFrom(now, |front| + |Entries(place, mid[1].op)| - 1)
  {
    var was, mine := front + mid + back, Entries(place, mid[1].op);
    var now := front + mine + back;
    var shift := 3 - |mine|;
    assert now[|front| + |mine| - 1] == mine[|mine| - 1] && mine[|mine| - 1].text != [];
    forall k | |front| + |mine| - 1 < k && Between(now, k) ensures now[k].text != [] || now[k + 1].text != [] {
      assert now[k] == was[k + shift] && now[k + 1] == was[k + 1 + shift];
      assert was[k + shift - 1].op == Equal;
      assert Between(was, k + shift);
    }
  }

  /** Of all places from as far left as the equality before allows, the one that scores best. */
  ghost predicate BestFor(start: Place, place: Place) {
    exists n, best :: IsCommonSuffix(start.equality1, start.edit, n) && BestPlace(LeftBy(start, n), best)
      && place == At(LeftBy(start, n), best)
  }

  function PlaceOf(ds: seq<Diff>, i: int): Place
    requires Between(ds, i)
  {
    Place(ds[i - 1].text, ds[i].text, ds[i + 1].text)
  }

  /** The edit at `i` has been slid to its best place, if that is not where it was; `next` is where to go on. */
  ghost predicate OneSlide(ds: seq<Diff>, i: int, es: seq<Diff>, next: int)
    requires Between(ds, i)
  {
    exists place :: BestFor(PlaceOf(ds, i), place) &&
      if place.equality1 == ds[i - 1].text then es == ds && next == i + 1
      else es == ds[..i - 1] + Entries(place, ds[i].op) + ds[i + 2..] && next == i + |Entries(place, ds[i].op)| - 2
  }

  /** From `i` on every edit between equalities has been slid, one after the other. */
  ghost predicate SlidFrom(ds: seq<Diff>, i: nat, es: seq<Diff>)
    decreases |ds| - i
  {
    if i >= |ds| - 1 then es == ds
    else if !Between(ds, i) then SlidFrom(ds, i + 1, es)
    else exists mid, next: nat :: OneSlide(ds, i, mid, next) && |mid| - next < |ds| - i && SlidFrom(mid, next, es)
  }

  /** The search for the best place comes to an end at every edit between equalities from `i` on, each being slid to its
      best place before the next one is looked at. */
  ghost predicate EndsFrom(ds: seq<Diff>, i: nat)
    decreases |ds| - i
  {
    if i >= |ds| - 1 then true
    else if !Between(ds, i) then EndsFrom(ds, i + 1)
    else
      && (ds[i].text != [] || ds[i + 1].text != [])
      && forall mid, next: nat :: OneSlide(ds, i, mid, next) && |mid| - next < |ds| - i ==> EndsFrom(mid, next)
  }

  lemma {:induction false} OneBestPlace(p: Place, best: nat, other: nat)
    requires BestPlace(p, best) && BestPlace(p, other)
    ensures best == other
  {
    assert CanStepTo(p, best) && CanStepTo(p, other);
  }

  /** `place` is the best one to the right of `left`. */
  ghost predicate IsBestOf(left: Place, place: Place) {
    exists best :: BestPlace(left, best) && place == At(left, best)
  }

  lemma {:induction false} OneBestOf(left: Place, place: Place, other: Place)
    requires IsBestOf(left, place) && IsBestOf(left, other)
    ensures place == other
  {
    var best :| BestPlace(left, best) && place == At(left, best);
    var best' :| BestPlace(left, best') && other == At(left, best');
    OneBestPlace(left, best, best');
  }

  lemma {:induction false} BestOfLeft(start: Place, place: Place) returns (n: nat)
    requires BestFor(start, place)
    ensures IsCommonSuffix(start.equality1, start.edit, n) && IsBestOf(LeftBy(start, n), place)
  {
    var m, best :| IsCommonSuffix(start.equality1, start.edit, m) && BestPlace(LeftBy(start, m), best)
      && place == At(LeftBy(start, m), best);
    n := m;
  }

  lemma {:induction false} OneBest(start: Place, place: Place, other: Place)
    requires BestFor(start, place) && BestFor(start, other)
    ensures place == other
  {
    var n := BestOfLeft(start, place);
    var n' := BestOfLeft(start, other);
    hide IsBestOf, BestFor;
    OneSuffix(start.equality1, start.edit, n, n');
    OneBestOf(LeftBy(start, n), place, other);
  }

  /** There is only one way to slide an edit. */
  lemma {:induction false} OneWayToSlide(ds: seq<Diff>, i: int, es: seq<Diff>, next: int, es': seq<Diff>, next': int)
    requires Between(ds, i) && OneSlide(ds, i, es, next) && OneSlide(ds, i, es', next')
    ensures es == es' && next == next'
  {
    hide BestFor, Entries;
    forall place, other | BestFor(PlaceOf(ds, i), place) && BestFor(PlaceOf(ds, i), other) ensures place == other {
      OneBest(PlaceOf(ds, i), place, other);
    }
  }

  /** What sliding all edits leaves is determined by the list. */
  lemma {:induction false} SlidOnce(ds: seq<Diff>, i: nat, es: seq<Diff>, es': seq<Diff>)
    requires SlidFrom(ds, i, es) && SlidFrom(ds, i, es')
    ensures es == es'
    decreases |ds| - i
  {
    hide OneSlide;
    if i < |ds| - 1 {
      if !Between(ds, i) {
        SlidOnce(ds, i + 1, es, es');
      } else {
        var mid, next: nat :| OneSlide(ds, i, mid, next) && |mid| - next < |ds| - i && SlidFrom(mid, next, es);
        var mid', next': nat :| OneSlide(ds, i, mid', next') && |mid'| - next' < |ds| - i && SlidFrom(mid', next', es');
        OneWayToSlide(ds, i, mid, next, mid', next');
        SlidOnce(mid, next, es, es');
      }
    }
  }

  lemma {:induction false} EndsMore(ds: seq<Diff>, i: nat, mid: seq<Diff>, next: nat)
    requires Between(ds, i) && OneSlide(ds, i, mid, next) && |mid| - next < |ds| - i
    requires ds[i].text != [] || ds[i + 1].text != []
    ensures EndsFrom(ds, i) <==> EndsFrom(mid, next)
  {
    forall mid', next': nat | OneSlide(ds, i, mid', next') ensures mid' == mid && next' == next {
      OneWayToSlide(ds, i, mid, next, mid', next');
    }
  }

  /** A list on which the search goes on for ever: the edit and the equality after it are empty. */
  lemma {:induction false} EndlessList(c: CodeUnit)
    ensures var ds := [Diff(Equal, [c]), Diff(Insert, []), Diff(Equal, [])];
      !EndsFrom(ds, 1) && NoneApplies(ds, Outweighed)
  {
    var ds := [Diff(Equal, [c]), Diff(Insert, []), Diff(Equal, [])];
    assert Between(ds, 1);
  }

  lemma {:induction false} OneSlideMore(ds: seq<Diff>, i: nat, mid: seq<Diff>, next: nat)
    requires Between(ds, i) && OneSlide(ds, i, mid, next) && |mid| - next < |ds| - i
    ensures forall es :: SlidFrom(mid, next, es) ==> SlidFrom(ds, i, es)
  {
  }

  lemma {:induction false} ThreeOf(ds: seq<Diff>, i: int)
    requires Between(ds, i)
    ensures var mid := ds[i - 1..i + 2];
      && ds == ds[..i - 1] + mid + ds[i + 2..] && mid[1] == ds[i]
      && mid == [Diff(Equal, ds[i - 1].text), Diff(ds[i].op, ds[i].text), Diff(Equal, ds[i + 1].text)]
  {
  }

  /** Wherever an edit is slid it reads the same; an empty one is not slid at all. */
  lemma {:induction false} BestIsAlike(start: Place, left: Place, place: Place, steps: nat)
    requires left.Alike(start) && (start.edit == [] ==> left == start)
    requires CanStepTo(left, steps) && place == At(left, steps)
    requires |left.equality1| < |start.equality1| ==> left.equality2 != []
    ensures place.Alike(start) && (start.edit == [] ==> place == start)
    ensures place.equality1 == [] ==> place.equality2 != [] || start.equality1 == []
  {
    AtAlike(left, steps);
    AtLengths(left, steps);
    AlikeTrans(place, left, start);
  }

  /** Slide the edit at `pointer` to the best place between the equalities around it. */
  method SlideBetween(a: DiffList, pointer: nat) returns (next: nat, hangs: bool)
    requires Between(a.items, pointer)
    modifies a
    ensures hangs <==> old(a.items)[pointer].text == [] && old(a.items)[pointer + 1].text == []
    ensures hangs ==> a.items == old(a.items)
    ensures !hangs ==> OneSlide(old(a.items), pointer, a.items, next)
    ensures SameTexts(a.items, old(a.items))
    ensures !hangs ==> next > 0 && |a.items| - next < |old(a.items)| - pointer
    ensures !hangs && NoHangFrom(old(a.items), pointer) ==> NoHangFrom(a.items, next)
  {
    hide IsCommonSuffix, BestPlace, CanStepTo, At, WithinWords, BetweenWords;
    ghost var front, mid, back := a.items[..pointer - 1], a.items[pointer - 1..pointer + 2], a.items[pointer + 2..];
    var start := Place(a.items[pointer - 1].text, a.items[pointer].text, a.items[pointer + 1].text);
    ThreeOf(a.items, pointer);
    var left := SlideLeft(start);
    var place, hung, steps := SlideToBest(left);
    hangs := hung;
    next := pointer;
    if hung {
      return;
    }
    assert BestFor(start, place);
    BestIsAlike(start, left, place, steps);
    if a.items[pointer - 1].text != place.equality1 {
      next := PutPlace(a, pointer, place, front, mid, back);
      AlikeTexts(place, start, mid[1].op);
      SplicedTexts(front, Entries(place, mid[1].op), mid, back);
      if NoHangFrom(old(a.items), pointer) {
        StillNoHang(front, mid, place, back);
      }
    }
    next := next + 1;
  }

  /** Slide every single edit between two equalities.  `ok` is false where the search
      for the best place goes on for ever. */
  method CleanupSemanticLossless(a: DiffList) returns (ok: bool)
    modifies a
    ensures SameTexts(a.items, old(a.items))
    ensures ok ==> SlidFrom(old(a.items), 1, a.items)
    ensures ok <==> EndsFrom(old(a.items), 1)
    ensures NoHang(old(a.items)) ==> ok
    ensures !ok ==> exists i :: Between(a.items, i) && a.items[i].text == [] && a.items[i + 1].text == []
  {
    var pointer := 1;
    while pointer < |a.items| - 1
      invariant pointer > 0
      invariant forall es :: SlidFrom(a.items, pointer, es) ==> SlidFrom(old(a.items), 1, es)
      invariant EndsFrom(a.items, pointer) <==> EndsFrom(old(a.items), 1)
      invariant SameTexts(a.items, old(a.items))
      invariant NoHang(old(a.items)) ==> NoHangFrom(a.items, pointer)
      decreases |a.items| - pointer
    {
      if a.items[pointer - 1].op == Equal && a.items[pointer + 1].op == Equal {
        ghost var before := a.items;
        var next, hangs := SlideBetween(a, pointer);
        if hangs {
          return false;
        }
        OneSlideMore(before, pointer, a.items, next);
        EndsMore(before, pointer, a.items, next);
        pointer := next;
      } else {
        pointer := pointer + 1;
      }
    }
    return true;
  }

  // ---------- the semantic clean-up ----------

  /** Half of one text or the other, or more, is shared. */
  predicate Substantial(overlap: nat, deletion: Text, insertion: Text) {
    2 * overlap >= |deletion| || 2 * overlap >= |insertion|
  }

  lemma ForwardOverlapTexts(x: Text, c: Text, y: Text)
    ensures SameTexts([Diff(Delete, x), Diff(Equal, c), Diff(Insert, y)], [Diff(Delete, x + c), Diff(Insert, c + y)])
  {
    forall without: Op ensures without != Equal ==>
      TextOf([Diff(Delete, x), Diff(Equal, c), Diff(Insert, y)], without) ==
        TextOf([Diff(Delete, x + c), Diff(Insert, c + y)], without) {
      TextOfThree(Diff(Delete, x), Diff(Equal, c), Diff(Insert, y), without);
      TextOfThree(Diff(Delete, x + c), Diff(Insert, c + y), Diff(Insert, y), without);
      Hole(x, c);
      Hole(x + c, []);
    }
  }

  lemma ReverseOverlapTexts(x: Text, c: Text, y: Text)
    ensures SameTexts([Diff(Insert, x), Diff(Equal, c), Diff(Delete, y)], [Diff(Delete, c + y), Diff(Insert, x + c)])
  {
    forall without: Op ensures without != Equal ==>
      TextOf([Diff(Insert, x), Diff(Equal, c), Diff(Delete, y)], without) ==
        TextOf([Diff(Delete, c + y), Diff(Insert, x + c)], without) {
      TextOfThree(Diff(Insert, x), Diff(Equal, c), Diff(Delete, y), without);
      TextOfThree(Diff(Delete, c + y), Diff(Insert, x + c), Diff(Insert, x), without);
      Hole(x, c);
      Hole(x + c, []);
    }
  }

  ghost predicate IsLongestOverlap(a: Text, b: Text, n: nat) {
    Overlaps(a, b, n) && NoneLonger(a, b, n)
  }

  /** What takes the place of a deletion and an insertion: the longer of the two overlaps, the end of one text
      being the beginning of the other, becomes an equality if it is substantial. */
  function WithOverlap(deletion: Text, insertion: Text, n: nat, m: nat): seq<Diff>
    requires n <= |deletion| && n <= |insertion| && m <= |deletion| && m <= |insertion|
  {
    if n >= m && Substantial(n, deletion, insertion) then
      [Diff(Delete, deletion[..|deletion| - n]), Diff(Equal, insertion[..n]), Diff(Insert, insertion[n..])]
    else if n < m && Substantial(m, deletion, insertion) then
      [Diff(Insert, insertion[..|insertion| - m]), Diff(Equal, deletion[..m]), Diff(Delete, deletion[m..])]
    else [Diff(Delete, deletion), Diff(Insert, insertion)]
  }

  predicate DeletionThenInsertion(ds: seq<Diff>, i: int) {
    0 < i < |ds| && ds[i - 1].op == Delete && ds[i].op == Insert
  }

  ghost predicate OneOverlap(ds: seq<Diff>, i: int, es: seq<Diff>, next: int)
    requires DeletionThenInsertion(ds, i)
  {
    var deletion, insertion := ds[i - 1].text, ds[i].text;
    exists n: nat, m: nat :: IsLongestOverlap(deletion, insertion, n) && IsLongestOverlap(insertion, deletion, m)
      && es == ds[..i - 1] + WithOverlap(deletion, insertion, n, m) + ds[i + 1..]
      && next == i - 1 + |WithOverlap(deletion, insertion, n, m)|
  }

  /** An equality as long as the longer overlap comes between if it is half of either text or more; otherwise nothing
      changes. */
  lemma {:induction false} OverlapExactly(ds: seq<Diff>, i: int, es: seq<Diff>, next: int, n: nat, m: nat)
    requires DeletionThenInsertion(ds, i) && OneOverlap(ds, i, es, next)
    requires IsLongestOverlap(ds[i - 1].text, ds[i].text, n) && IsLongestOverlap(ds[i].text, ds[i - 1].text, m)
    ensures var longer := if n >= m then n else m;
      if 2 * longer >= |ds[i - 1].text| || 2 * longer >= |ds[i].text|
      then |es| == |ds| + 1 && es[i].op == Equal && |es[i].text| == longer && next == i + 2
      else es == ds && next == i + 1
  {
    var x, y := ds[i - 1].text, ds[i].text;
    assert n <= |x| && n <= |y| && m <= |x| && m <= |y|;
    forall k: nat | IsLongestOverlap(x, y, k) ensures k == n {
    }
    forall k: nat | IsLongestOverlap(y, x, k) ensures k == m {
    }
    hide IsLongestOverlap;
    assert es == ds[..i - 1] + WithOverlap(x, y, n, m) + ds[i + 1..];
    assert ds == ds[..i - 1] + [ds[i - 1], ds[i]] + ds[i + 1..];
  }

  /** From `i` on the overlap of every deletion with the insertion after it has been taken out. */
  ghost predicate OverlapsTaken(ds: seq<Diff>, i: nat, es: seq<Diff>)
    decreases |ds| - i
  {
    if i >= |ds| then es == ds
    else if !DeletionThenInsertion(ds, i) then OverlapsTaken(ds, i + 1, es)
    else exists mid, next: nat ::
      OneOverlap(ds, i, mid, next) && |mid| - next < |ds| - i && OverlapsTaken(mid, next + 1, es)
  }

  lemma {:induction false} OneOverlapMore(ds: seq<Diff>, i: nat, mid: seq<Diff>, next: nat)
    requires DeletionThenInsertion(ds, i) && OneOverlap(ds, i, mid, next) && |mid| - next < |ds| - i
    ensures forall es :: OverlapsTaken(mid, next + 1, es) ==> OverlapsTaken(ds, i, es)
  {
  }

  /** Take a substantial overlap of a deletion and the insertion after it out as an equality. */
  method ExtractOverlap(a: DiffList, pointer: nat) returns (next: nat)
    requires DeletionThenInsertion(a.items, pointer)
    modifies a
    ensures OneOverlap(old(a.items), pointer, a.items, next)
    ensures SameTexts(a.items, old(a.items))
    ensures pointer < next && |a.items| - next < |old(a.items)| - pointer
  {
    var deletion, insertion := a.items[pointer - 1].text, a.items[pointer].text;
    ghost var front, back := a.items[..pointer - 1], a.items[pointer + 1..];
    assert a.items == front + [Diff(Delete, deletion), Diff(Insert, insertion)] + back;
    var overlap1 := CommonOverlap(deletion, insertion);
    var overlap2 := CommonOverlap(insertion, deletion);
    assert IsLongestOverlap(deletion, insertion, overlap1) && IsLongestOverlap(insertion, deletion, overlap2);
    next := pointer;
    if overlap1 >= overlap2 {
      if Substantial(overlap1, deletion, insertion) {
        var x, c, y := deletion[..|deletion| - overlap1], insertion[..overlap1], insertion[overlap1..];
        a.Splice(pointer, 0, [Diff(Equal, c)]);
        a.items := a.items[pointer - 1 := Diff(a.items[pointer - 1].op, x)];
        a.items := a.items[pointer + 1 := Diff(a.items[pointer + 1].op, y)];
        next := next + 1;
        assert a.items == front + [Diff(Delete, x), Diff(Equal, c), Diff(Insert, y)] + back;
        CutSuffix(deletion, overlap1);
        assert insertion == c + y;
        ForwardOverlapTexts(x, c, y);
        SplicedTexts(front, [Diff(Delete, x), Diff(Equal, c), Diff(Insert, y)],
          [Diff(Delete, deletion), Diff(Insert, insertion)], back);
      }
    } else {
      if Substantial(overlap2, deletion, insertion) {
        var x, c, y := insertion[..|insertion| - overlap2], deletion[..overlap2], deletion[overlap2..];
        a.Splice(pointer, 0, [Diff(Equal, c)]);
        a.items := a.items[pointer - 1 := Diff(Insert, x)];
        a.items := a.items[pointer + 1 := Diff(Delete, y)];
        next := next + 1;
        assert a.items == front + [Diff(Insert, x), Diff(Equal, c), Diff(Delete, y)] + back;
        CutSuffix(insertion, overlap2);
        assert deletion == c + y;
        ReverseOverlapTexts(x, c, y);
        SplicedTexts(front, [Diff(Insert, x), Diff(Equal, c), Diff(Delete, y)],
          [Diff(Delete, deletion), Diff(Insert, insertion)], back);
      }
    }
    next := next + 1;
  }

  lemma SettledNoHang(ds: seq<Diff>)
    requires Settled(ds)
    ensures NoHang(ds)
  {
    forall k | 0 <= k && Between(ds, k) ensures ds[k].text != [] || ds[k + 1].text != [] {
      assert CannotSlide(ds, k);
    }
  }

  /** What dissolving leaves is merged, unless nothing was dissolved. */
  ghost predicate MergedIfChanged(was: seq<Diff>, dissolved: seq<Diff>, merged: seq<Diff>) {
    if NoneApplies(was, Outweighed) then merged == dissolved == was
    else RunsMerged(merged) && Settled(merged) && NoLarger(merged, dissolved) && SameTexts(merged, dissolved)
  }

  /** All outweighed equalities dissolved, all edits slid to their best places, all substantial overlaps taken out. */
  ghost predicate SemanticallyClean(was: seq<Diff>, now: seq<Diff>) {
    exists dissolved, merged, slid ::
      && Reduced(was, dissolved, Outweighed)
      && MergedIfChanged(was, dissolved, merged)
      && SlidFrom(merged, 1, slid)
      && OverlapsTaken(slid, 1, now)
  }

  /** Takes out, from left to right, the overlap of every deletion with the insertion after it. */
  method TakeOverlaps(a: DiffList)
    modifies a
    ensures SameTexts(a.items, old(a.items)) && OverlapsTaken(old(a.items), 1, a.items)
  {
    hide SameTexts, OneOverlap;
    ghost var slid := a.items;
    var pointer := 1;
    SameTextsAsIs(a.items);
    while pointer < |a.items|
      invariant 1 <= pointer && SameTexts(a.items, slid)
      invariant forall es :: OverlapsTaken(a.items, pointer, es) ==> OverlapsTaken(slid, 1, es)
      decreases |a.items| - pointer
    {
      ghost var before, at := a.items, pointer;
      if a.items[pointer - 1].op == Delete && a.items[pointer].op == Insert {
        pointer := ExtractOverlap(a, pointer);
        OneOverlapMore(before, at, a.items, pointer);
        SameTextsTrans(a.items, before, slid);
      }
      pointer := pointer + 1;
    }
  }

  lemma SameTextsAsIs(ds: seq<Diff>)
    ensures SameTexts(ds, ds)
  {
  }

  lemma SameTextsTrans(ds: seq<Diff>, es: seq<Diff>, fs: seq<Diff>)
    requires SameTexts(ds, es) && SameTexts(es, fs)
    ensures SameTexts(ds, fs)
  {
  }

  /** Dissolve small equalities, slide edits to boundaries, and find overlaps of deletions and insertions. */
  method CleanupSemantic(a: DiffList) returns (ok: bool)
    modifies a
    ensures SameTexts(a.items, old(a.items))
    ensures ok ==> SemanticallyClean(old(a.items), a.items)
    ensures ok <==> !NoneApplies(old(a.items), Outweighed) || EndsFrom(old(a.items), 1)
    ensures NoHang(old(a.items)) ==> ok
  {
    hide SameTexts, Reduced, SlidFrom, EndsFrom, OverlapsTaken;
    var changes := DissolveSemantic(a);
    ghost var dissolved := a.items;
    if changes {
      CleanupMerge(a);
      SettledNoHang(a.items);
      SameTextsTrans(a.items, dissolved, old(a.items));
    }
    ghost var merged := a.items;
    assert MergedIfChanged(old(a.items), dissolved, merged);
    ok := CleanupSemanticLossless(a);
    ghost var slid := a.items;
    SameTextsTrans(slid, merged, old(a.items));
    if ok {
      TakeOverlaps(a);
      SameTextsTrans(a.items, slid, old(a.items));
    }
  }
}
