/**
 When a diff may lose something.  The only part of the diff engine that can lose a line, or fail, is line mode:
 it needs fewer than 65536 different lines, and a first text that does not end in the one line that makes the
 table of lines unusable.  The conditions here follow the way a diff is made down to where line mode is entered.
 */
module DiffLoss {
  import opened Wrappers
  import opened DiffText
  import opened Diffs
  import opened DiffHalf
  import opened DiffLines

  // ---------- which way a diff is made ----------

  /** `n` units are cut off in front, then `m` at the end. */
  predicate Ends(a: Text, b: Text, n: nat, m: nat) {
    IsCommonPrefix(a, b, n) && IsCommonSuffix(a[n..], b[n..], m)
  }

  function Middle(a: Text, n: nat, m: nat): (c: Text)
    requires n + m <= |a|
    ensures |c| <= |a|
  {
    a[n..|a| - m]
  }

  predicate OneWithinOther(a: Text, b: Text) {
    if |a| > |b| then IndexOf(a, b, 0) != -1 else IndexOf(b, a, 0) != -1
  }

  /** Without line mode, in two halves, or by line. */
  datatype Way = Plain | Halved(half: Half) | ByLine

  /** The way the diff of two texts without common ends is made. */
  function WayOf(a: Text, b: Text, halves: bool): Way {
    if a == [] || b == [] || OneWithinOther(a, b) || Min(|a|, |b|) == 1 then Plain
    else if halves && HalfOf(a, b).Some? then Halved(HalfOf(a, b).value)
    else if |a| > 100 && |b| > 100 then ByLine
    else Plain
  }

  /** The parts on either side of a common half are smaller. */
  lemma {:induction false} HalvesAreSmaller(a: Text, b: Text, halves: bool)
    ensures WayOf(a, b, halves).Halved? ==>
      Shares(WayOf(a, b, halves).half, a, b) && WayOf(a, b, halves).half.common != []
    ensures WayOf(a, b, halves).Halved? ==> var h := WayOf(a, b, halves).half;
      |h.longPrefix| + |h.shortPrefix| < |a| + |b| && |h.longSuffix| + |h.shortSuffix| < |a| + |b|
  {
    hide HalfOf;
    HalfOfShares(a, b);
  }

  // ---------- when nothing is lost ----------

  /** What line mode needs: that the lines can be numbered by units, and that the table can be asked for those of
      `b`. */
  ghost predicate SurvivesLineMode(a: Text, b: Text) {
    |LineSet(a, b)| < UNITS && HAS_OWN_PROPERTY !in Lines(a)
  }

  /** Whatever goes through line mode on the way survives it. */
  ghost predicate LosesNothing(a: Text, b: Text, halves: bool)
    decreases |a| + |b|, 1
  {
    var n := PrefixLength(a, b);
    var m := SuffixLength(a[n..], b[n..]);
    LosesNothingBetween(Middle(a, n, m), Middle(b, n, m), halves)
  }

  ghost predicate LosesNothingBetween(a: Text, b: Text, halves: bool)
    decreases |a| + |b|, 0
  {
    HalvesAreSmaller(a, b, halves);
    match WayOf(a, b, halves)
    case Plain => true
    case ByLine => SurvivesLineMode(a, b)
    case Halved(h) =>
      LosesNothing(h.longPrefix, h.shortPrefix, halves) && LosesNothing(h.longSuffix, h.shortSuffix, halves)
  }

  /** The condition for two texts is that for what is left between their common ends. */
  lemma {:induction false} BetweenTheEnds(a: Text, b: Text, n: nat, m: nat, halves: bool)
    requires Ends(a, b, n, m)
    ensures LosesNothing(a, b, halves) <==> LosesNothingBetween(Middle(a, n, m), Middle(b, n, m), halves)
  {
    PrefixLengthOnly(a, b, n);
    SuffixLengthOnly(a[n..], b[n..], m);
  }

  // ---------- what is lost is missed ----------

  ghost predicate Mentions(a: Text, p: Text) {
    exists i :: MatchesAt(a, p, i)
  }

  /** `x` is `a`, or does not even contain it. */
  ghost predicate Regains(x: Text, a: Text) {
    Mentions(x, a) ==> x == a
  }

  /** A diff that does not lead from `a` to `b` has lost something that nothing else in it makes up for. */
  ghost predicate Telling(ds: seq<Diff>, a: Text, b: Text) {
    Regains(Text1(ds), a) && (Text1(ds) == a ==> Regains(Text2(ds), b))
  }

  lemma {:induction false} FewerLinesAreMissed(x: Text, a: Text)
    requires x == a || |Lines(x)| < |Lines(a)|
    ensures Regains(x, a)
  {
    hide Lines;
    if Mentions(x, a) {
      var i :| MatchesAt(x, a, i);
      assert x == x[..i] + a + x[i + |a|..];
      LinesOfPart(x[..i], a, x[i + |a|..]);
    }
  }

  lemma {:induction false} MentionsItself(a: Text)
    ensures Mentions(a, a)
  {
    assert MatchesAt(a, a, 0);
  }

  /** Where a whole matches, a part matches that has room for it. */
  lemma {:induction false} PartMatches(x: Text, common: Text, y: Text, a: Text, c: Text, i: int)
    requires MatchesAt(x + common + y, a + common + c, i)
    ensures i + |a| <= |x| ==> MatchesAt(x, a, i)
    ensures i + |a| >= |x| ==> MatchesAt(y, c, i + |a| - |x|)
  {
    var w, v := x + common + y, a + common + c;
    assert w[i..i + |v|] == v;
    Stretches(x, common, y);
    Stretches(a, common, c);
    if i + |a| <= |x| {
      Within(w, i, |v|, 0, |a|);
      Within(w, 0, |x|, i, |a|);
    }
    if i + |a| >= |x| {
      Within(w, i, |v|, |a| + |common|, |c|);
      Within(w, |x| + |common|, |y|, i + |a| - |x|, |c|);
    }
  }

  lemma {:induction false} Stretches(x: Text, common: Text, y: Text)
    ensures var w := x + common + y; w[0..|x|] == x && w[|x| + |common|..|x| + |common| + |y|] == y
  {
  }

  lemma {:induction false} Within(w: Text, i: nat, n: nat, k: nat, m: nat)
    requires i + n <= |w| && k + m <= n
    ensures w[i..i + n][k..k + m] == w[i + k..i + k + m]
  {
    var v := w[i..i + n];
    var part, same := v[k..k + m], w[i + k..i + k + m];
    forall j | 0 <= j < m ensures part[j] == same[j] {
      assert v[k + j] == w[i + (k + j)];
    }
  }

  /** Neither of two parts makes up for the other: together they give the whole only if each of them is right. */
  lemma {:induction false} PartsRegain(x: Text, common: Text, y: Text, a: Text, c: Text)
    requires Regains(x, a) && Regains(y, c)
    ensures Regains(x + common + y, a + common + c)
    ensures x + common + y == a + common + c <==> x == a && y == c
  {
    MentionsItself(a + common + c);
    if Mentions(x + common + y, a + common + c) {
      var i :| MatchesAt(x + common + y, a + common + c, i);
      PartMatches(x, common, y, a, c, i);
      if i + |a| <= |x| {
        assert x == a;
      }
      assert y == c;
    }
  }

  /** Nor does what surrounds a part. */
  lemma {:induction false} FrameRegains(prefix: Text, x: Text, suffix: Text, a: Text)
    requires Regains(x, a)
    ensures Regains(prefix + x + suffix, prefix + a + suffix)
  {
    PartsRegain(prefix, [], x, prefix, a);
    assert prefix + [] + x == prefix + x && prefix + [] + a == prefix + a;
    PartsRegain(prefix + x, suffix, [], prefix + a, []);
    assert prefix + x + suffix + [] == prefix + x + suffix && prefix + a + suffix + [] == prefix + a + suffix;
  }

  // ---------- texts that lose nothing ----------

  /** So few newlines that every line's number fits a unit. */
  predicate FewNewlines(a: Text, b: Text) {
    Newlines(a) + Newlines(b) + 2 < UNITS
  }

  lemma {:induction false} FewNewlinesWithin(p: Text, a: Text, s: Text, q: Text, b: Text, t: Text)
    requires FewNewlines(p + a + s, q + b + t)
    ensures FewNewlines(a, b) && FewNewlines(p, q) && FewNewlines(s, t)
  {
    NewlinesConcat(p + a, s);
    NewlinesConcat(p, a);
    NewlinesConcat(q + b, t);
    NewlinesConcat(q, b);
  }

  lemma {:induction false} MentionedWithin(p: Text, a: Text, s: Text, name: Text)
    ensures Mentions(a, name) ==> Mentions(p + a + s, name)
  {
    if Mentions(a, name) {
      var i :| MatchesAt(a, name, i);
      assert (p + a + s)[|p| + i..|p| + i + |name|] == a[i..i + |name|];
      assert MatchesAt(p + a + s, name, |p| + i);
    }
  }

  lemma {:induction false} NotALine(a: Text)
    requires !Mentions(a, HAS_OWN_PROPERTY)
    ensures HAS_OWN_PROPERTY !in Lines(a)
  {
    if HAS_OWN_PROPERTY in Lines(a) {
      EndsInLine(a, HAS_OWN_PROPERTY);
      assert MatchesAt(a, HAS_OWN_PROPERTY, |a| - |HAS_OWN_PROPERTY|);
    }
  }

  /** Few newlines, and a first text without the name that a line must not be, are enough whichever way the diff is
      made. */
  lemma {:induction false} FewNewlinesLoseNothing(a: Text, b: Text, halves: bool)
    requires FewNewlines(a, b) && !Mentions(a, HAS_OWN_PROPERTY)
    ensures LosesNothing(a, b, halves)
    decreases |a| + |b|, 1
  {
    var n := PrefixLength(a, b);
    var m := SuffixLength(a[n..], b[n..]);
    InThree(a, n, m);
    InThree(b, n, m);
    FewNewlinesWithin(a[..n], Middle(a, n, m), a[|a| - m..], b[..n], Middle(b, n, m), b[|b| - m..]);
    MentionedWithin(a[..n], Middle(a, n, m), a[|a| - m..], HAS_OWN_PROPERTY);
    FewNewlinesLoseNothingBetween(Middle(a, n, m), Middle(b, n, m), halves);
  }

  lemma {:induction false} InThree(a: Text, n: nat, m: nat)
    requires n + m <= |a|
    ensures a == a[..n] + Middle(a, n, m) + a[|a| - m..]
  {
  }

  lemma {:induction false} FewNewlinesLoseNothingBetween(a: Text, b: Text, halves: bool)
    requires FewNewlines(a, b) && !Mentions(a, HAS_OWN_PROPERTY)
    ensures LosesNothingBetween(a, b, halves)
    decreases |a| + |b|, 0
  {
    hide WayOf, Mentions, FewNewlines;
    HalvesAreSmaller(a, b, halves);
    match WayOf(a, b, halves)
    case Plain =>
    case ByLine =>
      SurvivesWithFewNewlines(a, b);
    case Halved(h) =>
      PartsHaveFewNewlines(a, b, h);
      FewNewlinesLoseNothing(h.longPrefix, h.shortPrefix, halves);
      FewNewlinesLoseNothing(h.longSuffix, h.shortSuffix, halves);
  }

  lemma {:induction false} SurvivesWithFewNewlines(a: Text, b: Text)
    requires FewNewlines(a, b) && !Mentions(a, HAS_OWN_PROPERTY)
    ensures SurvivesLineMode(a, b)
  {
    FewDifferentLines(a, b);
    NotALine(a);
  }

  lemma {:induction false} PartsHaveFewNewlines(a: Text, b: Text, h: Half)
    requires FewNewlines(a, b) && !Mentions(a, HAS_OWN_PROPERTY) && Shares(h, a, b)
    ensures FewNewlines(h.longPrefix, h.shortPrefix) && !Mentions(h.longPrefix, HAS_OWN_PROPERTY)
    ensures FewNewlines(h.longSuffix, h.shortSuffix) && !Mentions(h.longSuffix, HAS_OWN_PROPERTY)
  {
    FewNewlinesWithin(h.longPrefix, h.common, h.longSuffix, h.shortPrefix, h.common, h.shortSuffix);
    assert a == [] + h.longPrefix + (h.common + h.longSuffix) && a == (h.longPrefix + h.common) + h.longSuffix + [];
    MentionedWithin([], h.longPrefix, h.common + h.longSuffix, HAS_OWN_PROPERTY);
    MentionedWithin(h.longPrefix + h.common, h.longSuffix, [], HAS_OWN_PROPERTY);
  }

  // ---------- texts that lose something ----------

  /** A text of twos, long enough for line mode and too short to be half of a text of more than twice its length. */
  const TWOS: Text := seq(101, _ => 50)

  /** A long text that shares neither end with the text of twos, nor has two twos in a row, is compared with it by
      line. */
  lemma {:induction false} GoesByLine(a: Text, halves: bool)
    requires |a| > 202 && a[0] != 50 && a[|a| - 1] != 50
    requires forall i :: 0 <= i < |a| - 1 ==> a[i] != 50 || a[i + 1] != 50
    ensures LosesNothing(a, TWOS, halves) <==> SurvivesLineMode(a, TWOS)
  {
    NoCommonSuffix(a[0..], TWOS[0..]);
    BetweenTheEnds(a, TWOS, 0, 0, halves);
    assert Middle(a, 0, 0) == a && Middle(TWOS, 0, 0) == TWOS;
    if IndexOf(a, TWOS, 0) != -1 {
      TwosFound(a, IndexOf(a, TWOS, 0));
    }
    assert HalfOf(a, TWOS).None?;
  }

  lemma {:induction false} TwosFound(a: Text, i: int)
    requires MatchesAt(a, TWOS, i)
    ensures 0 <= i < |a| - 1 && a[i] == 50 && a[i + 1] == 50
  {
    assert a[i..i + |TWOS|][0] == TWOS[0] && a[i..i + |TWOS|][1] == TWOS[1];
  }

  /** Of the lines of 65536 different units at least one is lost. */
  lemma {:induction false} TooManyLines(halves: bool)
    ensures |UnitLines(UNITS)| == 131072
    ensures !LosesNothing(UnitLines(UNITS), TWOS, halves)
  {
    hide UnitLines, LosesNothing, Lines;
    var a := UnitLines(UNITS);
    UnitLinesDiffer(UNITS);
    UnitLinesEnds(UNITS);
    forall i | 0 <= i < |a| - 1 ensures a[i] != 50 || a[i + 1] != 50 {
      NeverTwice(UNITS, i);
    }
    GoesByLine(a, halves);
    MoreInBoth(LinesIn(Lines(a)), LinesIn(Lines(TWOS)));
  }

  lemma {:induction false} UnitLinesEnds(n: nat)
    requires 0 < n <= UNITS
    ensures UnitLines(n)[0] == n - 1 && UnitLines(n)[2 * n - 1] == NEWLINE
  {
    if n > 1 {
      UnitLinesEnds(n - 1);
    }
  }

  lemma {:induction false} MoreInBoth<T>(a: set<T>, b: set<T>)
    ensures |a| <= |a + b|
  {
    assert a + b == a + (b - a);
  }

  /** A text of ones, with the name that a line must not be as its last line. */
  const OWN_PROPERTY_LINE: Text := seq(300, _ => 49) + [NEWLINE] + HAS_OWN_PROPERTY

  /** One line, as the last one, makes the table unusable for the other text. */
  lemma {:induction false} OwnPropertyLine(halves: bool)
    ensures !LosesNothing(OWN_PROPERTY_LINE, TWOS, halves)
  {
    hide LosesNothing, Lines;
    HasOwnPropertyLine();
    NoTwos();
    GoesByLine(OWN_PROPERTY_LINE, halves);
  }

  lemma {:induction false} NoTwos()
    ensures |OWN_PROPERTY_LINE| > 300 && forall i :: 0 <= i < |OWN_PROPERTY_LINE| ==> OWN_PROPERTY_LINE[i] != 50
  {
    assert forall i :: 0 <= i < |HAS_OWN_PROPERTY| ==> HAS_OWN_PROPERTY[i] > 50;
  }

  lemma {:induction false} TwoPieces(p: Text, q: Text)
    requires Piece(p) && Ended(p) && Piece(q) && q != []
    ensures q in Lines(p + q)
  {
    hide Lines;
    EndedPieceFirst(p, q);
    LastPiece(q);
    assert Lines(p + q)[1] == q;
  }

  lemma {:induction false} HasOwnPropertyLine()
    ensures HAS_OWN_PROPERTY in Lines(OWN_PROPERTY_LINE)
  {
    TwoPieces(seq(300, _ => 49) + [NEWLINE], HAS_OWN_PROPERTY);
  }
}
