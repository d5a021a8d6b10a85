/**
 Lists of patches as text: for each patch a header with two ranges, then a line for each diff.
 */
module DiffPatch {
  import opened Wrappers
  import opened DiffText
  import opened Diffs
  import opened DiffCodec

  datatype Patch = Patch(diffs: seq<Diff>, start1: int, length1: nat, start2: int, length2: nat)

  datatype PatchError =
    | InvalidPatch(line: Text)
    | IllegalEscape(line: Text)
    | InvalidMode(line: Text)

  const OPENING: Text := [AT, AT, SPACE, MINUS]
  const BETWEEN: Text := [SPACE, PLUS]
  const CLOSING: Text := [SPACE, AT, AT]

  // ---------- writing ----------

  function Number(n: int): Text {
    if n < 0 then [MINUS] + Decimal(-n) else Decimal(n)
  }

  /** A range: the position counts from 0 if the range is empty, from 1 otherwise; a length of 1 is left out. */
  function RangeText(start: int, length: nat): Text {
    if length == 0 then Number(start) + [COMMA, ZERO]
    else if length == 1 then Number(start + 1)
    else Number(start + 1) + [COMMA] + Decimal(length)
  }

  function Header(p: Patch): Text {
    OPENING + RangeText(p.start1, p.length1) + BETWEEN + RangeText(p.start2, p.length2) + CLOSING
  }

  /** `t` is a number in decimal. */
  ghost predicate Says(t: Text, n: int) {
    t != [] && (forall c :: c in t ==> IsDigit(c)) && Value(t) == n
  }

  /** Two numbers, with a comma at `k` between them. */
  ghost predicate SaysBoth(t: Text, k: int, n: int, m: int) {
    0 < k < |t| && t[k] == ',' as int && Says(t[..k], n) && Says(t[k + 1..], m)
  }

  ghost predicate SaysTwo(t: Text, n: int, m: int) {
    exists k :: SaysBoth(t, k, n, m)
  }

  /** A range counts from 1, a range that is empty from 0; its length follows a comma, unless it is 1. */
  lemma {:induction false} RangeSays(start: int, length: nat)
    requires if length == 0 then start >= 0 else start >= -1
    ensures length == 1 ==> Says(RangeText(start, length), start + 1)
    ensures length > 1 ==> SaysTwo(RangeText(start, length), start + 1, length)
    ensures length == 0 ==> SaysTwo(RangeText(start, length), start, 0)
  {
    var first := if length == 0 then start else start + 1;
    DecimalValue(first);
    DecimalValue(length);
    if length != 1 {
      var t, k := RangeText(start, length), |Decimal(first)|;
      assert t == Decimal(first) + [',' as int] + Decimal(length);
      assert t[..k] == Decimal(first) && t[k] == ',' as int && t[k + 1..] == Decimal(length);
      assert SaysBoth(t, k, first, length);
    }
  }

  /** A header: between its marks the range in the first text, then that in the second. */
  lemma {:induction false} HeaderSays(p: Patch)
    ensures var range1, range2 := RangeText(p.start1, p.length1), RangeText(p.start2, p.length2);
      Header(p) == ['@' as int, '@' as int, ' ' as int, '-' as int] + range1 + [' ' as int, '+' as int] + range2
        + [' ' as int, '@' as int, '@' as int]
  {
  }

  /** Position 381 and length 8 in the first text, 480 and 9 in the second: "@@ -382,8 +481,9 @@". */
  lemma {:induction false} HeaderExample()
    ensures Header(Patch([], 381, 8, 480, 9)) ==
      [64, 64, 32, 45, 51, 56, 50, 44, 56, 32, 43, 52, 56, 49, 44, 57, 32, 64, 64]
  {
    assert Decimal(3) == [51] && Decimal(38) == [51, 56] && Decimal(382) == [51, 56, 50];
    assert Decimal(4) == [52] && Decimal(48) == [52, 56] && Decimal(481) == [52, 56, 49];
    assert Decimal(8) == [56] && Decimal(9) == [57];
  }

  /** Every line of a patch but its header says what is done and, encoded, with what text. */
  lemma {:induction false} DiffLineSays(d: Diff, coding: Coding)
    requires coding.encode(d.text).Some?
    ensures var l := DiffLine(d, coding);
      && l != [] && l[0] == (match d.op case Insert => '+' case Delete => '-' case Equal => ' ') as int
      && coding.encode(d.text) == Some(l[1..])
  {
  }

  function Sign(op: Op): CodeUnit {
    match op
    case Insert => PLUS
    case Delete => MINUS
    case Equal => SPACE
  }

  predicate Encodable(ds: seq<Diff>, coding: Coding) {
    forall i :: 0 <= i < |ds| ==> coding.encode(ds[i].text).Some?
  }

  predicate AllEncodable(ps: seq<Patch>, coding: Coding) {
    forall i :: 0 <= i < |ps| ==> Encodable(ps[i].diffs, coding)
  }

  /** Lines, each with its line feed. */
  function Terminated(lines: seq<Text>): Text {
    if lines == [] then [] else lines[0] + ([LINE_FEED] + Terminated(lines[1..]))
  }

  function DiffLine(d: Diff, coding: Coding): Text
    requires coding.encode(d.text).Some?
  {
    [Sign(d.op)] + coding.encode(d.text).value
  }

  function PatchLines(p: Patch, coding: Coding): (lines: seq<Text>)
    requires Encodable(p.diffs, coding)
  {
    [Header(p)] + seq(|p.diffs|, i requires 0 <= i < |p.diffs| => DiffLine(p.diffs[i], coding))
  }

  lemma StringMore(p: Patch, d: Diff, coding: Coding)
    requires Encodable(p.diffs, coding) && coding.encode(d.text).Some?
    ensures var q := p.(diffs := p.diffs + [d]);
      Encodable(q.diffs, coding)
        && Terminated(PatchLines(q, coding)) == Terminated(PatchLines(p, coding)) + (DiffLine(d, coding) + [LINE_FEED])
  {
    assert PatchLines(p.(diffs := p.diffs + [d]), coding) == PatchLines(p, coding) + [DiffLine(d, coding)];
    TerminatedMore(PatchLines(p, coding), DiffLine(d, coding));
  }

  /** The text of one patch; nothing if one of its diffs cannot be encoded. */
  method PatchToString(p: Patch, coding: Coding) returns (text: Option<Text>)
    ensures text.Some? <==> Encodable(p.diffs, coding)
    ensures text.Some? ==> text.value == Spaced(Terminated(PatchLines(p, coding)))
  {
    var s := Header(p) + [LINE_FEED];
    TerminatedOne(Header(p));
    for x := 0 to |p.diffs|
      invariant Encodable(p.diffs[..x], coding) && s == Terminated(PatchLines(p.(diffs := p.diffs[..x]), coding))
    {
      var encoded := coding.encode(p.diffs[x].text);
      if encoded.None? {
        return None;
      }
      assert p.diffs[..x + 1] == p.diffs[..x] + [p.diffs[x]];
      StringMore(p.(diffs := p.diffs[..x]), p.diffs[x], coding);
      s := s + ([Sign(p.diffs[x].op)] + encoded.value + [LINE_FEED]);
    }
    assert p.diffs[..|p.diffs|] == p.diffs;
    return Some(Spaced(s));
  }

  lemma TerminatedOne(line: Text)
    ensures Terminated([line]) == line + [LINE_FEED]
  {
    assert [line][1..] == [];
    assert [LINE_FEED] + [] == [LINE_FEED];
  }

  lemma {:induction false} TerminatedConcat(a: seq<Text>, b: seq<Text>)
    ensures Terminated(a + b) == Terminated(a) + Terminated(b)
  {
    if a == [] {
      assert a + b == b;
    } else {
      TerminatedConcat(a[1..], b);
      assert (a + b)[1..] == a[1..] + b;
      Regroup([LINE_FEED], Terminated(a[1..]), Terminated(b));
      Regroup(a[0], [LINE_FEED] + Terminated(a[1..]), Terminated(b));
    }
  }

  lemma TerminatedMore(lines: seq<Text>, line: Text)
    ensures Terminated(lines + [line]) == Terminated(lines) + (line + [LINE_FEED])
  {
    TerminatedConcat(lines, [line]);
    TerminatedOne(line);
  }

  /** The lines of all patches, before escaped spaces are put back. */
  function AllLines(ps: seq<Patch>, coding: Coding): seq<Text>
    requires AllEncodable(ps, coding)
  {
    if ps == [] then [] else PatchLines(ps[0], coding) + AllLines(ps[1..], coding)
  }

  lemma {:induction false} AllLinesMore(ps: seq<Patch>, p: Patch, coding: Coding)
    requires AllEncodable(ps, coding) && Encodable(p.diffs, coding)
    ensures AllEncodable(ps + [p], coding) && AllLines(ps + [p], coding) == AllLines(ps, coding) + PatchLines(p, coding)
  {
    if ps == [] {
      assert ps + [p] == [p] && [p][1..] == [];
      assert PatchLines(p, coding) + [] == PatchLines(p, coding) == [] + PatchLines(p, coding);
    } else {
      AllLinesMore(ps[1..], p, coding);
      assert (ps + [p])[1..] == ps[1..] + [p];
      Regroup(PatchLines(ps[0], coding), AllLines(ps[1..], coding), PatchLines(p, coding));
    }
  }

  lemma TextMore(ps: seq<Patch>, x: nat, coding: Coding)
    requires x < |ps| && AllEncodable(ps[..x], coding) && Encodable(ps[x].diffs, coding)
    ensures AllEncodable(ps[..x + 1], coding)
    ensures PatchesText(ps[..x + 1], coding) == PatchesText(ps[..x], coding)
      + Spaced(Terminated(PatchLines(ps[x], coding)))
  {
    assert ps[..x + 1] == ps[..x] + [ps[x]];
    AllLinesMore(ps[..x], ps[x], coding);
    SpacedLinesConcat(AllLines(ps[..x], coding), PatchLines(ps[x], coding));
  }

  function PatchesText(ps: seq<Patch>, coding: Coding): Text
    requires AllEncodable(ps, coding)
  {
    Spaced(Terminated(AllLines(ps, coding)))
  }

  method ToText(ps: seq<Patch>, coding: Coding) returns (text: Option<Text>)
    ensures text.Some? <==> AllEncodable(ps, coding)
    ensures text.Some? ==> text.value == PatchesText(ps, coding)
  {
    var s: Text := [];
    for x := 0 to |ps|
      invariant AllEncodable(ps[..x], coding) && s == PatchesText(ps[..x], coding)
    {
      var one := PatchToString(ps[x], coding);
      if one.None? {
        return None;
      }
      TextMore(ps, x, coding);
      s := s + one.value;
    }
    assert ps[..|ps|] == ps;
    return Some(s);
  }

  function SpacedLines(lines: seq<Text>): seq<Text> {
    seq(|lines|, i requires 0 <= i < |lines| => Spaced(lines[i]))
  }

  lemma {:induction false} SpacedTerminated(lines: seq<Text>)
    ensures Spaced(Terminated(lines)) == Terminated(SpacedLines(lines))
  {
    if lines != [] {
      SpacedTerminated(lines[1..]);
      assert SpacedLines(lines)[1..] == SpacedLines(lines[1..]);
      SpacedAcross(lines[0], LINE_FEED, Terminated(lines[1..]));
    }
  }

  lemma SpacedLinesConcat(a: seq<Text>, b: seq<Text>)
    ensures Spaced(Terminated(a + b)) == Spaced(Terminated(a)) + Spaced(Terminated(b))
  {
    SpacedTerminated(a + b);
    SpacedTerminated(a);
    SpacedTerminated(b);
    SpacedEach(a, b);
    TerminatedConcat(SpacedLines(a), SpacedLines(b));
  }

  // ---------- reading ----------

  /** What follows a prefix, if the text begins with it. */
  function After(t: Text, prefix: Text): Option<Text> {
    if StartsWith(t, prefix) then Some(t[|prefix|..]) else None
  }

  /** A range and what follows it: digits, perhaps a comma, perhaps more digits. */
  function ParseRange(t: Text): Option<(int, nat, Text)> {
    var n := DigitRun(t);
    var behind := t[n..];
    var more := if behind != [] && behind[0] == COMMA then behind[1..] else behind;
    var m := DigitRun(more);
    if n == 0 then None
    else if m == 0 then Some((Value(t[..n]) - 1, 1, more))
    else if more[..m] == [ZERO] then Some((Value(t[..n]), 0, more[m..]))
    else Some((Value(t[..n]) - 1, Value(more[..m]), more[m..]))
  }

  function ParseHeader(line: Text): Option<Patch> {
    var t1 := After(line, OPENING);
    if t1.None? then None else
    var range1 := ParseRange(t1.value);
    if range1.None? then None else
    var t2 := After(range1.value.2, BETWEEN);
    if t2.None? then None else
    var range2 := ParseRange(t2.value);
    if range2.None? || range2.value.2 != CLOSING then None
    else Some(Patch([], range1.value.0, range1.value.1, range2.value.0, range2.value.1))
  }

  /** The diffs up to the next header, and the lines from there on. */
  function ParseDiffs(lines: seq<Text>, coding: Coding): (r: Result<(seq<Diff>, seq<Text>), PatchError>)
    ensures r.Success? ==> |r.value.1| <= |lines|
  {
    if lines == [] then Success(([], []))
    else
      var line := lines[0];
      var text := coding.decode(SubstringFrom(line, 1));
      if text.None? then Failure(IllegalEscape(line))
      else if line == [] then ParseDiffs(lines[1..], coding)
      else if line[0] == MINUS then FollowDiff(Diff(Delete, text.value), ParseDiffs(lines[1..], coding))
      else if line[0] == PLUS then FollowDiff(Diff(Insert, text.value), ParseDiffs(lines[1..], coding))
      else if line[0] == SPACE then FollowDiff(Diff(Equal, text.value), ParseDiffs(lines[1..], coding))
      else if line[0] == AT then Success(([], lines))
      else Failure(InvalidMode(line))
  }

  function FollowDiff(d: Diff, rest: Result<(seq<Diff>, seq<Text>), PatchError>): Result<(seq<Diff>, seq<Text>),
        PatchError> {
    match rest
    case Success(pair) => Success(([d] + pair.0, pair.1))
    case Failure(error) => Failure(error)
  }

  function ParsePatches(lines: seq<Text>, coding: Coding): Result<seq<Patch>, PatchError>
    decreases |lines|
  {
    if lines == [] then Success([])
    else
      var header := ParseHeader(lines[0]);
      if header.None? then Failure(InvalidPatch(lines[0]))
      else
        var diffs := ParseDiffs(lines[1..], coding);
        if diffs.Failure? then Failure(diffs.error)
        else FollowPatch(header.value.(diffs := diffs.value.0), ParsePatches(diffs.value.1, coding))
  }

  function FollowPatch(p: Patch, rest: Result<seq<Patch>, PatchError>): Result<seq<Patch>, PatchError> {
    match rest
    case Success(ps) => Success([p] + ps)
    case Failure(error) => Failure(error)
  }

  /** What a text says. */
  function Parsed(text: Text, coding: Coding): Result<seq<Patch>, PatchError> {
    if text == [] then Success([]) else ParsePatches(Split(text, LINE_FEED), coding)
  }

  function OntoDiffs(done: seq<Diff>, rest: Result<(seq<Diff>, seq<Text>), PatchError>): Result<(seq<Diff>, seq<Text>),
        PatchError> {
    match rest
    case Success(pair) => Success((done + pair.0, pair.1))
    case Failure(error) => Failure(error)
  }

  lemma OntoFollow(done: seq<Diff>, d: Diff, rest: Result<(seq<Diff>, seq<Text>), PatchError>)
    ensures OntoDiffs(done, FollowDiff(d, rest)) == OntoDiffs(done + [d], rest)
  {
    if rest.Success? {
      Regroup(done, [d], rest.value.0);
    }
  }

  lemma OntoNothing(rest: Result<(seq<Diff>, seq<Text>), PatchError>)
    ensures OntoDiffs([], rest) == rest
  {
    if rest.Success? {
      assert [] + rest.value.0 == rest.value.0;
    }
  }

  /** Reads diff lines from line `start` on, up to a header or the end. */
  method ReadDiffs(lines: seq<Text>, start: nat, coding: Coding) returns (result: Result<(seq<Diff>, nat), PatchError>)
    requires start <= |lines|
    ensures match result
      case Success(pair) => start <= pair.1 <= |lines|
        && ParseDiffs(lines[start..], coding) == Success((pair.0, lines[pair.1..]))
      case Failure(error) => ParseDiffs(lines[start..], coding) == Failure(error)
  {
    var c, diffs: seq<Diff> := start, [];
    OntoNothing(ParseDiffs(lines[start..], coding));
    while c < |lines|
      invariant start <= c <= |lines|
      invariant ParseDiffs(lines[start..], coding) == OntoDiffs(diffs, ParseDiffs(lines[c..], coding))
    {
      var line := lines[c];
      assert lines[c..] == [line] + lines[c + 1..];
      var text := coding.decode(SubstringFrom(line, 1));
      if text.None? {
        return Failure(IllegalEscape(line));
      }
      if line != [] {
        if line[0] == AT {
          assert diffs + [] == diffs;
          return Success((diffs, c));
        } else if line[0] != MINUS && line[0] != PLUS && line[0] != SPACE {
          return Failure(InvalidMode(line));
        }
        var d := Diff(if line[0] == MINUS then Delete else if line[0] == PLUS then Insert else Equal, text.value);
        OntoFollow(diffs, d, ParseDiffs(lines[c + 1..], coding));
        diffs := diffs + [d];
      }
      c := c + 1;
    }
    assert diffs + [] == diffs;
    return Success((diffs, c));
  }

  function OntoPatches(done: seq<Patch>, rest: Result<seq<Patch>, PatchError>): Result<seq<Patch>, PatchError> {
    match rest
    case Success(ps) => Success(done + ps)
    case Failure(error) => Failure(error)
  }

  lemma OntoPatch(done: seq<Patch>, p: Patch, rest: Result<seq<Patch>, PatchError>)
    ensures OntoPatches(done, FollowPatch(p, rest)) == OntoPatches(done + [p], rest)
    ensures OntoPatches([], rest) == rest
  {
    if rest.Success? {
      Regroup(done, [p], rest.value);
      assert [] + rest.value == rest.value;
    }
  }

  method FromText(text: Text, coding: Coding) returns (result: Result<seq<Patch>, PatchError>)
    ensures result == Parsed(text, coding)
  {
    if text == [] {
      return Success([]);
    }
    var lines := Split(text, LINE_FEED);
    var c, patches: seq<Patch> := 0, [];
    assert lines[0..] == lines;
    OntoPatch([], Patch([], 0, 0, 0, 0), ParsePatches(lines, coding));
    while c < |lines|
      invariant 0 <= c <= |lines|
      invariant ParsePatches(lines, coding) == OntoPatches(patches, ParsePatches(lines[c..], coding))
      decreases |lines| - c
    {
      var header := ParseHeader(lines[c]);
      assert lines[c..][1..] == lines[c + 1..];
      if header.None? {
        return Failure(InvalidPatch(lines[c]));
      }
      var diffs := ReadDiffs(lines, c + 1, coding);
      if diffs.Failure? {
        return Failure(diffs.error);
      }
      var patch := header.value.(diffs := diffs.value.0);
      OntoPatch(patches, patch, ParsePatches(lines[diffs.value.1..], coding));
      patches, c := patches + [patch], diffs.value.1;
    }
    assert patches + [] == patches;
    return Success(patches);
  }

  // ---------- there and back ----------

  /** The position as it is written is not negative. */
  predicate PrintableRange(start: int, length: nat) {
    if length == 0 then start >= 0 else start >= -1
  }

  predicate Printable(p: Patch) {
    PrintableRange(p.start1, p.length1) && PrintableRange(p.start2, p.length2)
  }

  lemma DecimalThen(n: nat, rest: Text)
    requires rest == [] || !IsDigit(rest[0])
    ensures var t := Decimal(n) + rest;
      DigitRun(t) == |Decimal(n)| > 0 && t[..DigitRun(t)] == Decimal(n) && t[DigitRun(t)..] == rest
        && Value(Decimal(n)) == n
  {
    DecimalValue(n);
    DigitRunOf(Decimal(n), rest);
  }

  lemma NoDigits(t: Text)
    requires t != [] && !IsDigit(t[0])
    ensures DigitRun(t) == 0
  {
  }

  /** What a range is read as, given its digits before and after a comma. */
  lemma RangeFrom(n: nat, m: nat, behind: Text, rest: Text)
    requires behind == [COMMA] + (Decimal(m) + rest) && (rest == [] || !IsDigit(rest[0]))
    ensures ParseRange(Decimal(n) + behind) == Some(if Decimal(m) == [ZERO] then (n, 0, rest) else (n - 1, m, rest))
  {
    DecimalThen(n, behind);
    DecimalThen(m, rest);
    assert behind[1..] == Decimal(m) + rest;
  }

  lemma RangeOfOne(n: nat, rest: Text)
    requires rest != [] && !IsDigit(rest[0]) && rest[0] != COMMA
    ensures ParseRange(Decimal(n) + rest) == Some((n - 1, 1, rest))
  {
    DecimalThen(n, rest);
    NoDigits(rest);
  }

  /** A printed range is read again, and the text after it left over. */
  lemma RangeRead(start: int, length: nat, rest: Text)
    requires PrintableRange(start, length) && rest != [] && !IsDigit(rest[0]) && rest[0] != COMMA
    ensures ParseRange(RangeText(start, length) + rest) == Some((start, length, rest))
  {
    RangeTextSplits(start, length, rest);
    if length == 0 {
      RangeFrom(start, 0, [COMMA] + (Decimal(0) + rest), rest);
    } else if length == 1 {
      RangeOfOne(start + 1, rest);
    } else {
      RangeFrom(start + 1, length, [COMMA] + (Decimal(length) + rest), rest);
      NotZero(length);
    }
  }

  lemma RangeTextSplits(start: int, length: nat, rest: Text)
    requires PrintableRange(start, length)
    ensures RangeText(start, length) + rest ==
      if length == 0 then Decimal(start) + ([COMMA] + (Decimal(0) + rest))
      else if length == 1 then Decimal(start + 1) + rest
      else Decimal(start + 1) + ([COMMA] + (Decimal(length) + rest))
  {
    if length == 0 {
      assert [COMMA, ZERO] + rest == [COMMA] + ([ZERO] + rest);
      Regroup(Decimal(start), [COMMA, ZERO], rest);
    } else if length > 1 {
      Regroup(Decimal(start + 1) + [COMMA], Decimal(length), rest);
      Regroup(Decimal(start + 1), [COMMA], Decimal(length) + rest);
    }
  }

  lemma NotZero(n: nat)
    requires n > 0
    ensures Decimal(n) != [ZERO]
  {
    DecimalValue(n);
    assert Value([ZERO]) == 0;
  }

  lemma RangeNotRead(start: int, length: nat, rest: Text)
    requires !PrintableRange(start, length)
    ensures ParseRange(RangeText(start, length) + rest) == None
  {
    NoDigits(RangeText(start, length) + rest);
  }

  lemma AfterPrefix(prefix: Text, rest: Text)
    ensures After(prefix + rest, prefix) == Some(rest)
  {
  }

  lemma HeaderFrom(line: Text, behind1: Text, behind2: Text, range1: Option<(int, nat, Text)>,
        range2: Option<(int, nat, Text)>)
    requires line == OPENING + behind1 && ParseRange(behind1) == range1 && ParseRange(behind2) == range2
    requires range1.Some? ==> range1.value.2 == BETWEEN + behind2
    ensures ParseHeader(line) ==
      if range1.None? || range2.None? || range2.value.2 != CLOSING then None
      else Some(Patch([], range1.value.0, range1.value.1, range2.value.0, range2.value.1))
  {
    AfterPrefix(OPENING, behind1);
    AfterPrefix(BETWEEN, behind2);
  }

  lemma RangeReadOrNot(start: int, length: nat, rest: Text)
    requires rest != [] && !IsDigit(rest[0]) && rest[0] != COMMA
    ensures ParseRange(RangeText(start, length) + rest) ==
      if PrintableRange(start, length) then Some((start, length, rest)) else None
  {
    if PrintableRange(start, length) {
      RangeRead(start, length, rest);
    } else {
      RangeNotRead(start, length, rest);
    }
  }

  /** A header is read again exactly if its positions can be printed. */
  lemma HeaderRead(p: Patch)
    ensures ParseHeader(Header(p)) == if Printable(p) then Some(p.(diffs := [])) else None
  {
    var behind2 := RangeText(p.start2, p.length2) + CLOSING;
    var behind1 := RangeText(p.start1, p.length1) + (BETWEEN + behind2);
    HeaderSplits(p);
    RangeReadOrNot(p.start1, p.length1, BETWEEN + behind2);
    RangeReadOrNot(p.start2, p.length2, CLOSING);
    HeaderFrom(Header(p), behind1, behind2, ParseRange(behind1), ParseRange(behind2));
  }

  lemma HeaderSplits(p: Patch)
    ensures Header(p) == OPENING
      + (RangeText(p.start1, p.length1) + (BETWEEN + (RangeText(p.start2, p.length2) + CLOSING)))
  {
  }

  /** A header has neither a percent sign nor a line feed in it. */
  lemma HeaderPlain(p: Patch)
    ensures PERCENT !in Header(p) && LINE_FEED !in Header(p) && Spaced(Header(p)) == Header(p)
    ensures Header(p)[0] == AT
  {
    RangePlain(p.start1, p.length1);
    RangePlain(p.start2, p.length2);
    SpacedPlain(Header(p));
  }

  lemma RangePlain(start: int, length: nat)
    ensures PERCENT !in RangeText(start, length) && LINE_FEED !in RangeText(start, length)
  {
    NumberPlain(start);
    NumberPlain(start + 1);
    NumberPlain(length);
  }

  lemma NumberPlain(n: int)
    ensures PERCENT !in Number(n) && LINE_FEED !in Number(n)
  {
    DecimalValue(if n < 0 then -n else n);
  }

  /** A diff's line as it stands in the text. */
  function SpacedLine(d: Diff, coding: Coding): Text
    requires coding.encode(d.text).Some?
  {
    Spaced(DiffLine(d, coding))
  }

  lemma LineStands(d: Diff, coding: Coding)
    requires Faithful(coding) && coding.encode(d.text).Some?
    ensures SpacedLine(d, coding) == [Sign(d.op)] + Spaced(coding.encode(d.text).value)
    ensures LINE_FEED !in SpacedLine(d, coding)
  {
    var e := coding.encode(d.text).value;
    assert DiffLine(d, coding) == [] + ([Sign(d.op)] + e);
    SpacedAcross([], Sign(d.op), e);
    SpacedKeeps(e, LINE_FEED);
  }

  function SpacedDiffLines(ds: seq<Diff>, coding: Coding): seq<Text>
    requires Encodable(ds, coding)
  {
    seq(|ds|, i requires 0 <= i < |ds| => SpacedLine(ds[i], coding))
  }

  /** What can come after a patch's lines: a header, or the empty line at the very end. */
  predicate Behind(rest: seq<Text>) {
    rest == [[]] || (rest != [] && rest[0] != [] && rest[0][0] == AT && PERCENT !in rest[0])
  }

  lemma {:induction false} DiffLinesRead(ds: seq<Diff>, rest: seq<Text>, coding: Coding)
    requires Faithful(coding) && Encodable(ds, coding) && Behind(rest)
    ensures ParseDiffs(SpacedDiffLines(ds, coding) + rest, coding) == Success((ds, if rest == [[]] then [] else rest))
  {
    if ds == [] {
      assert SpacedDiffLines(ds, coding) + rest == rest;
      BehindRead(rest, coding);
    } else {
      var line := SpacedLine(ds[0], coding);
      DiffLinesRead(ds[1..], rest, coding);
      DiffLineRead(ds[0], SpacedDiffLines(ds[1..], coding) + rest, coding);
      assert SpacedDiffLines(ds, coding) == [line] + SpacedDiffLines(ds[1..], coding);
      Regroup([line], SpacedDiffLines(ds[1..], coding), rest);
      assert ds == [ds[0]] + ds[1..];
    }
  }

  lemma DiffLineRead(d: Diff, more: seq<Text>, coding: Coding)
    requires Faithful(coding) && coding.encode(d.text).Some?
    ensures ParseDiffs([SpacedLine(d, coding)] + more, coding) == FollowDiff(d, ParseDiffs(more, coding))
  {
    var lines := [SpacedLine(d, coding)] + more;
    LineStands(d, coding);
    assert SubstringFrom(lines[0], 1) == Spaced(coding.encode(d.text).value);
    assert lines[1..] == more;
  }

  lemma BehindRead(rest: seq<Text>, coding: Coding)
    requires Faithful(coding) && Behind(rest)
    ensures ParseDiffs(rest, coding) == Success(([], if rest == [[]] then [] else rest))
  {
    var tail := SubstringFrom(rest[0], 1);
    assert PERCENT !in tail;
    assert coding.decode(tail).Some?;
    if rest == [[]] {
      assert rest[1..] == [];
      assert ParseDiffs([], coding) == Success(([], []));
    }
  }

  /** A patch's lines as they stand in the text. */
  function StandingLines(p: Patch, coding: Coding): seq<Text>
    requires Encodable(p.diffs, coding)
  {
    [Header(p)] + SpacedDiffLines(p.diffs, coding)
  }

  function AllStanding(ps: seq<Patch>, coding: Coding): seq<Text>
    requires AllEncodable(ps, coding)
  {
    if ps == [] then [] else StandingLines(ps[0], coding) + AllStanding(ps[1..], coding)
  }

  lemma {:induction false} LinesStand(ps: seq<Patch>, coding: Coding)
    requires AllEncodable(ps, coding)
    ensures SpacedLines(AllLines(ps, coding)) == AllStanding(ps, coding)
  {
    if ps != [] {
      LinesStand(ps[1..], coding);
      PatchStands(ps[0], coding);
      SpacedEach(PatchLines(ps[0], coding), AllLines(ps[1..], coding));
    }
  }

  lemma PatchStands(p: Patch, coding: Coding)
    requires Encodable(p.diffs, coding)
    ensures SpacedLines(PatchLines(p, coding)) == StandingLines(p, coding)
  {
    HeaderPlain(p);
  }

  lemma SpacedEach(a: seq<Text>, b: seq<Text>)
    ensures SpacedLines(a + b) == SpacedLines(a) + SpacedLines(b)
  {
  }

  lemma {:induction false} NoLineFeeds(ps: seq<Patch>, coding: Coding)
    requires Faithful(coding) && AllEncodable(ps, coding)
    ensures forall l :: l in AllStanding(ps, coding) ==> LINE_FEED !in l
  {
    if ps != [] {
      NoLineFeeds(ps[1..], coding);
      HeaderPlain(ps[0]);
      forall l | l in SpacedDiffLines(ps[0].diffs, coding)
        ensures LINE_FEED !in l
      {
        var i :| 0 <= i < |ps[0].diffs| && SpacedDiffLines(ps[0].diffs, coding)[i] == l;
        LineStands(ps[0].diffs[i], coding);
      }
    }
  }

  lemma {:induction false} SplitTerminated(lines: seq<Text>)
    requires forall l :: l in lines ==> LINE_FEED !in l
    ensures Split(Terminated(lines), LINE_FEED) == lines + [[]]
  {
    if lines == [] {
      assert lines + [[]] == [[]];
    } else {
      SplitTerminated(lines[1..]);
      SplitAtSeparator(lines[0], LINE_FEED, Terminated(lines[1..]));
      Regroup(lines[0], [LINE_FEED], Terminated(lines[1..]));
      assert lines == [lines[0]] + lines[1..];
      Regroup([lines[0]], lines[1..], [[]]);
    }
  }

  lemma BehindPatch(ps: seq<Patch>, coding: Coding)
    requires AllEncodable(ps, coding)
    ensures Behind(AllStanding(ps, coding) + [[]]) && (AllStanding(ps, coding) + [[]] == [[]] <==> ps == [])
  {
    if ps == [] {
      assert AllStanding(ps, coding) + [[]] == [[]];
    } else {
      HeaderPlain(ps[0]);
      assert (AllStanding(ps, coding) + [[]])[0] == Header(ps[0]);
    }
  }

  /** Reading the lines of one patch and what comes behind them. */
  lemma OnePatchRead(p: Patch, behind: seq<Text>, coding: Coding)
    requires Faithful(coding) && Encodable(p.diffs, coding) && Behind(behind)
    ensures ParsePatches([Header(p)] + (SpacedDiffLines(p.diffs, coding) + behind), coding) ==
      if Printable(p) then FollowPatch(p, ParsePatches(if behind == [[]] then [] else behind, coding))
        else Failure(InvalidPatch(Header(p)))
  {
    var lines := [Header(p)] + (SpacedDiffLines(p.diffs, coding) + behind);
    assert lines[1..] == SpacedDiffLines(p.diffs, coding) + behind;
    HeaderRead(p);
    DiffLinesRead(p.diffs, behind, coding);
  }

  /** Reading the lines of patches gives the patches back exactly if all their positions can be printed. */
  lemma {:induction false} PatchesRead(ps: seq<Patch>, coding: Coding)
    requires Faithful(coding) && AllEncodable(ps, coding) && ps != []
    ensures var result := ParsePatches(AllStanding(ps, coding) + [[]], coding);
      if forall p :: p in ps ==> Printable(p) then result == Success(ps) else result.Failure?
    decreases |ps|
  {
    var behind := AllStanding(ps[1..], coding) + [[]];
    FirstStanding(ps, coding);
    BehindPatch(ps[1..], coding);
    OnePatchRead(ps[0], behind, coding);
    assert ps == [ps[0]] + ps[1..];
    hide ParsePatches, Encodable, Printable, Behind, AllStanding;
    if ps[1..] != [] {
      PatchesRead(ps[1..], coding);
    } else {
      NothingRead(coding);
    }
  }

  lemma {:induction false} NothingRead(coding: Coding)
    ensures ParsePatches([], coding) == Success([])
  {
  }

  lemma {:induction false} FirstStanding(ps: seq<Patch>, coding: Coding)
    requires AllEncodable(ps, coding) && ps != []
    ensures AllStanding(ps, coding) + [[]] ==
      [Header(ps[0])] + (SpacedDiffLines(ps[0].diffs, coding) + (AllStanding(ps[1..], coding) + [[]]))
  {
    Regroup([Header(ps[0])], SpacedDiffLines(ps[0].diffs, coding), AllStanding(ps[1..], coding) + [[]]);
    Regroup(StandingLines(ps[0], coding), AllStanding(ps[1..], coding), [[]]);
  }

  /** Patches written as text are read again, all of them, exactly if all their positions can be printed. */
  lemma PatchRoundTrip(ps: seq<Patch>, coding: Coding)
    requires Faithful(coding) && AllEncodable(ps, coding)
    ensures var result := Parsed(PatchesText(ps, coding), coding);
      result == Success(ps) <==> forall p :: p in ps ==> Printable(p)
  {
    if ps != [] {
      SpacedTerminated(AllLines(ps, coding));
      LinesStand(ps, coding);
      NoLineFeeds(ps, coding);
      SplitTerminated(AllStanding(ps, coding));
      PatchesRead(ps, coding);
    }
  }
}
