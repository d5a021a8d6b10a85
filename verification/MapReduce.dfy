/**
 Counting words with actors: lines are turned into lists of words, lists into partial counts, and
 partial counts are merged into the final one, in whatever order the messages arrive.
 Changing the case of a word is left open, as are the words that are not counted.
 */
module MapReduce {
  import opened Wrappers

  type Word = string

  const EOF := "EOF"
  const DISPLAY_LIST := "DISPLAY_LIST"

  /** How words are read: changed to lower and to upper case, and not counted if among `stopWords`. */
  datatype Reading = Reading(lower: string -> string, upper: string -> string, stopWords: set<Word>)

  // ---------- counts ----------

  function Count(words: seq<Word>, w: Word): nat {
    if words == [] then 0 else (if words[0] == w then 1 else 0) + Count(words[1..], w)
  }

  /** The count a map stands for. */
  function In(m: map<Word, nat>, w: Word): nat {
    if w in m then m[w] else 0
  }

  /** A map that has exactly the words counted, each at least once. */
  ghost predicate Proper(m: map<Word, nat>) {
    forall w :: w in m ==> m[w] > 0
  }

  lemma {:induction false} CountConcat(a: seq<Word>, b: seq<Word>, w: Word)
    ensures Count(a + b, w) == Count(a, w) + Count(b, w)
  {
    if a == [] {
      assert a + b == b;
    } else {
      CountConcat(a[1..], b, w);
      assert (a + b)[1..] == a[1..] + b;
    }
  }

  lemma CountOneMore(list: seq<Word>, i: nat, w: Word)
    requires i < |list|
    ensures Count(list[..i + 1], w) == Count(list[..i], w) + if list[i] == w then 1 else 0
  {
    assert list[..i + 1] == list[..i] + [list[i]];
    CountConcat(list[..i], [list[i]], w);
    assert Count([list[i]][1..], w) == 0;
  }

  // ---------- what the actors compute ----------

  /** What separates tokens: space, tab, newline, carriage return and form feed. */
  const DELIMITERS: seq<int> := [32, 9, 10, 13, 12]

  predicate IsDelimiter(c: char) {
    c as int in DELIMITERS
  }

  /** No unit of a text separates tokens. */
  predicate Unbroken(t: string) {
    forall i :: 0 <= i < |t| ==> !IsDelimiter(t[i])
  }

  function TokenLength(line: string): (n: nat)
    ensures n <= |line| && (forall i :: 0 <= i < n ==> !IsDelimiter(line[i])) && (n < |line| ==> IsDelimiter(line[n]))
  {
    if line == [] || IsDelimiter(line[0]) then 0 else TokenLength(line[1..]) + 1
  }

  /** The longest stretches of a line without a delimiter. */
  function Tokens(line: string): seq<Word>
    decreases |line|
  {
    if line == [] then []
    else if IsDelimiter(line[0]) then Tokens(line[1..])
    else
      [line[..TokenLength(line)]] + Tokens(line[TokenLength(line)..])
  }

  lemma {:induction false} TokenLengthIs(line: string, n: nat)
    requires n <= |line| && (forall i :: 0 <= i < n ==> !IsDelimiter(line[i])) && (n < |line| ==> IsDelimiter(line[n]))
    ensures TokenLength(line) == n
  {
    hide IsDelimiter;
  }

  lemma Regroup(a: seq<Word>, b: seq<Word>, c: seq<Word>)
    ensures (a + b) + c == a + (b + c)
  {
  }

  /** A stretch without a delimiter is a token if nothing follows it but what a delimiter begins. */
  lemma {:induction false} TokenFirst(t: string, rest: string)
    requires Unbroken(t) && t != [] && (rest != [] ==> IsDelimiter(rest[0]))
    ensures Tokens(t + rest) == [t] + Tokens(rest)
  {
    var line, n := t + rest, |t|;
    assert line[..n] == t && line[n..] == rest && forall i :: 0 <= i < n ==> line[i] == t[i];
    hide IsDelimiter;
    TokenLengthIs(line, n);
  }

  /** A delimiter separates what is before it from what is behind it. */
  lemma {:induction false} DelimiterSeparates(a: string, d: char, b: string)
    requires IsDelimiter(d)
    ensures Tokens(a + [d] + b) == Tokens(a) + Tokens(b)
    decreases |a|
  {
    hide IsDelimiter;
    var line := a + [d] + b;
    if a == [] {
      assert line == [d] + b && line[1..] == b;
    } else if IsDelimiter(a[0]) {
      assert line[1..] == a[1..] + [d] + b;
      DelimiterSeparates(a[1..], d, b);
    } else {
      var t, rest := a[..TokenLength(a)], a[TokenLength(a)..];
      assert a == t + rest && line == t + (rest + [d] + b);
      DelimiterSeparates(rest, d, b);
      TokenBeforeBoth(t, rest, d, b);
    }
  }

  lemma {:induction false} TokenBeforeBoth(t: string, rest: string, d: char, b: string)
    requires Unbroken(t) && t != [] && (rest != [] ==> IsDelimiter(rest[0])) && IsDelimiter(d)
    requires Tokens(rest + [d] + b) == Tokens(rest) + Tokens(b)
    ensures Tokens(t + (rest + [d] + b)) == Tokens(t + rest) + Tokens(b)
  {
    hide IsDelimiter, Tokens, Unbroken;
    TokenFirst(t, rest);
    TokenFirst(t, rest + [d] + b);
    Regroup([t], Tokens(rest), Tokens(b));
  }

  /** A word has nothing but letters from A to Z in upper case, and is not among those left out. */
  predicate IsWord(reading: Reading, w: Word) {
    IsAlphaFrom(reading.upper(w), 0) && w !in reading.stopWords
  }

  predicate IsAlphaFrom(upper: string, at: nat) {
    forall i :: at <= i < |upper| ==> 65 <= upper[i] as int <= 90
  }

  /** The words among the tokens, in lower case. */
  function WordsOf(reading: Reading, tokens: seq<Word>): seq<Word> {
    if tokens == [] then []
    else
      var w := reading.lower(tokens[0]);
      (if IsWord(reading, w) then [w] else []) + WordsOf(reading, tokens[1..])
  }

  function LineWords(reading: Reading, line: string): seq<Word> {
    WordsOf(reading, Tokens(line))
  }

  method IsAlpha(reading: Reading, s: Word) returns (alpha: bool)
    ensures alpha <==> IsAlphaFrom(reading.upper(s), 0)
  {
    var upper := reading.upper(s);
    var i := 0;
    while i < |upper|
      invariant 0 <= i <= |upper| && (IsAlphaFrom(upper, 0) <==> IsAlphaFrom(upper, i))
    {
      var c := upper[i] as int;
      if c < 65 || c > 90 {
        return false;
      }
      i := i + 1;
    }
    return true;
  }

  /** The place of the next token, or the end of the line. */
  method SkipDelimiters(line: string, start: nat) returns (position: nat)
    requires start <= |line|
    ensures start <= position <= |line| && Tokens(line[position..]) == Tokens(line[start..])
    ensures position < |line| ==> !IsDelimiter(line[position])
  {
    position := start;
    while position < |line| && IsDelimiter(line[position])
      invariant start <= position <= |line| && Tokens(line[position..]) == Tokens(line[start..])
    {
      assert line[position..][1..] == line[position + 1..];
      position := position + 1;
    }
  }

  /** The end of the token that begins at `start`. */
  method ScanToken(line: string, start: nat) returns (position: nat)
    requires start < |line| && !IsDelimiter(line[start])
    ensures start < position <= |line|
    ensures Tokens(line[start..]) == [line[start..position]] + Tokens(line[position..])
  {
    position := start;
    while position < |line| && !IsDelimiter(line[position])
      invariant start <= position <= |line| && forall i :: start <= i < position ==> !IsDelimiter(line[i])
    {
      position := position + 1;
    }
    var rest, n := line[start..], position - start;
    assert rest[..n] == line[start..position] && rest[n..] == line[position..];
    TokenLengthIs(rest, n);
  }

  lemma {:induction false} WordsOfMore(reading: Reading, list: seq<Word>, t: Word, tokens: seq<Word>)
    ensures var w := reading.lower(t);
      list + WordsOf(reading, [t] + tokens) ==
        list + (if IsWord(reading, w) then [w] else []) + WordsOf(reading, tokens)
  {
    assert ([t] + tokens)[1..] == tokens;
    var w := reading.lower(t);
    Regroup(list, if IsWord(reading, w) then [w] else [], WordsOf(reading, tokens));
  }

  function Lowered(reading: Reading, tokens: seq<Word>): seq<Word> {
    seq(|tokens|, i requires 0 <= i < |tokens| => reading.lower(tokens[i]))
  }

  /** A word is counted in a line as often as a token in lower case is that word, unless it has something but letters
      from A to Z or is among those left out; then it is not counted at all. */
  lemma {:induction false} CountedInLine(reading: Reading, tokens: seq<Word>, w: Word)
    ensures Count(WordsOf(reading, tokens), w) ==
      if (forall c :: c in reading.upper(w) ==> 'A' <= c <= 'Z') && w !in reading.stopWords
      then Count(Lowered(reading, tokens), w) else 0
  {
    WordIs(reading, w);
    if tokens != [] {
      var v, rest := reading.lower(tokens[0]), tokens[1..];
      CountedInLine(reading, rest, w);
      assert Lowered(reading, tokens) == [v] + Lowered(reading, rest);
      hide IsWord;
      CountConcat(if IsWord(reading, v) then [v] else [], WordsOf(reading, rest), w);
      CountConcat([v], Lowered(reading, rest), w);
      CountOfOne(v, w);
    }
  }

  lemma {:induction false} CountOfOne(v: Word, w: Word)
    ensures Count([v], w) == (if v == w then 1 else 0) && Count([], w) == 0
  {
    assert [v][1..] == [];
  }

  lemma {:induction false} WordIs(reading: Reading, w: Word)
    ensures IsWord(reading, w) <==>
      (forall c :: c in reading.upper(w) ==> 'A' <= c <= 'Z') && w !in reading.stopWords
  {
    var u := reading.upper(w);
    forall c | c in u ensures IsAlphaFrom(u, 0) ==> 'A' <= c <= 'Z' {
      var i :| 0 <= i < |u| && u[i] == c;
    }
    assert forall i :: 0 <= i < |u| ==> u[i] in u;
  }

  /** The map actor's work on one line. */
  method EvaluateExpression(reading: Reading, line: string) returns (list: seq<Word>)
    ensures list == LineWords(reading, line)
  {
    hide Tokens, WordsOf, IsDelimiter, IsAlphaFrom;
    list := [];
    var position := SkipDelimiters(line, 0);
    assert line[0..] == line;
    while position < |line|
      invariant position <= |line| && (position < |line| ==> !IsDelimiter(line[position]))
      invariant list + WordsOf(reading, Tokens(line[position..])) == LineWords(reading, line)
    {
      var end := ScanToken(line, position);
      var word := reading.lower(line[position..end]);
      WordsOfMore(reading, list, line[position..end], Tokens(line[end..]));
      var alpha := IsAlpha(reading, word);
      if alpha && word !in reading.stopWords {
        list := list + [word];
      } else {
        assert list + [] == list;
      }
      position := SkipDelimiters(line, end);
    }
    assert line[position..] == [];
    NoTokens(reading);
    assert list + [] == list;
  }

  lemma {:induction false} NoTokens(reading: Reading)
    ensures WordsOf(reading, Tokens([])) == []
  {
  }

  /** The reduce actor's work on one list: how often each word is in it. */
  method Reduce(list: seq<Word>) returns (m: map<Word, nat>)
    ensures Proper(m) && forall w :: In(m, w) == Count(list, w)
  {
    m := map[];
    for i := 0 to |list|
      invariant Proper(m) && forall w :: In(m, w) == Count(list[..i], w)
    {
      ghost var before := m;
      if list[i] in m {
        m := m[list[i] := m[list[i]] + 1];
      } else {
        m := m[list[i] := 1];
      }
      forall w
        ensures In(m, w) == Count(list[..i + 1], w)
      {
        assert In(before, w) == Count(list[..i], w);
        CountOneMore(list, i, w);
      }
    }
    assert list[..|list|] == list;
  }

  /** The aggregate actor's state. */
  class AggregateActor {
    var finalReducedMap: map<Word, nat>

    constructor ()
      ensures finalReducedMap == map[]
    {
      finalReducedMap := map[];
    }

    /** Merges a partial count into the final one. */
    method AggregateInMemoryReduce(reduced: map<Word, nat>)
      modifies this
      ensures Merged(finalReducedMap, old(finalReducedMap), reduced)
    {
      var rest := reduced.Keys;
      while rest != {}
        invariant PartMerged(finalReducedMap, old(finalReducedMap), reduced, rest)
        decreases |rest|
      {
        var key :| key in rest;
        KeyMerged(finalReducedMap, old(finalReducedMap), reduced, rest, key);
        var count := reduced[key];
        if key in finalReducedMap {
          count := count + finalReducedMap[key];
        }
        finalReducedMap := finalReducedMap[key := count];
        rest := rest - {key};
      }
      AllMerged(finalReducedMap, old(finalReducedMap), reduced);
    }
  }

  /** All keys of `reduced` but those of `rest` have been merged. */
  ghost predicate PartMerged(m: map<Word, nat>, first: map<Word, nat>, reduced: map<Word, nat>, rest: set<Word>) {
    && rest <= reduced.Keys && m.Keys == first.Keys + (reduced.Keys - rest)
    && forall w :: In(m, w) == In(first, w) + if w in rest then 0 else In(reduced, w)
  }

  lemma AllMerged(m: map<Word, nat>, first: map<Word, nat>, reduced: map<Word, nat>)
    requires PartMerged(m, first, reduced, {})
    ensures Merged(m, first, reduced)
  {
  }

  lemma KeyMerged(m: map<Word, nat>, first: map<Word, nat>, reduced: map<Word, nat>, rest: set<Word>, key: Word)
    requires PartMerged(m, first, reduced, rest) && key in rest
    ensures PartMerged(m[key := reduced[key] + In(m, key)], first, reduced, rest - {key})
  {
    var m' := m[key := reduced[key] + In(m, key)];
    assert reduced.Keys - (rest - {key}) == (reduced.Keys - rest) + {key};
    forall w
      ensures In(m', w) == In(first, w) + if w in rest - {key} then 0 else In(reduced, w)
    {
      assert In(m, w) == In(first, w) + if w in rest then 0 else In(reduced, w);
    }
  }

  // ---------- the system ----------

  /** What the aggregate actor is told besides partial counts. */
  datatype Notice = Display | Finished

  /** The entry actor.  What asks for the result to be displayed is a line to be counted as well. */
  method Receive(message: string) returns (toAggregate: Option<Notice>, toMap: Option<string>)
    ensures toMap.Some? <==> message != EOF
    ensures toMap.Some? ==> toMap.value == message
    ensures toAggregate == Some(Finished) <==> toMap.None?
    ensures toAggregate.Some? && toMap.Some? <==> message == DISPLAY_LIST
  {
    toAggregate, toMap := None, None;
    if message == DISPLAY_LIST {
      toAggregate := Some(Display);
    }
    if message == EOF {
      toAggregate := Some(Finished);
    } else {
      toMap := Some(message);
    }
  }

  /** Messages under way, and the final count; `accepted` are all the lines passed on to the map actors so far. */
  datatype System = System(lines: seq<string>, lists: seq<seq<Word>>, partials: seq<map<Word, nat>>,
        final: map<Word, nat>, accepted: seq<string>)

  /** A message comes in, or one of those under way is delivered, or a partial count with the right counts is sent. */
  datatype Step =
    | Accept(message: string)
    | MapLine(at: nat)
    | ReduceList(at: nat, result: map<Word, nat>)
    | Aggregate(at: nat, result: map<Word, nat>)

  function Take<T>(s: seq<T>, at: nat): seq<T>
    requires at < |s|
  {
    s[..at] + s[at + 1..]
  }

  /** `m` is two counts put together. */
  ghost predicate Merged(m: map<Word, nat>, a: map<Word, nat>, b: map<Word, nat>) {
    m.Keys == a.Keys + b.Keys && forall w :: In(m, w) == In(a, w) + In(b, w)
  }

  /** What a step may do; the reduce and aggregate actors give what their methods promise. */
  ghost predicate Enabled(s: System, step: Step) {
    match step
    case Accept(_) => true
    case MapLine(at) => at < |s.lines|
    case ReduceList(at, m) => at < |s.lists| && Proper(m) && forall w :: In(m, w) == Count(s.lists[at], w)
    case Aggregate(at, m) => at < |s.partials| && Merged(m, s.final, s.partials[at])
  }

  ghost function Apply(s: System, reading: Reading, step: Step): System
    requires Enabled(s, step)
  {
    match step
    case Accept(message) =>
      if message == EOF then s else s.(lines := s.lines + [message], accepted := s.accepted + [message])
    case MapLine(at) => s.(lines := Take(s.lines, at), lists := s.lists + [LineWords(reading, s.lines[at])])
    case ReduceList(at, m) => s.(lists := Take(s.lists, at), partials := s.partials + [m])
    case Aggregate(at, m) => s.(partials := Take(s.partials, at), final := m)
  }

  // ---------- conservation ----------

  function InLines(reading: Reading, lines: seq<string>, w: Word): nat {
    if lines == [] then 0 else Count(LineWords(reading, lines[0]), w) + InLines(reading, lines[1..], w)
  }

  function InLists(lists: seq<seq<Word>>, w: Word): nat {
    if lists == [] then 0 else Count(lists[0], w) + InLists(lists[1..], w)
  }

  function InPartials(ms: seq<map<Word, nat>>, w: Word): nat {
    if ms == [] then 0 else In(ms[0], w) + InPartials(ms[1..], w)
  }

  lemma {:induction false} InLinesConcat(reading: Reading, a: seq<string>, b: seq<string>, w: Word)
    ensures InLines(reading, a + b, w) == InLines(reading, a, w) + InLines(reading, b, w)
  {
    if a == [] {
      assert a + b == b;
    } else {
      InLinesConcat(reading, a[1..], b, w);
      assert (a + b)[1..] == a[1..] + b;
    }
  }

  lemma {:induction false} InListsConcat(a: seq<seq<Word>>, b: seq<seq<Word>>, w: Word)
    ensures InLists(a + b, w) == InLists(a, w) + InLists(b, w)
  {
    if a == [] {
      assert a + b == b;
    } else {
      InListsConcat(a[1..], b, w);
      assert (a + b)[1..] == a[1..] + b;
    }
  }

  lemma {:induction false} InPartialsConcat(a: seq<map<Word, nat>>, b: seq<map<Word, nat>>, w: Word)
    ensures InPartials(a + b, w) == InPartials(a, w) + InPartials(b, w)
  {
    if a == [] {
      assert a + b == b;
    } else {
      InPartialsConcat(a[1..], b, w);
      assert (a + b)[1..] == a[1..] + b;
    }
  }

  lemma TakeSplits<T>(s: seq<T>, at: nat)
    requires at < |s|
    ensures s == s[..at] + ([s[at]] + s[at + 1..])
  {
  }

  lemma LineTaken(reading: Reading, lines: seq<string>, at: nat, w: Word)
    requires at < |lines|
    ensures InLines(reading, lines, w) == InLines(reading, Take(lines, at), w) + Count(LineWords(reading, lines[at]), w)
  {
    TakeSplits(lines, at);
    InLinesConcat(reading, lines[..at], [lines[at]] + lines[at + 1..], w);
    InLinesConcat(reading, lines[..at], lines[at + 1..], w);
    assert ([lines[at]] + lines[at + 1..])[1..] == lines[at + 1..];
  }

  lemma ListTaken(lists: seq<seq<Word>>, at: nat, w: Word)
    requires at < |lists|
    ensures InLists(lists, w) == InLists(Take(lists, at), w) + Count(lists[at], w)
  {
    TakeSplits(lists, at);
    InListsConcat(lists[..at], [lists[at]] + lists[at + 1..], w);
    InListsConcat(lists[..at], lists[at + 1..], w);
    assert ([lists[at]] + lists[at + 1..])[1..] == lists[at + 1..];
  }

  lemma PartialTaken(ms: seq<map<Word, nat>>, at: nat, w: Word)
    requires at < |ms|
    ensures InPartials(ms, w) == InPartials(Take(ms, at), w) + In(ms[at], w)
  {
    TakeSplits(ms, at);
    InPartialsConcat(ms[..at], [ms[at]] + ms[at + 1..], w);
    InPartialsConcat(ms[..at], ms[at + 1..], w);
    assert ([ms[at]] + ms[at + 1..])[1..] == ms[at + 1..];
  }

  /** What has been counted and what is still under way is what has been accepted. */
  ghost predicate Conserved(s: System, reading: Reading) {
    && (forall w :: In(s.final, w) + InPartials(s.partials, w) + InLists(s.lists, w) + InLines(reading, s.lines, w)
         == InLines(reading, s.accepted, w))
    && Proper(s.final) && forall i :: 0 <= i < |s.partials| ==> Proper(s.partials[i])
  }

  /** No delivery, in any order, gains or loses a word. */
  lemma StepConserves(s: System, reading: Reading, step: Step)
    requires Conserved(s, reading) && Enabled(s, step)
    ensures Conserved(Apply(s, reading, step), reading)
  {
    var s' := Apply(s, reading, step);
    forall w
      ensures In(s'.final, w) + InPartials(s'.partials, w) + InLists(s'.lists, w) + InLines(reading, s'.lines, w) ==
        InLines(reading, s'.accepted, w)
    {
      assert In(s.final, w) + InPartials(s.partials, w) + InLists(s.lists, w) + InLines(reading, s.lines, w) ==
        InLines(reading, s.accepted, w);
      StepConservesWord(s, reading, step, w);
    }
    StepProper(s, reading, step);
  }

  lemma StepConservesWord(s: System, reading: Reading, step: Step, w: Word)
    requires Enabled(s, step)
    ensures var s' := Apply(s, reading, step);
      In(s'.final, w) + InPartials(s'.partials, w) + InLists(s'.lists, w) + InLines(reading, s'.lines, w)
        + InLines(reading, s.accepted, w)
      == In(s.final, w) + InPartials(s.partials, w) + InLists(s.lists, w) + InLines(reading, s.lines, w)
        + InLines(reading, s'.accepted, w)
  {
    match step
    case Accept(message) =>
      InLinesConcat(reading, s.lines, [message], w);
      InLinesConcat(reading, s.accepted, [message], w);
    case MapLine(at) =>
      LineTaken(reading, s.lines, at, w);
      InListsConcat(s.lists, [LineWords(reading, s.lines[at])], w);
      assert InLists([LineWords(reading, s.lines[at])][1..], w) == 0;
    case ReduceList(at, m) =>
      ListTaken(s.lists, at, w);
      InPartialsConcat(s.partials, [m], w);
      assert InPartials([m][1..], w) == 0;
    case Aggregate(at, m) =>
      PartialTaken(s.partials, at, w);
  }

  lemma StepProper(s: System, reading: Reading, step: Step)
    requires Enabled(s, step) && Proper(s.final) && forall i :: 0 <= i < |s.partials| ==> Proper(s.partials[i])
    ensures var s' := Apply(s, reading, step); Proper(s'.final) && forall i :: 0 <= i < |s'.partials| ==>
      Proper(s'.partials[i])
  {
    if step.Aggregate? {
      forall w | w in step.result
        ensures step.result[w] > 0
      {
        assert In(step.result, w) == In(s.final, w) + In(s.partials[step.at], w);
      }
    }
  }

  const EMPTY := System([], [], [], map[], [])

  /** The state after a run of steps, if each could be taken. */
  ghost predicate IsRun(s: System, reading: Reading, steps: seq<Step>)
    decreases |steps|
  {
    steps == [] || (Enabled(s, steps[0]) && IsRun(Apply(s, reading, steps[0]), reading, steps[1..]))
  }

  ghost function After(s: System, reading: Reading, steps: seq<Step>): System
    requires IsRun(s, reading, steps)
    decreases |steps|
  {
    if steps == [] then s else After(Apply(s, reading, steps[0]), reading, steps[1..])
  }

  lemma {:induction false} RunConserves(s: System, reading: Reading, steps: seq<Step>)
    requires Conserved(s, reading) && IsRun(s, reading, steps)
    ensures Conserved(After(s, reading, steps), reading)
    decreases |steps|
  {
    if steps != [] {
      StepConserves(s, reading, steps[0]);
      RunConserves(Apply(s, reading, steps[0]), reading, steps[1..]);
    }
  }

  /** All the words of some lines, one line after the other. */
  function AllWords(reading: Reading, lines: seq<string>): seq<Word> {
    if lines == [] then [] else LineWords(reading, lines[0]) + AllWords(reading, lines[1..])
  }

  lemma {:induction false} CountAll(reading: Reading, lines: seq<string>, w: Word)
    ensures InLines(reading, lines, w) == Count(AllWords(reading, lines), w)
  {
    if lines != [] {
      CountAll(reading, lines[1..], w);
      CountConcat(LineWords(reading, lines[0]), AllWords(reading, lines[1..]), w);
    }
  }

  /** When nothing is under way any more, the final map is the direct count of all the lines, word for word. */
  lemma QuiescentCount(reading: Reading, steps: seq<Step>, w: Word)
    requires IsRun(EMPTY, reading, steps)
    requires var s := After(EMPTY, reading, steps); s.lines == [] && s.lists == [] && s.partials == []
    ensures var s := After(EMPTY, reading, steps); var n := Count(AllWords(reading, s.accepted), w);
      (w in s.final <==> n > 0) && (w in s.final ==> s.final[w] == n)
  {
    var s := After(EMPTY, reading, steps);
    RunConserves(EMPTY, reading, steps);
    CountAll(reading, s.accepted, w);
    assert In(s.final, w) + InPartials(s.partials, w) + InLists(s.lists, w) + InLines(reading, s.lines, w) ==
      InLines(reading, s.accepted, w);
  }
}
