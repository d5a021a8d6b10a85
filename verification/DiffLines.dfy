/**
 Line mode: a text is turned into one code unit per line and back again.
 A line is found again by its number in a table, but the number is kept in a 16-bit unit, and the
 table is an object that is asked by a method a line can overwrite.  What is proved is exactly when
 the way there succeeds, and exactly when the way back gives the texts one started from.
 */
module DiffLines {
  import opened Wrappers
  import opened DiffText
  import opened Diffs

  const NEWLINE: CodeUnit := 10
  const UNITS := 0x1_0000

  /** How long the first line of a text is, with the newline that ends it. */
  function FirstLine(s: Text): (n: nat)
    requires s != []
    ensures 1 <= n <= |s|
  {
    var n := IndexOf(s, [NEWLINE], 0);
    if n == -1 then |s| else n + 1
  }

  function Lines(s: Text): (ls: seq<Text>)
    decreases |s|
  {
    if s == [] then [] else [s[..FirstLine(s)]] + Lines(s[FirstLine(s)..])
  }

  function Concat(ls: seq<Text>): Text {
    if ls == [] then [] else ls[0] + Concat(ls[1..])
  }

  lemma {:induction false} ConcatOfLines(s: Text)
    ensures Concat(Lines(s)) == s
    decreases |s|
  {
    if s != [] {
      var n := FirstLine(s);
      ConcatOfLines(s[n..]);
      ConcatOfMore(s[..n], Lines(s[n..]));
      assert s == s[..n] + s[n..];
    }
  }

  lemma ConcatOfMore(l: Text, ls: seq<Text>)
    ensures Concat([l] + ls) == l + Concat(ls)
  {
    assert ([l] + ls)[1..] == ls;
  }

  // ---------- pieces that are no longer the lines they were ----------

  /** A text without a newline but perhaps at its end. */
  predicate Piece(p: Text) {
    forall i :: 0 <= i < |p| - 1 ==> p[i] != NEWLINE
  }

  predicate Ended(p: Text) {
    p != [] && p[|p| - 1] == NEWLINE
  }

  lemma NewlineAt(s: Text, i: int)
    ensures MatchesAt(s, [NEWLINE], i) <==> 0 <= i < |s| && s[i] == NEWLINE
  {
    if 0 <= i < |s| {
      assert s[i..i + 1] == [s[i]];
    }
  }

  /** The first line goes up to the first newline, or to the end if there is none. */
  predicate IsFirstLine(s: Text, n: int) {
    1 <= n <= |s| && (forall i :: 0 <= i < n - 1 ==> s[i] != NEWLINE) && (s[n - 1] == NEWLINE || n == |s|)
  }

  lemma FirstLineIs(s: Text, n: int)
    requires s != []
    ensures IsFirstLine(s, n) <==> n == FirstLine(s)
  {
    var k := IndexOf(s, [NEWLINE], 0);
    NewlineAt(s, k);
    forall i | 0 <= i < |s| && (k == -1 || i < k)
      ensures s[i] != NEWLINE
    {
      NewlineAt(s, i);
    }
    if IsFirstLine(s, n) {
      NewlineAt(s, n - 1);
    }
  }

  /** An ended piece in front of a text is a line of its own. */
  lemma EndedPieceFirst(p: Text, rest: Text)
    requires Piece(p) && Ended(p)
    ensures Lines(p + rest) == [p] + Lines(rest)
  {
    var s := p + rest;
    FirstLineIs(s, |p|);
    assert s[..|p|] == p && s[|p|..] == rest;
  }

  /** A piece that is not ended runs into the line that follows it. */
  lemma OpenPieceFirst(p: Text, rest: Text)
    requires Piece(p) && p != [] && !Ended(p) && rest != []
    ensures |Lines(p + rest)| == |Lines(rest)|
  {
    hide Piece, Ended, IsFirstLine;
    var s, n := p + rest, FirstLine(rest);
    FirstLineIs(rest, n);
    LineBehind(p, rest, n);
    FirstLineIs(s, |p| + n);
    assert s[|p| + n..] == rest[n..];
  }

  lemma {:induction false} LineBehind(p: Text, rest: Text, n: int)
    requires Piece(p) && p != [] && !Ended(p) && IsFirstLine(rest, n)
    ensures IsFirstLine(p + rest, |p| + n)
  {
    var s := p + rest;
    assert s[|p| + n - 1] == rest[n - 1];
    forall i | 0 <= i < |p| + n - 1 ensures s[i] != NEWLINE {
      assert s[i] == if i < |p| then p[i] else rest[i - |p|];
    }
  }

  lemma LastPiece(p: Text)
    requires Piece(p) && p != []
    ensures Lines(p) == [p]
  {
    FirstLineIs(p, |p|);
    assert p[..|p|] == p && p[|p|..] == [];
  }

  /** Pieces set one after the other make no more lines than there are pieces, and as many only if they are the
      lines. */
  lemma {:induction false} PiecesMakeLines(ps: seq<Text>)
    requires forall p :: p in ps ==> Piece(p)
    ensures |Lines(Concat(ps))| <= |ps|
    ensures |Lines(Concat(ps))| == |ps| ==> Lines(Concat(ps)) == ps
  {
    if ps != [] {
      var p, rest := ps[0], Concat(ps[1..]);
      PiecesMakeLines(ps[1..]);
      assert ps == [p] + ps[1..];
      if p == [] {
        assert p + rest == rest;
      } else if Ended(p) {
        EndedPieceFirst(p, rest);
      } else if rest == [] {
        LastPiece(p);
        assert p + rest == p;
      } else {
        OpenPieceFirst(p, rest);
      }
    }
  }

  lemma {:induction false} LinesArePieces(s: Text)
    ensures forall l :: l in Lines(s) ==> Piece(l) && l != []
    decreases |s|
  {
    if s != [] {
      FirstLineIs(s, FirstLine(s));
      LinesArePieces(s[FirstLine(s)..]);
    }
  }

  // ---------- the table ----------

  ghost predicate Numbered(lineArray: seq<Text>, lineHash: map<Text, nat>) {
    && |lineArray| >= 1 && lineArray[0] == []
    && (forall l :: l in lineHash ==> 1 <= lineHash[l] < |lineArray| && lineArray[lineHash[l]] == l)
    && (forall i :: 1 <= i < |lineArray| ==> lineArray[i] in lineHash && lineHash[lineArray[i]] == i)
  }

  /** One unit for each line: the line's number, as far as it fits. */
  ghost predicate Encodes(chars: Text, ls: seq<Text>, lineHash: map<Text, nat>) {
    |chars| == |ls| && forall i :: 0 <= i < |ls| ==> ls[i] in lineHash && chars[i] == lineHash[ls[i]] % UNITS
  }

  /** The line a unit stands for, or nothing if there is no such line. */
  function LineOf(lineArray: seq<Text>, c: CodeUnit): Text {
    if c < |lineArray| then lineArray[c] else []
  }

  /** The lines that the units of a text stand for, one after the other. */
  function Decode(chars: Text, lineArray: seq<Text>): Text {
    if chars == [] then [] else LineOf(lineArray, chars[0]) + Decode(chars[1..], lineArray)
  }

  function Pieces(chars: Text, lineArray: seq<Text>): (ps: seq<Text>) {
    seq(|chars|, i requires 0 <= i < |chars| => LineOf(lineArray, chars[i]))
  }

  lemma {:induction false} DecodeConcatenates(chars: Text, lineArray: seq<Text>)
    ensures Decode(chars, lineArray) == Concat(Pieces(chars, lineArray))
  {
    if chars != [] {
      DecodeConcatenates(chars[1..], lineArray);
      assert Pieces(chars, lineArray)[1..] == Pieces(chars[1..], lineArray);
    }
  }

  lemma {:induction false} DecodeConcat(a: Text, b: Text, lineArray: seq<Text>)
    ensures Decode(a + b, lineArray) == Decode(a, lineArray) + Decode(b, lineArray)
  {
    if a == [] {
      assert a + b == b;
    } else {
      DecodeConcat(a[1..], b, lineArray);
      assert (a + b)[1..] == a[1..] + b;
      Regroup(LineOf(lineArray, a[0]), Decode(a[1..], lineArray), Decode(b, lineArray));
    }
  }

  lemma KeptLines(s: Text, chars: Text, lineArray: seq<Text>, lineHash: map<Text, nat>)
    requires Numbered(lineArray, lineHash) && Encodes(chars, Lines(s), lineHash)
    requires forall l :: l in Lines(s) ==> l in lineHash && lineHash[l] < UNITS
    ensures Pieces(chars, lineArray) == Lines(s)
  {
    forall i | 0 <= i < |Lines(s)|
      ensures LineOf(lineArray, chars[i]) == Lines(s)[i]
    {
      assert Lines(s)[i] in Lines(s);
    }
  }

  lemma LostLines(s: Text, chars: Text, lineArray: seq<Text>, lineHash: map<Text, nat>, i: nat)
    requires Numbered(lineArray, lineHash) && Encodes(chars, Lines(s), lineHash)
    requires forall l :: l in lineHash ==> Piece(l) && l != []
    requires i < |Lines(s)| && lineHash[Lines(s)[i]] >= UNITS
    ensures Concat(Pieces(chars, lineArray)) != s
  {
    var ps := Pieces(chars, lineArray);
    LostLine(Lines(s)[i], chars[i], lineArray, lineHash);
    assert ps[i] != Lines(s)[i];
    TablePieces(chars, lineArray, lineHash);
    PiecesMakeLines(ps);
  }

  /** A text comes back exactly if every line's number fits a unit. */
  lemma DecodedExactly(s: Text, chars: Text, lineArray: seq<Text>, lineHash: map<Text, nat>)
    requires Numbered(lineArray, lineHash) && Encodes(chars, Lines(s), lineHash)
    requires forall l :: l in lineHash ==> Piece(l) && l != []
    ensures Decode(chars, lineArray) == s <==> forall l :: l in Lines(s) ==> l in lineHash && lineHash[l] < UNITS
  {
    DecodeConcatenates(chars, lineArray);
    ConcatOfLines(s);
    if forall l :: l in Lines(s) ==> l in lineHash && lineHash[l] < UNITS {
      KeptLines(s, chars, lineArray, lineHash);
    } else {
      var l :| l in Lines(s) && !(l in lineHash && lineHash[l] < UNITS);
      var i :| 0 <= i < |Lines(s)| && Lines(s)[i] == l;
      LostLines(s, chars, lineArray, lineHash, i);
    }
  }

  lemma LostLine(l: Text, c: CodeUnit, lineArray: seq<Text>, lineHash: map<Text, nat>)
    requires Numbered(lineArray, lineHash) && l in lineHash && l != [] && lineHash[l] >= UNITS
    requires c == lineHash[l] % UNITS
    ensures LineOf(lineArray, c) != l
  {
    assert c < lineHash[l];
    if c > 0 {
      assert lineHash[lineArray[c]] == c;
    }
  }

  lemma TablePieces(chars: Text, lineArray: seq<Text>, lineHash: map<Text, nat>)
    requires Numbered(lineArray, lineHash) && forall l :: l in lineHash ==> Piece(l)
    ensures forall p :: p in Pieces(chars, lineArray) ==> Piece(p)
  {
    forall i | 0 <= i < |chars|
      ensures Piece(LineOf(lineArray, chars[i]))
    {
      if 1 <= chars[i] < |lineArray| {
        assert lineArray[chars[i]] in lineHash;
      }
    }
  }

  function LinesIn(ls: seq<Text>): set<Text> {
    set l | l in ls
  }

  /** The different lines of two texts. */
  function LineSet(a: Text, b: Text): set<Text> {
    LinesIn(Lines(a)) + LinesIn(Lines(b))
  }

  /** The table holds the lines of two texts: they come back, both of them, exactly if there are few enough different
      lines. */
  lemma BothDecodedExactly(a: Text, b: Text, charsA: Text, charsB: Text, lineArray: seq<Text>, lineHash: map<Text, nat>)
    requires Numbered(lineArray, lineHash) && lineHash.Keys == LineSet(a, b)
    requires Encodes(charsA, Lines(a), lineHash) && Encodes(charsB, Lines(b), lineHash)
    ensures Decode(charsA, lineArray) == a && Decode(charsB, lineArray) == b <==> |LineSet(a, b)| < UNITS
  {
    LinesArePieces(a);
    LinesArePieces(b);
    DecodedExactly(a, charsA, lineArray, lineHash);
    DecodedExactly(b, charsB, lineArray, lineHash);
    TableSize(lineArray, lineHash);
    if |lineArray| > UNITS {
      assert lineHash[lineArray[UNITS]] == UNITS;
    }
  }

  /** Where the line that is numbered 65536 is lost there are fewer lines than there were: it comes back as nothing. */
  lemma {:induction false} FewerLines(s: Text, chars: Text, lineArray: seq<Text>, lineHash: map<Text, nat>, l: Text)
    requires Numbered(lineArray, lineHash) && Encodes(chars, Lines(s), lineHash)
    requires forall p :: p in lineHash ==> Piece(p)
    requires l in Lines(s) && l in lineHash && lineHash[l] == UNITS
    ensures |Lines(Decode(chars, lineArray))| < |Lines(s)|
  {
    var ps := Pieces(chars, lineArray);
    DecodeConcatenates(chars, lineArray);
    TablePieces(chars, lineArray, lineHash);
    PiecesMakeLines(ps);
    var i :| 0 <= i < |Lines(s)| && Lines(s)[i] == l;
    assert ps[i] == [];
    LinesArePieces(Concat(ps));
    assert ps[i] in ps;
  }

  /** What is lost of two texts shows: a text that does not come back comes back with fewer lines.  That is so for the
      first one, whose lines are entered in the table before those of the second, and if it comes back for the
      second. */
  lemma {:induction false} LossShows(a: Text, b: Text, charsA: Text, charsB: Text, firstArray: seq<Text>,
        first: map<Text, nat>, lineArray: seq<Text>, lineHash: map<Text, nat>)
    requires Numbered(firstArray, first) && Grown(map[], first, Lines(a))
    requires Numbered(lineArray, lineHash) && Grown(first, lineHash, Lines(b))
    requires Encodes(charsA, Lines(a), lineHash) && Encodes(charsB, Lines(b), lineHash)
    ensures var x, y := Decode(charsA, lineArray), Decode(charsB, lineArray);
      && (x == a || |Lines(x)| < |Lines(a)|)
      && (x == a ==> y == b || |Lines(y)| < |Lines(b)|)
  {
    LinesArePieces(a);
    LinesArePieces(b);
    DecodedExactly(a, charsA, lineArray, lineHash);
    DecodedExactly(b, charsB, lineArray, lineHash);
    if Decode(charsA, lineArray) != a {
      LineOfThatNumber(Lines(a), firstArray, first, lineHash);
      FewerLines(a, charsA, lineArray, lineHash, firstArray[UNITS]);
    } else if Decode(charsB, lineArray) != b {
      LineOfThatNumber(Lines(b), lineArray, lineHash, lineHash);
      FewerLines(b, charsB, lineArray, lineHash, lineArray[UNITS]);
    }
  }

  /** If the table has a number too large it has a line numbered 65536. */
  lemma {:induction false} LineOfThatNumber(ls: seq<Text>, lineArray: seq<Text>, lineHash: map<Text, nat>,
        after: map<Text, nat>)
    requires Numbered(lineArray, lineHash) && forall l :: l in lineHash ==> l in after && after[l] == lineHash[l]
    requires exists l :: l in ls && l in lineHash && lineHash[l] >= UNITS
    ensures |lineArray| > UNITS && lineArray[UNITS] in lineHash && after[lineArray[UNITS]] == UNITS
  {
    var l :| l in ls && l in lineHash && lineHash[l] >= UNITS;
    assert lineArray[UNITS] in lineHash;
  }

  lemma TableSize(lineArray: seq<Text>, lineHash: map<Text, nat>)
    requires Numbered(lineArray, lineHash)
    ensures |lineHash.Keys| == |lineArray| - 1
  {
    NumberedSize(lineArray, lineHash, |lineArray|);
    assert lineHash.Keys == set i | 1 <= i < |lineArray| :: lineArray[i];
  }

  lemma {:induction false} NumberedSize(lineArray: seq<Text>, lineHash: map<Text, nat>, n: nat)
    requires Numbered(lineArray, lineHash) && 1 <= n <= |lineArray|
    ensures |set i | 1 <= i < n :: lineArray[i]| == n - 1
  {
    var s := set i | 1 <= i < n :: lineArray[i];
    if n > 1 {
      NumberedSize(lineArray, lineHash, n - 1);
      var s' := set i | 1 <= i < n - 1 :: lineArray[i];
      assert s == s' + {lineArray[n - 1]};
      assert lineArray[n - 1] !in s';
    } else {
      assert s == {};
    }
  }

  /** The name of the method by which the table is asked: once it has been entered as a line, asking fails. */
  const HAS_OWN_PROPERTY: Text := [104, 97, 115, 79, 119, 110, 80, 114, 111, 112, 101, 114, 116, 121]

  /** A name under which nothing can be entered, so that it is never found. */
  const PROTO: Text := [95, 95, 112, 114, 111, 116, 111, 95, 95]

  /** Whether a table that can still be asked finds a line. */
  predicate Found(line: Text, lineHash: map<Text, nat>) {
    line in lineHash && line != PROTO
  }

  /** The table when a line may have been listed twice: every number leads to its line, and every line listed has a
      number, which is its only one unless it is the line that is never found. */
  ghost predicate Listed(lineArray: seq<Text>, lineHash: map<Text, nat>) {
    && |lineArray| >= 1 && lineArray[0] == []
    && (forall l :: l in lineHash ==> 1 <= lineHash[l] < |lineArray| && lineArray[lineHash[l]] == l)
    && (forall i :: 1 <= i < |lineArray| ==>
      lineArray[i] in lineHash && (lineHash[lineArray[i]] == i || lineArray[i] == PROTO))
  }

  /** The lines met so far and the number of each. */
  class LineTable {
    var lineArray: seq<Text>
    var lineHash: map<Text, nat>

    ghost predicate Valid()
      reads this
    {
      Listed(lineArray, lineHash)
    }

    constructor ()
      ensures Valid() && Numbered(lineArray, lineHash) && lineHash == map[]
    {
      lineArray, lineHash := [[]], map[];
    }

    /** The number of a line, a new one if the line is not found; none if the table can no longer be asked. */
    method NumberOf(line: Text) returns (number: Option<nat>)
      requires Valid()
      modifies this
      ensures Valid() && (number.None? <==> HAS_OWN_PROPERTY in old(lineHash)) && old(lineArray) <= lineArray
      ensures number.Some? ==>
        line in lineHash && number.value == lineHash[line] && GrownBut(old(lineHash), lineHash, [line])
      ensures Numbered(old(lineArray), old(lineHash)) && (PROTO in old(lineHash) ==> line != PROTO) ==>
        Numbered(lineArray, lineHash)
    {
      if HAS_OWN_PROPERTY in lineHash {
        return None;
      }
      if Found(line, lineHash) {
        return Some(lineHash[line]);
      }
      number := Some(|lineArray|);
      lineHash := lineHash[line := |lineArray|];
      lineArray := lineArray + [line];
    }

    /** The unit for the line that begins at `c`, which ends at `f`: the line's number, as far as that fits. */
    method EnterLine(a: Text, c: nat, ghost b: Text, ghost first: map<Text, nat>)
      returns (f: int, unit: Option<CodeUnit>)
      requires Valid() && c < |a| && Entered(a, c, b, first, lineHash)
      modifies this
      ensures Valid() && c <= f < |a| && (unit.None? <==> HAS_OWN_PROPERTY in first) && old(lineArray) <= lineArray
      ensures Numbered(old(lineArray), old(lineHash)) && (PROTO in first ==> PROTO !in Lines(a)) ==>
        Numbered(lineArray, lineHash)
      ensures unit.Some? ==> Entered(a, f + 1, b + [unit.value], first, lineHash)
    {
      ghost var done :| EnteredLines(a, c, b, done, first, lineHash);
      f := LineEnd(a, c);
      var line := Substring(a, c, f + 1);
      SubstringIs(a, c, f + 1);
      LinesBeforeTheLast(a, done, line, Lines(a[f + 1..]));
      NamesNotEntered(first, lineHash, done);
      ghost var before := lineHash;
      var g := NumberOf(line);
      if g.None? {
        return f, None;
      }
      OneLineMore(first, b, done, line, before, lineHash);
      unit := Some(g.value % UNITS);
      assert EnteredLines(a, f + 1, b + [unit.value], done + [line], first, lineHash);
    }

    /** One unit for each line of a text; the lines are entered in the table. */
    method Munge(a: Text) returns (chars: Option<Text>)
      requires Valid()
      modifies this
      ensures Valid() && (chars.None? <==> HAS_OWN_PROPERTY in old(lineHash) && a != []) && old(lineArray) <= lineArray
      ensures chars.Some? ==> Encodes(chars.value, Lines(a), lineHash) && GrownBut(old(lineHash), lineHash, Lines(a))
      ensures Numbered(old(lineArray), old(lineHash)) && (PROTO in old(lineHash) ==> PROTO !in Lines(a)) ==>
        Numbered(lineArray, lineHash)
    {
      var b: Text := [];
      var c, f := 0, -1;
      NoneEntered(a, lineHash);
      hide Entered, Encodes, GrownBut, Numbered, Listed, Lines;
      while f < |a| - 1
        invariant 0 <= c == f + 1 <= |a|
        invariant Valid() && Entered(a, c, b, old(lineHash), lineHash) && old(lineArray) <= lineArray
        invariant Numbered(old(lineArray), old(lineHash)) && (PROTO in old(lineHash) ==> PROTO !in Lines(a)) ==>
          Numbered(lineArray, lineHash)
      {
        var unit;
        f, unit := EnterLine(a, c, b, old(lineHash));
        if unit.None? {
          return None;
        }
        b := b + [unit.value];
        c := f + 1;
      }
      AllEntered(a, b, old(lineHash), lineHash);
      return Some(b);
    }
  }

  /** Of the lines of `a` those up to `c` have been entered in a table that was `first` before. */
  ghost predicate EnteredLines(a: Text, c: int, b: Text, done: seq<Text>, first: map<Text, nat>,
        lineHash: map<Text, nat>) {
    && 0 <= c <= |a| && Lines(a) == done + Lines(a[c..]) && (done != [] ==> HAS_OWN_PROPERTY !in first)
    && Encodes(b, done, lineHash) && GrownBut(first, lineHash, done)
  }

  ghost predicate Entered(a: Text, c: int, b: Text, first: map<Text, nat>, lineHash: map<Text, nat>) {
    exists done :: EnteredLines(a, c, b, done, first, lineHash)
  }

  lemma {:induction false} NoneEntered(a: Text, lineHash: map<Text, nat>)
    ensures Entered(a, 0, [], lineHash, lineHash)
  {
    assert a[0..] == a;
    assert EnteredLines(a, 0, [], [], lineHash, lineHash);
  }

  lemma {:induction false} AllEntered(a: Text, b: Text, first: map<Text, nat>, lineHash: map<Text, nat>)
    requires Entered(a, |a|, b, first, lineHash)
    ensures Encodes(b, Lines(a), lineHash) && GrownBut(first, lineHash, Lines(a))
    ensures HAS_OWN_PROPERTY in first ==> a == []
  {
    var done :| EnteredLines(a, |a|, b, done, first, lineHash);
    assert a[|a|..] == [] && done + [] == done;
  }

  lemma {:induction false} SubstringIs(s: Text, i: nat, j: nat)
    requires i <= j <= |s|
    ensures Substring(s, i, j) == s[i..j]
  {
  }

  /** Only the last line of a text can be one without a newline at its end, such as the two names. */
  lemma {:induction false} LinesBeforeTheLast(a: Text, done: seq<Text>, line: Text, more: seq<Text>)
    requires Lines(a) == done + ([line] + more)
    ensures Lines(a) == (done + [line]) + more && line in Lines(a)
    ensures HAS_OWN_PROPERTY !in done && PROTO !in done
  {
    Regroup(done, [line], more);
    assert Lines(a)[|done|] == line;
    forall i | 0 <= i < |done| ensures Ended(done[i]) {
      assert Lines(a)[i] == done[i];
      EndedButTheLast(a, i);
    }
  }

  lemma {:induction false} NamesNotEntered(before: map<Text, nat>, after: map<Text, nat>, done: seq<Text>)
    requires GrownBut(before, after, done) && HAS_OWN_PROPERTY !in done && PROTO !in done
    ensures (HAS_OWN_PROPERTY in after <==> HAS_OWN_PROPERTY in before) && (PROTO in after <==> PROTO in before)
  {
  }

  lemma {:induction false} EndedButTheLast(a: Text, i: nat)
    requires i < |Lines(a)| - 1
    ensures Ended(Lines(a)[i])
    decreases |a|
  {
    var n := FirstLine(a);
    FirstLineIs(a, n);
    assert |Lines(a[n..])| == |Lines(a)| - 1;
    if i > 0 {
      EndedButTheLast(a[n..], i - 1);
    }
  }

  /** A line without a newline at its end is a line of a text only if the text ends with it. */
  lemma {:induction false} EndsInLine(a: Text, line: Text)
    requires line in Lines(a) && !Ended(line)
    ensures EndsWith(a, line)
    decreases |a|
  {
    var n := FirstLine(a);
    FirstLineIs(a, n);
    var rest := a[n..];
    assert a == a[..n] + rest;
    if line == a[..n] {
      assert n == |a|;
    } else {
      hide IsFirstLine, Ended;
      EndsInLine(rest, line);
      assert a[|a| - |line|..] == rest[|rest| - |line|..];
    }
  }

  /** The lines `ls` have been added to a table, the numbers in it staying as they were. */
  ghost predicate Grown(before: map<Text, nat>, after: map<Text, nat>, ls: seq<Text>) {
    && after.Keys == before.Keys + LinesIn(ls)
    && (forall l :: l in before ==> l in after && after[l] == before[l])
  }

  /** The same, but that the line that is never found gets another number if it is added again. */
  ghost predicate GrownBut(before: map<Text, nat>, after: map<Text, nat>, ls: seq<Text>) {
    && after.Keys == before.Keys + LinesIn(ls)
    && (forall l :: l in before ==> l in after && (after[l] == before[l] || (l == PROTO && PROTO in ls)))
  }

  lemma {:induction false} GrownUnlessTwice(before: map<Text, nat>, after: map<Text, nat>, ls: seq<Text>)
    requires GrownBut(before, after, ls) && (PROTO in before ==> PROTO !in ls)
    ensures Grown(before, after, ls)
  {
  }

  /** A text comes back from its units when the table has grown by other texts, even by one that ends, as it does, in
      the line that is never found, as long as every number fits. */
  lemma {:induction false} ComesBackLater(a: Text, chars: Text, lineArray: seq<Text>, lineHash: map<Text, nat>,
        later: seq<Text>)
    requires Listed(lineArray, lineHash) && Encodes(chars, Lines(a), lineHash)
    requires lineArray <= later && |later| <= UNITS
    ensures Decode(chars, later) == a
  {
    var ls := Lines(a);
    forall i | 0 <= i < |ls| ensures LineOf(later, chars[i]) == ls[i] {
      assert ls[i] in lineHash && later[lineHash[ls[i]]] == lineArray[lineHash[ls[i]]];
    }
    assert Pieces(chars, later) == ls;
    DecodeConcatenates(chars, later);
    ConcatOfLines(a);
  }

  lemma OneLineMore(first: map<Text, nat>, chars: Text, ls: seq<Text>, line: Text, before: map<Text, nat>,
        after: map<Text, nat>)
    requires Encodes(chars, ls, before) && GrownBut(first, before, ls) && GrownBut(before, after, [line])
    requires PROTO !in ls
    ensures line in after
    ensures Encodes(chars + [after[line] % UNITS], ls + [line], after)
    ensures GrownBut(first, after, ls + [line])
  {
    assert line in LinesIn([line]);
    assert forall i :: 0 <= i < |ls| ==> ls[i] in ls;
    EncodesOneMore(chars, ls, line, before, after);
  }

  lemma EncodesOneMore(chars: Text, ls: seq<Text>, line: Text, before: map<Text, nat>, after: map<Text, nat>)
    requires Encodes(chars, ls, before) && forall l :: l in before && l in ls ==> l in after && after[l] == before[l]
    requires line in after
    ensures Encodes(chars + [after[line] % UNITS], ls + [line], after)
    ensures LinesIn(ls + [line]) == LinesIn(ls) + {line}
  {
  }

  /** The end of the first line of what is left of a text, found by searching the whole text from there. */
  method LineEnd(a: Text, c: nat) returns (f: int)
    requires c < |a|
    ensures c <= f < |a| && Lines(a[c..]) == [a[c..f + 1]] + Lines(a[f + 1..])
  {
    f := IndexOf(a, [NEWLINE], c);
    FoundFrom(a, c, f);
    if f == -1 {
      f := |a| - 1;
    }
    FirstLineFrom(a, c, f);
  }

  lemma FoundFrom(a: Text, c: nat, n: int)
    requires c < |a| && n == IndexOf(a, [NEWLINE], c)
    ensures n == -1 || (c <= n < |a| && a[n] == NEWLINE)
    ensures forall i :: c <= i < (if n == -1 then |a| else n) ==> a[i] != NEWLINE
  {
    NewlineAt(a, n);
    forall i | c <= i < (if n == -1 then |a| else n)
      ensures a[i] != NEWLINE
    {
      NewlineAt(a, i);
      assert !MatchesAt(a, [NEWLINE], i);
    }
  }

  lemma FirstLineFrom(a: Text, c: nat, f: int)
    requires c <= f < |a| && (a[f] == NEWLINE || f == |a| - 1)
    requires forall i :: c <= i < f ==> a[i] != NEWLINE
    ensures Lines(a[c..]) == [a[c..f + 1]] + Lines(a[f + 1..])
  {
    var rest := a[c..];
    assert IsFirstLine(rest, f - c + 1);
    FirstLineIs(rest, f - c + 1);
    assert rest[..f - c + 1] == a[c..f + 1] && rest[f - c + 1..] == a[f + 1..];
  }

  // ---------- a whole diff ----------

  function DecodedDiffs(ds: seq<Diff>, lineArray: seq<Text>): seq<Diff> {
    seq(|ds|, i requires 0 <= i < |ds| => Diff(ds[i].op, Decode(ds[i].text, lineArray)))
  }

  lemma {:induction false} DecodedTexts(ds: seq<Diff>, lineArray: seq<Text>, without: Op)
    ensures TextOf(DecodedDiffs(ds, lineArray), without) == Decode(TextOf(ds, without), lineArray)
  {
    if ds != [] {
      DecodedTexts(ds[1..], lineArray, without);
      assert DecodedDiffs(ds, lineArray)[1..] == DecodedDiffs(ds[1..], lineArray);
      DecodeConcat(if ds[0].op != without then ds[0].text else [], TextOf(ds[1..], without), lineArray);
    }
  }

  /** The lines that the units of one entry stand for. */
  method JoinLines(d: Text, lineArray: seq<Text>) returns (e: Text)
    ensures e == Decode(d, lineArray)
  {
    e := [];
    for f := 0 to |d|
      invariant e == Decode(d[..f], lineArray)
    {
      DecodeConcat(d[..f], [d[f]], lineArray);
      DecodeOne(d[f], lineArray);
      assert d[..f + 1] == d[..f] + [d[f]];
      e := e + LineOf(lineArray, d[f]);
    }
    assert d[..|d|] == d;
  }

  /** Every entry's text is replaced by the lines its units stand for. */
  method CharsToLines(a: DiffList, lineArray: seq<Text>)
    modifies a
    ensures a.items == DecodedDiffs(old(a.items), lineArray)
    ensures Text1(a.items) == Decode(Text1(old(a.items)), lineArray)
    ensures Text2(a.items) == Decode(Text2(old(a.items)), lineArray)
  {
    for c := 0 to |a.items|
      invariant |a.items| == |old(a.items)|
      invariant forall i :: 0 <= i < c ==>
        a.items[i] == Diff(old(a.items)[i].op, Decode(old(a.items)[i].text, lineArray))
      invariant forall i :: c <= i < |a.items| ==> a.items[i] == old(a.items)[i]
    {
      var e := JoinLines(a.items[c].text, lineArray);
      a.items := a.items[c := Diff(a.items[c].op, e)];
    }
    DecodedTexts(old(a.items), lineArray, Insert);
    DecodedTexts(old(a.items), lineArray, Delete);
  }

  lemma DecodeOne(c: CodeUnit, lineArray: seq<Text>)
    ensures Decode([c], lineArray) == LineOf(lineArray, c)
  {
    assert Decode([c][1..], lineArray) == [];
  }

  // ---------- how many lines there can be ----------

  function Newlines(s: Text): nat {
    if s == [] then 0 else (if s[0] == NEWLINE then 1 else 0) + Newlines(s[1..])
  }

  lemma {:induction false} NewlinesConcat(a: Text, b: Text)
    ensures Newlines(a + b) == Newlines(a) + Newlines(b)
  {
    if a == [] {
      assert a + b == b;
    } else {
      NewlinesConcat(a[1..], b);
      assert (a + b)[1..] == a[1..] + b;
    }
  }

  lemma {:induction false} NoNewlines(p: Text)
    requires forall i :: 0 <= i < |p| ==> p[i] != NEWLINE
    ensures Newlines(p) == 0
  {
    if p != [] {
      NoNewlines(p[1..]);
    }
  }

  /** The newline at the end of a first line, if there is one, is the only one. */
  lemma {:induction false} NewlinesOfFirst(s: Text, n: int)
    requires IsFirstLine(s, n)
    ensures Newlines(s[..n]) == if s[n - 1] == NEWLINE then 1 else 0
  {
    NoNewlines(s[..n - 1]);
    NewlinesConcat(s[..n - 1], [s[n - 1]]);
    assert s[..n] == s[..n - 1] + [s[n - 1]];
  }

  /** As many lines as newlines, and one more if there is something behind the last newline. */
  lemma {:induction false} LineCount(s: Text)
    ensures |Lines(s)| == Newlines(s) + if s != [] && !Ended(s) then 1 else 0
    decreases |s|
  {
    if s != [] {
      var n := FirstLine(s);
      FirstLineIs(s, n);
      LineCount(s[n..]);
      NewlinesOfFirst(s, n);
      NewlinesConcat(s[..n], s[n..]);
      assert s == s[..n] + s[n..];
    }
  }

  lemma {:induction false} FewLines(s: Text)
    ensures |Lines(s)| <= Newlines(s) + 1
  {
    LineCount(s);
  }

  /** A part of a text has no more lines than the whole. */
  lemma {:induction false} LinesOfPart(x: Text, a: Text, z: Text)
    ensures |Lines(a)| <= |Lines(x + a + z)|
  {
    hide Lines;
    LineCount(a);
    LineCount(z);
    LineCount(x + a + z);
    NewlinesConcat(x + a, z);
    NewlinesConcat(x, a);
    EndOfWhole(x, a, z);
  }

  lemma {:induction false} EndOfWhole(x: Text, a: Text, z: Text)
    ensures z != [] ==> (Ended(x + a + z) <==> Ended(z))
    ensures z == [] && a != [] ==> (Ended(x + a + z) <==> Ended(a))
    ensures z != [] && Ended(z) ==> Newlines(z) > 0
  {
    if z != [] {
      assert (x + a + z)[|x + a + z| - 1] == z[|z| - 1];
      NewlinesConcat(z[..|z| - 1], [z[|z| - 1]]);
      assert z == z[..|z| - 1] + [z[|z| - 1]];
    }
  }

  lemma FewDifferentLines(a: Text, b: Text)
    ensures |LineSet(a, b)| <= Newlines(a) + Newlines(b) + 2
  {
    FewLines(a);
    FewLines(b);
    SetOfSize(Lines(a));
    SetOfSize(Lines(b));
    UnionSize(LinesIn(Lines(a)), LinesIn(Lines(b)));
  }

  lemma {:induction false} SetOfSize(ls: seq<Text>)
    ensures |LinesIn(ls)| <= |ls|
  {
    if ls == [] {
      assert LinesIn(ls) == {};
    } else {
      SetOfSize(ls[1..]);
      UnionSize({ls[0]}, LinesIn(ls[1..]));
      assert LinesIn(ls) == {ls[0]} + LinesIn(ls[1..]);
    }
  }

  lemma UnionSize<T>(a: set<T>, b: set<T>)
    ensures |a + b| <= |a| + |b|
  {
    assert a + b == a + (b - a);
  }

  // ---------- a text of many short lines ----------

  /** For each unit below `n`, from the largest down, a line of that unit and a newline: for the newline, two empty
      lines. */
  function UnitLines(n: nat): (s: Text)
    requires n <= UNITS
    ensures |s| == 2 * n
  {
    if n == 0 then [] else [n - 1, NEWLINE] + UnitLines(n - 1)
  }

  /** `n` different lines, made of units below `n`. */
  ghost predicate LinesOfUnits(ls: seq<Text>, n: nat) {
    && |LinesIn(ls)| == n
    && (forall l :: l in ls ==> l == [NEWLINE] || (|l| == 2 && l[0] < n && l[0] != NEWLINE))
    && ([NEWLINE] in ls ==> n > NEWLINE)
  }

  lemma {:induction false} UnitLinesDiffer(n: nat)
    requires n <= UNITS
    ensures LinesOfUnits(Lines(UnitLines(n)), n)
  {
    NoLinesOfUnits();
    hide LinesOfUnits, Lines;
    if n > 0 {
      UnitLinesDiffer(n - 1);
      LineOfUnit(n - 1, UnitLines(n - 1));
    }
  }

  lemma {:induction false} NoLinesOfUnits()
    ensures LinesOfUnits(Lines([]), 0)
  {
    assert LinesIn(Lines([])) == {};
  }

  lemma {:induction false} LineOfUnit(c: CodeUnit, rest: Text)
    requires LinesOfUnits(Lines(rest), c)
    ensures LinesOfUnits(Lines([c, NEWLINE] + rest), c + 1)
  {
    hide Lines;
    var ls := Lines(rest);
    if c == NEWLINE {
      assert [c, NEWLINE] + rest == [NEWLINE] + ([NEWLINE] + rest);
      EndedPieceFirst([NEWLINE], rest);
      EndedPieceFirst([NEWLINE], [NEWLINE] + rest);
      AnotherLine([NEWLINE], ls, c);
      TwiceTheSame([NEWLINE], ls, c + 1);
    } else {
      EndedPieceFirst([c, NEWLINE], rest);
      AnotherLine([c, NEWLINE], ls, c);
    }
  }

  lemma {:induction false} AnotherLine(line: Text, ls: seq<Text>, c: CodeUnit)
    requires LinesOfUnits(ls, c) && line == if c == NEWLINE then [NEWLINE] else [c, NEWLINE]
    ensures LinesOfUnits([line] + ls, c + 1)
  {
    OneMoreLine(line, ls);
  }

  lemma {:induction false} TwiceTheSame(line: Text, ls: seq<Text>, n: nat)
    requires LinesOfUnits([line] + ls, n)
    ensures LinesOfUnits([line] + ([line] + ls), n)
  {
    assert LinesIn([line] + ([line] + ls)) == LinesIn([line] + ls);
    assert ([line] + ls)[0] == line;
  }

  lemma {:induction false} OneMoreLine(line: Text, ls: seq<Text>)
    requires line !in ls
    ensures |LinesIn([line] + ls)| == 1 + |LinesIn(ls)|
  {
    assert LinesIn([line] + ls) == {line} + LinesIn(ls);
  }

  /** In such a text no unit but the newline stands twice in a row. */
  lemma {:induction false} NeverTwice(n: nat, i: nat)
    requires n <= UNITS && i + 1 < 2 * n
    ensures UnitLines(n)[i] == NEWLINE || UnitLines(n)[i + 1] == NEWLINE
  {
    if i >= 2 {
      NeverTwice(n - 1, i - 2);
    }
  }
}
