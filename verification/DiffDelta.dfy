/**
 A diff as a delta: one token for each entry, the texts of deletions and equalities given by
 their lengths only, to be read again from the first text.
 */
module DiffDelta {
  import opened Wrappers
  import opened DiffText
  import opened Diffs
  import opened DiffCodec

  datatype DeltaError =
    | IllegalEscape(token: Text)
    | InvalidNumber(token: Text)
    | InvalidOperation(token: Text)
    | WrongLength(delta: int, source: int)

  // ---------- writing ----------

  /** One entry's token; nothing if its text cannot be encoded. */
  function Token(d: Diff, coding: Coding): Option<Text> {
    match d.op
    case Insert => if coding.encode(d.text).Some? then Some([PLUS] + coding.encode(d.text).value) else None
    case Delete => Some([MINUS] + Decimal(|d.text|))
    case Equal => Some([EQUALS] + Decimal(|d.text|))
  }

  /** A token says what is done, and the text inserted or how long the text deleted or kept is. */
  lemma {:induction false} TokenSays(d: Diff, coding: Coding)
    requires Token(d, coding).Some?
    ensures var t := Token(d, coding).value;
      && t != [] && t[0] == (match d.op case Insert => '+' case Delete => '-' case Equal => '=') as int
      && (d.op == Insert ==> coding.encode(d.text) == Some(t[1..]))
      && (d.op != Insert ==> (forall c :: c in t[1..] ==> '0' as int <= c <= '9' as int) && Value(t[1..]) == |d.text|)
  {
    DecimalValue(|d.text|);
    if d.op != Insert {
      assert Token(d, coding).value[1..] == Decimal(|d.text|);
    }
  }

  predicate Encodable(ds: seq<Diff>, coding: Coding) {
    forall i :: 0 <= i < |ds| ==> Token(ds[i], coding).Some?
  }

  function Tokens(ds: seq<Diff>, coding: Coding): (ts: seq<Text>)
    requires Encodable(ds, coding)
    ensures |ts| == |ds|
  {
    seq(|ds|, i requires 0 <= i < |ds| => Token(ds[i], coding).value)
  }

  method ToDelta(diffs: seq<Diff>, coding: Coding) returns (delta: Option<Text>)
    ensures delta.Some? <==> Encodable(diffs, coding)
    ensures delta.Some? ==> delta.value == Spaced(Join(Tokens(diffs, coding), TAB))
  {
    var text: seq<Text> := [];
    for x := 0 to |diffs|
      invariant Encodable(diffs[..x], coding) && text == Tokens(diffs[..x], coding)
    {
      var token: Text;
      match diffs[x].op {
        case Insert =>
          if coding.encode(diffs[x].text).None? {
            return None;
          }
          token := [PLUS] + coding.encode(diffs[x].text).value;
        case Delete =>
          token := [MINUS] + Decimal(|diffs[x].text|);
        case Equal =>
          token := [EQUALS] + Decimal(|diffs[x].text|);
      }
      assert Token(diffs[x], coding) == Some(token);
      text := text + [token];
    }
    assert diffs[..|diffs|] == diffs;
    return Some(Spaced(Join(text, TAB)));
  }

  // ---------- reading ----------

  /** What the tokens say, the first text having been read up to `e`; with it, how far it has been read in the end. */
  function Read(a: Text, tokens: seq<Text>, e: nat, coding: Coding): Result<(seq<Diff>, nat), DeltaError> {
    if tokens == [] then Success(([], e))
    else if tokens[0] == [] then Read(a, tokens[1..], e, coding)
    else
      var param := tokens[0][1..];
      if tokens[0][0] == PLUS then
        if coding.decode(param).None? then Failure(IllegalEscape(param))
        else Follow(Diff(Insert, coding.decode(param).value), Read(a, tokens[1..], e, coding))
      else if tokens[0][0] == MINUS || tokens[0][0] == EQUALS then
        var n := ParseInt(param);
        if n.None? || n.value < 0 then Failure(InvalidNumber(param))
        else
          Follow(Diff(if tokens[0][0] == EQUALS then Equal else Delete, Substring(a, e, e + n.value)),
            Read(a, tokens[1..], e + n.value, coding))
      else Failure(InvalidOperation(tokens[0]))
  }

  /** An entry put before what the other tokens say, unless they are in error. */
  function Follow(d: Diff, rest: Result<(seq<Diff>, nat), DeltaError>): Result<(seq<Diff>, nat), DeltaError> {
    match rest
    case Success(pair) => Success(([d] + pair.0, pair.1))
    case Failure(error) => Failure(error)
  }

  /** What a delta says of a first text. */
  function Decoded(a: Text, delta: Text, coding: Coding): Result<seq<Diff>, DeltaError> {
    match Read(a, Split(delta, TAB), 0, coding)
    case Failure(error) => Failure(error)
    case Success(pair) => if pair.1 != |a| then Failure(WrongLength(pair.1, |a|)) else Success(pair.0)
  }

  /** The entries read so far, put before what is still to be read. */
  function Onto(done: seq<Diff>, rest: Result<(seq<Diff>, nat), DeltaError>): Result<(seq<Diff>, nat), DeltaError> {
    match rest
    case Success(pair) => Success((done + pair.0, pair.1))
    case Failure(error) => Failure(error)
  }

  lemma OntoFollow(done: seq<Diff>, d: Diff, rest: Result<(seq<Diff>, nat), DeltaError>)
    ensures Onto(done, Follow(d, rest)) == Onto(done + [d], rest)
  {
    if rest.Success? {
      Regroup(done, [d], rest.value.0);
    }
  }

  lemma OntoNothing(rest: Result<(seq<Diff>, nat), DeltaError>)
    ensures Onto([], rest) == rest
  {
    if rest.Success? {
      assert [] + rest.value.0 == rest.value.0;
    }
  }

  method FromDelta(a: Text, delta: Text, coding: Coding) returns (result: Result<seq<Diff>, DeltaError>)
    ensures result == Decoded(a, delta, coding)
  {
    var diffs: seq<Diff> := [];
    var pointer: nat := 0;
    var tokens := Split(delta, TAB);
    var x := 0;
    assert tokens[0..] == tokens;
    OntoNothing(Read(a, tokens, 0, coding));
    while x < |tokens|
      invariant 0 <= x <= |tokens|
      invariant Read(a, tokens, 0, coding) == Onto(diffs, Read(a, tokens[x..], pointer, coding))
    {
      var token := tokens[x];
      assert tokens[x..] == [token] + tokens[x + 1..];
      if token != [] {
        var param := token[1..];
        if token[0] == PLUS {
          var text := coding.decode(param);
          if text.None? {
            return Failure(IllegalEscape(param));
          }
          OntoFollow(diffs, Diff(Insert, text.value), Read(a, tokens[x + 1..], pointer, coding));
          diffs := diffs + [Diff(Insert, text.value)];
        } else if token[0] == MINUS || token[0] == EQUALS {
          var n := ParseInt(param);
          if n.None? || n.value < 0 {
            return Failure(InvalidNumber(param));
          }
          var d := Diff(if token[0] == EQUALS then Equal else Delete, Substring(a, pointer, pointer + n.value));
          OntoFollow(diffs, d, Read(a, tokens[x + 1..], pointer + n.value, coding));
          pointer := pointer + n.value;
          diffs := diffs + [d];
        } else {
          return Failure(InvalidOperation(token));
        }
      }
      x := x + 1;
    }
    if pointer != |a| {
      return Failure(WrongLength(pointer, |a|));
    }
    assert diffs + [] == diffs;
    return Success(diffs);
  }

  // ---------- there and back ----------

  /** A token as it stands in the delta, escaped spaces put back. */
  function SpacedToken(d: Diff, coding: Coding): Text
    requires Token(d, coding).Some?
  {
    Spaced(Token(d, coding).value)
  }

  function SpacedTokens(ds: seq<Diff>, coding: Coding): seq<Text>
    requires Encodable(ds, coding)
  {
    seq(|ds|, i requires 0 <= i < |ds| => SpacedToken(ds[i], coding))
  }

  lemma {:induction false} SpacedJoin(ds: seq<Diff>, coding: Coding)
    requires Encodable(ds, coding)
    ensures Spaced(Join(Tokens(ds, coding), TAB)) == Join(SpacedTokens(ds, coding), TAB)
  {
    var ts, us := Tokens(ds, coding), SpacedTokens(ds, coding);
    if |ds| > 1 {
      SpacedJoin(ds[1..], coding);
      assert ts[1..] == Tokens(ds[1..], coding) && us[1..] == SpacedTokens(ds[1..], coding);
      SpacedAcross(ts[0], TAB, Join(ts[1..], TAB));
      Regroup(ts[0], [TAB], Join(ts[1..], TAB));
      Regroup(us[0], [TAB], Join(us[1..], TAB));
    }
  }

  /** What a token looks like in the delta. */
  lemma TokenStands(d: Diff, coding: Coding)
    requires Faithful(coding) && Token(d, coding).Some?
    ensures TAB !in SpacedToken(d, coding) && SpacedToken(d, coding) != []
    ensures d.op == Insert ==> SpacedToken(d, coding) == [PLUS] + Spaced(coding.encode(d.text).value)
    ensures d.op != Insert ==> SpacedToken(d, coding) == [if d.op == Delete then MINUS else EQUALS] + Decimal(|d.text|)
  {
    var token := Token(d, coding).value;
    if d.op == Insert {
      var e := coding.encode(d.text).value;
      assert token == [] + ([PLUS] + e);
      SpacedAcross([], PLUS, e);
      SpacedKeeps(e, TAB);
    } else {
      DecimalValue(|d.text|);
      SpacedPlain(token);
    }
  }

  /** Reading the token of an entry whose text, unless inserted, comes next in the first text. */
  lemma TokenRead(a: Text, d: Diff, rest: seq<Text>, e: nat, coding: Coding)
    requires Faithful(coding) && Token(d, coding).Some?
    requires d.op != Insert ==> e + |d.text| <= |a| && a[e..e + |d.text|] == d.text
    ensures Read(a, [SpacedToken(d, coding)] + rest, e, coding) ==
      Follow(d, Read(a, rest, if d.op == Insert then e else e + |d.text|, coding))
  {
    TokenStands(d, coding);
    var tokens := [SpacedToken(d, coding)] + rest;
    assert tokens[1..] == rest;
    if d.op == Insert {
      assert tokens[0][1..] == Spaced(coding.encode(d.text).value);
    } else {
      assert tokens[0][1..] == Decimal(|d.text|);
      ParseDecimal(|d.text|);
    }
  }

  lemma {:induction false} TokensRead(a: Text, ds: seq<Diff>, e: nat, coding: Coding)
    requires Faithful(coding) && Encodable(ds, coding) && e <= |a| && a[e..] == Text1(ds)
    ensures Read(a, SpacedTokens(ds, coding), e, coding) == Success((ds, |a|))
    decreases |ds|
  {
    if ds == [] {
      assert |a[e..]| == 0;
    } else {
      var d, rest := ds[0], SpacedTokens(ds[1..], coding);
      var e' := if d.op == Insert then e else e + |d.text|;
      NextText(a, d, ds[1..], e);
      assert ds == [d] + ds[1..];
      TokensRead(a, ds[1..], e', coding);
      TokenRead(a, d, rest, e, coding);
      assert SpacedTokens(ds, coding) == [SpacedToken(d, coding)] + rest;
    }
  }

  lemma NextText(a: Text, d: Diff, ds: seq<Diff>, e: nat)
    requires e <= |a| && a[e..] == Text1([d] + ds)
    ensures d.op == Insert ==> a[e..] == Text1(ds)
    ensures d.op != Insert ==> e + |d.text| <= |a| && a[e..e + |d.text|] == d.text && a[e + |d.text|..] == Text1(ds)
  {
    assert ([d] + ds)[1..] == ds;
    if d.op != Insert {
      assert a[e..] == d.text + Text1(ds);
      assert a[e..][..|d.text|] == d.text && a[e..][|d.text|..] == Text1(ds);
    }
  }

  /** The delta of a diff, read against the diff's first text, gives the diff back. */
  lemma DeltaRoundTrip(ds: seq<Diff>, coding: Coding)
    requires Faithful(coding) && Encodable(ds, coding)
    ensures Decoded(Text1(ds), Spaced(Join(Tokens(ds, coding), TAB)), coding) == Success(ds)
  {
    var a, ts := Text1(ds), SpacedTokens(ds, coding);
    SpacedJoin(ds, coding);
    assert a[0..] == a;
    TokensRead(a, ds, 0, coding);
    if ds == [] {
      var tokens: seq<Text> := [[]];
      assert Split([], TAB) == tokens && tokens[1..] == [];
      assert Read(a, tokens, 0, coding) == Read(a, [], 0, coding);
    } else {
      forall t | t in ts
        ensures TAB !in t
      {
        var i :| 0 <= i < |ts| && ts[i] == t;
        TokenStands(ds[i], coding);
      }
      SplitJoined(ts, TAB);
    }
  }

  /** Whatever delta is accepted for a first text, the diff it gives is one of that text. */
  lemma AcceptedDelta(a: Text, delta: Text, coding: Coding)
    requires Decoded(a, delta, coding).Success?
    ensures Text1(Decoded(a, delta, coding).value) == a
  {
    ReadText(a, Split(delta, TAB), 0, coding);
    assert a[0..] == a;
  }

  lemma {:induction false} ReadText(a: Text, tokens: seq<Text>, e: nat, coding: Coding)
    requires Read(a, tokens, e, coding).Success?
    ensures Read(a, tokens, e, coding).value.1 >= e
    ensures Read(a, tokens, e, coding).value.1 == |a| ==> Text1(Read(a, tokens, e, coding).value.0) == a[e..]
    decreases |tokens|
  {
    hide TextOf, ParseInt;
    if tokens == [] {
      assert a[|a|..] == [];
      NoText();
    } else if tokens[0] == [] {
      ReadText(a, tokens[1..], e, coding);
    } else if tokens[0][0] == PLUS {
      ReadText(a, tokens[1..], e, coding);
      FollowText(Diff(Insert, coding.decode(tokens[0][1..]).value), Read(a, tokens[1..], e, coding).value.0);
    } else {
      var n := ParseInt(tokens[0][1..]).value;
      ReadText(a, tokens[1..], e + n, coding);
      FollowText(Diff(if tokens[0][0] == EQUALS then Equal else Delete, Substring(a, e, e + n)),
        Read(a, tokens[1..], e + n, coding).value.0);
      if Read(a, tokens, e, coding).value.1 == |a| {
        assert a[e..] == a[e..e + n] + a[e + n..];
      }
    }
  }

  lemma NoText()
    ensures Text1([]) == []
  {
  }

  lemma FollowText(d: Diff, ds: seq<Diff>)
    ensures Text1([d] + ds) == (if d.op == Insert then [] else d.text) + Text1(ds)
  {
    TextConcat([d], ds, Insert);
    TextOfOne(d, Insert);
  }
}
