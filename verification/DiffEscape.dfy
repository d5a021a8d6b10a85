/**
 A coding that escapes as URIs do the units that matter to the text forms of diffs and patches: percent sign,
 tab, line feed and space.  It encodes every text and is faithful, so that what is proved of faithful codings
 is proved of all texts for one of them at least.
 */
module DiffEscape {
  import opened Wrappers
  import opened DiffText
  import opened DiffCodec

  function EscapeUnit(c: CodeUnit): (s: Text)
    ensures s != []
  {
    if c == PERCENT then [PERCENT, 50, 53]
    else if c == TAB then [PERCENT, 48, 57]
    else if c == LINE_FEED then [PERCENT, 48, 65]
    else if c == SPACE then [PERCENT, 50, 48]
    else [c]
  }

  function Escape(t: Text): Text {
    if t == [] then [] else EscapeUnit(t[0]) + Escape(t[1..])
  }

  /** The unit that a percent sign and two further units stand for. */
  function EscapedUnit(x: CodeUnit, y: CodeUnit): Option<CodeUnit> {
    if x == 50 && y == 53 then Some(PERCENT)
    else if x == 48 && y == 57 then Some(TAB)
    else if x == 48 && y == 65 then Some(LINE_FEED)
    else if x == 50 && y == 48 then Some(SPACE)
    else None
  }

  function Prepend(c: CodeUnit, t: Option<Text>): Option<Text> {
    if t.None? then None else Some([c] + t.value)
  }

  function Unescape(s: Text): Option<Text> {
    if s == [] then Some([])
    else if s[0] != PERCENT then Prepend(s[0], Unescape(s[1..]))
    else if |s| < 3 || EscapedUnit(s[1], s[2]).None? then None
    else Prepend(EscapedUnit(s[1], s[2]).value, Unescape(s[3..]))
  }

  const PERCENT_CODING := Coding(t => Some(Escape(t)), Unescape)

  lemma {:induction false} Unbroken(t: Text)
    ensures TAB !in Escape(t) && LINE_FEED !in Escape(t)
  {
    if t != [] {
      Unbroken(t[1..]);
    }
  }

  lemma {:induction false} PlainUnescaped(t: Text)
    requires PERCENT !in t
    ensures Unescape(t) == Some(t)
  {
    if t != [] {
      assert t[0] in t;
      PlainUnescaped(t[1..]);
      assert t == [t[0]] + t[1..];
    }
  }

  /** Spaces come back as they are, all other units escaped as they were. */
  lemma {:induction false} SpacedUnit(c: CodeUnit, rest: Text)
    ensures Spaced(EscapeUnit(c) + rest) == (if c == SPACE then [SPACE] else EscapeUnit(c)) + Spaced(rest)
  {
    var s := EscapeUnit(c) + rest;
    if |EscapeUnit(c)| == 3 {
      assert s[..3] == EscapeUnit(c) && s[3..] == rest;
      if c != SPACE {
        assert s == [s[0]] + ([s[1]] + ([s[2]] + rest));
        NotEscapedSpace(s[2], rest);
        NotEscapedSpace(s[1], [s[2]] + rest);
        assert s[1..] == [s[1]] + ([s[2]] + rest);
        assert EscapeUnit(c) + Spaced(rest) == [s[0]] + ([s[1]] + ([s[2]] + Spaced(rest)));
      }
    } else {
      NotEscapedSpace(c, rest);
    }
  }

  lemma {:induction false} NotEscapedSpace(c: CodeUnit, rest: Text)
    requires c != PERCENT
    ensures Spaced([c] + rest) == [c] + Spaced(rest)
  {
    assert ([c] + rest)[0] == c && ([c] + rest)[1..] == rest;
    assert |rest| >= 2 ==> ([c] + rest)[..3][0] == c;
  }

  lemma {:induction false} UnescapedUnit(c: CodeUnit, rest: Text)
    ensures Unescape((if c == SPACE then [SPACE] else EscapeUnit(c)) + rest) == Prepend(c, Unescape(rest))
  {
    var unit := if c == SPACE then [SPACE] else EscapeUnit(c);
    assert (unit + rest)[|unit|..] == rest;
  }

  lemma {:induction false} EscapedAndBack(t: Text)
    ensures Unescape(Spaced(Escape(t))) == Some(t)
  {
    if t != [] {
      EscapedAndBack(t[1..]);
      SpacedUnit(t[0], Escape(t[1..]));
      UnescapedUnit(t[0], Spaced(Escape(t[1..])));
      assert [t[0]] + t[1..] == t;
    }
  }

  /** There is a faithful coding that encodes every text. */
  lemma {:induction false} PercentCodingIsFaithful()
    ensures Faithful(PERCENT_CODING) && forall t :: PERCENT_CODING.encode(t).Some?
  {
    forall t: Text
      ensures TAB !in Escape(t) && LINE_FEED !in Escape(t) && Unescape(Spaced(Escape(t))) == Some(t)
      ensures PERCENT !in t ==> Unescape(t) == Some(t)
    {
      Unbroken(t);
      EscapedAndBack(t);
      if PERCENT !in t {
        PlainUnescaped(t);
      }
    }
  }
}
