/**
 What the text forms of diffs and patches are made of: joined and split pieces, decimal
 numbers, and the escaping of texts.
 */
module DiffCodec {
  import opened Wrappers
  import opened DiffText
  import opened Diffs

  const TAB: CodeUnit := 9
  const LINE_FEED: CodeUnit := 10
  const SPACE: CodeUnit := 32
  const PERCENT: CodeUnit := 37
  const PLUS: CodeUnit := 43
  const COMMA: CodeUnit := 44
  const MINUS: CodeUnit := 45
  const ZERO: CodeUnit := 48
  const EQUALS: CodeUnit := 61
  const AT: CodeUnit := 64

  // ---------- joining and splitting ----------

  /** JavaScript's `join`. */
  function Join(parts: seq<Text>, separator: CodeUnit): Text {
    if parts == [] then []
    else if |parts| == 1 then parts[0]
    else parts[0] + [separator] + Join(parts[1..], separator)
  }

  /** JavaScript's `split` at a single unit: there is always at least one piece. */
  function Split(s: Text, separator: CodeUnit): (parts: seq<Text>)
    ensures parts != []
  {
    if s == [] then [[]]
    else
      var rest := Split(s[1..], separator);
      if s[0] == separator then [[]] + rest else [[s[0]] + rest[0]] + rest[1..]
  }

  lemma {:induction false} SplitWhole(s: Text, separator: CodeUnit)
    requires separator !in s
    ensures Split(s, separator) == [s]
  {
    if s != [] {
      SplitWhole(s[1..], separator);
      assert [s[0]] + s[1..] == s;
    }
  }

  lemma {:induction false} SplitAtSeparator(s: Text, separator: CodeUnit, rest: Text)
    requires separator !in s
    ensures Split(s + [separator] + rest, separator) == [s] + Split(rest, separator)
  {
    var whole := s + [separator] + rest;
    if s == [] {
      assert whole[1..] == rest;
    } else {
      SplitAtSeparator(s[1..], separator, rest);
      assert whole[1..] == s[1..] + [separator] + rest;
      assert [s[0]] + s[1..] == s;
    }
  }

  /** Splitting takes apart what joining has put together. */
  lemma {:induction false} SplitJoined(parts: seq<Text>, separator: CodeUnit)
    requires parts != [] && forall p :: p in parts ==> separator !in p
    ensures Split(Join(parts, separator), separator) == parts
  {
    if |parts| == 1 {
      SplitWhole(parts[0], separator);
    } else {
      SplitJoined(parts[1..], separator);
      SplitAtSeparator(parts[0], separator, Join(parts[1..], separator));
    }
  }

  // ---------- numbers ----------

  predicate IsDigit(c: CodeUnit) {
    48 <= c <= 57
  }

  /** A number in decimal. */
  function Decimal(n: nat): Text {
    if n < 10 then [48 + n] else Decimal(n / 10) + [48 + n % 10]
  }

  /** The value of a row of digits. */
  function Value(t: Text): nat
    requires forall c :: c in t ==> IsDigit(c)
  {
    if t == [] then 0
    else
      assert IsDigit(t[|t| - 1]);
      10 * Value(t[..|t| - 1]) + (t[|t| - 1] as int) - 48
  }

  lemma {:induction false} DecimalValue(n: nat)
    ensures Decimal(n) != [] && (forall c :: c in Decimal(n) ==> IsDigit(c)) && Value(Decimal(n)) == n
  {
    if n >= 10 {
      DecimalValue(n / 10);
      assert Decimal(n)[..|Decimal(n)| - 1] == Decimal(n / 10);
    }
  }

  /** How many digits a text begins with. */
  function DigitRun(t: Text): (n: nat)
    ensures n <= |t| && (forall i :: 0 <= i < n ==> IsDigit(t[i])) && (n < |t| ==> !IsDigit(t[n]))
  {
    if t == [] || !IsDigit(t[0]) then 0 else 1 + DigitRun(t[1..])
  }

  lemma DigitRunOf(digits: Text, rest: Text)
    requires (forall c :: c in digits ==> IsDigit(c)) && (rest == [] || !IsDigit(rest[0]))
    ensures DigitRun(digits + rest) == |digits|
  {
    var t := digits + rest;
    assert forall i :: 0 <= i < |digits| ==> t[i] == digits[i] && digits[i] in digits;
    assert rest != [] ==> t[|digits|] == rest[0];
  }

  /** What JavaScript skips in front of a number. */
  predicate IsSpace(c: CodeUnit) {
    9 <= c <= 13 || c == 32 || c == 0xA0 || c == 0x1680 || 0x2000 <= c <= 0x200A || c == 0x2028 || c == 0x2029
    || c == 0x202F || c == 0x205F || c == 0x3000 || c == 0xFEFF
  }

  function SkipSpace(t: Text): Text {
    if t != [] && IsSpace(t[0]) then SkipSpace(t[1..]) else t
  }

  /** JavaScript's `parseInt(t, 10)`; there is no value for NaN. */
  function ParseInt(t: Text): Option<int> {
    var s := SkipSpace(t);
    var negative := s != [] && s[0] == MINUS;
    var digits := if s != [] && (s[0] == MINUS || s[0] == PLUS) then s[1..] else s;
    var n := DigitRun(digits);
    if n == 0 then None
    else Some(if negative then 0 - Value(digits[..n]) else Value(digits[..n]))
  }

  lemma ParseDecimal(n: nat)
    ensures ParseInt(Decimal(n)) == Some(n)
  {
    var t := Decimal(n);
    DecimalValue(n);
    assert IsDigit(t[0]);
    DigitRunOf(t, []);
    assert t + [] == t && t[..|t|] == t;
  }

  // ---------- escaping ----------

  /** `encodeURI` and `decodeURI`; either gives nothing where JavaScript throws. */
  datatype Coding = Coding(encode: Text -> Option<Text>, decode: Text -> Option<Text>)

  /** `replace(/%20/g, " ")` */
  function Spaced(s: Text): Text {
    if EscapedSpaceAt(s) then [SPACE] + Spaced(s[3..])
    else if s == [] then []
    else [s[0]] + Spaced(s[1..])
  }

  /**
   What is asked of the coding: an encoded text has no tab and no line feed, it can be decoded even when its
   escaped spaces have been put back, and a text without a percent sign is decoded to itself.
   */
  ghost predicate Faithful(coding: Coding) {
    && (forall t :: coding.encode(t).Some? ==> TAB !in coding.encode(t).value && LINE_FEED !in coding.encode(t).value)
    && (forall t :: coding.encode(t).Some? ==> coding.decode(Spaced(coding.encode(t).value)) == Some(t))
    && (forall t {:trigger coding.decode(t)} :: PERCENT !in t ==> coding.decode(t) == Some(t))
  }

  lemma {:induction false} SpacedPlain(s: Text)
    requires PERCENT !in s
    ensures Spaced(s) == s
  {
    if s != [] {
      assert s[0] in s;
      SpacedPlain(s[1..]);
      assert [s[0]] + s[1..] == s;
    }
  }

  predicate EscapedSpaceAt(s: Text) {
    |s| >= 3 && s[..3] == [PERCENT, 50, 48]
  }

  /** An escaped space does not reach over any other unit. */
  lemma {:induction false} SpacedAcross(s: Text, c: CodeUnit, rest: Text)
    requires c != PERCENT && c != 50 && c != 48
    ensures Spaced(s + ([c] + rest)) == Spaced(s) + ([c] + Spaced(rest))
    decreases |s|
  {
    var whole := s + ([c] + rest);
    if s == [] {
      assert whole == [c] + rest && whole[1..] == rest && whole[0] == c;
    } else if EscapedSpaceAt(s) {
      assert whole[..3] == s[..3] && whole[3..] == s[3..] + ([c] + rest);
      SpacedAcross(s[3..], c, rest);
      Regroup([SPACE], Spaced(s[3..]), [c] + Spaced(rest));
    } else {
      assert whole[0] == s[0] && whole[1..] == s[1..] + ([c] + rest);
      NoEscapedSpace(s, c, rest);
      SpacedAcross(s[1..], c, rest);
      Regroup([s[0]], Spaced(s[1..]), [c] + Spaced(rest));
    }
  }

  lemma NoEscapedSpace(s: Text, c: CodeUnit, rest: Text)
    requires c != PERCENT && c != 50 && c != 48 && s != [] && !EscapedSpaceAt(s)
    ensures !EscapedSpaceAt(s + ([c] + rest))
  {
    var whole := s + ([c] + rest);
    if |s| < 3 {
      assert whole[|s|] == c && (|whole| >= 3 ==> whole[..3][|s|] == c);
    } else {
      assert whole[..3] == s[..3];
    }
  }

  lemma {:induction false} SpacedKeeps(s: Text, c: CodeUnit)
    requires c !in s && c != SPACE
    ensures c !in Spaced(s)
    decreases |s|
  {
    if EscapedSpaceAt(s) {
      SpacedKeeps(s[3..], c);
    } else if s != [] {
      SpacedKeeps(s[1..], c);
    }
  }
}
