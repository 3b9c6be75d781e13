/** Exactly which texts are read whole as a number, and as which. */
module NumberTexts {
  import opened Basics
  import opened JsonText
  import opened Fields
  import opened InspectorEdit
  import opened TypedNumbers

  /** The exponent of a number: `e` or `E`, a sign or none, and digits. */
  datatype Tail = Tail(letter: char, sign: string, digits: string)

  /** A number as one may write it: a sign or none, digits before and after a point, and an exponent. */
  datatype Shape = Shape(sign: string, whole: string, point: bool, part: string, tail: Option<Tail>)

  predicate GoodTail(t: Tail) {
    (t.letter == 'e' || t.letter == 'E') && (t.sign == "" || t.sign == "+" || t.sign == "-")
    && t.digits != "" && AllDigits(t.digits)
  }

  predicate GoodShape(s: Shape) {
    (s.sign == "" || s.sign == "+" || s.sign == "-") && AllDigits(s.whole) && AllDigits(s.part)
    && (s.whole != "" || s.part != "") && (!s.point ==> s.part == "") && (s.tail.Some? ==> GoodTail(s.tail.value))
  }

  function TailText(tail: Option<Tail>): string {
    if tail == None then "" else [tail.value.letter] + (tail.value.sign + tail.value.digits)
  }

  function PointText(s: Shape): string {
    if s.point then "." + s.part else ""
  }

  function Body(s: Shape): string {
    s.whole + (PointText(s) + TailText(s.tail))
  }

  function ShapeText(s: Shape): string {
    s.sign + Body(s)
  }

  function TailValue(tail: Option<Tail>): int
    requires tail.Some? ==> GoodTail(tail.value)
  {
    if tail == None then 0 else Signed(tail.value.sign == "-", DigitsValue(tail.value.digits))
  }

  /** What the digits and the exponent say. */
  function Size(s: Shape): real
    requires GoodShape(s) && AllDigits(s.whole + s.part)
  {
    Scaled(DigitsValue(s.whole + s.part), TailValue(s.tail) - |s.part|)
  }

  function ValueOf(s: Shape): real
    requires GoodShape(s) && AllDigits(s.whole + s.part)
  {
    if s.sign == "-" then -Size(s) else Size(s)
  }

  // Written, then read.

  lemma TailReads(tail: Option<Tail>)
    requires tail.Some? ==> GoodTail(tail.value)
    ensures Exponent(TailText(tail)) == (|TailText(tail)|, TailValue(tail))
  {
    hide DigitsValue, DigitRun, Exponent;
    if tail == None {
      NoExponent();
    } else {
      var t := tail.value;
      TailCut(t.letter, t.sign, t.digits, TailText(tail));
      ExponentIs(TailText(tail), t.sign, t.digits);
    }
  }

  lemma NoExponent()
    ensures Exponent("") == (0, 0)
  {
  }

  lemma ExponentIs(s: string, sign: string, digits: string)
    requires (sign == "" || sign == "+" || sign == "-") && digits != "" && AllDigits(digits)
    requires |s| > 1 && (s[0] == 'e' || s[0] == 'E') && s[1 + |sign|..] == digits
    requires s[1] == if sign == "" then digits[0] else sign[0]
    ensures Exponent(s) == (|s|, Signed(sign == "-", DigitsValue(digits)))
  {
    hide DigitsValue, DigitRun;
    DigitRunAll(digits);
    assert digits[0] in digits && digits[..|digits|] == digits;
  }

  lemma TailCut(letter: char, sign: string, digits: string, s: string)
    requires digits != "" && |sign| <= 1 && s == [letter] + (sign + digits)
    ensures s[0] == letter && s[1 + |sign|..] == digits && |s| > 1
    ensures s[1] == if sign == "" then digits[0] else sign[0]
  {
    assert s[1..] == sign + digits;
  }

  lemma TailStarts(tail: Option<Tail>)
    requires tail.Some? ==> GoodTail(tail.value)
    ensures var s := TailText(tail); s == "" || s[0] == 'e' || s[0] == 'E'
  {
  }

  lemma PlainCut(s: Shape)
    requires GoodShape(s) && !s.point
    ensures var b := Body(s);
      && DigitRun(b) == |s.whole| && b[..|s.whole|] == s.whole && b[|s.whole|..] == TailText(s.tail)
      && (|b| > |s.whole| ==> b[|s.whole|] != '.')
  {
    hide DigitRun, AllDigits, TailText;
    var e := TailText(s.tail);
    TailStarts(s.tail);
    WholeCut(s.whole, e, Body(s));
    LetterStops(e);
    DigitRunStops(s.whole, "" + e);
    assert Body(s)[..|s.whole|] == s.whole;
  }

  lemma LetterStops(e: string)
    requires e == "" || e[0] == 'e' || e[0] == 'E'
    ensures "" + e == e && (e == "" || !IsDigit(e[0]))
  {
  }

  lemma DottedCut(s: Shape)
    requires GoodShape(s) && s.point
    ensures var b, n := Body(s), |s.whole|;
      && DigitRun(b) == n && b[..n] == s.whole && |b| >= n + 1 + |s.part| && b[n] == '.'
      && DigitRun(b[n + 1..]) == |s.part| && b[n + 1..][..|s.part|] == s.part
      && b[n + 1 + |s.part|..] == TailText(s.tail)
  {
    hide DigitRun, AllDigits, TailText;
    TailStarts(s.tail);
    DotCut(s.whole, s.part, TailText(s.tail), Body(s));
  }

  lemma DotCut(whole: string, part: string, e: string, b: string)
    requires AllDigits(whole) && AllDigits(part) && (e == "" || e[0] == 'e' || e[0] == 'E')
    requires b == whole + ("." + part + e)
    ensures DigitRun(b) == |whole| && b[..|whole|] == whole && |b| >= |whole| + 1 + |part| && b[|whole|] == '.'
    ensures DigitRun(b[|whole| + 1..]) == |part| && b[|whole| + 1..][..|part|] == part
    ensures b[|whole| + 1 + |part|..] == e
  {
    hide DigitRun, AllDigits;
    PointCut(whole, part, e, b);
    LetterStops(e);
    DigitRunStops(whole, "." + part + e);
    DigitRunStops(part, e);
  }

  lemma BodyReads(s: Shape)
    requires GoodShape(s)
    ensures AllDigits(s.whole + s.part) && Unsigned(Body(s)) == Scanned(|Body(s)|, Size(s))
  {
    hide Scaled, DigitsValue, Exponent, DigitRun, TailText, Body, TailValue, Joined;
    var b, n := Body(s), |s.whole|;
    TailReads(s.tail);
    DigitsJoin(s.whole, s.part);
    if s.point {
      DottedCut(s);
      assert Unsigned(b) == Joined(b, DigitsValue(s.whole + s.part), |s.part|, n + 1 + |s.part|);
      JoinedIs(b, DigitsValue(s.whole + s.part), |s.part|, n + 1 + |s.part|, TailValue(s.tail));
    } else {
      PlainCut(s);
      assert Unsigned(b) == Joined(b, DigitsValue(s.whole + s.part), 0, n);
      JoinedIs(b, DigitsValue(s.whole + s.part), 0, n, TailValue(s.tail));
    }
  }

  lemma JoinedIs(b: string, n: nat, part: nat, end: nat, power: int)
    requires end <= |b| && Exponent(b[end..]) == (|b| - end, power)
    ensures Joined(b, n, part, end) == Scanned(|b|, Scaled(n, power - part))
  {
  }

  lemma ShapeChars(s: Shape)
    requires GoodShape(s)
    ensures Body(s) != "" && (IsDigit(Body(s)[0]) || Body(s)[0] == '.')
    ensures ShapeText(s) != "" && forall c | c in ShapeText(s) :: IsNumberChar(c)
  {
    if s.whole != "" {
      assert Body(s)[0] == s.whole[0] && s.whole[0] in s.whole;
    }
    TailChars(s.tail);
    assert forall c | c in PointText(s) :: IsNumberChar(c);
  }

  lemma TailChars(tail: Option<Tail>)
    requires tail.Some? ==> GoodTail(tail.value)
    ensures forall c | c in TailText(tail) :: IsNumberChar(c)
  {
  }

  lemma WrittenNumberReads(s: Shape)
    requires GoodShape(s) && |ShapeText(s)| < 64
    ensures AllDigits(s.whole + s.part) && ScanNumber(ShapeText(s)) == Scanned(|ShapeText(s)|, ValueOf(s))
  {
    hide Unsigned, Size, Body, AllDigits, IsDigit, IsNumberChar;
    var t := ShapeText(s);
    BodyReads(s);
    ShapeChars(s);
    NumberRunStops(t, "");
    assert t + "" == t && t[..|t|] == t;
    NotSign(Body(s)[0]);
    if s.sign == "" {
      assert t == Body(s);
    } else {
      assert t[0] == s.sign[0] && t[1..] == Body(s) && t[1..|t|] == t[1..];
    }
  }

  lemma NotSign(c: char)
    requires IsDigit(c) || c == '.'
    ensures c != '-' && c != '+'
  {
  }

  // Read, then found written.

  lemma TailFound(s: string) returns (tail: Option<Tail>)
    requires Exponent(s).0 == |s|
    ensures (tail.Some? ==> GoodTail(tail.value)) && s == TailText(tail) && Exponent(s).1 == TailValue(tail)
  {
    if s == "" {
      tail := None;
    } else {
      var k := if |s| > 1 && (s[1] == '+' || s[1] == '-') then 1 else 0;
      var sign := s[1..1 + k];
      var digits := s[1 + k..];
      assert DigitRun(digits) == |digits| && digits[..|digits|] == digits;
      assert AllDigits(digits);
      tail := Some(Tail(s[0], sign, digits));
      assert s == [s[0]] + (sign + digits);
    }
  }

  lemma BodyFound(b: string, sign: string) returns (s: Shape)
    requires sign == "" || sign == "+" || sign == "-"
    requires b != "" && Unsigned(b).used == |b|
    ensures GoodShape(s) && s.sign == sign && b == Body(s)
    ensures AllDigits(s.whole + s.part) && Unsigned(b).value == Size(s)
  {
    hide Scaled, DigitsValue, Exponent, Joined, TailText, Body, TailValue, Unsigned, DigitRun;
    var n, point, part := Parts(b);
    var whole, end := b[..n], n + if point then 1 + |part| else 0;
    JoinedWhole(b, DigitsValue(whole + part), |part|, end);
    var tail := TailFound(b[end..]);
    JoinedIs(b, DigitsValue(whole + part), |part|, end, TailValue(tail));
    s := Shape(sign, whole, point, part, tail);
    BodyGlued(b, s, n);
  }

  lemma JoinedWhole(b: string, n: nat, part: nat, end: nat)
    requires end <= |b| && Joined(b, n, part, end).used == |b|
    ensures Exponent(b[end..]).0 == |b[end..]|
  {
  }

  lemma BodyGlued(b: string, s: Shape, n: nat)
    requires n <= |b| && s.whole == b[..n] && (!s.point ==> s.part == "" && TailText(s.tail) == b[n..])
    requires s.point ==>
      n + 1 + |s.part| <= |b| && b[n] == '.' && s.part == b[n + 1..n + 1 + |s.part|]
      && TailText(s.tail) == b[n + 1 + |s.part|..]
    ensures b == Body(s)
  {
    hide TailText;
    if s.point {
      Glued(b, s.whole, s.part, TailText(s.tail));
    } else {
      assert b == s.whole + ("" + TailText(s.tail));
    }
  }

  lemma Glued(b: string, whole: string, part: string, e: string)
    requires |whole| + 1 + |part| <= |b| && whole == b[..|whole|] && b[|whole|] == '.'
    requires part == b[|whole| + 1..|whole| + 1 + |part|] && e == b[|whole| + 1 + |part|..]
    ensures b == whole + ("." + part + e)
  {
  }

  /** The parts of an unsigned number. */
  lemma Parts(b: string) returns (n: nat, point: bool, part: string)
    requires b != "" && Unsigned(b).used == |b|
    ensures n == DigitRun(b) && AllDigits(b[..n]) && AllDigits(part) && (b[..n] != "" || part != "")
    ensures point <==> n < |b| && b[n] == '.'
    ensures if point then n + 1 + |part| <= |b| && part == b[n + 1..n + 1 + |part|] else part == ""
    ensures AllDigits(b[..n] + part)
    ensures Unsigned(b) == Joined(b, DigitsValue(b[..n] + part), |part|, n + if point then 1 + |part| else 0)
  {
    hide DigitsValue, Joined, Unsigned, DigitRun, AllDigits;
    n := DigitRun(b);
    point := n < |b| && b[n] == '.';
    var after := if point then b[n + 1..] else "";
    part := after[..DigitRun(after)];
    DigitsFound(b);
    DigitsFound(after);
    DigitsJoin(b[..n], part);
    UnsignedIs(b);
  }

  lemma UnsignedIs(s: string)
    ensures var whole := DigitRun(s);
      var point := whole < |s| && s[whole] == '.';
      var after := if point then s[whole + 1..] else "";
      var part := DigitRun(after);
      Unsigned(s) == if whole == 0 && part == 0 then NOTHING
        else Joined(s, DigitsValue(s[..whole] + after[..part]), part, whole + if point then 1 + part else 0)
  {
    hide DigitsValue, Joined, DigitRun;
  }

  lemma DigitsFound(s: string)
    ensures AllDigits(s[..DigitRun(s)])
  {
  }

  lemma ReadNumberWritten(t: string) returns (s: Shape)
    requires t != "" && ScanNumber(t).used == |t|
    ensures GoodShape(s) && AllDigits(s.whole + s.part) && t == ShapeText(s) && |t| < 64
    ensures ScanNumber(t).value == ValueOf(s)
  {
    hide Unsigned, Size, Body;
    assert NumberRun(t) == |t| && t[..|t|] == t && t[1..|t|] == t[1..];
    if t[0] == '+' || t[0] == '-' {
      s := BodyFound(t[1..], [t[0]]);
      assert t == [t[0]] + t[1..];
    } else {
      s := BodyFound(t, "");
      assert t == "" + t;
    }
  }

  ghost predicate Writes(t: string, x: real) {
    exists s :: GoodShape(s) && AllDigits(s.whole + s.part) && t == ShapeText(s) && x == ValueOf(s)
  }

  /** A text is read whole as the number `x` exactly when it is shorter than 64 characters and writes `x`. */
  lemma NumberExactly(t: string, x: real)
    ensures t != "" && ScanNumber(t) == Scanned(|t|, x) <==> |t| < 64 && Writes(t, x)
  {
    hide ScanNumber, ValueOf, GoodShape, AllDigits;
    if t != "" && ScanNumber(t) == Scanned(|t|, x) {
      var s := ReadNumberWritten(t);
    }
    if |t| < 64 && Writes(t, x) {
      var s :| GoodShape(s) && AllDigits(s.whole + s.part) && t == ShapeText(s) && x == ValueOf(s);
      WrittenNumberReads(s);
      ShapeChars(s);
    }
  }

  ghost predicate WritesIn(text: string, x: real) {
    exists a, t, b :: Pad(a) && Pad(b) && text == a + t + b && |t| < 64 && Writes(t, x)
  }

  /** Where a number is wanted, a typed text is taken for `x` exactly when, without the blanks around it, it writes `x`
      in fewer than 64 characters. */
  lemma NumberTyped(text: string, x: real)
    ensures Typed(text, false) == Some(Num(x)) <==> WritesIn(text, x)
  {
    hide ScanNumber, Writes;
    if Typed(text, false) == Some(Num(x)) {
      var a, b := Cut(text);
      NumberExactly(Trimmed(text), x);
    }
    if WritesIn(text, x) {
      var a, t, b :| Pad(a) && Pad(b) && text == a + t + b && |t| < 64 && Writes(t, x);
      NumberExactly(t, x);
      WritesBare(t, x);
      PadsOff(a, t, b);
    }
  }

  lemma WritesBare(t: string, x: real)
    requires Writes(t, x)
    ensures Bare(t)
  {
    hide ShapeText, GoodShape, ValueOf, AllDigits, IsNumberChar, Bare;
    var s :| GoodShape(s) && AllDigits(s.whole + s.part) && t == ShapeText(s) && x == ValueOf(s);
    ShapeChars(s);
    CharsBare(t);
  }

  lemma CharsBare(t: string)
    requires t != "" && forall c | c in t :: IsNumberChar(c)
    ensures Bare(t)
  {
    assert t[0] in t && t[|t| - 1] in t;
  }
}
