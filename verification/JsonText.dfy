/** JSON values and the text the command line interface writes for them. */
module JsonText {
  import opened Basics

  datatype Value =
    | Null
    | Boolean(b: bool)
    | Integer(n: int)
    | Number(token: string)
    | Text(s: string)
    | List(items: seq<Value>)
    | Object(members: seq<Member>)

  datatype Member = Member(key: string, value: Value)

  // Numbers.

  predicate IsDigit(c: char) {
    '0' <= c <= '9'
  }

  predicate IsNumberChar(c: char) {
    IsDigit(c) || c == '+' || c == '-' || c == '.' || c == 'e' || c == 'E'
  }

  function DigitChar(d: nat): (c: char)
    requires d < 10
    ensures IsDigit(c) && c as int - '0' as int == d
  {
    '0' + d as char
  }

  /** The decimal digits of a natural number. */
  function Digits(n: nat): (s: string)
    ensures s != "" && forall c | c in s :: IsDigit(c)
  {
    if n < 10 then [DigitChar(n)] else Digits(n / 10) + [DigitChar(n % 10)]
  }

  /** `std::to_string`. */
  function Decimal(n: int): (s: string)
    ensures s != "" && forall c | c in s :: IsNumberChar(c)
    ensures IsDigit(s[0]) || s[0] == '-'
  {
    if n < 0 then "-" + Digits(-n) else Digits(n)
  }

  function DigitRun(s: string): (k: nat)
    ensures k <= |s| && (forall i | 0 <= i < k :: IsDigit(s[i])) && (k < |s| ==> !IsDigit(s[k]))
  {
    if s == "" || !IsDigit(s[0]) then 0 else 1 + DigitRun(s[1..])
  }

  function NumberRun(s: string): (k: nat)
    ensures k <= |s| && (forall i | 0 <= i < k :: IsNumberChar(s[i])) && (k < |s| ==> !IsNumberChar(s[k]))
  {
    if s == "" || !IsNumberChar(s[0]) then 0 else 1 + NumberRun(s[1..])
  }

  function DigitsValue(s: string): nat
    requires forall c | c in s :: IsDigit(c)
  {
    if s == "" then 0
    else
      var last := s[|s| - 1];
      assert IsDigit(last);
      DigitsValue(s[..|s| - 1]) * 10 + (last as int - '0' as int)
  }

  function Tens(k: nat): (r: real)
    ensures r > 0.0
  {
    if k == 0 then 1.0 else 10.0 * Tens(k - 1)
  }

  /** A number found at the start of a text: how many characters it took, and its value. */
  datatype Scanned = Scanned(used: nat, value: real)

  const NOTHING := Scanned(0, 0.0)

  /** The exponent at the start of `s`: its length, zero when it is not a whole one, and its value. */
  function Exponent(s: string): (r: (nat, int))
    ensures r.0 <= |s|
  {
    if s == "" || (s[0] != 'e' && s[0] != 'E') then (0, 0)
    else
      var sign := if |s| > 1 && (s[1] == '+' || s[1] == '-') then 1 else 0;
      var digits := s[1 + sign..];
      var k := DigitRun(digits);
      if k == 0 then (0, 0)
      else
        var e: int := DigitsValue(digits[..k]);
        (1 + sign + k, if sign == 1 && s[1] == '-' then -e else e)
  }

  /** The longest unsigned number at the start of `s`. */
  function Unsigned(s: string): (r: Scanned)
    ensures r.used <= |s|
  {
    var whole := DigitRun(s);
    var point := whole < |s| && s[whole] == '.';
    var after := if point then s[whole + 1..] else "";
    var part := DigitRun(after);
    if whole == 0 && part == 0 then NOTHING
    else
      Joined(s, DigitsValue(s[..whole] + after[..part]), part, whole + if point then 1 + part else 0)
  }

  /** The number whose digits say `n`, `part` of them after the point, and whose exponent is at `end`. */
  function Joined(s: string, n: nat, part: nat, end: nat): (r: Scanned)
    requires end <= |s|
    ensures r.used <= |s|
  {
    var exponent := Exponent(s[end..]);
    Scanned(end + exponent.0, Scaled(n, exponent.1 - part))
  }

  function Scaled(digits: nat, power: int): real {
    if power == 0 then digits as real
    else if power > 0 then digits as real * Tens(power)
    else digits as real / Tens(-power)
  }

  /** `std::from_chars` on a whole text: no leading plus, an optional minus. */
  function FromChars(s: string): (r: Scanned)
    ensures r.used <= |s|
  {
    if s != "" && s[0] == '-' then
      var r := Unsigned(s[1..]);
      if r.used == 0 then NOTHING else Scanned(1 + r.used, -r.value)
    else Unsigned(s)
  }

  /** `parse_float_prefix`: nothing of 64 characters or more is taken for a number. */
  function ScanNumber(s: string): (r: Scanned)
    ensures r.used <= |s|
  {
    var length := NumberRun(s);
    if length == 0 || length >= 64 then NOTHING
    else if s[0] == '+' then
      if length > 1 && (s[1] == '+' || s[1] == '-') then NOTHING
      else
        var r := FromChars(s[1..length]);
        if r.used == 0 then NOTHING else Scanned(1 + r.used, r.value)
    else FromChars(s[..length])
  }

  /** A token that starts as a number does and reads back whole. */
  predicate NumberToken(s: string) {
    s != "" && (IsDigit(s[0]) || s[0] == '-') && (forall c | c in s :: IsNumberChar(c)) && ScanNumber(s).used == |s|
  }

  predicate AllDigits(s: string) {
    forall c | c in s :: IsDigit(c)
  }

  /** What `{:.6g}` prints of a finite number: a sign, up to six digits, up to nine after the point if there is one, and
      an exponent with its sign and two or three digits if there is one. */
  datatype Figure = Figure(minus: bool, whole: string, part: string, exponent: Option<Power10>)
  datatype Power10 = Power10(minus: bool, digits: string)

  predicate GoodFigure(f: Figure) {
    AllDigits(f.whole) && 1 <= |f.whole| <= 6 && AllDigits(f.part) && |f.part| <= 9
    && (f.exponent.Some? ==> AllDigits(f.exponent.value.digits) && 2 <= |f.exponent.value.digits| <= 3)
  }

  function PowerText(p: Power10): string {
    "e" + (if p.minus then "-" else "+") + p.digits
  }

  function PartText(part: string): string {
    if part == "" then "" else "." + part
  }

  function ExponentText(exponent: Option<Power10>): string {
    if exponent == None then "" else PowerText(exponent.value)
  }

  function FigureText(f: Figure): string {
    (if f.minus then "-" else "") + (f.whole + (PartText(f.part) + ExponentText(f.exponent)))
  }

  ghost predicate Formatted(s: string) {
    exists f :: GoodFigure(f) && s == FigureText(f)
  }

  /** The integers the writer takes are 64 bits wide. */
  predicate InRange(n: int) {
    -0x8000_0000_0000_0000 <= n < 0x8000_0000_0000_0000
  }

  ghost predicate Printable(v: Value) {
    match v
    case Integer(n) => InRange(n)
    case Number(token) => Formatted(token)
    case List(items) => forall i | 0 <= i < |items| :: Printable(items[i])
    case Object(members) => forall i | 0 <= i < |members| :: Printable(members[i].value)
    case _ => true
  }

  // Strings.

  function HexDigit(d: nat): char
    requires d < 16
  {
    if d < 10 then '0' + d as char else 'a' + (d - 10) as char
  }

  function EscapeChar(c: char): string {
    if c == '"' then "\\\""
    else if c == '\\' then "\\\\"
    else if c == '\n' then "\\n"
    else if c == '\r' then "\\r"
    else if c == '\t' then "\\t"
    else if c as int < 0x20 then "\\u00" + [HexDigit(c as int / 16), HexDigit(c as int % 16)]
    else [c]
  }

  function Escape(s: string): string {
    if s == "" then "" else EscapeChar(s[0]) + Escape(s[1..])
  }

  function Quoted(s: string): string {
    "\"" + Escape(s) + "\""
  }

  // Rendering.

  function Render(v: Value): string {
    match v
    case Null => "null"
    case Boolean(b) => if b then "true" else "false"
    case Integer(n) => Decimal(n)
    case Number(token) => token
    case Text(s) => Quoted(s)
    case List(items) => "[" + RenderItems(items) + "]"
    case Object(members) => "{" + RenderMembers(members) + "}"
  }

  function RenderItems(items: seq<Value>): string {
    if items == [] then ""
    else Render(items[0]) + (if |items| > 1 then "," else "") + RenderItems(items[1..])
  }

  function RenderMembers(members: seq<Member>): string {
    if members == [] then ""
    else
      Quoted(members[0].key) + ":" + Render(members[0].value)
      + (if |members| > 1 then "," else "") + RenderMembers(members[1..])
  }

  // Numbers read back.

  lemma {:induction false} DigitsBack(n: nat)
    ensures DigitsValue(Digits(n)) == n
  {
    var s := Digits(n);
    if n >= 10 {
      DigitsBack(n / 10);
      assert s[..|s| - 1] == Digits(n / 10);
    } else {
      assert s[..|s| - 1] == "";
    }
  }

  lemma {:induction false} DigitsLength(n: nat, k: nat)
    requires k > 0 && n < Power(k)
    ensures |Digits(n)| <= k
  {
    if n >= 10 {
      assert k > 1;
      DigitsLength(n / 10, k - 1);
    }
  }

  function Power(k: nat): nat {
    if k == 0 then 1 else 10 * Power(k - 1)
  }

  lemma DecimalLength(n: int)
    requires InRange(n)
    ensures |Decimal(n)| <= 20
  {
    assert Power(4) == 10_000;
    assert Power(8) == 100_000_000;
    assert Power(12) == 1_000_000_000_000;
    assert Power(16) == 10_000_000_000_000_000;
    assert Power(19) == 10_000_000_000_000_000_000;
    DigitsLength(if n < 0 then -n else n, 19);
  }

  lemma {:induction false} DigitRunAll(s: string)
    requires forall c | c in s :: IsDigit(c)
    ensures DigitRun(s) == |s|
  {
    if s != "" {
      assert s[0] in s;
      DigitRunAll(s[1..]);
    }
  }

  lemma {:induction false} NumberRunStops(s: string, rest: string)
    requires forall c | c in s :: IsNumberChar(c)
    requires rest == "" || !IsNumberChar(rest[0])
    ensures NumberRun(s + rest) == |s|
  {
    if s == "" {
      assert s + rest == rest;
    } else {
      assert s[0] in s && (s + rest)[0] == s[0] && (s + rest)[1..] == s[1..] + rest;
      NumberRunStops(s[1..], rest);
    }
  }

  lemma UnsignedDigits(s: string)
    requires s != "" && forall c | c in s :: IsDigit(c)
    ensures Unsigned(s) == Scanned(|s|, DigitsValue(s) as real)
  {
    DigitRunAll(s);
    var none: string := "";
    assert s[..|s|] + none[..0] == s;
    assert Exponent(s[|s|..]) == (0, 0);
  }

  lemma FromCharsDecimal(n: int)
    ensures FromChars(Decimal(n)) == Scanned(|Decimal(n)|, n as real)
  {
    var m := if n < 0 then -n else n;
    var d := Digits(m);
    UnsignedDigits(d);
    DigitsBack(m);
    if n < 0 {
      assert Decimal(n)[1..] == d;
    } else {
      assert d[0] in d;
    }
  }

  /** Where the number ends does not depend on what follows it. */
  lemma ScanNumberStops(s: string, rest: string)
    requires s != "" && forall c | c in s :: IsNumberChar(c)
    requires rest == "" || !IsNumberChar(rest[0])
    ensures ScanNumber(s + rest) == ScanNumber(s)
  {
    NumberRunStops(s, rest);
    NumberRunStops(s, "");
    assert s + "" == s;
    assert (s + rest)[..|s|] == s && (s + rest)[1..|s|] == s[1..];
    assert s[..|s|] == s && s[1..|s|] == s[1..];
    assert (s + rest)[0] == s[0];
    assert |s| > 1 ==> (s + rest)[1] == s[1];
  }

  /** An integer the writer printed reads back as itself. */
  lemma ScanDecimal(n: int)
    requires InRange(n)
    ensures ScanNumber(Decimal(n)) == Scanned(|Decimal(n)|, n as real)
    ensures NumberToken(Decimal(n))
  {
    var s := Decimal(n);
    DecimalLength(n);
    FromCharsDecimal(n);
    NumberRunStops(s, "");
    assert s + "" == s && s[..|s|] == s;
  }

  lemma {:induction false} DigitRunStops(a: string, rest: string)
    requires AllDigits(a) && (rest == "" || !IsDigit(rest[0]))
    ensures DigitRun(a + rest) == |a|
  {
    if a == "" {
      assert a + rest == rest;
    } else {
      assert a[0] in a && (a + rest)[0] == a[0] && (a + rest)[1..] == a[1..] + rest;
      DigitRunStops(a[1..], rest);
    }
  }

  /** The exponent as a whole number. */
  function PowerValue(exponent: Option<Power10>): int
    requires exponent.Some? ==> AllDigits(exponent.value.digits)
  {
    if exponent == None then 0
    else
      var e: int := DigitsValue(exponent.value.digits);
      if exponent.value.minus then -e else e
  }

  lemma ExponentReads(exponent: Option<Power10>)
    requires exponent.Some? ==> AllDigits(exponent.value.digits) && exponent.value.digits != ""
    ensures Exponent(ExponentText(exponent)) == (|ExponentText(exponent)|, PowerValue(exponent))
  {
    if exponent.Some? {
      var s, d := ExponentText(exponent), exponent.value.digits;
      assert s[0] == 'e' && s[2..] == d;
      DigitRunAll(d);
      assert d[..|d|] == d;
    }
  }

  /** The digits, the point and the exponent, each read where it stands. */
  lemma UnsignedReads(whole: string, part: string, exponent: Option<Power10>, s: string)
    requires AllDigits(whole) && whole != "" && AllDigits(part)
    requires exponent.Some? ==> AllDigits(exponent.value.digits) && exponent.value.digits != ""
    requires s == whole + (PartText(part) + ExponentText(exponent))
    ensures AllDigits(whole + part)
    ensures Unsigned(s) == Scanned(|s|, Scaled(DigitsValue(whole + part), PowerValue(exponent) - |part|))
  {
    hide DigitsValue, Scaled, Exponent, Unsigned, ExponentText, PowerValue;
    var e := ExponentText(exponent);
    ExponentReads(exponent);
    ExponentStarts(exponent);
    DigitRunStops(whole, PartText(part) + e);
    assert s[..|whole|] == whole;
    if part == "" {
      WholeCut(whole, e, s);
      assert whole + part == whole;
      UnsignedWhole(s, whole, PowerValue(exponent));
    } else {
      PointCut(whole, part, e, s);
      DigitRunStops(part, e);
      UnsignedPoint(s, whole, part, PowerValue(exponent));
    }
  }

  lemma ExponentStarts(exponent: Option<Power10>)
    ensures var e := ExponentText(exponent); e == "" || e[0] == 'e'
  {
  }

  lemma UnsignedWhole(s: string, whole: string, power: int)
    requires AllDigits(whole) && whole != "" && whole <= s && DigitRun(s) == |whole|
    requires |s| == |whole| || s[|whole|] != '.'
    requires Exponent(s[|whole|..]) == (|s| - |whole|, power)
    ensures Unsigned(s) == Scanned(|s|, Scaled(DigitsValue(whole), power))
  {
    hide DigitsValue, Scaled, Exponent, DigitRun;
    var none: string := "";
    assert s[..|whole|] + none[..0] == whole;
  }

  lemma UnsignedPoint(s: string, whole: string, part: string, power: int)
    requires AllDigits(whole) && whole != "" && whole <= s && DigitRun(s) == |whole|
    requires AllDigits(part) && |s| >= |whole| + 1 + |part| && s[|whole|] == '.'
    requires DigitRun(s[|whole| + 1..]) == |part| && s[|whole| + 1..][..|part|] == part
    requires Exponent(s[|whole| + 1 + |part|..]) == (|s| - |whole| - 1 - |part|, power)
    ensures AllDigits(whole + part)
    ensures Unsigned(s) == Scanned(|s|, Scaled(DigitsValue(whole + part), power - |part|))
  {
    hide DigitsValue, Scaled, Exponent, DigitRun, Unsigned;
    DigitsJoin(whole, part);
    PointJoined(s, whole, part);
  }

  lemma DigitsJoin(a: string, b: string)
    requires AllDigits(a) && AllDigits(b)
    ensures AllDigits(a + b)
  {
  }

  lemma PointJoined(s: string, whole: string, part: string)
    requires AllDigits(whole + part) && whole != "" && whole <= s && DigitRun(s) == |whole|
    requires |s| >= |whole| + 1 + |part| && s[|whole|] == '.'
    requires DigitRun(s[|whole| + 1..]) == |part| && s[|whole| + 1..][..|part|] == part
    ensures Unsigned(s) == Joined(s, DigitsValue(whole + part), |part|, |whole| + 1 + |part|)
  {
    hide Joined, DigitRun, DigitsValue, AllDigits;
    assert s[..|whole|] == whole;
  }

  lemma WholeCut(whole: string, e: string, s: string)
    requires s == whole + ("" + e)
    ensures s[|whole|..] == e && (e == "" || s[|whole|] == e[0])
    ensures var none: string := ""; whole + none[..0] == whole + ""
  {
  }

  lemma PointCut(whole: string, part: string, e: string, s: string)
    requires s == whole + ("." + part + e)
    ensures s[|whole|] == '.' && s[|whole| + 1..] == part + e && (part + e)[..|part|] == part
    ensures s[|whole| + 1 + |part|..] == e && |s| == |whole| + 1 + |part| + |e|
  {
    assert s[|whole|..] == "." + part + e;
  }

  lemma FigureChars(f: Figure)
    requires GoodFigure(f)
    ensures var s := FigureText(f);
      0 < |s| < 64 && (forall c | c in s :: IsNumberChar(c)) && (if f.minus then s[0] == '-' else IsDigit(s[0]))
  {
    assert f.whole[0] in f.whole;
  }

  /** What is printed of a number reads back whole, as the number the digits and the exponent say. */
  lemma FigureReads(f: Figure)
    requires GoodFigure(f)
    ensures NumberToken(FigureText(f)) && AllDigits(f.whole + f.part)
    ensures var x := Scaled(DigitsValue(f.whole + f.part), PowerValue(f.exponent) - |f.part|);
      ScanNumber(FigureText(f)) == Scanned(|FigureText(f)|, if f.minus then -x else x)
  {
    hide DigitsValue, Scaled, Tens, Unsigned, NumberRun, PartText, ExponentText;
    var s := FigureText(f);
    var u := f.whole + (PartText(f.part) + ExponentText(f.exponent));
    FigureChars(f);
    UnsignedReads(f.whole, f.part, f.exponent, u);
    NumberRunStops(s, "");
    assert s + "" == s && s[..|s|] == s;
    assert if f.minus then s[1..] == u else s == u;
  }

  lemma FormattedIsToken(s: string)
    requires Formatted(s)
    ensures NumberToken(s)
  {
    var f :| GoodFigure(f) && s == FigureText(f);
    FigureReads(f);
  }
}
