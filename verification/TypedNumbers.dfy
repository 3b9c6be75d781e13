/** Which value a text typed into the inspector becomes. */
module TypedNumbers {
  import opened Basics
  import opened Fields
  import opened JsonText
  import opened InspectorPaths
  import opened InspectorRows
  import opened RowTheorems
  import opened InspectorEdit

  // Blanks.

  predicate Pad(s: string) {
    forall c | c in s :: c == ' ' || c == '\t'
  }

  /** Neither starts nor ends with a blank. */
  predicate Bare(s: string) {
    s != "" && s[0] != ' ' && s[0] != '\t' && s[|s| - 1] != ' ' && s[|s| - 1] != '\t'
  }

  lemma {:induction false} FrontOff(a: string, s: string)
    requires Pad(a) && s != "" && s[0] != ' ' && s[0] != '\t'
    ensures TrimFront(a + s) == s
    decreases |a|
  {
    if a == "" {
      assert a + s == s;
    } else {
      assert a[0] in a && (a + s)[0] == a[0] && (a + s)[1..] == a[1..] + s;
      assert forall c | c in a[1..] :: c in a;
      FrontOff(a[1..], s);
    }
  }

  lemma {:induction false} BackOff(s: string, b: string)
    requires Pad(b) && s != "" && s[|s| - 1] != ' ' && s[|s| - 1] != '\t'
    ensures TrimBack(s + b) == s
    decreases |b|
  {
    if b == "" {
      assert s + b == s;
    } else {
      var n := |b| - 1;
      assert b[n] in b && (s + b)[|s + b| - 1] == b[n] && (s + b)[..|s + b| - 1] == s + b[..n];
      assert forall c | c in b[..n] :: c in b;
      BackOff(s, b[..n]);
    }
  }

  lemma PadsOff(a: string, s: string, b: string)
    requires Pad(a) && Bare(s) && Pad(b)
    ensures Trimmed(a + s + b) == s
  {
    assert a + s + b == a + (s + b);
    FrontOff(a, s + b);
    BackOff(s, b);
  }

  lemma {:induction false} FrontCut(s: string) returns (a: string)
    ensures Pad(a) && s == a + TrimFront(s) && (TrimFront(s) != "" ==> !Blank(TrimFront(s)[0]))
    decreases |s|
  {
    a := "";
    if s != "" && Blank(s[0]) {
      var rest := FrontCut(s[1..]);
      a := [s[0]] + rest;
    }
  }

  lemma {:induction false} BackCut(s: string) returns (b: string)
    ensures Pad(b) && s == TrimBack(s) + b && (TrimBack(s) != "" ==> !Blank(TrimBack(s)[|TrimBack(s)| - 1]))
    ensures TrimBack(s) != "" ==> s != "" && TrimBack(s)[0] == s[0]
    decreases |s|
  {
    b := "";
    if s != "" && Blank(s[|s| - 1]) {
      var rest := BackCut(s[..|s| - 1]);
      b := rest + [s[|s| - 1]];
    }
  }

  /** What trimming leaves is the text without the blanks around it. */
  lemma Cut(text: string) returns (a: string, b: string)
    ensures Pad(a) && Pad(b) && text == a + Trimmed(text) + b && (Trimmed(text) != "" ==> Bare(Trimmed(text)))
  {
    a := FrontCut(text);
    b := BackCut(TrimFront(text));
    assert text == a + (Trimmed(text) + b);
  }

  // Whole numbers.

  function Zeros(k: nat): string {
    seq(k, _ => '0')
  }

  /** A whole number as one may write it: a minus sign or none, zeros or none, then its digits. */
  function Written(minus: bool, zeros: nat, m: nat): string {
    (if minus then "-" else "") + (Zeros(zeros) + Digits(m))
  }

  function Signed(minus: bool, m: nat): int {
    var n: int := m;
    if minus then -n else n
  }

  lemma {:induction false} ZerosCount(k: nat, s: string)
    requires AllDigits(s)
    ensures AllDigits(Zeros(k) + s) && DigitsValue(Zeros(k) + s) == DigitsValue(s)
    decreases |s|
  {
    var all := Zeros(k) + s;
    if s == "" {
      assert all == Zeros(k);
      OnlyZeros(k);
    } else {
      var n := |s| - 1;
      assert all[|all| - 1] == s[n] && all[..|all| - 1] == Zeros(k) + s[..n];
      ZerosCount(k, s[..n]);
    }
  }

  lemma {:induction false} OnlyZeros(k: nat)
    ensures AllDigits(Zeros(k)) && DigitsValue(Zeros(k)) == 0
  {
    if k > 0 {
      assert Zeros(k)[..k - 1] == Zeros(k - 1);
      OnlyZeros(k - 1);
    }
  }

  /** Every text of digits is zeros and then the digits of its value. */
  lemma {:induction false} DigitsSplit(s: string) returns (k: nat)
    requires s != "" && AllDigits(s)
    ensures s == Zeros(k) + Digits(DigitsValue(s))
    decreases |s|
  {
    var n := |s| - 1;
    var c := s[n];
    assert c in s;
    k := 0;
    if n == 0 {
      assert s == [c] && DigitsValue(s[..n]) == 0;
    } else {
      k := DigitsSplit(s[..n]);
      var v := DigitsValue(s[..n]);
      assert s == s[..n] + [c];
      if v == 0 {
        assert Digits(0) == "0";
        k := k + 1;
      }
    }
  }

  lemma WrittenReads(minus: bool, zeros: nat, m: nat)
    ensures Bare(Written(minus, zeros, m))
    ensures WholeInt(Written(minus, zeros, m)) == if InRange(Signed(minus, m)) then Some(Signed(minus, m)) else None
  {
    var t, d := Written(minus, zeros, m), Zeros(zeros) + Digits(m);
    DigitsBack(m);
    ZerosCount(zeros, Digits(m));
    DigitRunAll(d);
    assert d[0] in d && d[|d| - 1] in d;
    assert minus ==> t[1..] == d && t[0] == '-';
    assert !minus ==> t == d;
  }

  lemma WholeIntIsWritten(t: string) returns (minus: bool, zeros: nat, m: nat)
    requires WholeInt(t).Some?
    ensures t == Written(minus, zeros, m) && WholeInt(t) == Some(Signed(minus, m)) && InRange(Signed(minus, m))
  {
    minus := t[0] == '-';
    var d := if minus then t[1..] else t;
    assert AllDigits(d);
    zeros := DigitsSplit(d);
    m := DigitsValue(d);
    assert minus ==> t == "-" + d;
    assert !minus ==> "" + d == d;
  }

  /** A text with blanks around a whole number of 64 bits, zeros in front or not, is typed as that number; `-0` is 0. */
  lemma IntegerAccepted(a: string, minus: bool, zeros: nat, m: nat, b: string)
    requires Pad(a) && Pad(b)
    ensures Typed(a + Written(minus, zeros, m) + b, true) ==
      if InRange(Signed(minus, m)) then Some(Int(Signed(minus, m))) else None
  {
    WrittenReads(minus, zeros, m);
    PadsOff(a, Written(minus, zeros, m), b);
  }

  ghost predicate WrittenIn(text: string, v: int) {
    exists a, minus, zeros, m, b ::
      Pad(a) && Pad(b) && text == a + Written(minus, zeros, m) + b && v == Signed(minus, m)
  }

  /** Where an integer is wanted, a text is taken for `v` exactly when `v` fits 64 bits and is what the text writes. */
  lemma IntegerExactly(text: string, v: int)
    ensures Typed(text, true) == Some(Int(v)) <==> InRange(v) && WrittenIn(text, v)
  {
    if Typed(text, true) == Some(Int(v)) {
      var a, b := Cut(text);
      var minus, zeros, m := WholeIntIsWritten(Trimmed(text));
      assert text == a + Written(minus, zeros, m) + b;
    }
    if InRange(v) && WrittenIn(text, v) {
      var a, minus, zeros, m, b :|
        Pad(a) && Pad(b) && text == a + Written(minus, zeros, m) + b && v == Signed(minus, m);
      IntegerAccepted(a, minus, zeros, m, b);
    }
  }

  lemma DecimalWritten(n: int)
    ensures Decimal(n) == Written(n < 0, 0, if n < 0 then -n else n) && Signed(n < 0, if n < 0 then -n else n) == n
  {
    var m := if n < 0 then -n else n;
    assert Zeros(0) + Digits(m) == Digits(m);
  }

  // What a number of the other kind becomes.

  /** Ten to the power of `k`. */
  function TenTo(k: nat): nat {
    if k == 0 then 1 else 10 * TenTo(k - 1)
  }

  lemma {:induction false} TensAre(k: nat)
    ensures Tens(k) == TenTo(k) as real && TenTo(k) > 0
  {
    if k > 0 {
      TensAre(k - 1);
    }
  }

  lemma Divided(n: real, d: real)
    requires d > 0.0
    ensures (n / d) * d == n
  {
  }

  lemma ScaledIs(n: nat, p: int)
    ensures p >= 0 ==> Scaled(n, p) == n as real * TenTo(p) as real
    ensures p < 0 ==> Scaled(n, p) * TenTo(-p) as real == n as real
  {
    TensAre(if p < 0 then -p else p);
    if p < 0 {
      Divided(n as real, Tens(-p));
    }
  }

  /** The exponent a figure writes. */
  function Power(f: Figure): int
    requires GoodFigure(f)
  {
    if f.exponent == None then 0 else Signed(f.exponent.value.minus, DigitsValue(f.exponent.value.digits))
  }

  /** A figure stands for its digits, as many of them after the point as it has there, times ten to its exponent. */
  lemma FigureStandsFor(f: Figure)
    requires GoodFigure(f)
    ensures AllDigits(f.whole + f.part)
    ensures var n, p, read := DigitsValue(f.whole + f.part), Power(f) - |f.part|, ScanNumber(FigureText(f));
      var x := if f.minus then -read.value else read.value;
      && read.used == |FigureText(f)|
      && if p >= 0 then x == n as real * TenTo(p) as real else x * TenTo(-p) as real == n as real
  {
    hide FigureText, ScanNumber, Tens, Scaled, TenTo, DigitsValue;
    FigureReads(f);
    ScaledIs(DigitsValue(f.whole + f.part), Power(f) - |f.part|);
  }

  lemma FigureBare(f: Figure)
    requires GoodFigure(f)
    ensures Bare(FigureText(f))
  {
    var s := FigureText(f);
    FigureChars(f);
    assert s[0] in s && s[|s| - 1] in s;
  }

  /** A figure with blanks around it, typed where a number is wanted, is the number it stands for. */
  lemma FigureAccepted(a: string, f: Figure, b: string)
    requires Pad(a) && Pad(b) && GoodFigure(f)
    ensures Typed(a + FigureText(f) + b, false) == Some(Num(ScanNumber(FigureText(f)).value))
  {
    hide FigureText, ScanNumber, Bare;
    FigureReads(f);
    FigureBare(f);
    PadsOff(a, FigureText(f), b);
  }

  lemma DecimalAccepted(a: string, n: int, b: string)
    requires Pad(a) && Pad(b) && InRange(n)
    ensures Typed(a + Decimal(n) + b, true) == Some(Int(n))
    ensures Typed(a + Decimal(n) + b, false) == Some(Num(n as real))
  {
    hide Decimal, ScanNumber;
    DecimalWritten(n);
    IntegerAccepted(a, n < 0, 0, if n < 0 then -n else n, b);
    WrittenReads(n < 0, 0, if n < 0 then -n else n);
    PadsOff(a, Decimal(n), b);
    ScanDecimal(n);
  }

  // One leaf.

  /** A whole number typed into an integer: exactly the texts that write a number of 64 bits are taken, as that number.
      */
  lemma IntegerLeaf(i: int, name: string, indexed: bool, slot: int, text: string, turn: Turn, v: int)
    requires slot < 0
    ensures Assigned(Int(i), name, indexed, slot, text, turn) == Some(Int(v)) <==> InRange(v) && WrittenIn(text, v)
    ensures Assigned(Int(i), name, indexed, slot, text, turn) == None <==>
      forall w :: InRange(w) ==> !WrittenIn(text, w)
  {
    IntegerExactly(text, v);
    OnlyIntegers(text);
  }

  lemma OnlyIntegers(text: string)
    ensures Typed(text, true) == None <==> forall w :: InRange(w) ==> !WrittenIn(text, w)
  {
    forall w
      ensures Typed(text, true) == Some(Int(w)) <==> InRange(w) && WrittenIn(text, w)
    {
      IntegerExactly(text, w);
    }
  }

  /** The same for one integer of an array: the others stay. */
  lemma IntegerSlot(
    items: seq<FieldValue>, name: string, indexed: bool, slot: nat, text: string, turn: Turn, v: int)
    requires slot < |items| && items[slot].Int? && !(name == "rotation" && !indexed && |items| == 4)
    ensures Assigned(Arr(items), name, indexed, slot, text, turn) == Some(Arr(items[slot := Int(v)])) <==>
      InRange(v) && WrittenIn(text, v)
    ensures Assigned(Arr(items), name, indexed, slot, text, turn) == None <==>
      forall w :: InRange(w) ==> !WrittenIn(text, w)
  {
    IntegerExactly(text, v);
    OnlyIntegers(text);
    var next := Typed(text, true);
    if next.Some? && items[slot := next.value] == items[slot := Int(v)] {
      assert items[slot := next.value][slot] == items[slot := Int(v)][slot];
    }
  }

  /** A string takes any text as it is. */
  lemma TextLeaf(s: string, name: string, indexed: bool, slot: int, text: string, turn: Turn)
    requires slot < 0
    ensures Assigned(Str(s), name, indexed, slot, text, turn) == Some(Str(text))
  {
  }

  /** A number takes a figure for what it stands for, alone or as one of an array, and a whole number for itself. */
  lemma NumberLeaf(leaf: FieldValue, name: string, indexed: bool, slot: int, turn: Turn, a: string, b: string, n: int,
                   f: Figure)
    requires Pad(a) && Pad(b) && InRange(n) && GoodFigure(f)
    requires if slot < 0 then leaf.Num?
      else leaf.Arr? && slot < |leaf.items| && leaf.items[slot].Num?
           && !(name == "rotation" && !indexed && |leaf.items| == 4)
    ensures var x, y := Num(n as real), Num(ScanNumber(FigureText(f)).value);
      && Assigned(leaf, name, indexed, slot, a + Decimal(n) + b, turn)
         == Some(if slot < 0 then x else Arr(leaf.items[slot := x]))
      && Assigned(leaf, name, indexed, slot, a + FigureText(f) + b, turn)
         == Some(if slot < 0 then y else Arr(leaf.items[slot := y]))
  {
    hide FigureText, ScanNumber, Decimal;
    DecimalAccepted(a, n, b);
    FigureAccepted(a, f, b);
  }

  /** A slot that is not there takes nothing, whatever is typed. */
  lemma NoSuchSlot(leaf: FieldValue, name: string, indexed: bool, slot: nat, text: string, turn: Turn)
    requires !leaf.Arr? || slot >= |leaf.items| || (name == "rotation" && !indexed && |leaf.items| == 4 && slot == 3)
    ensures Assigned(leaf, name, indexed, slot, text, turn) == None
  {
  }

  /** One of the three angles of a rotation: the quaternion is turned to the angle typed, from what it was. */
  lemma AngleTyped(x: real, y: real, z: real, w: real, slot: nat, a: string, n: int, b: string, turn: Turn)
    requires slot < 3 && Pad(a) && Pad(b) && InRange(n)
    ensures var q := turn([x, y, z, w], slot, n as real);
      Assigned(Arr([Num(x), Num(y), Num(z), Num(w)]), "rotation", false, slot, a + Decimal(n) + b, turn)
        == Some(Arr([Num(q.0), Num(q.1), Num(q.2), Num(q.3)]))
  {
    hide Decimal;
    DecimalAccepted(a, n, b);
    var items := [Num(x), Num(y), Num(z), Num(w)];
    assert seq(4, i requires 0 <= i < 4 => AsNumber(items[i])) == [x, y, z, w];
  }

  // Through a path.

  /** Typing a whole number into the integer a path leads to: it is stored there, and every path that parts ways keeps
      its value. */
  lemma IntegerStored(table: FieldTable, p: seq<PathStep>, a: string, n: int, b: string, turn: Turn, q: seq<PathStep>)
    requires GoodSteps(p) && Resolve(table, p).Some? && Resolve(table, p).value.Int?
    requires Pad(a) && Pad(b) && InRange(n)
    ensures var now := EditedText(table, PathText(p), -1, a + Decimal(n) + b, turn);
      && now.Some? && Resolve(now.value, p) == Some(Int(n))
      && (Apart(p, q) ==> Resolve(now.value, q) == Resolve(table, q))
  {
    hide Decimal, Put;
    DecimalAccepted(a, n, b);
    ParsePathBack(p);
    TextChangesOneLeaf(table, PathText(p), -1, a + Decimal(n) + b, turn, q);
  }

  /** The same for a string, which takes any text. */
  lemma TextStored(table: FieldTable, p: seq<PathStep>, text: string, turn: Turn, q: seq<PathStep>)
    requires GoodSteps(p) && Resolve(table, p).Some? && Resolve(table, p).value.Str?
    ensures var now := EditedText(table, PathText(p), -1, text, turn);
      && now.Some? && Resolve(now.value, p) == Some(Str(text))
      && (Apart(p, q) ==> Resolve(now.value, q) == Resolve(table, q))
  {
    hide Put;
    ParsePathBack(p);
    TextChangesOneLeaf(table, PathText(p), -1, text, turn, q);
  }
}
