/** Exactly which texts are read as which path. */
module PathSpellings {
  import opened Basics
  import opened JsonText
  import opened InspectorPaths
  import opened TypedNumbers

  /** One step as it may be written: its key, and an index in brackets, which may have zeros in front and is taken
      modulo two to the power of 64. */
  ghost predicate SpellsStep(t: string, s: PathStep) {
    PathKey(s.key) &&
    match s.index
    case None => t == s.key
    case Some(i) =>
      exists zeros: nat, m: nat ::
        t == s.key + ("[" + (Zeros(zeros) + Digits(m)) + "]") && i == m % 0x1_0000_0000_0000_0000
  }

  /** Steps with dots between them; a dot in front is passed over. */
  ghost predicate Spells(text: string, steps: seq<PathStep>)
    decreases |steps|
  {
    steps != [] && exists dot, t, rest ::
      && (dot == "" || dot == ".") && text == dot + (t + rest) && SpellsStep(t, steps[0])
      && if |steps| == 1 then rest == "" else rest != "" && rest[0] == '.' && Spells(rest, steps[1..])
  }

  lemma AfterKeySpelled(key: string, zeros: nat, m: nat, rest: string)
    ensures var d := Zeros(zeros) + Digits(m);
      AfterKey(key, "[" + d + "]" + rest) == Some((PathStep(key, Some(m % SIZES)), rest))
  {
    hide Digits, DigitRun, DigitsValue;
    var d := Zeros(zeros) + Digits(m);
    ZerosCount(zeros, Digits(m));
    DigitsBack(m);
    IndexCut(d, rest, "[" + d + "]" + rest);
  }

  lemma StepRead(t: string, s: PathStep, rest: string)
    requires SpellsStep(t, s) && (rest == "" || rest[0] == '.')
    ensures ParseStep(t + rest) == Some((s, rest)) && t != "" && t[0] != '.'
  {
    hide AfterKey;
    assert s.key[0] in s.key;
    match s.index
    case None =>
      KeyCut(s.key, rest);
      NoIndex(s.key, rest);
    case Some(i) =>
      var zeros: nat, m: nat :| t == s.key + ("[" + (Zeros(zeros) + Digits(m)) + "]") && i == m % SIZES;
      var after := "[" + (Zeros(zeros) + Digits(m)) + "]" + rest;
      assert t + rest == s.key + after;
      AfterKeySpelled(s.key, zeros, m, rest);
      KeyCut(s.key, after);
  }

  lemma NoIndex(key: string, rest: string)
    requires rest == "" || rest[0] == '.'
    ensures AfterKey(key, rest) == Some((PathStep(key, None), rest))
  {
  }

  lemma StepSpelled(text: string) returns (t: string)
    requires ParseStep(text).Some?
    ensures var (s, rest) := ParseStep(text).value; text == t + rest && SpellsStep(t, s)
  {
    hide Digits, DigitsValue;
    var k := KeyRun(text);
    var key, after := text[..k], text[k..];
    assert text == key + after;
    assert PathKey(key);
    t := key;
    if after != "" && after[0] == '[' {
      var d := DigitRun(after[1..]);
      var digits := after[1..1 + d];
      assert AllDigits(digits);
      var zeros := DigitsSplit(digits);
      t := key + ("[" + digits + "]");
      var rest := after[1 + d..][1..];
      assert after == "[" + digits + "]" + rest;
      assert text == t + rest;
    }
  }

  lemma {:induction false} SpelledReads(text: string, steps: seq<PathStep>)
    requires Spells(text, steps)
    ensures text != "" && ParseSteps(text) == Some(steps)
    decreases |steps|
  {
    hide ParseStep, SpellsStep;
    var dot, t, rest :|
      && (dot == "" || dot == ".") && text == dot + (t + rest) && SpellsStep(t, steps[0])
      && if |steps| == 1 then rest == "" else rest != "" && rest[0] == '.' && Spells(rest, steps[1..]);
    StepRead(t, steps[0], rest);
    DotOff(dot, t + rest);
    ParseOneStep(text, steps[0], rest);
    if |steps| == 1 {
      assert steps == [steps[0]];
    } else {
      SpelledReads(rest, steps[1..]);
      assert steps == [steps[0]] + steps[1..];
    }
  }

  lemma {:induction false} ReadIsSpelled(text: string)
    requires text != "" && ParseSteps(text).Some?
    ensures Spells(text, ParseSteps(text).value)
    decreases |text|
  {
    hide ParseStep, SpellsStep;
    var steps := ParseSteps(text).value;
    var dot := if text[0] == '.' then "." else "";
    var inner := if text[0] == '.' then text[1..] else text;
    var t := StepSpelled(inner);
    var (s, rest) := ParseStep(inner).value;
    assert text == dot + (t + rest);
    if rest == "" {
      assert steps == [s];
    } else {
      ReadIsSpelled(rest);
      assert steps == [s] + ParseSteps(rest).value;
      assert steps[1..] == ParseSteps(rest).value;
    }
  }

  /** A text is read as a path exactly when it spells it; any other text is refused. */
  lemma ReadExactly(text: string, steps: seq<PathStep>)
    ensures ParsePath(text) == Some(steps) <==> Spells(text, steps)
  {
    if Spells(text, steps) {
      SpelledReads(text, steps);
    }
    if ParsePath(text) == Some(steps) {
      ReadIsSpelled(text);
    }
  }
}
