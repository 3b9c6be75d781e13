/** The paths the inspector names fields by, such as `heroes[0].base.max_hp`: written from steps, parsed back, and
    followed through nested tables. */
module InspectorPaths {
  import opened Basics
  import opened JsonText

  datatype PathStep = PathStep(key: string, index: Option<nat>)

  /** `size_t` wraps here. */
  const SIZES: nat := 0x1_0000_0000_0000_0000

  predicate KeyChar(c: char) {
    c != '.' && c != '['
  }

  /** A key that can stand in a path. */
  predicate PathKey(key: string) {
    key != "" && forall c | c in key :: KeyChar(c)
  }

  predicate GoodStep(s: PathStep) {
    PathKey(s.key) && (s.index.Some? ==> s.index.value < SIZES)
  }

  ghost predicate GoodSteps(steps: seq<PathStep>) {
    steps != [] && forall s | s in steps :: GoodStep(s)
  }

  function IndexText(index: Option<nat>): string {
    if index == None then "" else "[" + Digits(index.value) + "]"
  }

  function StepText(s: PathStep): string {
    s.key + IndexText(s.index)
  }

  function PathText(steps: seq<PathStep>): string {
    if steps == [] then ""
    else if |steps| == 1 then StepText(steps[0])
    else StepText(steps[0]) + "." + PathText(steps[1..])
  }

  // Parsing.

  function KeyRun(s: string): (k: nat)
    ensures k <= |s| && (forall i | 0 <= i < k :: KeyChar(s[i])) && (k < |s| ==> !KeyChar(s[k]))
  {
    if s == "" || !KeyChar(s[0]) then 0 else 1 + KeyRun(s[1..])
  }

  /** What follows the key of a step: nothing of it, or an index in brackets. */
  function AfterKey(key: string, t: string): (r: Option<(PathStep, string)>)
    ensures r.Some? ==> |r.value.1| <= |t|
  {
    if t == "" || t[0] != '[' then Some((PathStep(key, None), t))
    else
      var d := DigitRun(t[1..]);
      var u := t[1 + d..];
      if d == 0 || u == "" || u[0] != ']' then None
      else Some((PathStep(key, Some(DigitsValue(t[1..1 + d]) % SIZES)), u[1..]))
  }

  /** One step at the start of `s`, after its dot, and what follows it. */
  function ParseStep(s: string): (r: Option<(PathStep, string)>)
    ensures r.Some? ==> |r.value.1| < |s|
  {
    var k := KeyRun(s);
    if k == 0 then None else AfterKey(s[..k], s[k..])
  }

  function ParseSteps(s: string): Option<seq<PathStep>>
    requires s != ""
    decreases |s|
  {
    var t := if s[0] == '.' then s[1..] else s;
    var step := ParseStep(t);
    if step == None then None
    else
      var rest := step.value.1;
      if rest == "" then Some([step.value.0])
      else if rest[0] != '.' then None
      else
        var more := ParseSteps(rest);
        if more == None then None else Some([step.value.0] + more.value)
  }

  function ParsePath(path: string): Option<seq<PathStep>> {
    if path == "" then None else ParseSteps(path)
  }

  lemma {:induction false} KeyRunStops(a: string, rest: string)
    requires forall c | c in a :: KeyChar(c)
    requires rest == "" || !KeyChar(rest[0])
    ensures KeyRun(a + rest) == |a|
  {
    if a == "" {
      assert a + rest == rest;
    } else {
      assert a[0] in a && (a + rest)[0] == a[0] && (a + rest)[1..] == a[1..] + rest;
      KeyRunStops(a[1..], rest);
    }
  }

  lemma KeyCut(key: string, after: string)
    requires PathKey(key) && (after == "" || !KeyChar(after[0]))
    ensures KeyRun(key + after) == |key| && (key + after)[..|key|] == key && (key + after)[|key|..] == after
  {
    KeyRunStops(key, after);
  }

  lemma IndexCut(d: string, rest: string, t: string)
    requires d != "" && (forall c | c in d :: IsDigit(c)) && t == "[" + d + "]" + rest
    ensures t[0] == '[' && DigitRun(t[1..]) == |d| && t[1..1 + |d|] == d
    ensures |t| > 1 + |d| && t[1 + |d|..][0] == ']' && t[1 + |d|..][1..] == rest
  {
    DigitRunStops(d, "]" + rest);
    assert t[1..] == d + ("]" + rest);
    assert t[1 + |d|..] == "]" + rest;
  }

  lemma AfterKeyIndex(key: string, n: nat, rest: string, t: string)
    requires n < SIZES && t == "[" + Digits(n) + "]" + rest
    ensures AfterKey(key, t) == Some((PathStep(key, Some(n)), rest))
  {
    hide Digits, DigitRun, DigitsValue;
    IndexCut(Digits(n), rest, t);
    DigitsBack(n);
  }

  lemma ParseStepText(s: PathStep, rest: string)
    requires GoodStep(s) && (rest == "" || rest[0] == '.')
    ensures ParseStep(StepText(s) + rest) == Some((s, rest))
  {
    var after := IndexText(s.index) + rest;
    assert StepText(s) + rest == s.key + after;
    if s.index == None {
      assert after == rest;
    } else {
      AfterKeyIndex(s.key, s.index.value, rest, after);
    }
    KeyCut(s.key, after);
  }

  lemma StepTextStarts(s: PathStep, rest: string)
    requires GoodStep(s)
    ensures StepText(s) + rest != "" && (StepText(s) + rest)[0] != '.'
  {
    assert (StepText(s) + rest)[0] == s.key[0] && s.key[0] in s.key;
  }

  lemma ParseOneStep(full: string, s: PathStep, rest: string)
    requires full != "" && ParseStep(if full[0] == '.' then full[1..] else full) == Some((s, rest))
    requires rest == "" || rest[0] == '.'
    ensures ParseSteps(full) ==
      if rest == "" then Some([s])
      else if ParseSteps(rest) == None then None else Some([s] + ParseSteps(rest).value)
  {
  }

  lemma DotOff(dot: string, text: string)
    requires (dot == "" || dot == ".") && text != "" && text[0] != '.'
    ensures var full := dot + text; full != "" && (if full[0] == '.' then full[1..] else full) == text
  {
    assert ("." + text)[1..] == text && "" + text == text;
  }

  lemma {:induction false} ParseStepsBack(steps: seq<PathStep>, dot: string)
    requires GoodSteps(steps) && (dot == "" || dot == ".")
    ensures dot + PathText(steps) != "" && ParseSteps(dot + PathText(steps)) == Some(steps)
    decreases |steps|
  {
    var s, more := steps[0], steps[1..];
    assert s in steps && steps == [s] + more;
    var rest := if more == [] then "" else "." + PathText(more);
    assert PathText(steps) == StepText(s) + rest;
    StepTextStarts(s, rest);
    ParseStepText(s, rest);
    DotOff(dot, PathText(steps));
    ParseOneStep(dot + PathText(steps), s, rest);
    if more == [] {
      assert steps == [s];
    } else {
      ParseStepsBack(more, ".");
    }
  }

  /** A path that was written parses back to its steps; so different step lists have different texts. */
  lemma ParsePathBack(steps: seq<PathStep>)
    requires GoodSteps(steps)
    ensures PathText(steps) != "" && ParsePath(PathText(steps)) == Some(steps)
  {
    ParseStepsBack(steps, "");
    assert "" + PathText(steps) == PathText(steps);
  }

  lemma {:induction false} PathTextAppend(steps: seq<PathStep>, s: PathStep)
    requires steps != []
    ensures PathText(steps + [s]) == PathText(steps) + "." + StepText(s)
    decreases |steps|
  {
    assert (steps + [s])[1..] == steps[1..] + [s];
    if |steps| > 1 {
      PathTextAppend(steps[1..], s);
      var a, b := StepText(steps[0]), PathText(steps[1..]);
      assert a + "." + (b + "." + StepText(s)) == a + "." + b + "." + StepText(s);
    } else {
      assert steps[1..] + [s] == [s];
    }
  }

  lemma DropOne(s: string, d: nat)
    requires d < |s|
    ensures s[d..] != "" && s[d..][0] == s[d] && s[d..][1..] == s[d + 1..]
  {
  }

  lemma CutOne(t: string, d: nat)
    requires 1 + d <= |t|
    ensures t[1..1 + d] == t[1..][..d] && t[1 + d..] == t[1..][d..]
  {
  }

  method ParseIndexAt(key: string, t: string) returns (r: Option<(PathStep, string)>)
    requires t != "" && t[0] == '['
    ensures r == AfterKey(key, t)
  {
    var digits := t[1..];
    if digits == "" || !IsDigit(digits[0]) {
      return None;
    }
    var d, index := 0, 0;
    while d < |digits| && IsDigit(digits[d])
      invariant d <= |digits| && DigitRun(digits) == d + DigitRun(digits[d..])
      invariant (forall c | c in digits[..d] :: IsDigit(c)) && index == DigitsValue(digits[..d]) % SIZES
    {
      DropOne(digits, d);
      NextDigit(digits, d);
      index := (index * 10 + (digits[d] as int - '0' as int)) % SIZES;
      d := d + 1;
    }
    CutOne(t, d);
    if d == |digits| || digits[d] != ']' {
      return None;
    }
    DropOne(digits, d);
    r := Some((PathStep(key, Some(index)), digits[d + 1..]));
  }

  method ParseStepAt(s: string) returns (r: Option<(PathStep, string)>)
    ensures r == ParseStep(s)
  {
    var k := 0;
    while k < |s| && KeyChar(s[k])
      invariant k <= |s| && KeyRun(s) == k + KeyRun(s[k..])
    {
      assert s[k..][1..] == s[k + 1..];
      k := k + 1;
    }
    if k == 0 {
      return None;
    }
    if k < |s| && s[k] == '[' {
      r := ParseIndexAt(s[..k], s[k..]);
    } else {
      r := Some((PathStep(s[..k], None), s[k..]));
    }
  }

  method ParseFieldPath(path: string) returns (r: Option<seq<PathStep>>)
    ensures r == ParsePath(path)
  {
    if path == "" {
      return None;
    }
    var steps: seq<PathStep> := [];
    var rest := path;
    AheadStart(ParseSteps(path));
    while rest != ""
      invariant ParsePath(path) == if rest == "" then Some(steps) else Ahead(steps, ParseSteps(rest))
      decreases |rest|
    {
      var cursor := rest;
      if cursor[0] == '.' {
        cursor := cursor[1..];
      }
      var step := ParseStepAt(cursor);
      if step == None {
        return None;
      }
      var tail := step.value.1;
      AheadStep(steps, step.value.0, tail);
      steps := steps + [step.value.0];
      if tail != "" && tail[0] != '.' {
        return None;
      }
      rest := tail;
    }
    r := Some(steps);
  }

  lemma AheadStart(r: Option<seq<PathStep>>)
    ensures Ahead([], r) == r
  {
    if r.Some? {
      assert [] + r.value == r.value;
    }
  }

  /** The parse of the whole, once `done` has been parsed already. */
  function Ahead(done: seq<PathStep>, r: Option<seq<PathStep>>): Option<seq<PathStep>> {
    if r == None then None else Some(done + r.value)
  }

  lemma AheadStep(done: seq<PathStep>, step: PathStep, rest: string)
    ensures Ahead(done, Some([step])) == Some(done + [step])
    ensures rest != "" ==>
      Ahead(done, if ParseSteps(rest) == None then None else Some([step] + ParseSteps(rest).value))
      == Ahead(done + [step], ParseSteps(rest))
  {
    if rest != "" && ParseSteps(rest).Some? {
      assert done + ([step] + ParseSteps(rest).value) == done + [step] + ParseSteps(rest).value;
    }
  }

  lemma NextDigit(s: string, d: nat)
    requires d < |s| && IsDigit(s[d]) && forall c | c in s[..d] :: IsDigit(c)
    ensures forall c | c in s[..d + 1] :: IsDigit(c)
    ensures DigitsValue(s[..d + 1]) % SIZES == (DigitsValue(s[..d]) % SIZES * 10 + (s[d] as int - '0' as int)) % SIZES
  {
    assert s[..d + 1] == s[..d] + [s[d]] && s[..d + 1][..d] == s[..d];
    Wraps(DigitsValue(s[..d]), s[d] as int - '0' as int);
  }

  lemma Wraps(a: nat, b: nat)
    ensures (a * 10 + b) % SIZES == (a % SIZES * 10 + b) % SIZES
  {
    var q := a / SIZES;
    assert a == q * SIZES + a % SIZES;
    assert a * 10 + b == (a % SIZES * 10 + b) + (q * 10) * SIZES;
    ModPlus(a % SIZES * 10 + b, q * 10);
  }

  lemma {:induction false} ModPlus(x: nat, k: nat)
    ensures (x + k * SIZES) % SIZES == x % SIZES
  {
    if k > 0 {
      ModPlus(x, k - 1);
      var y := x + (k - 1) * SIZES;
      assert x + k * SIZES == y + SIZES;
      assert (y + SIZES) % SIZES == y % SIZES;
    }
  }
}
