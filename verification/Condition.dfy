/** The condition evaluator as it is written: one cursor, and parsing and
    evaluation fused into the same recursive descent. */
module Condition {
  import opened ConditionSyntax
  import opened Wrappers

  // ----- outcomes of the four parsers once the syntax they return is evaluated

  ghost function OrValue(p: Platform, vars: Vars, r: Parse<Disj>): Parse<bool> {
    match r case Parsed(d, q) => Parsed(EvalDisj(p, vars, d), q) case Failed(e, q) => Failed(e, q)
  }

  ghost function AndValue(p: Platform, vars: Vars, r: Parse<Conj>): Parse<bool> {
    match r case Parsed(c, q) => Parsed(EvalConj(p, vars, c), q) case Failed(e, q) => Failed(e, q)
  }

  ghost function TestValue(p: Platform, vars: Vars, r: Parse<Test>): Parse<bool> {
    match r case Parsed(t, q) => Parsed(EvalTest(p, vars, t), q) case Failed(e, q) => Failed(e, q)
  }

  ghost function ValueValue(p: Platform, vars: Vars, r: Parse<Value>): Parse<string> {
    match r case Parsed(v, q) => Parsed(EvalValue(p, vars, v), q) case Failed(e, q) => Failed(e, q)
  }

  /** The outcome of a loop that has accumulated `before` and still has `rest` to parse. */
  ghost function OrWith(before: bool, rest: Parse<bool>): Parse<bool> {
    match rest case Parsed(b, q) => Parsed(before || b, q) case Failed(e, q) => Failed(e, q)
  }

  ghost function AndWith(before: bool, rest: Parse<bool>): Parse<bool> {
    match rest case Parsed(b, q) => Parsed(before && b, q) case Failed(e, q) => Failed(e, q)
  }

  /** One turn of the || loop, seen from the syntax parser. */
  lemma OrStep(p: Platform, vars: Vars, s: string, from: nat)
    requires from <= |s|
    ensures var r, v := ConjAt(s, from), OrValue(p, vars, DisjAt(s, from));
      match r
      case Failed(e, q) => v == Failed(e, q)
      case Parsed(c, q') =>
        var q := AfterSpaces(s, q');
        v == if At(s, q, "||") then OrWith(EvalConj(p, vars, c), OrValue(p, vars, DisjAt(s, q + 2)))
             else Parsed(EvalConj(p, vars, c), q)
  {
  }

  /** One turn of the && loop, seen from the syntax parser. */
  lemma AndStep(p: Platform, vars: Vars, s: string, from: nat)
    requires from <= |s|
    ensures var r, v := TestAt(s, from), AndValue(p, vars, ConjAt(s, from));
      match r
      case Failed(e, q) => v == Failed(e, q)
      case Parsed(t, q') =>
        var q := AfterSpaces(s, q');
        v == if At(s, q, "&&") then AndWith(EvalTest(p, vars, t), AndValue(p, vars, ConjAt(s, q + 2)))
             else Parsed(EvalTest(p, vars, t), q)
  {
  }

  class CondParser {
    const platform: Platform
    const input: string
    const vars: Vars
    var pos: nat

    constructor (platform: Platform, input: string, vars: Vars)
      ensures this.platform == platform && this.input == input && this.vars == vars && pos == 0
    {
      this.platform, this.input, this.vars, this.pos := platform, input, vars, 0;
    }

    ghost predicate Valid() reads this { pos <= |input| }

    /** The call ended the way `want` says: same value or same error, and the
        cursor at the same place. */
    ghost predicate Ends<V>(want: Parse<V>, got: V, err: Option<Error>)
      reads this
    {
      && pos == want.pos
      && err == (if want.Parsed? then None else Some(want.error))
      && (want.Parsed? ==> got == want.value)
    }

    method SkipSpaces()
      requires Valid()
      modifies this`pos
      ensures Valid() && pos == AfterSpaces(input, old(pos))
    {
      while pos < |input| && IsSpace(input[pos])
        invariant Valid() && AfterSpaces(input, pos) == AfterSpaces(input, old(pos))
      {
        pos := pos + 1;
      }
    }

    method ParseOr() returns (left: bool, err: Option<Error>)
      requires Valid()
      modifies this`pos
      ensures Valid() && Ends(OrValue(platform, vars, DisjAt(input, old(pos))), left, err)
      decreases |input| - pos, 3
    {
      hide DisjAt, ConjAt, EvalDisj, EvalConj, AfterSpaces;
      ghost var start := pos;
      OrStep(platform, vars, input, start);
      left, err := ParseAnd();
      if err.Some? { return; }
      // `from` is where the current operand began, `before` the value of the operands before it
      ghost var from, before := start, false;
      while true
        invariant Valid() && start <= from <= pos && err == None
        invariant ConjAt(input, from).Parsed? && pos == ConjAt(input, from).pos
        invariant left == (before || EvalConj(platform, vars, ConjAt(input, from).value))
        invariant OrValue(platform, vars, DisjAt(input, start)) ==
          OrWith(before, OrValue(platform, vars, DisjAt(input, from)))
        decreases |input| - pos
      {
        OrStep(platform, vars, input, from);
        SkipSpaces();
        if !At(input, pos, "||") { break; }
        from, before := pos + 2, left;
        pos := pos + 2;
        var right;
        OrStep(platform, vars, input, from);
        right, err := ParseAnd();
        if err.Some? { return; }
        left := left || right;
      }
    }

    method ParseAnd() returns (left: bool, err: Option<Error>)
      requires Valid()
      modifies this`pos
      ensures Valid() && Ends(AndValue(platform, vars, ConjAt(input, old(pos))), left, err)
      decreases |input| - pos, 2
    {
      hide ConjAt, TestAt, EvalConj, EvalTest, AfterSpaces;
      ghost var start := pos;
      AndStep(platform, vars, input, start);
      left, err := ParseCompare();
      if err.Some? { return; }
      ghost var from, before := start, true;
      while true
        invariant Valid() && start <= from <= pos && err == None
        invariant TestAt(input, from).Parsed? && pos == TestAt(input, from).pos
        invariant left == (before && EvalTest(platform, vars, TestAt(input, from).value))
        invariant AndValue(platform, vars, ConjAt(input, start)) ==
          AndWith(before, AndValue(platform, vars, ConjAt(input, from)))
        decreases |input| - pos
      {
        AndStep(platform, vars, input, from);
        SkipSpaces();
        if !At(input, pos, "&&") { break; }
        from, before := pos + 2, left;
        pos := pos + 2;
        var right;
        AndStep(platform, vars, input, from);
        right, err := ParseCompare();
        if err.Some? { return; }
        left := left && right;
      }
    }

    method ParseCompare() returns (result: bool, err: Option<Error>)
      requires Valid()
      modifies this`pos
      ensures Valid() && Ends(TestValue(platform, vars, TestAt(input, old(pos))), result, err)
      decreases |input| - pos, 1
    {
      hide ValueAt, EvalValue, Related, PeekOp, AfterSpaces;
      result := false;
      var left;
      left, err := ParseValue();
      if err.Some? { return; }
      SkipSpaces();
      match PeekOp(input, pos) {
        case None =>
          var low := Lower(left);
          result := low != "" && low != "false" && low != "0";
        case Some(op) =>
          pos := pos + |OpText(op)|;
          var right;
          right, err := ParseValue();
          if err.Some? { return; }
          result := Related(platform, op, left, right);
      }
    }

    method ParseValue() returns (value: string, err: Option<Error>)
      requires Valid()
      modifies this`pos
      ensures Valid() && Ends(ValueValue(platform, vars, ValueAt(input, old(pos))), value, err)
      decreases |input| - pos, 0
    {
      hide DisjAt, EvalDisj, PeekOp, AfterSpaces, EndsBareWord;
      value, err := "", None;
      SkipSpaces();
      if pos >= |input| { err := Some(ExpectedValue(pos)); return; }
      if BadNegation(input, pos) { err := Some(NegationUnsupported(pos)); return; }
      if input[pos] == '(' {
        pos := pos + 1;
        var result;
        result, err := ParseOr();
        if err.Some? { return; }
        SkipSpaces();
        if pos >= |input| || input[pos] != ')' { err := Some(ExpectedClosing(pos)); return; }
        pos := pos + 1;
        value := if result then "true" else "";
        return;
      }
      if input[pos] == '\'' {
        pos := pos + 1;
        var start := pos;
        while pos < |input| && input[pos] != '\''
          invariant start <= pos && Valid() && ScanQuote(input, pos) == ScanQuote(input, start)
        {
          pos := pos + 1;
        }
        if pos >= |input| { err := Some(UnterminatedQuote(start - 1)); return; }
        value := Expand(platform, vars, input[start..pos]);
        pos := pos + 1;
        return;
      }
      var start := pos;
      while pos < |input| && !EndsBareWord(input, pos)
        invariant start <= pos && Valid() && ScanWord(input, pos) == ScanWord(input, start)
      {
        pos := pos + 1;
      }
      value := Expand(platform, vars, input[start..pos]);
    }
  }

  /** Evaluate is parse-then-evaluate, on every text and every variable map. */
  method Evaluate(platform: Platform, condition: string, vars: Vars) returns (r: Outcome)
    ensures r == Meaning(platform, vars, condition)
  {
    var s := TrimRight(TrimLeft(condition));
    if s == "" { return Holds(true); }
    var p := new CondParser(platform, s, vars);
    var result, err := p.ParseOr();
    if err.Some? { return Rejected(err.value); }
    p.SkipSpaces();
    if p.pos < |p.input| { return Rejected(TrailingText(p.pos)); }
    return Holds(result);
  }

  /** Validate runs the evaluator with no variables set, and that settles the
      syntax for every variable map: the same error, at the same place. */
  method Validate(platform: Platform, condition: string) returns (err: Option<Error>)
    ensures err == None <==> forall vars: Vars :: Meaning(platform, vars, condition).Holds?
    ensures err.Some? ==> forall vars: Vars :: Meaning(platform, vars, condition) == Rejected(err.value)
  {
    var r := Evaluate(platform, condition, map[]);
    assert r == Meaning(platform, map[], condition);
    match r {
      case Holds(_) => err := None;
      case Rejected(e) => err := Some(e);
    }
  }
}
