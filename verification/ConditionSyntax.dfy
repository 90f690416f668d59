/** The condition language (pikoci/condition/condition.go): its abstract syntax,
    its meaning, and a parser that only builds syntax and never sees a variable. */
module ConditionSyntax {
  import opened Text
  import opened Wrappers

  type Vars = map<string, string>

  /** Library calls the language depends on: os.Expand over a variable map,
      strconv.ParseFloat (a float64 is its bit pattern) and the order of floats. */
  datatype Platform = Platform(
    expand: (string, Vars) -> string,
    parseFloat: string -> Option<nat>,
    floatLess: (nat, nat) -> bool)

  datatype Op = Equal | NotEqual | Greater | Smaller | Includes | Excludes

  datatype Disj = Last(only: Conj) | OrElse(first: Conj, others: Disj)
  datatype Conj = Final(only: Test) | AndAlso(first: Test, others: Conj)
  datatype Test = Truthy(value: Value) | Compare(op: Op, left: Value, right: Value)
  datatype Value = Quote(text: string) | Paren(inner: Disj)

  datatype Error =
    | ExpectedValue(at: nat)
    | NegationUnsupported(at: nat)
    | ExpectedClosing(at: nat)
    | UnterminatedQuote(at: nat)
    | TrailingText(at: nat)

  /** How a parse ends, and where it leaves the cursor. */
  datatype Parse<T> = Parsed(value: T, pos: nat) | Failed(error: Error, pos: nat)

  // ----- meaning

  function LowerChar(c: char): char {
    if 'A' <= c <= 'Z' then (c as int + 32) as char else c
  }

  function Lower(s: string): string {
    seq(|s|, i requires 0 <= i < |s| => LowerChar(s[i]))
  }

  predicate IsTrue(v: string) {
    Lower(v) != "" && Lower(v) != "false" && Lower(v) != "0"
  }

  function Expand(p: Platform, vars: Vars, text: string): string {
    if '$' in text then p.expand(text, vars) else text
  }

  predicate GreaterThan(p: Platform, l: string, r: string) {
    match (p.parseFloat(l), p.parseFloat(r))
    case (Some(x), Some(y)) => p.floatLess(y, x)
    case _ => Less(r, l)
  }

  predicate SmallerThan(p: Platform, l: string, r: string) {
    match (p.parseFloat(l), p.parseFloat(r))
    case (Some(x), Some(y)) => p.floatLess(x, y)
    case _ => Less(l, r)
  }

  predicate Related(p: Platform, op: Op, l: string, r: string) {
    match op
    case Equal => l == r
    case NotEqual => l != r
    case Greater => GreaterThan(p, l, r)
    case Smaller => SmallerThan(p, l, r)
    case Includes => Contains(l, r)
    case Excludes => !Contains(l, r)
  }

  predicate EvalDisj(p: Platform, vars: Vars, d: Disj) {
    match d
    case Last(c) => EvalConj(p, vars, c)
    case OrElse(c, ds) => EvalConj(p, vars, c) || EvalDisj(p, vars, ds)
  }

  predicate EvalConj(p: Platform, vars: Vars, c: Conj) {
    match c
    case Final(t) => EvalTest(p, vars, t)
    case AndAlso(t, cs) => EvalTest(p, vars, t) && EvalConj(p, vars, cs)
  }

  predicate EvalTest(p: Platform, vars: Vars, t: Test) {
    match t
    case Truthy(v) => IsTrue(EvalValue(p, vars, v))
    case Compare(op, l, r) => Related(p, op, EvalValue(p, vars, l), EvalValue(p, vars, r))
  }

  function EvalValue(p: Platform, vars: Vars, v: Value): string {
    match v
    case Quote(text) => Expand(p, vars, text)
    case Paren(d) => if EvalDisj(p, vars, d) then "true" else ""
  }

  // ----- the text of a false parenthesis

  /** A false parenthesised condition stands for the empty text, where "false" is
      promised.  A truth test cannot tell them apart ... */
  lemma TruthIgnoresFalseText(p: Platform, vars: Vars, d: Disj)
    ensures EvalTest(p, vars, Truthy(Paren(d))) == EvalDisj(p, vars, d)
    ensures IsTrue("") == IsTrue("false") == false
  {
    assert Lower("true")[0] == 't' && |Lower("true")| == 4;
    assert Lower("") == "" && Lower("false") == "false";
  }

  /** ... a comparison can: with it on the right, exactly these left operands give
      what the promised text would give. */
  predicate SameOnRight(op: Op, l: string) {
    match op
    case Equal => l != "" && l != "false"
    case NotEqual => l != "" && l != "false"
    case Includes => Contains(l, "false")
    case Excludes => Contains(l, "false")
    case Greater => l == "" || Less("false", l)
    case Smaller => !Less(l, "false")
  }

  predicate SameOnLeft(op: Op, r: string) {
    match op
    case Equal => r != "" && r != "false"
    case NotEqual => r != "" && r != "false"
    case Includes => r == "" || !Contains("false", r)
    case Excludes => r == "" || !Contains("false", r)
    case Greater => !Less(r, "false")
    case Smaller => r == "" || Less("false", r)
  }

  /** ParseFloat accepts neither text; only the two ordering operators ask it. */
  ghost predicate NoNumber(p: Platform) { p.parseFloat("") == None && p.parseFloat("false") == None }

  lemma FalseTextMatters(p: Platform, op: Op, other: string)
    requires op == Greater || op == Smaller ==> NoNumber(p)
    ensures Related(p, op, other, "") == Related(p, op, other, "false") <==> SameOnRight(op, other)
    ensures Related(p, op, "", other) == Related(p, op, "false", other) <==> SameOnLeft(op, other)
  {
    assert OccursAt(other, "", 0) && OccursAt("false", "", 0);
    assert Contains(other, "") && Contains("false", "");
    assert Contains("", other) <==> other == "" by {
      if other == "" { assert OccursAt("", "", 0); }
    }
  }

  /** The text an operand is promised to stand for. */
  function PromisedValue(p: Platform, vars: Vars, v: Value): string {
    match v
    case Quote(_) => EvalValue(p, vars, v)
    case Paren(d) => if EvalDisj(p, vars, d) then "true" else "false"
  }

  predicate FalseParen(p: Platform, vars: Vars, v: Value) { v.Paren? && !EvalDisj(p, vars, v.inner) }

  /** A comparison gives what it would give on the promised texts exactly in these
      cases; two false parentheses make no difference. */
  lemma ComparesAsPromisedExactlyWhen(p: Platform, vars: Vars, op: Op, l: Value, r: Value)
    requires op == Greater || op == Smaller ==> NoNumber(p)
    ensures EvalTest(p, vars, Compare(op, l, r)) == Related(p, op, PromisedValue(p, vars, l), PromisedValue(p, vars, r))
      <==> match (FalseParen(p, vars, l), FalseParen(p, vars, r))
           case (true, true) => true
           case (false, true) => SameOnRight(op, EvalValue(p, vars, l))
           case (true, false) => SameOnLeft(op, EvalValue(p, vars, r))
           case (false, false) => true
  {
    var x, y := EvalValue(p, vars, l), EvalValue(p, vars, r);
    assert EvalTest(p, vars, Compare(op, l, r)) == Related(p, op, x, y);
    BothFalseAgree(p, op);
    FalseTextMatters(p, op, x);
    FalseTextMatters(p, op, y);
    hide Related, SameOnLeft, SameOnRight;
    assert FalseParen(p, vars, l) ==> x == "" && PromisedValue(p, vars, l) == "false";
    assert FalseParen(p, vars, r) ==> y == "" && PromisedValue(p, vars, r) == "false";
    assert !FalseParen(p, vars, l) ==> PromisedValue(p, vars, l) == x;
    assert !FalseParen(p, vars, r) ==> PromisedValue(p, vars, r) == y;
  }

  lemma BothFalseAgree(p: Platform, op: Op)
    requires op == Greater || op == Smaller ==> NoNumber(p)
    ensures Related(p, op, "", "") == Related(p, op, "false", "false")
  {
    LessIrreflexive("false");
    assert OccursAt("", "", 0) && OccursAt("false", "false", 0);
    assert Contains("", "") && Contains("false", "false");
  }

  // ----- scanning

  /** unicode.IsSpace on a single byte. */
  predicate IsSpace(c: char) {
    '\t' <= c <= '\r' || c == ' ' || c as int == 0x85 || c as int == 0xA0
  }

  predicate IsWordChar(c: char) {
    'a' <= c <= 'z' || 'A' <= c <= 'Z' || '0' <= c <= '9' || c == '_'
  }

  /** The text `w` stands at position `p` of `s`. */
  predicate At(s: string, p: nat, w: string) {
    p + |w| <= |s| && s[p..p + |w|] == w
  }

  function AfterSpaces(s: string, p: nat): (q: nat)
    requires p <= |s|
    ensures p <= q <= |s|
    decreases |s| - p
  {
    if p < |s| && IsSpace(s[p]) then AfterSpaces(s, p + 1) else p
  }

  function OpText(op: Op): string {
    match op
    case Equal => "==" case NotEqual => "!=" case Greater => ">" case Smaller => "<"
    case Includes => "contains" case Excludes => "!contains"
  }

  predicate WordEnds(s: string, p: nat) {
    p >= |s| || !IsWordChar(s[p])
  }

  function PeekOp(s: string, p: nat): (op: Option<Op>)
    ensures op.Some? ==> At(s, p, OpText(op.value))
  {
    if At(s, p, "==") then Some(Equal)
    else if At(s, p, "!=") then Some(NotEqual)
    else if At(s, p, "!contains") && WordEnds(s, p + 9) then Some(Excludes)
    else if At(s, p, "contains") && WordEnds(s, p + 8) then Some(Includes)
    else if p < |s| && s[p] == '>' then Some(Greater)
    else if p < |s| && s[p] == '<' then Some(Smaller)
    else None
  }

  function ScanQuote(s: string, p: nat): (q: nat)
    requires p <= |s|
    ensures p <= q <= |s|
    decreases |s| - p
  {
    if p < |s| && s[p] != '\'' then ScanQuote(s, p + 1) else p
  }

  predicate EndsBareWord(s: string, p: nat)
    requires p < |s|
  {
    || IsSpace(s[p]) || s[p] == ')' || s[p] == '(' || s[p] == '>' || s[p] == '<'
    || At(s, p, "==") || At(s, p, "!=") || At(s, p, "&&") || At(s, p, "||")
  }

  function ScanWord(s: string, p: nat): (q: nat)
    requires p <= |s|
    ensures p <= q <= |s|
    decreases |s| - p
  {
    if p < |s| && !EndsBareWord(s, p) then ScanWord(s, p + 1) else p
  }

  predicate BadNegation(s: string, p: nat)
    requires p < |s|
  {
    s[p] == '!' && PeekOp(s, p) != Some(Excludes) && PeekOp(s, p) != Some(NotEqual)
  }

  // ----- parsing to syntax

  function DisjAt(s: string, p: nat): (r: Parse<Disj>)
    requires p <= |s|
    ensures p <= r.pos <= |s|
    decreases |s| - p, 3
  {
    match ConjAt(s, p)
    case Failed(e, q) => Failed(e, q)
    case Parsed(c, q') =>
      var q := AfterSpaces(s, q');
      if !At(s, q, "||") then Parsed(Last(c), q)
      else
        match DisjAt(s, q + 2)
        case Failed(e, z) => Failed(e, z)
        case Parsed(ds, z) => Parsed(OrElse(c, ds), z)
  }

  function ConjAt(s: string, p: nat): (r: Parse<Conj>)
    requires p <= |s|
    ensures p <= r.pos <= |s|
    decreases |s| - p, 2
  {
    match TestAt(s, p)
    case Failed(e, q) => Failed(e, q)
    case Parsed(t, q') =>
      var q := AfterSpaces(s, q');
      if !At(s, q, "&&") then Parsed(Final(t), q)
      else
        match ConjAt(s, q + 2)
        case Failed(e, z) => Failed(e, z)
        case Parsed(cs, z) => Parsed(AndAlso(t, cs), z)
  }

  function TestAt(s: string, p: nat): (r: Parse<Test>)
    requires p <= |s|
    ensures p <= r.pos <= |s|
    decreases |s| - p, 1
  {
    match ValueAt(s, p)
    case Failed(e, q) => Failed(e, q)
    case Parsed(l, q') =>
      var q := AfterSpaces(s, q');
      match PeekOp(s, q)
      case None => Parsed(Truthy(l), q)
      case Some(op) =>
        match ValueAt(s, q + |OpText(op)|)
        case Failed(e, z) => Failed(e, z)
        case Parsed(r, z) => Parsed(Compare(op, l, r), z)
  }

  function ValueAt(s: string, p: nat): (r: Parse<Value>)
    requires p <= |s|
    ensures p <= r.pos <= |s|
    decreases |s| - p, 0
  {
    var q := AfterSpaces(s, p);
    if q >= |s| then Failed(ExpectedValue(q), q)
    else if BadNegation(s, q) then Failed(NegationUnsupported(q), q)
    else if s[q] == '(' then
      match DisjAt(s, q + 1)
      case Failed(e, z) => Failed(e, z)
      case Parsed(d, z') =>
        var z := AfterSpaces(s, z');
        if z >= |s| || s[z] != ')' then Failed(ExpectedClosing(z), z) else Parsed(Paren(d), z + 1)
    else if s[q] == '\'' then
      var z := ScanQuote(s, q + 1);
      if z >= |s| then Failed(UnterminatedQuote(q), z) else Parsed(Quote(s[q + 1..z]), z + 1)
    else
      var z := ScanWord(s, q);
      Parsed(Quote(s[q..z]), z)
  }

  // ----- whole conditions

  /** strings.TrimSpace works on UTF-8 characters, not on bytes: these are the
      two- and three-byte encodings of white space. */
  predicate WideSpace2(a: char, b: char) {
    a as int == 0xC2 && (b as int == 0x85 || b as int == 0xA0)
  }

  predicate WideSpace3(a: char, b: char, c: char) {
    var (x, y, z) := (a as int, b as int, c as int);
    || (x == 0xE1 && y == 0x9A && z == 0x80)
    || (x == 0xE2 && y == 0x80 && (0x80 <= z <= 0x8A || z == 0xA8 || z == 0xA9 || z == 0xAF))
    || (x == 0xE2 && y == 0x81 && z == 0x9F)
    || (x == 0xE3 && y == 0x80 && z == 0x80)
  }

  predicate NarrowSpace(c: char) {
    '\t' <= c <= '\r' || c == ' '
  }

  function TrimLeft(s: string): (t: string)
    decreases |s|
  {
    if |s| >= 1 && NarrowSpace(s[0]) then TrimLeft(s[1..])
    else if |s| >= 2 && WideSpace2(s[0], s[1]) then TrimLeft(s[2..])
    else if |s| >= 3 && WideSpace3(s[0], s[1], s[2]) then TrimLeft(s[3..])
    else s
  }

  function TrimRight(s: string): (t: string)
    decreases |s|
  {
    var n := |s|;
    if n >= 1 && NarrowSpace(s[n - 1]) then TrimRight(s[..n - 1])
    else if n >= 2 && WideSpace2(s[n - 2], s[n - 1]) then TrimRight(s[..n - 2])
    else if n >= 3 && WideSpace3(s[n - 3], s[n - 2], s[n - 1]) then TrimRight(s[..n - 3])
    else s
  }

  /** The syntax of a whole condition: nothing (which is always true), a
      disjunction that uses up the text, or an error. */
  datatype Syntax = Blank | Sentence(d: Disj) | Malformed(error: Error)

  function SyntaxOf(condition: string): Syntax {
    var s := TrimRight(TrimLeft(condition));
    if s == "" then Blank
    else
      match DisjAt(s, 0)
      case Failed(e, _) => Malformed(e)
      case Parsed(d, p) =>
        var q := AfterSpaces(s, p);
        if q < |s| then Malformed(TrailingText(q)) else Sentence(d)
  }

  datatype Outcome = Holds(answer: bool) | Rejected(error: Error)

  /** Parse first, evaluate afterwards. */
  function Meaning(p: Platform, vars: Vars, condition: string): Outcome {
    match SyntaxOf(condition)
    case Blank => Holds(true)
    case Sentence(d) => Holds(EvalDisj(p, vars, d))
    case Malformed(e) => Rejected(e)
  }
}
