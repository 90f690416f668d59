/** What conditions mean, said about their text: each operator on its own, a bare
    value, chains of && and ||, and the texts that are refused. */
module ConditionMeaning {
  import opened Text
  import opened ConditionSyntax
  import opened ConditionPrinter
  import opened Wrappers

  /** What a value written in quotes stands for: variables are put in if it has any. */
  ghost function Content(p: Platform, vars: Vars, text: string): string {
    if '$' in text then p.expand(text, vars) else text
  }

  /** 'l' op 'r' with white space around the operator. */
  function Written(l: string, g: string, op: string, r: string): string {
    "'" + l + "'" + g + op + g + "'" + r + "'"
  }

  ghost predicate Quotable(l: string, g: string, r: string) { '\'' !in l && '\'' !in r && Gap(g) }

  // ----- comparisons

  ghost predicate BothNumbers(p: Platform, x: string, y: string) { p.parseFloat(x).Some? && p.parseFloat(y).Some? }

  /** Numbers are ordered as numbers, anything else byte by byte. */
  ghost predicate Before(p: Platform, x: string, y: string) {
    if BothNumbers(p, x, y) then p.floatLess(p.parseFloat(x).value, p.parseFloat(y).value) else ByteOrder(x, y)
  }

  lemma WrittenIsPrinted(l: string, g: string, op: Op, r: string)
    ensures Written(l, g, OpText(op), r) == PrintDisj(Last(Final(Compare(op, Quote(l), Quote(r)))), g)
  {
    hide OpText;
    var t := Compare(op, Quote(l), Quote(r));
    assert PrintDisj(Last(Final(t)), g) == PrintConj(Final(t), g) == PrintTest(t, g);
  }

  lemma MeaningOfTest(p: Platform, vars: Vars, l: string, g: string, op: Op, r: string)
    requires Quotable(l, g, r)
    ensures Meaning(p, vars, Written(l, g, OpText(op), r)) ==
      Holds(Related(p, op, Content(p, vars, l), Content(p, vars, r)))
  {
    hide OpText, PrintDisj, SyntaxOf, Related, Gap;
    var t := Compare(op, Quote(l), Quote(r));
    WrittenIsPrinted(l, g, op, r);
    Alone(p, vars, t);
    PrintedAloneIsRead(Last(Final(t)), g);
  }

  /** The six operators.  With x and y for what the two sides stand for: */
  lemma OperatorsMean(p: Platform, vars: Vars, l: string, g: string, r: string)
    requires Quotable(l, g, r)
    ensures var (x, y) := (Content(p, vars, l), Content(p, vars, r));
      && Meaning(p, vars, Written(l, g, "==", r)) == Holds(x == y)
      && Meaning(p, vars, Written(l, g, "!=", r)) == Holds(x != y)
      && Meaning(p, vars, Written(l, g, ">", r)) == Holds(Before(p, y, x))
      && Meaning(p, vars, Written(l, g, "<", r)) == Holds(Before(p, x, y))
      && Meaning(p, vars, Written(l, g, "contains", r)) == Holds(exists a, b :: Around(x, a, y, b))
      && Meaning(p, vars, Written(l, g, "!contains", r)) == Holds(!exists a, b :: Around(x, a, y, b))
  {
    hide SyntaxOf, Around;
    var x, y := Content(p, vars, l), Content(p, vars, r);
    forall op { MeaningOfTest(p, vars, l, g, op, r); }
    hide Meaning, Written, Content;
    LessIsByteOrder(x, y);
    LessIsByteOrder(y, x);
    ContainsMeansAround(x, y);
    assert OpText(Equal) == "==" && OpText(NotEqual) == "!=" && OpText(Greater) == ">" && OpText(Smaller) == "<";
    assert OpText(Includes) == "contains" && OpText(Excludes) == "!contains";
  }

  /** < is > with the sides exchanged. */
  lemma SmallerIsGreaterExchanged(p: Platform, vars: Vars, l: string, g: string, r: string)
    requires Quotable(l, g, r)
    ensures Meaning(p, vars, Written(l, g, "<", r)) == Meaning(p, vars, Written(r, g, ">", l))
  {
    OperatorsMean(p, vars, l, g, r);
    OperatorsMean(p, vars, r, g, l);
    hide Meaning, Written, Content;
  }

  /** Unless both are numbers, exactly one of <, == and > holds. */
  lemma ExactlyOneHolds(p: Platform, vars: Vars, l: string, g: string, r: string)
    requires Quotable(l, g, r) && !BothNumbers(p, Content(p, vars, l), Content(p, vars, r))
    ensures var (lt, eq, gt) := (Meaning(p, vars, Written(l, g, "<", r)), Meaning(p, vars, Written(l, g, "==", r)),
                                 Meaning(p, vars, Written(l, g, ">", r)));
      || (lt == Holds(true) && eq == Holds(false) && gt == Holds(false))
      || (lt == Holds(false) && eq == Holds(true) && gt == Holds(false))
      || (lt == Holds(false) && eq == Holds(false) && gt == Holds(true))
  {
    OperatorsMean(p, vars, l, g, r);
    var x, y := Content(p, vars, l), Content(p, vars, r);
    LessIsByteOrder(x, y);
    LessIsByteOrder(y, x);
    LessTotal(x, y);
    LessIrreflexive(x);
    if Less(x, y) && Less(y, x) { LessTransitive(x, y, x); }
    hide Meaning, Written, Content, Less, ByteOrder;
  }

  // ----- values on their own

  /** "false" in any mixture of cases. */
  ghost predicate SpellsFalse(x: string) {
    && |x| == 5 && x[0] in {'f', 'F'} && x[1] in {'a', 'A'} && x[2] in {'l', 'L'} && x[3] in {'s', 'S'}
    && x[4] in {'e', 'E'}
  }

  lemma TrueUnlessFalse(x: string)
    ensures IsTrue(x) <==> x != "" && x != "0" && !SpellsFalse(x)
  {
    var w := Lower(x);
    assert |w| == |x| && forall i :: 0 <= i < |x| ==> w[i] == LowerChar(x[i]);
    if SpellsFalse(x) { assert w == "false"; }
    if w == "false" {
      assert w[0] == 'f' && w[1] == 'a' && w[2] == 'l' && w[3] == 's' && w[4] == 'e';
      assert SpellsFalse(x);
    }
    if w == "0" { assert w[0] == '0' && x[0] == '0'; assert x == "0"; }
    if x == "0" { assert w == "0"; }
  }

  /** A value on its own is true unless it is empty, 0 or false. */
  lemma ValueMeans(p: Platform, vars: Vars, text: string)
    requires '\'' !in text
    ensures var x := Content(p, vars, text);
      Meaning(p, vars, "'" + text + "'") == Holds(x != "" && x != "0" && !SpellsFalse(x))
  {
    var t := Truthy(Quote(text));
    var s := "'" + text + "'";
    assert PrintDisj(Last(Final(t)), "") == PrintConj(Final(t), "") == PrintTest(t, "") == "'" + (text + "'");
    assert s == PrintDisj(Last(Final(t)), "");
    hide PrintDisj, SyntaxOf, IsTrue, SpellsFalse;
    Alone(p, vars, t);
    PrintedAloneIsRead(Last(Final(t)), "");
    TrueUnlessFalse(Content(p, vars, text));
  }

  /** A condition of nothing but white space holds. */
  lemma BlankHolds(p: Platform, vars: Vars, blanks: seq<int>)
    requires AllWhite(blanks)
    ensures Meaning(p, vars, Blanks(blanks)) == Holds(true)
  {
    assert Blanks(blanks) + "" == Blanks(blanks);
    LeftTrimmed(blanks, "");
  }

  // ----- chains of && and ||

  function Row(c: Conj): seq<Test> {
    match c case Final(t) => [t] case AndAlso(t, cs) => [t] + Row(cs)
  }

  function Rows(d: Disj): seq<seq<Test>> {
    match d case Last(c) => [Row(c)] case OrElse(c, ds) => [Row(c)] + Rows(ds)
  }

  ghost predicate AllHold(p: Platform, vars: Vars, row: seq<Test>) {
    forall k :: 0 <= k < |row| ==> EvalTest(p, vars, row[k])
  }

  ghost predicate SomeRowHolds(p: Platform, vars: Vars, rows: seq<seq<Test>>) {
    exists i :: 0 <= i < |rows| && AllHold(p, vars, rows[i])
  }

  lemma {:induction false} RowHolds(p: Platform, vars: Vars, c: Conj)
    ensures EvalConj(p, vars, c) <==> AllHold(p, vars, Row(c))
    decreases c
  {
    hide EvalTest;
    match c {
      case Final(t) => assert Row(c)[0] == t;
      case AndAlso(t, cs) =>
        RowHolds(p, vars, cs);
        var row := Row(c);
        assert row[0] == t && forall k :: 0 <= k < |Row(cs)| ==> row[k + 1] == Row(cs)[k];
    }
  }

  lemma {:induction false} RowsHold(p: Platform, vars: Vars, d: Disj)
    ensures EvalDisj(p, vars, d) <==> SomeRowHolds(p, vars, Rows(d))
    decreases d
  {
    hide EvalConj, AllHold;
    match d {
      case Last(c) =>
        RowHolds(p, vars, c);
        assert Rows(d)[0] == Row(c);
      case OrElse(c, ds) =>
        RowHolds(p, vars, c);
        RowsHold(p, vars, ds);
        var rows, rest := Rows(d), Rows(ds);
        assert rows[0] == Row(c) && forall k :: 0 <= k < |rest| ==> rows[k + 1] == rest[k];
        if i :| 0 <= i < |rest| && AllHold(p, vars, rest[i]) { assert AllHold(p, vars, rows[i + 1]); }
        if i :| 0 <= i < |rows| && AllHold(p, vars, rows[i]) { if i > 0 { assert rest[i - 1] == rows[i]; } }
    }
  }

  /** A written condition holds exactly when in some operand of || all operands of &&
      hold, however many there are of each. */
  lemma ChainsMean(p: Platform, vars: Vars, d: Disj, g: string, before: seq<int>, after: seq<int>)
    requires QuotableDisj(d) && Gap(g) && AllWhite(before) && AllWhite(after)
    ensures Meaning(p, vars, Blanks(before) + PrintDisj(d, g) + Blanks(after)) ==
      Holds(SomeRowHolds(p, vars, Rows(d)))
  {
    hide SyntaxOf, PrintDisj, SomeRowHolds, Gap, Blanks;
    PrintedIsRead(d, g, before, after);
    RowsHold(p, vars, d);
  }

  // ----- texts that are refused

  lemma NothingTrimmed(s: string)
    requires s != "" && s[0] as int < 0x80 && !NarrowSpace(s[0]) && Closes(s)
    ensures TrimRight(TrimLeft(s)) == s
  {
  }

  /** An error in the first value is the error of the whole. */
  lemma FirstValueFails(p: Platform, vars: Vars, s: string, e: Error, at: nat)
    requires TrimRight(TrimLeft(s)) == s != "" && ValueAt(s, 0) == Parse.Failed(e, at)
    ensures Meaning(p, vars, s) == Outcome.Rejected(e)
  {
    hide TrimRight, TrimLeft, ValueAt;
    assert TestAt(s, 0) == Parse.Failed(e, at);
    assert ConjAt(s, 0) == Parse.Failed(e, at);
    assert DisjAt(s, 0) == Parse.Failed(e, at);
  }

  /** A leading ! is refused: negation is not available. */
  lemma NegationIsRefused(p: Platform, vars: Vars, d: Disj, g: string)
    ensures Meaning(p, vars, "!" + PrintDisj(d, g)) == Rejected(NegationUnsupported(0))
  {
    hide PrintDisj, DisjAt;
    var w := PrintDisj(d, g);
    var s := "!" + w;
    DisjStarts(d, g);
    DisjCloses(d, g);
    NothingTrimmed(s);
    assert s[1] == w[0] && AfterSpaces(s, 0) == 0;
    NotAt(s, 0, "!=", 1);
    NotAt(s, 0, "!contains", 1);
    FirstValueFails(p, vars, s, NegationUnsupported(0), 0);
  }

  /** A parenthesis must be closed ... */
  lemma OpenParenthesisIsRefused(p: Platform, vars: Vars, d: Disj, g: string)
    requires QuotableDisj(d) && Gap(g)
    ensures Meaning(p, vars, "(" + PrintDisj(d, g)) == Rejected(ExpectedClosing(1 + |PrintDisj(d, g)|))
  {
    hide PrintDisj, DisjAt, PeekOp, Gap;
    var w := PrintDisj(d, g);
    var s := "(" + w;
    DisjStarts(d, g);
    DisjCloses(d, g);
    NothingTrimmed(s);
    assert s[1] == w[0] && AfterSpaces(s, 0) == 0 && AfterSpaces(s, 1) == 1;
    assert s[1..1 + |w|] == w;
    ReadDisj(s, 1, d, g);
    FirstValueFails(p, vars, s, ExpectedClosing(|s|), |s|);
  }

  /** ... and must have been opened. */
  lemma StrayParenthesisIsRefused(p: Platform, vars: Vars, d: Disj, g: string)
    requires QuotableDisj(d) && Gap(g)
    ensures Meaning(p, vars, PrintDisj(d, g) + ")") == Rejected(TrailingText(|PrintDisj(d, g)|))
  {
    hide PrintDisj, DisjAt, Gap, Meaning, TrimLeft, TrimRight;
    var w := PrintDisj(d, g);
    var s := w + ")";
    DisjStarts(d, g);
    NothingTrimmed(s);
    assert AfterSpaces(s, 0) == 0 && s[|w|] == ')' && AfterSpaces(s, |w|) == |w|;
    assert s[0..0 + |w|] == w;
    ReadDisj(s, 0, d, g);
    TrailingAfter(p, vars, s, d, |w|);
  }

  lemma TrailingAfter(p: Platform, vars: Vars, s: string, d: Disj, a: nat)
    requires TrimRight(TrimLeft(s)) == s && a < |s| && DisjAt(s, 0) == Parsed(d, a) && AfterSpaces(s, a) == a
    ensures Meaning(p, vars, s) == Rejected(TrailingText(a))
  {
    hide TrimRight, TrimLeft, DisjAt;
  }

  lemma {:induction false} TrimmedFront(s: string)
    requires s != "" && s[0] == '\''
    ensures TrimRight(s) != "" && TrimRight(s) <= s
    decreases |s|
  {
    var n := |s|;
    if n >= 1 && NarrowSpace(s[n - 1]) { TrimmedFront(s[..n - 1]); }
    else if n >= 2 && WideSpace2(s[n - 2], s[n - 1]) { TrimmedFront(s[..n - 2]); }
    else if n >= 3 && WideSpace3(s[n - 3], s[n - 2], s[n - 1]) { TrimmedFront(s[..n - 3]); }
  }

  lemma {:induction false} NoQuoteFound(s: string, p: nat)
    requires p <= |s| && forall i :: p <= i < |s| ==> s[i] != '\''
    ensures ScanQuote(s, p) == |s|
    decreases |s| - p
  {
    if p < |s| { NoQuoteFound(s, p + 1); }
  }

  /** A quote must be closed. */
  lemma OpenQuoteIsRefused(p: Platform, vars: Vars, text: string)
    requires '\'' !in text
    ensures Meaning(p, vars, "'" + text) == Rejected(UnterminatedQuote(0))
  {
    var whole := "'" + text;
    var s := TrimRight(whole);
    assert TrimLeft(whole) == whole;
    TrimmedFront(whole);
    forall i | 1 <= i < |s| ensures s[i] != '\'' { assert s[i] == whole[i] == text[i - 1]; }
    NoQuoteFound(s, 1);
    hide DisjAt, PeekOp, TrimLeft, TrimRight, ScanQuote, ScanWord;
    assert s[0] == whole[0] && AfterSpaces(s, 0) == 0;
    assert ValueAt(s, 0) == Failed(UnterminatedQuote(0), |s|);
    SyntaxFails(s, UnterminatedQuote(0), |s|);
  }

  lemma SyntaxFails(s: string, e: Error, at: nat)
    requires ValueAt(s, 0) == Parse.Failed(e, at)
    ensures DisjAt(s, 0) == Parse.Failed(e, at)
  {
    hide ValueAt;
    assert TestAt(s, 0) == Parse.Failed(e, at);
    assert ConjAt(s, 0) == Parse.Failed(e, at);
  }

  /** 'l', white space, and something else. */
  function After(l: string, g: string, rest: string): string { ("'" + (l + "'")) + (g + rest) }

  lemma AfterEnds(l: string, g: string, rest: string)
    requires Closes(rest)
    ensures var s := After(l, g, rest);
      && |s| == |l| + 2 + |g| + |rest| && s[0] == '\'' && Closes(s) && s[0..0 + |s|] == s && AfterSpaces(s, 0) == 0
      && TrimRight(TrimLeft(s)) == s
  {
    var s := After(l, g, rest);
    assert s[|s| - 1] == rest[|rest| - 1];
    hide After;
    NothingTrimmed(s);
  }

  /** Reading the left side of a comparison, up to what follows it. */
  lemma LeftSide(l: string, g: string, rest: string)
    requires '\'' !in l && Gap(g) && Closes(rest) && !IsSpace(rest[0])
    ensures var s := After(l, g, rest); var a := |l| + 2;
      && |s| == a + |g| + |rest| && ValueAt(s, 0) == Parsed(Quote(l), a)
      && AfterSpaces(s, a) == a + |g| == AfterSpaces(s, a + |g|) && At(s, a + |g|, rest)
      && TrimRight(TrimLeft(s)) == s
  {
    var s, v := After(l, g, rest), PrintValue(Quote(l), g);
    hide AfterSpaces, ValueAt, Gap, IsSpace, TrimLeft, TrimRight;
    AfterEnds(l, g, rest);
    assert s == v + (g + rest);
    hide After;
    assert At(s, 0, v + (g + rest));
    hide At;
    SplitAt(s, 0, v, g + rest);
    ReadValue(s, 0, Quote(l), g);
    GapLayout(s, |l| + 2, g, rest);
  }

  /** A comparison needs a right side. */
  lemma MissingSideIsRefused(p: Platform, vars: Vars, l: string, g: string, op: Op)
    requires '\'' !in l && Gap(g)
    ensures var s := After(l, g, OpText(op)); Meaning(p, vars, s) == Rejected(ExpectedValue(|s|))
  {
    var s, a := After(l, g, OpText(op)), |l| + 2 + |g|;
    hide TrimLeft, TrimRight, ValueAt, PeekOp, Gap, DisjAt, At, AfterSpaces, After;
    LeftSide(l, g, OpText(op));
    OpAtEnd(s, a, op);
    hide OpText;
    NoValueAtEnd(s);
    assert TestAt(s, 0) == Failed(ExpectedValue(|s|), |s|);
    assert ConjAt(s, 0) == Failed(ExpectedValue(|s|), |s|);
    RefusedThere(p, vars, s, ExpectedValue(|s|));
  }

  lemma OpAtEnd(s: string, a: nat, op: Op)
    requires At(s, a, OpText(op)) && a + |OpText(op)| == |s|
    ensures PeekOp(s, a) == Some(op)
  {
    hide PeekOp;
    CharAt(s, a, OpText(op), 0);
    if |OpText(op)| > 1 { CharAt(s, a, OpText(op), 1); }
    PeekFrom(s, a, op);
  }

  lemma RefusedThere(p: Platform, vars: Vars, s: string, e: Error)
    requires TrimRight(TrimLeft(s)) == s != "" && ConjAt(s, 0) == Parse.Failed(e, |s|)
    ensures Meaning(p, vars, s) == Outcome.Rejected(e)
  {
    hide TrimRight, TrimLeft, ConjAt;
    assert DisjAt(s, 0) == Parse.Failed(e, |s|);
  }

  lemma NoValueAtEnd(s: string)
    ensures ValueAt(s, |s|) == Failed(ExpectedValue(|s|), |s|)
  {
  }

  /** A longer word that begins with contains is no operator. */
  lemma LongerWordIsNoOperator(p: Platform, vars: Vars, l: string, g: string, word: string, c: char)
    requires '\'' !in l && Gap(g) && (word == "contains" || word == "!contains") && IsWordChar(c)
    ensures Meaning(p, vars, After(l, g, word + [c])) == Rejected(TrailingText(|l| + 2 + |g|))
  {
    var w := word + [c];
    var s, a := After(l, g, w), |l| + 2 + |g|;
    hide TrimLeft, TrimRight, ValueAt, PeekOp, Gap, DisjAt, At, AfterSpaces, After, Meaning;
    assert w[0] == word[0] && w[|w| - 1] == c;
    LeftSide(l, g, w);
    NoLongerOperator(s, a, word, c);
    NotAt(s, a, "&&", 0);
    NotAt(s, a, "||", 0);
    hide IsWordChar, IsSpace;
    LoneValue(s, Quote(l), |l| + 2, a);
    TrailingThere(p, vars, s, Final(Truthy(Quote(l))), a);
  }

  lemma LoneValue(s: string, v: Value, e: nat, a: nat)
    requires ValueAt(s, 0) == Parsed(v, e) && e <= |s| && AfterSpaces(s, e) == a == AfterSpaces(s, a)
    requires PeekOp(s, a) == None && !At(s, a, "&&")
    ensures ConjAt(s, 0) == Parsed(Final(Truthy(v)), a)
  {
    hide ValueAt, PeekOp, At, AfterSpaces;
    assert TestAt(s, 0) == Parsed(Truthy(v), a);
  }

  lemma TrailingThere(p: Platform, vars: Vars, s: string, c: Conj, a: nat)
    requires TrimRight(TrimLeft(s)) == s && a < |s| && ConjAt(s, 0) == Parsed(c, a)
    requires AfterSpaces(s, a) == a && !At(s, a, "||")
    ensures Meaning(p, vars, s) == Rejected(TrailingText(a))
  {
    hide TrimRight, TrimLeft, ConjAt, At;
    assert DisjAt(s, 0) == Parsed(Last(c), a);
    TrailingAfter(p, vars, s, Last(c), a);
  }

  lemma NoLongerOperator(s: string, a: nat, word: string, c: char)
    requires At(s, a, word + [c]) && (word == "contains" || word == "!contains") && IsWordChar(c)
    ensures a + 1 < |s| && PeekOp(s, a) == None && s[a] == word[0]
  {
    hide At, PeekOp;
    SplitAt(s, a, word, [c]);
    CharAt(s, a, word, 0);
    CharAt(s, a, word, 1);
    CharAt(s, a + |word|, [c], 0);
    NotAt(s, a, "==", 0);
    if word == "contains" {
      NotAt(s, a, "!=", 0);
      NotAt(s, a, "!contains", 0);
    } else {
      NotAt(s, a, "!=", 1);
      NotAt(s, a, "contains", 0);
    }
    NothingPeeked(s, a, word);
  }

  lemma NothingPeeked(s: string, a: nat, word: string)
    requires a + |word| < |s| && IsWordChar(s[a + |word|]) && s[a] != '>' && s[a] != '<'
    requires !At(s, a, "==") && !At(s, a, "!=")
    requires (word == "contains" && !At(s, a, "!contains")) || (word == "!contains" && !At(s, a, "contains"))
    ensures PeekOp(s, a) == None
  {
    hide At;
  }
}
