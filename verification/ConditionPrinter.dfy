/** Writing conditions, and reading them back: the grammar of the condition
    language seen from the other side. */
module ConditionPrinter {
  import opened ConditionSyntax
  import opened Wrappers

  // ----- the concrete text of a piece of syntax

  /** White space to stand between the parts of a condition; there may be none. */
  ghost predicate Gap(g: string) {
    forall i :: 0 <= i < |g| ==> g[i] as int in {9, 10, 11, 12, 13, 32, 0x85, 0xA0}
  }

  function PrintDisj(d: Disj, g: string): string {
    match d
    case Last(c) => PrintConj(c, g)
    case OrElse(c, ds) => PrintConj(c, g) + (g + ("||" + (g + PrintDisj(ds, g))))
  }

  function PrintConj(c: Conj, g: string): string {
    match c
    case Final(t) => PrintTest(t, g)
    case AndAlso(t, cs) => PrintTest(t, g) + (g + ("&&" + (g + PrintConj(cs, g))))
  }

  function PrintTest(t: Test, g: string): string {
    match t
    case Truthy(v) => PrintValue(v, g)
    case Compare(op, l, r) => PrintValue(l, g) + (g + (OpText(op) + (g + PrintValue(r, g))))
  }

  function PrintValue(v: Value, g: string): string {
    match v
    case Quote(text) => "'" + (text + "'")
    case Paren(d) => "(" + (g + (PrintDisj(d, g) + (g + ")")))
  }

  /** Every text can stand between single quotes. */
  predicate QuotableDisj(d: Disj) {
    match d case Last(c) => QuotableConj(c) case OrElse(c, ds) => QuotableConj(c) && QuotableDisj(ds)
  }

  predicate QuotableConj(c: Conj) {
    match c case Final(t) => QuotableTest(t) case AndAlso(t, cs) => QuotableTest(t) && QuotableConj(cs)
  }

  predicate QuotableTest(t: Test) {
    match t case Truthy(v) => QuotableValue(v) case Compare(_, l, r) => QuotableValue(l) && QuotableValue(r)
  }

  predicate QuotableValue(v: Value) {
    match v case Quote(text) => '\'' !in text case Paren(d) => QuotableDisj(d)
  }

  // ----- reading it back

  lemma SplitAt(s: string, p: nat, a: string, b: string)
    requires At(s, p, a + b)
    ensures At(s, p, a) && At(s, p + |a|, b)
  {
    var w := s[p..p + |a + b|];
    assert w[..|a|] == a && w[|a|..] == b;
    assert s[p..p + |a|] == w[..|a|] && s[p + |a|..p + |a| + |b|] == w[|a|..];
  }

  lemma CharAt(s: string, p: nat, w: string, i: nat)
    requires At(s, p, w) && i < |w|
    ensures p + i < |s| && s[p + i] == w[i]
  {
    assert s[p..p + |w|][i] == s[p + i];
  }

  lemma {:induction false} QuoteEnds(s: string, p: nat, text: string)
    requires At(s, p, text) && '\'' !in text && p + |text| < |s| && s[p + |text|] == '\''
    ensures ScanQuote(s, p) == p + |text|
    decreases |text|
  {
    if text != "" {
      CharAt(s, p, text, 0);
      assert text == [text[0]] + text[1..];
      SplitAt(s, p, [text[0]], text[1..]);
      QuoteEnds(s, p + 1, text[1..]);
    }
  }

  /** White space is skipped up to what follows it. */
  lemma {:induction false} GapSkipped(s: string, p: nat, g: string)
    requires Gap(g) && At(s, p, g) && (p + |g| < |s| ==> !IsSpace(s[p + |g|]))
    ensures AfterSpaces(s, p) == p + |g|
    decreases |g|
  {
    if g != "" {
      CharAt(s, p, g, 0);
      assert g == [g[0]] + g[1..];
      SplitAt(s, p, [g[0]], g[1..]);
      GapSkipped(s, p + 1, g[1..]);
    }
  }

  /** White space between two texts, the second of which starts with something else. */
  lemma GapLayout(s: string, p: nat, g: string, after: string)
    requires Gap(g) && At(s, p, g + after) && after != "" && !IsSpace(after[0])
    ensures p + |g| < |s| && AfterSpaces(s, p) == p + |g| && At(s, p + |g|, after) && s[p + |g|] == after[0]
    ensures AfterSpaces(s, p + |g|) == p + |g|
  {
    SplitAt(s, p, g, after);
    CharAt(s, p + |g|, after, 0);
    GapSkipped(s, p, g);
  }

  lemma {:induction false} SpacesSkipped(s: string, p: nat)
    requires p <= |s|
    ensures AfterSpaces(s, AfterSpaces(s, p)) == AfterSpaces(s, p)
    decreases |s| - p
  {
    if p < |s| && IsSpace(s[p]) { SpacesSkipped(s, p + 1); }
  }

  predicate Opens(w: string) { w != "" && (w[0] == '\'' || w[0] == '(') }

  /** The text ends with an ASCII character that is no space. */
  predicate Closes(w: string) { w != "" && w[|w| - 1] as int < 0x80 && !NarrowSpace(w[|w| - 1]) }

  /** Everything printed starts with a quote or a parenthesis, and ends with one. */
  lemma ValueStarts(v: Value, g: string)
    ensures Opens(PrintValue(v, g))
  {
  }

  lemma ConjStarts(c: Conj, g: string)
    ensures Opens(PrintConj(c, g))
  {
    var t := match c case Final(t) => t case AndAlso(t, _) => t;
    ValueStarts(match t case Truthy(v) => v case Compare(_, l, _) => l, g);
  }

  lemma DisjStarts(d: Disj, g: string)
    ensures Opens(PrintDisj(d, g))
  {
    ConjStarts(match d case Last(c) => c case OrElse(c, _) => c, g);
  }

  lemma EndCloses(front: string, back: string)
    requires Closes(back)
    ensures Closes(front + back)
  {
  }

  lemma ValueCloses(v: Value, g: string)
    ensures Closes(PrintValue(v, g))
  {
    match v {
      case Quote(text) => EndCloses("'", text + "'");
      case Paren(d) =>
        assert "(" + (g + (PrintDisj(d, g) + (g + ")"))) == ("(" + g + PrintDisj(d, g) + g) + ")";
    }
  }

  lemma {:induction false} ConjCloses(c: Conj, g: string)
    ensures Closes(PrintConj(c, g))
    decreases c
  {
    match c {
      case Final(Truthy(v)) => ValueCloses(v, g);
      case Final(Compare(_, _, r)) => ValueCloses(r, g);
      case AndAlso(_, cs) => ConjCloses(cs, g);
    }
  }

  lemma {:induction false} DisjCloses(d: Disj, g: string)
    ensures Closes(PrintDisj(d, g))
    decreases d
  {
    match d {
      case Last(c) => ConjCloses(c, g);
      case OrElse(_, ds) => DisjCloses(ds, g);
    }
  }

  /** Nothing that could extend a test follows at `q`. */
  predicate NoOperator(s: string, q: nat) {
    q < |s| ==> s[q] == ')' || s[q] == '|' || s[q] == '&'
  }

  lemma QuoteLayout(s: string, q: nat, text: string, g: string)
    requires At(s, q, PrintValue(Quote(text), g)) && '\'' !in text
    ensures q < |s| && s[q] == '\'' && ScanQuote(s, q + 1) == q + 1 + |text| < |s|
    ensures s[q + 1..q + 1 + |text|] == text
  {
    SplitAt(s, q, "'", text + "'");
    SplitAt(s, q + 1, text, "'");
    CharAt(s, q, "'", 0);
    CharAt(s, q + 1 + |text|, "'", 0);
    QuoteEnds(s, q + 1, text);
  }

  lemma ParenLayout(s: string, q: nat, d: Disj, g: string)
    requires Gap(g) && At(s, q, PrintValue(Paren(d), g))
    ensures var a := q + 1 + |g|; var e := a + |PrintDisj(d, g)|;
      && q < |s| && s[q] == '(' && AfterSpaces(s, q + 1) == a && At(s, a, PrintDisj(d, g))
      && e + |g| < |s| && s[e + |g|] == ')' && AfterSpaces(s, e) == e + |g|
      && AfterSpaces(s, e + |g|) == e + |g|
  {
    hide At, AfterSpaces;
    var w := PrintDisj(d, g);
    SplitAt(s, q, "(", g + (w + (g + ")")));
    CharAt(s, q, "(", 0);
    DisjStarts(d, g);
    GapLayout(s, q + 1, g, w + (g + ")"));
    SplitAt(s, q + 1 + |g|, w, g + ")");
    GapLayout(s, q + 1 + |g| + |w|, g, ")");
  }

  lemma {:induction false} ReadValue(s: string, p: nat, v: Value, g: string)
    requires Gap(g) && p <= |s| && QuotableValue(v) && At(s, AfterSpaces(s, p), PrintValue(v, g))
    ensures ValueAt(s, p) == Parsed(v, AfterSpaces(s, p) + |PrintValue(v, g)|)
    decreases v, 0
  {
    hide DisjAt, PrintDisj, QuotableDisj, At, PeekOp, ScanWord, ScanQuote, AfterSpaces, Gap;
    var q := AfterSpaces(s, p);
    match v {
      case Quote(text) => QuoteLayout(s, q, text, g);
      case Paren(d) =>
        ParenLayout(s, q, d, g);
        ReadDisj(s, q + 1, d, g);
    }
  }

  lemma NotAt(s: string, p: nat, w: string, i: nat)
    requires i < |w| && (p + i < |s| ==> s[p + i] != w[i])
    ensures !At(s, p, w)
  {
    if At(s, p, w) { CharAt(s, p, w, i); }
  }

  /** An operator is recognised when nothing continues its word. */
  lemma PeekPrinted(s: string, p: nat, op: Op, after: string)
    requires At(s, p, OpText(op) + after) && after != "" && !IsWordChar(after[0])
    ensures PeekOp(s, p) == Some(op) && p < |s| && !IsSpace(s[p])
  {
    SplitAt(s, p, OpText(op), after);
    CharAt(s, p, OpText(op), 0);
    CharAt(s, p + |OpText(op)|, after, 0);
    if |OpText(op)| > 1 { CharAt(s, p, OpText(op), 1); }
    PeekFrom(s, p, op);
  }

  lemma PeekFrom(s: string, p: nat, op: Op)
    requires At(s, p, OpText(op)) && (p + |OpText(op)| < |s| ==> !IsWordChar(s[p + |OpText(op)|]))
    requires s[p] == OpText(op)[0] && (|OpText(op)| > 1 ==> s[p + 1] == OpText(op)[1])
    ensures PeekOp(s, p) == Some(op)
  {
    assert p < |s|;
    hide At;
    if op != Equal { NotAt(s, p, "==", 0); }
    if op == Excludes { NotAt(s, p, "!=", 1); } else if op != NotEqual { NotAt(s, p, "!=", 0); }
    if op == Includes || op == Greater || op == Smaller { NotAt(s, p, "!contains", 0); }
    if op == Greater || op == Smaller { NotAt(s, p, "contains", 0); }
  }

  /** Where the operator and right side of a printed comparison lie. */
  lemma OpLayout(s: string, a: nat, g: string, op: Op, after: string)
    requires Gap(g) && Opens(after) && At(s, a, g + (OpText(op) + (g + after)))
    ensures var o := a + |g|; var b := o + |OpText(op)|;
      && a <= |s| && AfterSpaces(s, a) == o && PeekOp(s, o) == Some(op)
      && b <= |s| && AfterSpaces(s, b) == b + |g| && At(s, b + |g|, after)
  {
    hide At, AfterSpaces, PeekOp;
    var o := a + |g|;
    assert !IsSpace((OpText(op) + (g + after))[0]);
    GapLayout(s, a, g, OpText(op) + (g + after));
    assert !IsWordChar((g + after)[0]);
    PeekPrinted(s, o, op, g + after);
    SplitAt(s, o, OpText(op), g + after);
    GapLayout(s, o + |OpText(op)|, g, after);
  }

  /** Where the parts of a printed comparison lie. */
  lemma CompareLayout(s: string, q: nat, l: Value, op: Op, r: Value, g: string)
    requires Gap(g) && At(s, q, PrintTest(Compare(op, l, r), g))
    ensures var a := q + |PrintValue(l, g)|; var b := a + |g| + |OpText(op)|;
      && At(s, q, PrintValue(l, g))
      && a <= |s| && AfterSpaces(s, a) == a + |g| && PeekOp(s, a + |g|) == Some(op)
      && b <= |s| && AfterSpaces(s, b) == b + |g| && At(s, b + |g|, PrintValue(r, g))
  {
    hide At, PrintValue, OpText, AfterSpaces, PeekOp;
    ValueStarts(r, g);
    SplitAt(s, q, PrintValue(l, g), g + (OpText(op) + (g + PrintValue(r, g))));
    OpLayout(s, q + |PrintValue(l, g)|, g, op, PrintValue(r, g));
  }

  lemma {:induction false} ReadTest(s: string, p: nat, t: Test, g: string)
    requires Gap(g) && p <= |s| && QuotableTest(t) && At(s, AfterSpaces(s, p), PrintTest(t, g))
    requires var e := AfterSpaces(s, p) + |PrintTest(t, g)|; NoOperator(s, AfterSpaces(s, e))
    ensures var e := AfterSpaces(s, p) + |PrintTest(t, g)|;
      var r := TestAt(s, p);
      r.Parsed? && r.value == t && AfterSpaces(s, r.pos) == AfterSpaces(s, e)
    decreases t, 1
  {
    hide ValueAt, PrintValue, QuotableValue, At, PeekOp, AfterSpaces, OpText, Gap;
    var q := AfterSpaces(s, p);
    match t {
      case Truthy(v) =>
        ReadValue(s, p, v, g);
        NoPeek(s, AfterSpaces(s, q + |PrintValue(v, g)|));
        SpacesSkipped(s, q + |PrintValue(v, g)|);
      case Compare(op, l, r) =>
        CompareLayout(s, q, l, op, r, g);
        ReadValue(s, p, l, g);
        ReadValue(s, q + |PrintValue(l, g)| + |g| + |OpText(op)|, r, g);
    }
  }

  lemma NoPeek(s: string, q: nat)
    requires NoOperator(s, q)
    ensures PeekOp(s, q) == None
  {
    hide At;
    NotAt(s, q, "==", 0);
    NotAt(s, q, "!=", 0);
    NotAt(s, q, "contains", 0);
    NotAt(s, q, "!contains", 0);
  }

  /** Where && or || and what follows it lie. */
  lemma JointLayout(s: string, a: nat, g: string, op: string, after: string)
    requires Gap(g) && (op == "&&" || op == "||") && Opens(after)
    requires At(s, a, g + (op + (g + after)))
    ensures var o := a + |g|;
      && a <= |s| && AfterSpaces(s, a) == o == AfterSpaces(s, o) && At(s, o, op) && o < |s| && s[o] == op[0]
      && o + 2 <= |s| && AfterSpaces(s, o + 2) == o + 2 + |g| && At(s, o + 2 + |g|, after)
  {
    hide At, AfterSpaces;
    assert !IsSpace((op + (g + after))[0]);
    GapLayout(s, a, g, op + (g + after));
    SplitAt(s, a + |g|, op, g + after);
    GapLayout(s, a + |g| + 2, g, after);
  }

  lemma {:induction false} ReadConj(s: string, p: nat, c: Conj, g: string)
    requires Gap(g) && p <= |s| && QuotableConj(c) && At(s, AfterSpaces(s, p), PrintConj(c, g))
    requires var q := AfterSpaces(s, AfterSpaces(s, p) + |PrintConj(c, g)|);
      q < |s| ==> s[q] == ')' || s[q] == '|'
    ensures ConjAt(s, p) == Parsed(c, AfterSpaces(s, AfterSpaces(s, p) + |PrintConj(c, g)|))
    decreases c, 2
  {
    hide TestAt, PrintTest, QuotableTest, At, AfterSpaces, Gap;
    var q := AfterSpaces(s, p);
    match c {
      case Final(t) =>
        ReadTest(s, p, t, g);
        NotAt(s, AfterSpaces(s, q + |PrintTest(t, g)|), "&&", 0);
      case AndAlso(t, cs) =>
        var a := q + |PrintTest(t, g)|;
        SplitAt(s, q, PrintTest(t, g), g + ("&&" + (g + PrintConj(cs, g))));
        ConjStarts(cs, g);
        JointLayout(s, a, g, "&&", PrintConj(cs, g));
        ReadTest(s, p, t, g);
        ReadConj(s, a + |g| + 2, cs, g);
    }
  }

  lemma {:induction false} ReadDisj(s: string, p: nat, d: Disj, g: string)
    requires Gap(g) && p <= |s| && QuotableDisj(d) && At(s, AfterSpaces(s, p), PrintDisj(d, g))
    requires var q := AfterSpaces(s, AfterSpaces(s, p) + |PrintDisj(d, g)|); q < |s| ==> s[q] == ')'
    ensures DisjAt(s, p) == Parsed(d, AfterSpaces(s, AfterSpaces(s, p) + |PrintDisj(d, g)|))
    decreases d, 3
  {
    hide ConjAt, PrintConj, QuotableConj, At, AfterSpaces, Gap;
    var q := AfterSpaces(s, p);
    match d {
      case Last(c) =>
        ReadConj(s, p, c, g);
        SpacesSkipped(s, q + |PrintConj(c, g)|);
        NotAt(s, AfterSpaces(s, q + |PrintConj(c, g)|), "||", 0);
      case OrElse(c, ds) =>
        var a := q + |PrintConj(c, g)|;
        SplitAt(s, q, PrintConj(c, g), g + ("||" + (g + PrintDisj(ds, g))));
        DisjStarts(ds, g);
        JointLayout(s, a, g, "||", PrintDisj(ds, g));
        ReadConj(s, p, c, g);
        ReadDisj(s, a + |g| + 2, ds, g);
    }
  }

  // ----- bare words

  /** A text that can stand without quotes. */
  predicate BareWord(w: string) {
    && w != "" && w[0] != '!' && w[0] != '\''
    && (forall i :: 0 <= i < |w| ==> !IsSpace(w[i]) && w[i] != '(' && w[i] != ')' && w[i] != '<' && w[i] != '>')
    && (forall i :: 0 <= i < |w| - 1 ==> !IsPair(w[i], w[i + 1]))
  }

  /** The two characters form an operator that ends a word. */
  predicate IsPair(a: char, b: char) {
    (b == '=' && (a == '=' || a == '!')) || (a == '&' && b == '&') || (a == '|' && b == '|')
  }

  /** A word that ends at `q` ends there for the scanner: at the end of the text, or
      before a space, a parenthesis, an angle bracket or a two-character operator. */
  predicate WordStops(s: string, q: nat) {
    || q >= |s| || IsSpace(s[q]) || s[q] in {'(', ')', '<', '>'}
    || (q + 1 < |s| && IsPair(s[q], s[q + 1]))
  }

  /** The word stands at `p`, stops there, and its last character starts no operator. */
  ghost predicate WordAt(s: string, p: nat, w: string) {
    && BareWord(w) && At(s, p, w) && WordStops(s, p + |w|)
    && (p + |w| < |s| ==> !IsPair(w[|w| - 1], s[p + |w|]))
  }

  lemma NoEndInside(s: string, p: nat, w: string, i: nat)
    requires WordAt(s, p, w) && i < |w|
    ensures p + i < |s| && !EndsBareWord(s, p + i)
  {
    CharAt(s, p, w, i);
    if i + 1 < |w| { CharAt(s, p, w, i + 1); }
    hide At, WordStops;
    NoPairAt(s, p + i);
  }

  lemma EndsHere(s: string, q: nat)
    requires q < |s| && WordStops(s, q)
    ensures EndsBareWord(s, q)
  {
    if q + 1 < |s| { assert s[q..q + 2] == [s[q], s[q + 1]]; }
  }

  lemma NoPairAt(s: string, q: nat)
    requires q + 1 < |s| ==> !IsPair(s[q], s[q + 1])
    ensures !At(s, q, "==") && !At(s, q, "!=") && !At(s, q, "&&") && !At(s, q, "||")
  {
    assert forall w: string :: |w| == 2 && At(s, q, w) ==> s[q..q + 2][0] == s[q] && s[q..q + 2][1] == s[q + 1];
  }

  lemma {:induction false} WordScanned(s: string, p: nat, w: string, i: nat)
    requires WordAt(s, p, w) && i <= |w|
    ensures ScanWord(s, p + i) == p + |w|
    decreases |w| - i
  {
    if i < |w| {
      hide EndsBareWord;
      NoEndInside(s, p, w, i);
      WordScanned(s, p, w, i + 1);
    } else if p + |w| < |s| {
      EndsHere(s, p + |w|);
    }
  }

  /** A bare word is read as that word, up to where it stops. */
  lemma BareWordIsRead(s: string, p: nat, w: string)
    requires WordAt(s, p, w)
    ensures ValueAt(s, p) == Parsed(Quote(w), p + |w|)
  {
    hide ScanWord, PeekOp, DisjAt, WordStops;
    CharAt(s, p, w, 0);
    WordScanned(s, p, w, 0);
  }

  // ----- whole conditions

  /** The characters that count as white space in Unicode. */
  ghost predicate WhiteSpace(cp: int) {
    || 0x09 <= cp <= 0x0D || cp in {0x20, 0x85, 0xA0, 0x1680, 0x2028, 0x2029, 0x202F, 0x205F, 0x3000}
    || 0x2000 <= cp <= 0x200A
  }

  ghost function Utf8(cp: int): (u: string)
    requires WhiteSpace(cp)
  {
    if cp < 0x80 then [cp as char]
    else if cp < 0x800 then [(0xC0 + cp / 64) as char, (0x80 + cp % 64) as char]
    else [(0xE0 + cp / 4096) as char, (0x80 + cp / 64 % 64) as char, (0x80 + cp % 64) as char]
  }

  ghost predicate AllWhite(cps: seq<int>) { forall i :: 0 <= i < |cps| ==> WhiteSpace(cps[i]) }

  /** White space around a condition, in the bytes of the text. */
  ghost function Blanks(cps: seq<int>): string
    requires AllWhite(cps)
  {
    if cps == [] then "" else Utf8(cps[0]) + Blanks(cps[1..])
  }

  lemma {:induction false} BlanksEnd(cps: seq<int>)
    requires cps != [] && AllWhite(cps)
    ensures Blanks(cps) == Blanks(cps[..|cps| - 1]) + Utf8(cps[|cps| - 1])
    decreases |cps|
  {
    hide Utf8, WhiteSpace;
    if |cps| == 1 {
      assert Blanks(cps) == Utf8(cps[0]) + Blanks(cps[1..]);
    } else {
      BlanksEnd(cps[1..]);
      assert cps[1..][..|cps| - 2] == cps[..|cps| - 1][1..];
    }
  }

  lemma LeadingTrimmed(cp: int, s: string)
    requires WhiteSpace(cp)
    ensures TrimLeft(Utf8(cp) + s) == TrimLeft(s)
  {
    var u := Utf8(cp);
    assert (u + s)[|u|..] == s && u <= u + s;
  }

  lemma TrailingTrimmed(s: string, cp: int)
    requires WhiteSpace(cp)
    ensures TrimRight(s + Utf8(cp)) == TrimRight(s)
  {
    var u := Utf8(cp);
    var t := s + u;
    assert t[..|s|] == s && forall i :: 0 <= i < |u| ==> t[|s| + i] == u[i];
  }

  lemma {:induction false} LeftTrimmed(cps: seq<int>, s: string)
    requires AllWhite(cps)
    ensures TrimLeft(Blanks(cps) + s) == TrimLeft(s)
    decreases |cps|
  {
    hide TrimLeft, Utf8, WhiteSpace;
    if cps == [] {
      assert Blanks(cps) + s == s;
    } else {
      var rest := Blanks(cps[1..]);
      assert Blanks(cps) + s == Utf8(cps[0]) + (rest + s);
      LeadingTrimmed(cps[0], rest + s);
      LeftTrimmed(cps[1..], s);
    }
  }

  lemma {:induction false} RightTrimmed(s: string, cps: seq<int>)
    requires AllWhite(cps)
    ensures TrimRight(s + Blanks(cps)) == TrimRight(s)
    decreases |cps|
  {
    hide TrimRight, Utf8, WhiteSpace;
    if cps == [] {
      assert s + Blanks(cps) == s;
    } else {
      var n := |cps| - 1;
      var front := Blanks(cps[..n]);
      BlanksEnd(cps);
      assert s + Blanks(cps) == (s + front) + Utf8(cps[n]);
      TrailingTrimmed(s + front, cps[n]);
      RightTrimmed(s, cps[..n]);
    }
  }

  lemma NothingToTrim(s: string)
    ensures Opens(s) ==> TrimLeft(s) == s
    ensures Closes(s) ==> TrimRight(s) == s
  {
  }

  lemma BlanksTrimmed(before: seq<int>, s: string, after: seq<int>)
    requires AllWhite(before) && AllWhite(after) && Opens(s) && Closes(s)
    ensures TrimRight(TrimLeft(Blanks(before) + s + Blanks(after))) == s
  {
    hide TrimLeft, TrimRight, Blanks;
    assert Blanks(before) + s + Blanks(after) == Blanks(before) + (s + Blanks(after));
    LeftTrimmed(before, s + Blanks(after));
    NothingToTrim(s + Blanks(after));
    RightTrimmed(s, after);
    NothingToTrim(s);
  }

  /** Printing and reading back is the identity, whatever white space stands between
      the parts and around the whole: && binds tighter than ||, and parentheses are
      the only other grouping. */
  lemma PrintedIsRead(d: Disj, g: string, before: seq<int>, after: seq<int>)
    requires QuotableDisj(d) && Gap(g) && AllWhite(before) && AllWhite(after)
    ensures SyntaxOf(Blanks(before) + PrintDisj(d, g) + Blanks(after)) == Sentence(d)
  {
    hide DisjAt, PrintDisj, QuotableDisj, TrimLeft, TrimRight, Gap, Blanks;
    var s := PrintDisj(d, g);
    DisjStarts(d, g);
    DisjCloses(d, g);
    BlanksTrimmed(before, s, after);
    assert s[0..0 + |s|] == s;
    ReadDisj(s, 0, d, g);
  }

  lemma PrintedAloneIsRead(d: Disj, g: string)
    requires QuotableDisj(d) && Gap(g)
    ensures SyntaxOf(PrintDisj(d, g)) == Sentence(d)
  {
    hide SyntaxOf, PrintDisj;
    PrintedIsRead(d, g, [], []);
    assert Blanks([]) + PrintDisj(d, g) + Blanks([]) == PrintDisj(d, g);
  }

  /** Conditions as a user thinks of them, with arbitrary nesting. */
  datatype Formula =
    | Either(l: Formula, r: Formula)
    | Both(l: Formula, r: Formula)
    | Says(text: string)
    | Rel(op: Op, left: string, right: string)

  predicate FormulaValue(p: Platform, vars: Vars, f: Formula) {
    match f
    case Either(l, r) => FormulaValue(p, vars, l) || FormulaValue(p, vars, r)
    case Both(l, r) => FormulaValue(p, vars, l) && FormulaValue(p, vars, r)
    case Says(text) => IsTrue(Expand(p, vars, text))
    case Rel(op, l, r) => Related(p, op, Expand(p, vars, l), Expand(p, vars, r))
  }

  predicate QuotableFormula(f: Formula) {
    match f
    case Either(l, r) => QuotableFormula(l) && QuotableFormula(r)
    case Both(l, r) => QuotableFormula(l) && QuotableFormula(r)
    case Says(text) => '\'' !in text
    case Rel(_, l, r) => '\'' !in l && '\'' !in r
  }

  /** Parenthesise every operand. */
  function Parenthesised(f: Formula): Disj
    decreases f, 0
  {
    match f
    case Either(l, r) => OrElse(Final(Operand(l)), Last(Final(Operand(r))))
    case Both(l, r) => Last(AndAlso(Operand(l), Final(Operand(r))))
    case Says(text) => Last(Final(Truthy(Quote(text))))
    case Rel(op, l, r) => Last(Final(Compare(op, Quote(l), Quote(r))))
  }

  function Operand(f: Formula): Test
    decreases f, 1
  {
    Truthy(Paren(Parenthesised(f)))
  }

  lemma Alone(p: Platform, vars: Vars, t: Test)
    ensures EvalConj(p, vars, Final(t)) == EvalDisj(p, vars, Last(Final(t))) == EvalTest(p, vars, t)
    ensures QuotableConj(Final(t)) == QuotableDisj(Last(Final(t))) == QuotableTest(t)
  {
    assert EvalDisj(p, vars, Last(Final(t))) == EvalConj(p, vars, Final(t));
    assert QuotableDisj(Last(Final(t))) == QuotableConj(Final(t));
  }

  lemma Nested(p: Platform, vars: Vars, d: Disj)
    ensures EvalTest(p, vars, Truthy(Paren(d))) == EvalDisj(p, vars, d)
    ensures QuotableTest(Truthy(Paren(d))) == QuotableDisj(d)
  {
    TruthIgnoresFalseText(p, vars, d);
    assert QuotableTest(Truthy(Paren(d))) == QuotableValue(Paren(d));
  }

  lemma {:induction false} ParenthesisedKeepsValue(p: Platform, vars: Vars, f: Formula)
    ensures EvalDisj(p, vars, Parenthesised(f)) == FormulaValue(p, vars, f)
    ensures QuotableDisj(Parenthesised(f)) == QuotableFormula(f)
  {
    match f {
      case Either(l, r) =>
        ParenthesisedKeepsValue(p, vars, l);
        ParenthesisedKeepsValue(p, vars, r);
        Nested(p, vars, Parenthesised(l));
        Nested(p, vars, Parenthesised(r));
        Alone(p, vars, Operand(l));
        Alone(p, vars, Operand(r));
      case Both(l, r) =>
        ParenthesisedKeepsValue(p, vars, l);
        ParenthesisedKeepsValue(p, vars, r);
        Nested(p, vars, Parenthesised(l));
        Nested(p, vars, Parenthesised(r));
        Alone(p, vars, Operand(r));
        var c := AndAlso(Operand(l), Final(Operand(r)));
        assert EvalDisj(p, vars, Last(c)) == EvalConj(p, vars, c);
        assert QuotableDisj(Last(c)) == QuotableConj(c);
      case Says(text) =>
        Alone(p, vars, Truthy(Quote(text)));
      case Rel(op, l, r) =>
        Alone(p, vars, Compare(op, Quote(l), Quote(r)));
    }
  }

  /** Writing a formula out with parentheses and quotes and evaluating the text
      gives the formula's value, whatever the variables hold and however the text is
      spaced. */
  lemma WrittenFormulaMeansItself(p: Platform, vars: Vars, f: Formula, g: string)
    requires QuotableFormula(f) && Gap(g)
    ensures Meaning(p, vars, PrintDisj(Parenthesised(f), g)) == Holds(FormulaValue(p, vars, f))
  {
    ParenthesisedKeepsValue(p, vars, f);
    PrintedAloneIsRead(Parenthesised(f), g);
  }
}
