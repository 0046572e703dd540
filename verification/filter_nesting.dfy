/** How deep a filter's text nests, counted on its tokens, and that this is all the recursion
    bound of filter/parse.go looks at: the tree read does not depend on the depth a parse starts
    from, and printing never nests deeper than the text that was read. */
module FilterNesting {
  import opened Text
  import opened FilterAst
  import opened FilterScanner
  import opened FilterGrammar
  import opened FilterAccepts
  import opened FilterRoundTrip

  // ----- Counting on the tokens -----

  function Sum(open: seq<nat>): nat {
    if open == [] then 0 else Sum(open[..|open| - 1]) + open[|open| - 1]
  }

  lemma SumPush(open: seq<nat>, n: nat)
    ensures Sum(open + [n]) == Sum(open) + n && (open + [n])[..|open|] == open
  {
    assert (open + [n])[..|open|] == open;
  }

  /** The groups open after a token: a parenthesis opens one level, after not it opens two, and
      a closing one closes what its partner opened. Brackets open none. */
  function Opened(t: Token, open: seq<nat>, afterNot: bool): seq<nat> {
    if t == LParen then open + [if afterNot then 2 else 1]
    else if t == RParen && open != [] then open[..|open| - 1]
    else open
  }

  /** The most levels open at once from here to the end of the text. */
  function Deepest(st: Lexeme, open: seq<nat>, afterNot: bool): nat
    decreases Size(st)
  {
    var next := Opened(st.tok, open, afterNot);
    var here := Max(Sum(open), Sum(next));
    if st.tok == End || Lex(st.rest).Err? then here
    else Max(here, Deepest(Lex(st.rest).value, next, Keyword(st.tok, "not")))
  }

  /** The levels a text needs. */
  function Levels(s: string): nat {
    if Lex(s).Err? then 0 else Deepest(Lex(s).value, [], false)
  }

  /** From st on, what is read up to next opens at most u levels more than are open already. */
  ghost predicate Spans(st: Lexeme, afterNot: bool, u: nat, next: Lexeme) {
    forall open: seq<nat> :: Deepest(st, open, afterNot) == Max(Sum(open) + u, Deepest(next, open, false))
  }

  lemma {:induction false} DeepestAtLeast(st: Lexeme, open: seq<nat>, afterNot: bool)
    ensures Deepest(st, open, afterNot) >= Sum(open)
  {
    hide Lex;
  }

  /** A token that is no parenthesis and no not opens nothing. */
  lemma {:induction false} PlainToken(st: Lexeme, afterNot: bool)
    requires st.tok != LParen && st.tok != RParen && st.tok != End && !Keyword(st.tok, "not") && Lex(st.rest).Ok?
    ensures Spans(st, afterNot, 0, Lex(st.rest).value)
  {
    hide Lex;
    forall open: seq<nat> ensures Deepest(st, open, afterNot) == Max(Sum(open), Deepest(Lex(st.rest).value, open, false)) {
      assert Opened(st.tok, open, afterNot) == open;
    }
  }

  lemma {:induction false} SpansThen(a: Lexeme, afterNot: bool, u: nat, b: Lexeme, v: nat, c: Lexeme)
    requires Spans(a, afterNot, u, b) && Spans(b, false, v, c)
    ensures Spans(a, afterNot, Max(u, v), c)
  {
    hide Deepest;
  }

  lemma {:induction false} DeepestStep(st: Lexeme, open: seq<nat>, afterNot: bool)
    requires st.tok != End && Lex(st.rest).Ok?
    ensures var next := Opened(st.tok, open, afterNot);
            Deepest(st, open, afterNot) == Max(Max(Sum(open), Sum(next)), Deepest(Lex(st.rest).value, next, Keyword(st.tok, "not")))
  {
    hide Lex, Sum;
  }

  lemma SpansIs(st: Lexeme, afterNot: bool, u: nat, next: Lexeme)
    requires forall open: seq<nat> :: Deepest(st, open, afterNot) == Max(Sum(open) + u, Deepest(next, open, false))
    ensures Spans(st, afterNot, u, next)
  {
  }

  lemma SpansAt(st: Lexeme, afterNot: bool, u: nat, next: Lexeme, open: seq<nat>)
    requires Spans(st, afterNot, u, next)
    ensures Deepest(st, open, afterNot) == Max(Sum(open) + u, Deepest(next, open, false))
  {
    hide Deepest, Sum, Max;
  }

  /** A group: what is inside stands on what its parenthesis opens. */
  lemma {:induction false} GroupSpans(st: Lexeme, afterNot: bool, u: nat, close: Lexeme)
    requires st.tok == LParen && Lex(st.rest).Ok? && Spans(Lex(st.rest).value, false, u, close)
    requires close.tok == RParen && Lex(close.rest).Ok?
    ensures Spans(st, afterNot, u + if afterNot then 2 else 1, Lex(close.rest).value)
  {
    hide *;
    var n := if afterNot then 2 else 1;
    forall open: seq<nat> ensures Deepest(st, open, afterNot) == Max(Sum(open) + (u + n), Deepest(Lex(close.rest).value, open, false)) {
      SpansAt(Lex(st.rest).value, false, u, close, open + [n]);
      GroupAt(st, afterNot, n, u, close, open);
    }
    SpansIs(st, afterNot, u + n, Lex(close.rest).value);
  }

  lemma {:induction false} GroupAt(st: Lexeme, afterNot: bool, n: nat, u: nat, close: Lexeme, open: seq<nat>)
    requires st.tok == LParen && Lex(st.rest).Ok? && close.tok == RParen && Lex(close.rest).Ok?
    requires n == if afterNot then 2 else 1
    requires Deepest(Lex(st.rest).value, open + [n], false) == Max(Sum(open + [n]) + u, Deepest(close, open + [n], false))
    ensures Deepest(st, open, afterNot) == Max(Sum(open) + (u + n), Deepest(Lex(close.rest).value, open, false))
  {
    hide Lex, Deepest, Spans, Sum;
    SumPush(open, n);
    DeepestStep(st, open, afterNot);
    DeepestStep(close, open + [n], false);
    DeepestAtLeast(Lex(close.rest).value, open, false);
  }

  /** not before a group. */
  lemma {:induction false} NotSpans(st: Lexeme, afterNot: bool, u: nat, next: Lexeme)
    requires Keyword(st.tok, "not") && Lex(st.rest).Ok? && Spans(Lex(st.rest).value, true, u, next)
    ensures Spans(st, afterNot, u, next)
  {
    hide Lex, Deepest, Spans, Sum;
    forall open: seq<nat> ensures Deepest(st, open, afterNot) == Max(Sum(open) + u, Deepest(next, open, false)) {
      DeepestStep(st, open, afterNot);
      SpansAt(Lex(st.rest).value, true, u, next, open);
    }
    SpansIs(st, afterNot, u, next);
  }

  lemma {:induction false} NothingRead(st: Lexeme)
    ensures Spans(st, false, 0, st)
  {
    hide Deepest, Sum;
    forall open: seq<nat> ensures Deepest(st, open, false) == Max(Sum(open) + 0, Deepest(st, open, false)) {
      DeepestAtLeast(st, open, false);
    }
  }

  // ----- The parser spends exactly these levels -----

  /** The outcome at depth d of what needs u levels and then reads as r. */
  function AtDepth(d: nat, u: nat, r: Result<Parsed>): Result<Parsed> {
    if d + u <= MAX_DEPTH then r else Err(InvalidFilter)
  }

  lemma {:induction false} OrSpends(st: Lexeme, d: nat, vf: bool) returns (u: nat)
    requires d <= MAX_DEPTH && ParseOr(st, d, vf).Ok?
    ensures d + u <= MAX_DEPTH && Spans(st, false, u, ParseOr(st, d, vf).value.next)
    ensures forall d': nat :: d' <= MAX_DEPTH ==> ParseOr(st, d', vf) == AtDepth(d', u, ParseOr(st, d, vf))
    decreases Size(st), 5
  {
    hide Keyword, ParseAnd, OrLoop, Spans;
    var left := ParseAnd(st, d, vf).value;
    var u1 := AndSpends(st, d, vf);
    var u2 := OrLoopSpends(left.e, left.next, d, vf);
    u := Max(u1, u2);
    SpansThen(st, false, u1, left.next, u2, ParseOr(st, d, vf).value.next);
  }

  lemma {:induction false} OrLoopSpends(left: Expr, st: Lexeme, d: nat, vf: bool) returns (u: nat)
    requires d <= MAX_DEPTH && OrLoop(left, st, d, vf).Ok?
    ensures d + u <= MAX_DEPTH && Spans(st, false, u, OrLoop(left, st, d, vf).value.next)
    ensures forall d': nat :: d' <= MAX_DEPTH ==> OrLoop(left, st, d', vf) == AtDepth(d', u, OrLoop(left, st, d, vf))
    decreases Size(st), 5
  {
    hide ParseAnd, Lex, Spans;
    if Keyword(st.tok, "or") {
      var st1 := Lex(st.rest).value;
      var right := ParseAnd(st1, d, vf).value;
      var u1 := AndSpends(st1, d, vf);
      var u2 := OrLoopSpends(Or(left, right.e), right.next, d, vf);
      u := Max(u1, u2);
      PlainWord(st, "or");
      SpansThen(st1, false, u1, right.next, u2, OrLoop(left, st, d, vf).value.next);
      SpansThen(st, false, 0, st1, u, OrLoop(left, st, d, vf).value.next);
    } else {
      u := 0;
      NothingRead(st);
    }
  }

  /** The keywords that join expressions open nothing. */
  lemma {:induction false} PlainWord(st: Lexeme, word: string)
    requires (word == "or" || word == "and") && Keyword(st.tok, word) && Lex(st.rest).Ok?
    ensures Spans(st, false, 0, Lex(st.rest).value)
  {
    hide Lex, Spans, Fold;
    assert |"or"| == 2 && |"and"| == 3 && "and"[0] == 'a' && "not"[0] == 'n' && |"not"| == 3;
    PlainToken(st, false);
  }

  lemma {:induction false} AndSpends(st: Lexeme, d: nat, vf: bool) returns (u: nat)
    requires d <= MAX_DEPTH && ParseAnd(st, d, vf).Ok?
    ensures d + u <= MAX_DEPTH && Spans(st, false, u, ParseAnd(st, d, vf).value.next)
    ensures forall d': nat :: d' <= MAX_DEPTH ==> ParseAnd(st, d', vf) == AtDepth(d', u, ParseAnd(st, d, vf))
    decreases Size(st), 4
  {
    hide Keyword, ParseUnary, AndLoop, Spans;
    var left := ParseUnary(st, d, vf).value;
    var u1 := UnarySpends(st, d, vf);
    var u2 := AndLoopSpends(left.e, left.next, d, vf);
    u := Max(u1, u2);
    SpansThen(st, false, u1, left.next, u2, ParseAnd(st, d, vf).value.next);
  }

  lemma {:induction false} AndLoopSpends(left: Expr, st: Lexeme, d: nat, vf: bool) returns (u: nat)
    requires d <= MAX_DEPTH && AndLoop(left, st, d, vf).Ok?
    ensures d + u <= MAX_DEPTH && Spans(st, false, u, AndLoop(left, st, d, vf).value.next)
    ensures forall d': nat :: d' <= MAX_DEPTH ==> AndLoop(left, st, d', vf) == AtDepth(d', u, AndLoop(left, st, d, vf))
    decreases Size(st), 4
  {
    hide ParseUnary, Lex, Spans;
    if Keyword(st.tok, "and") {
      var st1 := Lex(st.rest).value;
      var right := ParseUnary(st1, d, vf).value;
      var u1 := UnarySpends(st1, d, vf);
      var u2 := AndLoopSpends(And(left, right.e), right.next, d, vf);
      u := Max(u1, u2);
      PlainWord(st, "and");
      SpansThen(st1, false, u1, right.next, u2, AndLoop(left, st, d, vf).value.next);
      SpansThen(st, false, 0, st1, u, AndLoop(left, st, d, vf).value.next);
    } else {
      u := 0;
      NothingRead(st);
    }
  }

  lemma {:induction false} UnarySpends(st: Lexeme, d: nat, vf: bool) returns (u: nat)
    requires d <= MAX_DEPTH && ParseUnary(st, d, vf).Ok?
    ensures d + u <= MAX_DEPTH && Spans(st, false, u, ParseUnary(st, d, vf).value.next)
    ensures forall d': nat :: d' <= MAX_DEPTH ==> ParseUnary(st, d', vf) == AtDepth(d', u, ParseUnary(st, d, vf))
    decreases Size(st), 3
  {
    hide Lex, ParseGroup, ParseAttrExpr, Spans, Keyword;
    if Keyword(st.tok, "not") {
      var st1 := Lex(st.rest).value;
      var inner := GroupSpends(st1, d + 1, vf);
      u := inner + 2;
      NotSpans(st, false, u, ParseUnary(st, d, vf).value.next);
      NotFrom(st, d, vf, inner);
    } else if st.tok == LParen {
      var inner := GroupSpends(st, d, vf);
      u := inner + 1;
      forall d': nat | d' <= MAX_DEPTH ensures ParseUnary(st, d', vf) == AtDepth(d', u, ParseUnary(st, d, vf)) {
        assert ParsePrimary(st, d', vf) == ParseGroup(st, d', vf);
      }
    } else {
      u := AttrExprSpends(st, d, vf);
      forall d': nat | d' <= MAX_DEPTH ensures ParseUnary(st, d', vf) == AtDepth(d', u, ParseUnary(st, d, vf)) {
        assert ParsePrimary(st, d', vf) == ParseAttrExpr(st, d', vf);
      }
    }
  }

  lemma {:induction false} NotFrom(st: Lexeme, d: nat, vf: bool, inner: nat)
    requires d <= MAX_DEPTH && Keyword(st.tok, "not") && ParseUnary(st, d, vf).Ok? && Lex(st.rest).Ok? && Lex(st.rest).value.tok == LParen
    requires forall d': nat :: d' <= MAX_DEPTH ==>
               ParseGroup(Lex(st.rest).value, d', vf) == AtDepth(d', inner + 1, ParseGroup(Lex(st.rest).value, d + 1, vf))
    ensures forall d': nat :: d' <= MAX_DEPTH ==> ParseUnary(st, d', vf) == AtDepth(d', inner + 2, ParseUnary(st, d, vf))
  {
    hide Lex, ParseGroup, Keyword;
    var st1 := Lex(st.rest).value;
    forall d': nat | d' <= MAX_DEPTH ensures ParseUnary(st, d', vf) == AtDepth(d', inner + 2, ParseUnary(st, d, vf)) {
      if d' < MAX_DEPTH {
        assert ParseGroup(st1, d' + 1, vf) == AtDepth(d' + 1, inner + 1, ParseGroup(st1, d + 1, vf));
      }
    }
  }

  /** A group spends one level on itself, two after not, and whatever is inside. */
  lemma {:induction false} GroupSpends(st: Lexeme, d: nat, vf: bool) returns (inner: nat)
    requires d <= MAX_DEPTH && st.tok == LParen && ParseGroup(st, d, vf).Ok?
    ensures d + inner + 1 <= MAX_DEPTH
    ensures Spans(st, false, inner + 1, ParseGroup(st, d, vf).value.next) && Spans(st, true, inner + 2, ParseGroup(st, d, vf).value.next)
    ensures forall d': nat :: d' <= MAX_DEPTH ==> ParseGroup(st, d', vf) == AtDepth(d', inner + 1, ParseGroup(st, d, vf))
    decreases Size(st), 1
  {
    hide Lex, ParseOr, Spans;
    var st1 := Lex(st.rest).value;
    inner := OrSpends(st1, d + 1, vf);
    var close := ParseOr(st1, d + 1, vf).value.next;
    GroupSpans(st, false, inner, close);
    GroupSpans(st, true, inner, close);
  }

  lemma {:induction false} AttrExprSpends(st: Lexeme, d: nat, vf: bool) returns (u: nat)
    requires d <= MAX_DEPTH && st.tok.Word? && !Keyword(st.tok, "not") && ParseAttrExpr(st, d, vf).Ok?
    ensures d + u <= MAX_DEPTH && Spans(st, false, u, ParseAttrExpr(st, d, vf).value.next)
    ensures forall d': nat :: d' <= MAX_DEPTH ==> ParseAttrExpr(st, d', vf) == AtDepth(d', u, ParseAttrExpr(st, d, vf))
    decreases Size(st), 1
  {
    hide Lex, SplitAttrPath, OpOf, Keyword, LiteralOf, ParseValueFilter, Spans;
    var st1 := Lex(st.rest).value;
    PlainToken(st, false);
    if st1.tok == LBracket {
      u := ValueFilterSpends(st1, d);
      SpansThen(st, false, 0, st1, u, ParseAttrExpr(st, d, vf).value.next);
    } else {
      u := 0;
      OperatorPlain(st1.tok);
      PlainToken(st1, false);
      var st2 := Lex(st1.rest).value;
      SpansThen(st, false, 0, st1, 0, st2);
      if !Keyword(st1.tok, "pr") {
        LiteralPlain(st2.tok);
        PlainToken(st2, false);
        SpansThen(st, false, 0, st2, 0, Lex(st2.rest).value);
      }
    }
  }

  /** Neither an operator nor a literal is the word not. */
  lemma {:induction false} OperatorPlain(t: Token)
    ensures t.Word? && (Keyword(t, "pr") || OpOf(t.text).Some?) ==> !Keyword(t, "not")
  {
    assert |"not"| == 3 && |"pr"| == 2;
  }

  lemma {:induction false} LiteralPlain(t: Token)
    ensures LiteralOf(t).Ok? ==> !Keyword(t, "not") && t != LParen && t != RParen && t != End
  {
    assert |"not"| == 3 && |Fold("true")| == 4 && |Fold("false")| == 5 && |Fold("null")| == 4;
  }

  lemma {:induction false} ValueFilterSpends(st: Lexeme, d: nat) returns (u: nat)
    requires d <= MAX_DEPTH && st.tok == LBracket && ParseValueFilter(st, d).Ok?
    ensures d + u <= MAX_DEPTH && Spans(st, false, u, ParseValueFilter(st, d).value.next)
    ensures forall d': nat :: d' <= MAX_DEPTH ==> ParseValueFilter(st, d') == AtDepth(d', u, ParseValueFilter(st, d))
    decreases Size(st), 0
  {
    hide Lex, ParseOr, Spans;
    var st1 := Lex(st.rest).value;
    u := OrSpends(st1, d, true);
    var close := ParseOr(st1, d, true).value.next;
    PlainToken(st, false);
    PlainToken(close, false);
    SpansThen(st, false, 0, st1, u, close);
    SpansThen(st, false, u, close, 0, Lex(close.rest).value);
  }

  // ----- Whole filters -----

  /** A whole filter, read with some of the levels already spent. */
  function ParseFrom(s: string, depth: nat): (r: Result<Expr>)
    requires depth <= MAX_DEPTH
    ensures depth == 0 ==> r == ParseFilter(s)
    ensures r.Err? ==> r.kind == InvalidFilter
  {
    var st :- Lex(s);
    var p :- ParseOr(st, depth, false);
    if p.next.tok != End then Err(InvalidFilter) else Ok(p.e)
  }

  lemma {:induction false} SpansToEnd(st: Lexeme, u: nat, next: Lexeme)
    requires Spans(st, false, u, next) && next.tok == End
    ensures Deepest(st, [], false) == u
  {
    hide Deepest, Spans, Lex;
    SpansAt(st, false, u, next, []);
    DeepestEnd(next);
  }

  lemma {:induction false} DeepestEnd(st: Lexeme)
    requires st.tok == End
    ensures Deepest(st, [], false) == 0 && Sum([]) == 0
  {
    hide Lex;
  }

  lemma {:induction false} FromSpends(s: string, d: nat, d': nat)
    requires d <= MAX_DEPTH && d' <= MAX_DEPTH && ParseFrom(s, d).Ok?
    ensures ParseFrom(s, d') == if d' + Levels(s) <= MAX_DEPTH then ParseFrom(s, d) else Err(InvalidFilter)
    ensures d + Levels(s) <= MAX_DEPTH
  {
    hide Lex, ParseOr, Deepest, Spans;
    var st := Lex(s).value;
    var u := OrSpends(st, d, false);
    SpansToEnd(st, u, ParseOr(st, d, false).value.next);
  }

  /** The tree an accepted text stands for is the same from every start depth, as long as the
      levels counted on its tokens are left; with fewer left it is refused. */
  lemma {:induction false} DepthIrrelevant(s: string, d: nat)
    requires d <= MAX_DEPTH && ParseFilter(s).Ok?
    ensures ParseFrom(s, d) == if d + Levels(s) <= MAX_DEPTH then ParseFilter(s) else Err(InvalidFilter)
    ensures Levels(s) <= MAX_DEPTH
  {
    hide ParseFrom, Levels, ParseFilter;
    FromSpends(s, 0, d);
  }

  /** From any start depth, what is read nests within the levels left. */
  lemma {:induction false} FromNests(s: string, d: nat)
    requires d <= MAX_DEPTH
    ensures var r := ParseFrom(s, d); r.Ok? ==> WellFormed(r.value, false) && d + Nesting(r.value) <= MAX_DEPTH
  {
    hide Scanned, Lex, ParseOr, WellFormed, Nesting;
    var st := Lex(s);
    if st.Ok? {
      LexScanned(s);
      OrAccepts(st.value, d, false);
    }
  }

  lemma {:induction false} FromPrinted(e: Expr, d: nat)
    requires d <= MAX_DEPTH && WellFormed(e, false) && d + Nesting(e) <= MAX_DEPTH
    ensures ParseFrom(ExprText(e), d) == Ok(e)
  {
    hide WellFormed, Nesting, ExprText;
    assert ExprText(e) + "" == ExprText(e);
    OrReads(e, "", d, false);
  }

  /** The printed form needs exactly as many levels as the tree nests. */
  lemma {:induction false} PrintedLevels(e: Expr)
    requires WellFormed(e, false) && Nesting(e) <= MAX_DEPTH
    ensures ParseFilter(ExprText(e)) == Ok(e) && Levels(ExprText(e)) == Nesting(e)
  {
    hide ParseFrom, Levels, ParseFilter, WellFormed, Nesting, ExprText;
    ParsePrinted(e);
    var s := ExprText(e);
    FromPrinted(e, MAX_DEPTH - Nesting(e));
    DepthIrrelevant(s, MAX_DEPTH - Nesting(e));
    DepthIrrelevant(s, MAX_DEPTH - Levels(s));
    FromNests(s, MAX_DEPTH - Levels(s));
  }

  /** What an accepted text stands for nests no deeper than the text, and neither does its
      printed form, which reads back to the same tree. */
  lemma {:induction false} PrintShallows(s: string)
    requires ParseFilter(s).Ok?
    ensures var e := ParseFilter(s).value;
            Nesting(e) <= Levels(s) && ParseFilter(ExprText(e)) == Ok(e) && Levels(ExprText(e)) <= Levels(s)
  {
    hide ParseFrom, Levels, ParseFilter, WellFormed, Nesting, ExprText;
    DepthIrrelevant(s, 0);
    DepthIrrelevant(s, MAX_DEPTH - Levels(s));
    FromNests(s, MAX_DEPTH - Levels(s));
    PrintedLevels(ParseFilter(s).value);
  }
}
