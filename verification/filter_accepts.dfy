/** What strict parsing accepts: every accepted filter or path is well-formed, and its printed
    form nests no deeper than the text it was read from. */
module FilterAccepts {
  import opened Text
  import opened FilterAst
  import opened FilterScanner
  import opened FilterGrammar

  /** The tokens the scanner can produce. */
  predicate Scanned(t: Token) {
    && (t.Word? ==> forall c <- t.text :: IsWordChar(c))
    && (t.NumberLit? ==> ValidNumber(t.text))
  }

  lemma {:induction false} LexScanned(s: string)
    ensures var r := Lex(s); r.Ok? ==> Scanned(r.value.tok)
  {
    hide ValidNumber;
    if s != "" && IsSpace(s[0]) {
      LexScanned(s[1..]);
    }
  }

  lemma SplitAccepts(word: string)
    requires forall c <- word :: IsWordChar(c)
    ensures var r := SplitAttrPath(word);
            r.Ok? ==> PlainPath(r.value) && (SpellsNot(r.value) ==> Fold(word) == "not")
  {
    hide IsWordChar, ValidAttrName;
    var r := SplitAttrPath(word);
    if r.Ok? {
      var colon := LastIndex(word, ':');
      if colon.Some? {
        assert forall c <- word[..colon.value] :: c in word;
      } else if SpellsNot(r.value) {
        assert FirstIndex(word, '.').None? || r.value.sub == "";
      }
      ValidIsNonempty(r.value.sub);
    }
  }

  lemma ValidIsNonempty(s: string)
    ensures ValidAttrName(s) ==> s != ""
  {
  }

  /** The bound a parse at this depth leaves for the printed form of its result. */
  predicate OrGood(r: Result<Parsed>, depth: nat, vf: bool) {
    r.Ok? ==> WellFormed(r.value.e, vf) && depth + Nesting(r.value.e) <= MAX_DEPTH && Scanned(r.value.next.tok)
  }

  predicate AndGood(r: Result<Parsed>, depth: nat, vf: bool) {
    r.Ok? ==> WellFormed(r.value.e, vf) && depth + TermNesting(r.value.e) <= MAX_DEPTH && Scanned(r.value.next.tok)
  }

  predicate UnaryGood(r: Result<Parsed>, depth: nat, vf: bool) {
    r.Ok? ==> WellFormed(r.value.e, vf) && depth + FactorNesting(r.value.e) <= MAX_DEPTH && Scanned(r.value.next.tok)
  }

  lemma {:induction false} OrAccepts(st: Lexeme, depth: nat, vf: bool)
    requires depth <= MAX_DEPTH && Scanned(st.tok)
    ensures OrGood(ParseOr(st, depth, vf), depth, vf)
    decreases Size(st), 5
  {
    hide Keyword, Scanned, WellFormed, ParseAnd;
    AndAccepts(st, depth, vf);
    var left := ParseAnd(st, depth, vf);
    if left.Ok? {
      OrLoopAccepts(left.value.e, left.value.next, depth, vf);
    }
  }

  lemma {:induction false} OrLoopAccepts(left: Expr, st: Lexeme, depth: nat, vf: bool)
    requires depth <= MAX_DEPTH && Scanned(st.tok)
    requires WellFormed(left, vf) && depth + Nesting(left) <= MAX_DEPTH
    ensures OrGood(OrLoop(left, st, depth, vf), depth, vf)
    decreases Size(st), 5
  {
    hide Scanned, ParseAnd, Lex;
    if Keyword(st.tok, "or") {
      var st1 := Lex(st.rest);
      if st1.Ok? {
        LexScanned(st.rest);
        AndAccepts(st1.value, depth, vf);
        var right := ParseAnd(st1.value, depth, vf);
        if right.Ok? {
          OrLoopAccepts(Or(left, right.value.e), right.value.next, depth, vf);
        }
      }
    }
  }

  lemma {:induction false} AndAccepts(st: Lexeme, depth: nat, vf: bool)
    requires depth <= MAX_DEPTH && Scanned(st.tok)
    ensures AndGood(ParseAnd(st, depth, vf), depth, vf)
    decreases Size(st), 4
  {
    hide Keyword, Scanned, WellFormed, ParseUnary;
    UnaryAccepts(st, depth, vf);
    var left := ParseUnary(st, depth, vf);
    if left.Ok? {
      AndLoopAccepts(left.value.e, left.value.next, depth, vf);
    }
  }

  lemma {:induction false} AndLoopAccepts(left: Expr, st: Lexeme, depth: nat, vf: bool)
    requires depth <= MAX_DEPTH && Scanned(st.tok)
    requires WellFormed(left, vf) && depth + TermNesting(left) <= MAX_DEPTH
    ensures AndGood(AndLoop(left, st, depth, vf), depth, vf)
    decreases Size(st), 4
  {
    hide Scanned, ParseUnary, Lex;
    if Keyword(st.tok, "and") {
      var st1 := Lex(st.rest);
      if st1.Ok? {
        LexScanned(st.rest);
        UnaryAccepts(st1.value, depth, vf);
        var right := ParseUnary(st1.value, depth, vf);
        if right.Ok? {
          AndLoopAccepts(And(left, right.value.e), right.value.next, depth, vf);
        }
      }
    }
  }

  lemma {:induction false} UnaryAccepts(st: Lexeme, depth: nat, vf: bool)
    requires depth <= MAX_DEPTH && Scanned(st.tok)
    ensures UnaryGood(ParseUnary(st, depth, vf), depth, vf)
    decreases Size(st), 3
  {
    hide Scanned, Lex, ParseGroup, ParseAttrExpr;
    if !Keyword(st.tok, "not") {
      if st.tok == LParen {
        GroupAccepts(st, depth, vf);
      } else if st.tok.Word? {
        AttrExprAccepts(st, depth, vf);
      }
    } else {
      var st1 := Lex(st.rest);
      if st1.Ok? && st1.value.tok == LParen && depth < MAX_DEPTH {
        LexScanned(st.rest);
        GroupAccepts(st1.value, depth + 1, vf);
      }
    }
  }

  /** A parenthesised group nests one level deeper than what it holds. */
  lemma {:induction false} GroupAccepts(st: Lexeme, depth: nat, vf: bool)
    requires depth <= MAX_DEPTH && st.tok == LParen
    ensures var r := ParseGroup(st, depth, vf);
            r.Ok? ==> WellFormed(r.value.e, vf) && depth + Nesting(r.value.e) + 1 <= MAX_DEPTH && Scanned(r.value.next.tok)
    decreases Size(st), 1
  {
    hide Scanned, Lex, ParseOr, WellFormed;
    var st1 := Lex(st.rest);
    if st1.Ok? && depth < MAX_DEPTH {
      LexScanned(st.rest);
      OrAccepts(st1.value, depth + 1, vf);
      var x := ParseOr(st1.value, depth + 1, vf);
      if x.Ok? {
        LexScanned(x.value.next.rest);
      }
    }
  }

  lemma {:induction false} AttrExprAccepts(st: Lexeme, depth: nat, vf: bool)
    requires depth <= MAX_DEPTH && Scanned(st.tok) && st.tok.Word? && !Keyword(st.tok, "not")
    ensures UnaryGood(ParseAttrExpr(st, depth, vf), depth, vf)
    decreases Size(st), 1
  {
    hide Lex, ParseOr, ValidNumber, SplitAttrPath, PlainPath, SpellsNot, OpOf;
    SplitAccepts(st.tok.text);
    LexScanned(st.rest);
    var st1 := Lex(st.rest);
    if st1.Ok? {
      if st1.value.tok == LBracket {
        ValueFilterAccepts(st1.value, depth);
      } else {
        LexScanned(st1.value.rest);
        var st2 := Lex(st1.value.rest);
        if st2.Ok? {
          LexScanned(st2.value.rest);
        }
      }
    }
  }

  lemma {:induction false} ValueFilterAccepts(st: Lexeme, depth: nat)
    requires depth <= MAX_DEPTH && st.tok == LBracket
    ensures OrGood(ParseValueFilter(st, depth), depth, true)
    decreases Size(st), 0
  {
    hide Scanned, Lex, ParseOr, WellFormed;
    var st1 := Lex(st.rest);
    if st1.Ok? {
      LexScanned(st.rest);
      OrAccepts(st1.value, depth, true);
      var f := ParseOr(st1.value, depth, true);
      if f.Ok? {
        LexScanned(f.value.next.rest);
      }
    }
  }

  /** Every filter strict Parse accepts is well-formed and prints within the depth bound. */
  lemma {:induction false} ParseFilterAccepts(s: string)
    ensures var r := ParseFilter(s);
            r.Ok? ==> WellFormed(r.value, false) && Nesting(r.value) <= MAX_DEPTH
  {
    hide Scanned, Lex, ParseOr, WellFormed;
    LexScanned(s);
    var st := Lex(s);
    if st.Ok? {
      OrAccepts(st.value, 0, false);
    }
  }

  /** The PATCH paths that have a printed form the grammar accepts. */
  predicate WellFormedPath(p: Path) {
    PlainPath(p.(filter := None)) &&
    (p.filter.Some? ==> WellFormed(p.filter.value, true) && Nesting(p.filter.value) <= MAX_DEPTH)
  }

  lemma {:induction false} ParsePathTailAccepts(path: Path, st: Lexeme)
    requires PlainPath(path)
    ensures var r := ParsePathTail(path, st); r.Ok? ==> WellFormedPath(r.value.0)
  {
    hide Lex, ParseOr, WellFormed, ParseValueFilter;
    if st.tok == LBracket {
      ValueFilterAccepts(st, 0);
    }
  }

  /** Every path strict ParsePath accepts is well-formed. */
  lemma {:induction false} ParsePatchPathAccepts(s: string)
    ensures var r := ParsePatchPath(s); r.Ok? ==> WellFormedPath(r.value)
  {
    hide Lex, SplitAttrPath, ParsePathTail, WellFormedPath;
    LexScanned(s);
    var st := Lex(s);
    if st.Ok? && st.value.tok.Word? {
      SplitAccepts(st.value.tok.text);
      var path, st1 := SplitAttrPath(st.value.tok.text), Lex(st.value.rest);
      if path.Ok? && st1.Ok? {
        ParsePathTailAccepts(path.value, st1.value);
      }
    }
  }
}
