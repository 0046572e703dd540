/** Printing and parsing undo each other (the contract of filter/ast.go's Expr.String). */
module FilterRoundTrip {
  import opened Text
  import opened FilterAst
  import opened FilterScanner
  import opened FilterGrammar
  import opened FilterLexing
  import opened FilterAccepts

  /** The text after an expression: it scans, and it does not run into what precedes it. */
  predicate Follows(s: string) {
    Fences(s) && Lex(s).Ok?
  }

  function After(s: string): Lexeme
    requires Lex(s).Ok?
  {
    Lex(s).value
  }

  lemma {:induction false} FollowsWord(w: string, s: string)
    requires w != "" && (forall c <- w :: IsLetter(c)) && Fences(s)
    ensures Follows(" " + w + s) && After(" " + w + s) == Lexeme(Word(w), s)
  {
    LexKeyword(w, s);
  }

  lemma {:induction false} FollowsPunct(c: char, s: string)
    requires c == ')' || c == ']'
    ensures Follows([c] + s) && After([c] + s) == Lexeme(if c == ')' then RParen else RBracket, s)
  {
    LexPunct(c, s);
  }

  lemma {:induction false} OpReads(op: CompareOp)
    ensures var w := OpText(op);
            w != "" && (forall c <- w :: IsLetter(c)) && OpOf(w) == Some(op) && !Keyword(Word(w), "pr")
  {
    assert Fold(OpText(op)) == OpText(op);
  }

  /** The head of an expression: an attribute path, then whatever the printer puts after it. */
  lemma {:induction false} PathReads(p: Path, s: string)
    requires PlainPath(p) && !SpellsNot(p) && Fences(s)
    ensures PathText(p) == PlainText(p)
    ensures Lex(PathText(p) + s) == Ok(Lexeme(Word(PlainText(p)), s))
    ensures SplitAttrPath(PlainText(p)) == Ok(p) && !Keyword(Word(PlainText(p)), "not")
  {
    hide PlainPath, SpellsNot, AttrText, SubText, Lex, Keyword, SplitAttrPath;
    assert PathText(p) == PlainText(p) by { PlainPathText(p); }
    PlainTextWord(p);
    LexWord(PlainText(p), s);
    SplitPlainText(p);
    SpellsNotText(p);
  }

  lemma {:induction false} PlainPathText(p: Path)
    requires PlainPath(p)
    ensures PathText(p) == PlainText(p)
  {
    assert AttrText(p) + "" + SubText(p) == AttrText(p) + SubText(p);
  }

  /** The three leaf shapes reduced to ParseAttrExpr. */
  lemma {:induction false} HeadReads(p: Path, t: string, depth: nat, vf: bool)
    requires PlainPath(p) && !SpellsNot(p) && Fences(t) && depth <= MAX_DEPTH
    ensures Lex(PathText(p) + t).Ok?
    ensures var st := After(PathText(p) + t);
            st == Lexeme(Word(PlainText(p)), t) && ParseUnary(st, depth, vf) == ParseAttrExpr(st, depth, vf)
  {
    hide PlainPath, SpellsNot, AttrText, SubText, PathText, Lex, Keyword, ParseAttrExpr;
    PathReads(p, t);
  }

  lemma {:induction false} CompareReads(p: Path, op: CompareOp, v: Literal, s: string, depth: nat, vf: bool)
    requires WellFormed(Compare(p, op, v), vf) && Follows(s) && depth <= MAX_DEPTH
    ensures var t := " " + OpText(op) + (" " + (LiteralText(v) + s));
            Fences(t) && ParseAttrExpr(Lexeme(Word(PlainText(p)), t), depth, vf) == Ok(Parsed(Compare(p, op, v), After(s)))
  {
    hide PlainPath, SpellsNot, AttrText, SubText, PathText, Lex, SplitAttrPath, OpText, LiteralText, LiteralOf, OpOf, ValidNumber;
    PathReads(p, "");
    OpReads(op);
    LexKeyword(OpText(op), " " + (LiteralText(v) + s));
    LexBlank(LiteralText(v) + s);
    LexLiteral(v, s);
  }

  lemma {:induction false} PresentReads(p: Path, s: string, depth: nat, vf: bool)
    requires WellFormed(Present(p), vf) && Follows(s) && depth <= MAX_DEPTH
    ensures ParseAttrExpr(Lexeme(Word(PlainText(p)), " pr" + s), depth, vf) == Ok(Parsed(Present(p), After(s)))
  {
    hide PlainPath, SpellsNot, AttrText, SubText, PathText, Lex, SplitAttrPath;
    PathReads(p, "");
    assert " pr" + s == " " + "pr" + s;
    LexKeyword("pr", s);
    assert Fold("pr") == "pr";
  }

  lemma {:induction false} ValueFilterReads(f: Expr, s: string, depth: nat)
    requires WellFormed(f, true) && Lex(s).Ok? && depth + Nesting(f) <= MAX_DEPTH
    ensures var t := "[" + ExprText(f) + "]" + s;
            Lex(t) == Ok(Lexeme(LBracket, ExprText(f) + ("]" + s))) &&
            ParseValueFilter(After(t), depth) == Ok(Parsed(f, After(s)))
    decreases f, 5
  {
    hide WellFormed, Nesting, ExprText, Lex;
    assert "[" + ExprText(f) + "]" + s == ['['] + (ExprText(f) + ("]" + s));
    LexPunct('[', ExprText(f) + ("]" + s));
    FollowsPunct(']', s);
    OrReads(f, "]" + s, depth, true);
  }

  lemma {:induction false} GroupReads(e: Expr, s: string, depth: nat, vf: bool)
    requires WellFormed(e, vf) && Lex(s).Ok? && depth + Nesting(e) + 1 <= MAX_DEPTH
    ensures var t := "(" + ExprText(e) + ")" + s;
            Lex(t) == Ok(Lexeme(LParen, ExprText(e) + (")" + s))) &&
            ParseGroup(After(t), depth, vf) == Ok(Parsed(e, After(s)))
    decreases e, 5
  {
    hide WellFormed, Nesting, ExprText, Lex;
    assert "(" + ExprText(e) + ")" + s == ['('] + (ExprText(e) + (")" + s));
    LexPunct('(', ExprText(e) + (")" + s));
    FollowsPunct(')', s);
    OrReads(e, ")" + s, depth + 1, vf);
  }

  /** Anything but a bare and/or is read back by parseUnary. */
  lemma {:induction false} LeafReads(e: Expr, s: string, depth: nat, vf: bool)
    requires WellFormed(e, vf) && Follows(s) && depth + Nesting(e) <= MAX_DEPTH && !e.And? && !e.Or?
    ensures Lex(ExprText(e) + s).Ok?
    ensures ParseUnary(After(ExprText(e) + s), depth, vf) == Ok(Parsed(e, After(s)))
    decreases e, 1
  {
    hide Lex, ParseUnary, Fences, ExprText;
    match e
    case Compare(p, op, v) => ComparisonReads(p, op, v, s, depth, vf);
    case Present(p) => PresenceReads(p, s, depth, vf);
    case Not(x) => NotReads(x, s, depth, vf);
    case ValuePath(p, f) => ValuePathReads(p, f, s, depth, vf);
  }

  lemma {:induction false} ComparisonReads(p: Path, op: CompareOp, v: Literal, s: string, depth: nat, vf: bool)
    requires WellFormed(Compare(p, op, v), vf) && Follows(s) && depth <= MAX_DEPTH
    ensures var t := ExprText(Compare(p, op, v)) + s;
            Lex(t).Ok? && ParseUnary(After(t), depth, vf) == Ok(Parsed(Compare(p, op, v), After(s)))
  {
    hide PlainPath, SpellsNot, Lex, ValidNumber, PathText, ParseUnary, ParseAttrExpr, LiteralText, OpText, Fences;
    var t := " " + OpText(op) + (" " + (LiteralText(v) + s));
    CompareReads(p, op, v, s, depth, vf);
    HeadReads(p, t, depth, vf);
    Glue3(PathText(p) + " " + OpText(op), " ", LiteralText(v), s);
    Glue3(PathText(p), " ", OpText(op), " " + (LiteralText(v) + s));
    Glue2(" ", OpText(op), " " + (LiteralText(v) + s));
  }

  lemma {:induction false} PresenceReads(p: Path, s: string, depth: nat, vf: bool)
    requires WellFormed(Present(p), vf) && Follows(s) && depth <= MAX_DEPTH
    ensures var t := ExprText(Present(p)) + s;
            Lex(t).Ok? && ParseUnary(After(t), depth, vf) == Ok(Parsed(Present(p), After(s)))
  {
    hide PlainPath, SpellsNot, Lex, PathText, ParseUnary, ParseAttrExpr, Fences;
    PresentReads(p, s, depth, vf);
    BlankFences("pr" + s);
    assert " pr" + s == " " + ("pr" + s);
    HeadReads(p, " pr" + s, depth, vf);
    Glue2(PathText(p), " pr", s);
  }

  lemma BlankFences(s: string)
    ensures Fences(" " + s)
  {
  }

  lemma {:induction false} NotText(x: Expr, s: string)
    ensures ExprText(Not(x)) + s == "not" + (" " + ("(" + ExprText(x) + ")" + s))
  {
    hide ExprText;
    assert ExprText(Not(x)) == "not (" + ExprText(x) + ")" by { NotForm(x); }
    Glue3("not (", ExprText(x), ")", s);
    Glue3("(", ExprText(x), ")", s);
    assert "not" + " " + "(" == "not (";
    Glue3("not", " ", "(", ExprText(x) + (")" + s));
  }

  lemma NotForm(x: Expr)
    ensures ExprText(Not(x)) == "not (" + ExprText(x) + ")"
  {
  }

  lemma {:induction false} NotReads(x: Expr, s: string, depth: nat, vf: bool)
    requires WellFormed(x, vf) && Follows(s) && depth + Nesting(x) + 2 <= MAX_DEPTH
    ensures Lex(ExprText(Not(x)) + s).Ok?
    ensures ParseUnary(After(ExprText(Not(x)) + s), depth, vf) == Ok(Parsed(Not(x), After(s)))
    decreases x, 6
  {
    hide WellFormed, Lex, ParseGroup, Fences, Nesting;
    var t := "(" + ExprText(x) + ")" + s;
    GroupReads(x, s, depth + 1, vf);
    BlankFences(t);
    LexWord("not", " " + t);
    NotText(x, s);
    LexBlank(t);
    assert Fold("not") == "not";
  }

  lemma {:induction false} ValuePathReads(p: Path, f: Expr, s: string, depth: nat, vf: bool)
    requires WellFormed(ValuePath(p, f), vf) && Follows(s) && depth + Nesting(f) <= MAX_DEPTH
    ensures Lex(ExprText(ValuePath(p, f)) + s).Ok?
    ensures ParseUnary(After(ExprText(ValuePath(p, f)) + s), depth, vf) == Ok(Parsed(ValuePath(p, f), After(s)))
    decreases f, 7
  {
    hide PlainPath, SpellsNot, Lex, PathText, Nesting, SplitAttrPath, ParseAttrExpr, AttrText, SubText, ParseUnary;
    var t := "[" + ExprText(f) + "]" + s;
    assert t[0] == '[';
    HeadReads(p, t, depth, vf);
    BracketReads(p, f, s, depth);
    Glue3(PathText(p) + "[", ExprText(f), "]", s);
    Glue2(PathText(p), "[", ExprText(f) + ("]" + s));
    Glue3("[", ExprText(f), "]", s);
  }

  lemma {:induction false} BracketReads(p: Path, f: Expr, s: string, depth: nat)
    requires WellFormed(ValuePath(p, f), false) && Follows(s) && depth + Nesting(f) <= MAX_DEPTH
    ensures var t := "[" + ExprText(f) + "]" + s;
            ParseAttrExpr(Lexeme(Word(PlainText(p)), t), depth, false) == Ok(Parsed(ValuePath(p, f), After(s)))
    decreases f, 6
  {
    hide PlainPath, SpellsNot, Lex, PathText, Fences, Nesting, ExprText, SplitAttrPath, ParseValueFilter, AttrText, SubText;
    SplitPlainText(p);
    ValueFilterReads(f, s, depth);
  }

  /** An operand, with the parentheses the printer gives it, is read back by parseUnary. */
  lemma {:induction false} OperandReads(e: Expr, wrap: bool, s: string, depth: nat, vf: bool)
    requires WellFormed(e, vf) && Follows(s) && (e.And? || e.Or? ==> wrap)
    requires depth + Nesting(e) + (if wrap then 1 else 0) <= MAX_DEPTH
    ensures Lex(Parens(wrap, ExprText(e)) + s).Ok?
    ensures ParseUnary(After(Parens(wrap, ExprText(e)) + s), depth, vf) == Ok(Parsed(e, After(s)))
    decreases e, 6
  {
    hide WellFormed, Nesting, ExprText, Lex, Fences, ParseGroup;
    if wrap {
      GroupReads(e, s, depth, vf);
    } else {
      LeafReads(e, s, depth, vf);
    }
  }

  /** parseAnd reads an and-chain from the left and goes on with what follows it. */
  lemma {:induction false} AndReads(e: Expr, s: string, depth: nat, vf: bool)
    requires WellFormed(e, vf) && Follows(s) && depth + Nesting(e) <= MAX_DEPTH && !e.Or?
    ensures Lex(ExprText(e) + s).Ok?
    ensures ParseAnd(After(ExprText(e) + s), depth, vf) == AndLoop(e, After(s), depth, vf)
    decreases e, 2
  {
    hide Lex, Fences, ParseUnary, Parens;
    if e.And? {
      var tail := Parens(e.r.Or? || e.r.And?, ExprText(e.r)) + s;
      var more := " and " + tail;
      AndTail(e.l, e.r, s, depth, vf);
      var left := Parens(e.l.Or?, ExprText(e.l));
      Glue3(left, " and ", Parens(e.r.Or? || e.r.And?, ExprText(e.r)), s);
      if e.l.Or? {
        OperandReads(e.l, true, more, depth, vf);
      } else {
        BareParens(ExprText(e.l));
        AndReads(e.l, more, depth, vf);
      }
    } else {
      LeafReads(e, s, depth, vf);
    }
  }

  /** One turn of parseAnd's loop: the printed right operand is folded into the tree. */
  lemma {:induction false} AndTail(l: Expr, r: Expr, s: string, depth: nat, vf: bool)
    requires WellFormed(r, vf) && Follows(s) && depth + FactorNesting(r) <= MAX_DEPTH
    ensures var more := " and " + (Parens(r.Or? || r.And?, ExprText(r)) + s);
            Follows(more) && AndLoop(l, After(more), depth, vf) == AndLoop(And(l, r), After(s), depth, vf)
    decreases r, 7
  {
    hide Lex, Fences, ParseUnary, Parens, WellFormed, Nesting, ExprText;
    var right := Parens(r.Or? || r.And?, ExprText(r)) + s;
    OperandReads(r, r.Or? || r.And?, s, depth, vf);
    BlankFences(right);
    FollowsWord("and", " " + right);
    LexBlank(right);
    assert Fold("and") == "and";
    JoinBlanks("and", right);
  }

  lemma {:induction false} JoinBlanks(w: string, s: string)
    requires w == "and" || w == "or"
    ensures " " + w + (" " + s) == (if w == "and" then " and " else " or ") + s
  {
    assert " " + "and" + " " == " and ";
    assert " " + "or" + " " == " or ";
    Glue2(" " + w, " ", s);
  }

  lemma BareParens(s: string)
    ensures Parens(false, s) == s
  {
  }

  /** parseOr reads an or-chain from the left and goes on with what follows it. */
  lemma {:induction false} OrReads(e: Expr, s: string, depth: nat, vf: bool)
    requires WellFormed(e, vf) && Follows(s) && depth + Nesting(e) <= MAX_DEPTH
    requires !Keyword(After(s).tok, "and")
    ensures Lex(ExprText(e) + s).Ok?
    ensures ParseOr(After(ExprText(e) + s), depth, vf) == OrLoop(e, After(s), depth, vf)
    ensures !Keyword(After(s).tok, "or") ==> ParseOr(After(ExprText(e) + s), depth, vf) == Ok(Parsed(e, After(s)))
    decreases e, 4
  {
    hide Lex, Fences, ParseUnary, ParseAnd, Parens;
    if e.Or? {
      var right := Parens(e.r.Or?, ExprText(e.r)) + s;
      TermReads(e.r, e.r.Or?, s, depth, vf);
      BlankFences(right);
      FollowsWord("or", " " + right);
      LexBlank(right);
      assert Fold("or") == "or";
      var more := " or " + right;
      JoinBlanks("or", right);
      Glue3(ExprText(e.l), " or ", Parens(e.r.Or?, ExprText(e.r)), s);
      OrReads(e.l, more, depth, vf);
    } else {
      BareParens(ExprText(e));
      TermReads(e, false, s, depth, vf);
    }
  }

  /** An operand of or, read whole by parseAnd. */
  lemma {:induction false} TermReads(e: Expr, wrap: bool, s: string, depth: nat, vf: bool)
    requires WellFormed(e, vf) && Follows(s) && (e.Or? ==> wrap) && !Keyword(After(s).tok, "and")
    requires depth + Nesting(e) + (if wrap then 1 else 0) <= MAX_DEPTH
    ensures Lex(Parens(wrap, ExprText(e)) + s).Ok?
    ensures ParseAnd(After(Parens(wrap, ExprText(e)) + s), depth, vf) == Ok(Parsed(e, After(s)))
    decreases e, if wrap then 8 else 3
  {
    hide WellFormed, Nesting, ExprText, Lex, Fences, Parens, ParseUnary;
    if wrap {
      WrappedReads(e, s, depth, vf);
    } else {
      BareParens(ExprText(e));
      AndReads(e, s, depth, vf);
    }
  }

  lemma {:induction false} WrappedReads(e: Expr, s: string, depth: nat, vf: bool)
    requires WellFormed(e, vf) && Follows(s) && depth + Nesting(e) + 1 <= MAX_DEPTH
    requires !Keyword(After(s).tok, "and")
    ensures Lex(Parens(true, ExprText(e)) + s).Ok?
    ensures ParseAnd(After(Parens(true, ExprText(e)) + s), depth, vf) == Ok(Parsed(e, After(s)))
    decreases e, 7
  {
    hide WellFormed, Nesting, ExprText, Lex, Fences, Parens, ParseUnary;
    OperandReads(e, true, s, depth, vf);
  }

  /** Parse(e.String()) == e, for every well-formed expression whose printed form nests at
      most MAX_DEPTH levels: same tree, same association, same literals. */
  lemma {:induction false} ParsePrinted(e: Expr)
    requires WellFormed(e, false) && Nesting(e) <= MAX_DEPTH
    ensures ParseFilter(ExprText(e)) == Ok(e)
  {
    hide WellFormed, Nesting, ExprText;
    assert ExprText(e) + "" == ExprText(e);
    OrReads(e, "", 0, false);
  }

  /** and binds tighter than or, a group is read first, and not negates a group: over any parts
      that are not themselves such chains, in their printed forms. */
  lemma {:induction false} Precedence(e: Expr, f: Expr, g: Expr)
    requires WellFormed(e, false) && WellFormed(f, false) && WellFormed(g, false) && !f.Or? && !g.Or? && !g.And?
    requires Nesting(e) < MAX_DEPTH - 1 && Nesting(f) < MAX_DEPTH && Nesting(g) <= MAX_DEPTH
    ensures ParseFilter(ExprText(e) + " or " + ExprText(f) + " and " + ExprText(g)) == Ok(Or(e, And(f, g)))
    ensures ParseFilter("(" + ExprText(e) + " or " + ExprText(f) + ") and " + ExprText(g)) == Ok(And(Or(e, f), g))
    ensures ParseFilter("not (" + ExprText(e) + ")") == Ok(Not(e))
  {
    hide ParseFilter;
    ChainTexts(e, f, g);
    ParsePrinted(Or(e, And(f, g)));
    ParsePrinted(And(Or(e, f), g));
    ParsePrinted(Not(e));
  }

  lemma {:induction false} ChainTexts(e: Expr, f: Expr, g: Expr)
    requires !f.Or? && !g.Or? && !g.And?
    ensures ExprText(Or(e, And(f, g))) == ExprText(e) + " or " + ExprText(f) + " and " + ExprText(g)
    ensures ExprText(And(Or(e, f), g)) == "(" + ExprText(e) + " or " + ExprText(f) + ") and " + ExprText(g)
    ensures ExprText(Not(e)) == "not (" + ExprText(e) + ")"
    ensures Nesting(Or(e, And(f, g))) <= Max(Nesting(e), Max(Nesting(f), Nesting(g))) && Nesting(And(Or(e, f), g)) <= Max(Nesting(g), Max(Nesting(e), Nesting(f)) + 1)
  {
    hide ExprText;
    PairTexts(f, g);
    PairTexts(e, And(f, g));
    PairTexts(e, f);
    PairTexts(Or(e, f), g);
    ChainGlue(ExprText(e), ExprText(f), ExprText(g));
  }

  lemma {:induction false} PairTexts(l: Expr, r: Expr)
    ensures ExprText(Or(l, r)) == ExprText(l) + " or " + Parens(r.Or?, ExprText(r))
    ensures ExprText(And(l, r)) == Parens(l.Or?, ExprText(l)) + " and " + Parens(r.Or? || r.And?, ExprText(r))
    ensures ExprText(Not(l)) == "not (" + ExprText(l) + ")"
  {
  }

  lemma ChainGlue(a: string, b: string, c: string)
    ensures a + " or " + (b + " and " + c) == a + " or " + b + " and " + c
    ensures "(" + (a + " or " + b) + ")" + " and " + c == "(" + a + " or " + b + ") and " + c
  {
    assert ")" + " and " == ") and ";
    assert "(" + (a + " or " + b) + ")" + " and " + c == "(" + a + " or " + b + (")" + " and ") + c;
  }

  /** The bound is exact: a well-formed expression that nests deeper does not reparse. */
  lemma {:induction false} ParsePrintedIff(e: Expr)
    ensures ParseFilter(ExprText(e)) == Ok(e) <==> WellFormed(e, false) && Nesting(e) <= MAX_DEPTH
  {
    hide WellFormed, Nesting, ExprText, ParseFilter;
    if WellFormed(e, false) && Nesting(e) <= MAX_DEPTH {
      ParsePrinted(e);
    } else {
      ParseFilterAccepts(ExprText(e));
    }
  }

  /** Whatever strict Parse accepts prints to a text that parses to the same tree, so printing
      is a fixpoint after one parse. */
  lemma {:induction false} PrintParsed(s: string)
    ensures var r := ParseFilter(s); r.Ok? ==> ParseFilter(ExprText(r.value)) == r
  {
    hide WellFormed, Nesting, ExprText, ParseFilter;
    ParseFilterAccepts(s);
    var r := ParseFilter(s);
    if r.Ok? {
      ParsePrinted(r.value);
    }
  }

  /** Two accepted filters with the same printed form are the same tree. */
  lemma {:induction false} PrintInjective(a: Expr, b: Expr)
    requires WellFormed(a, false) && Nesting(a) <= MAX_DEPTH
    requires WellFormed(b, false) && Nesting(b) <= MAX_DEPTH
    requires ExprText(a) == ExprText(b)
    ensures a == b
  {
    hide WellFormed, Nesting, ExprText, ParseFilter;
    ParsePrinted(a);
    ParsePrinted(b);
  }

  // ----- PATCH paths -----

  lemma {:induction false} PathTextParts(p: Path)
    ensures PathText(p) == if p.filter.None? then PlainText(p)
                           else AttrText(p) + "[" + ExprText(p.filter.value) + "]" + SubText(p)
  {
    hide ExprText;
    if p.filter.None? {
      assert AttrText(p) + "" == AttrText(p);
    } else {
      Glue2(AttrText(p) + "[", ExprText(p.filter.value), "]");
      Glue2(AttrText(p), "[", ExprText(p.filter.value) + "]");
      Glue2("[", ExprText(p.filter.value), "]");
    }
  }

  /** The sub-attribute printed after a value filter is read back into the path. */
  lemma {:induction false} SubTextReads(p: Path, q: Path)
    requires p.sub != "" ==> ValidAttrName(p.sub)
    requires q == p.(sub := "")
    ensures Lex(SubText(p)).Ok?
    ensures var r := ParseSubAttr(q, After(SubText(p))); r.Ok? && r.value.0 == p && r.value.1.tok == End
  {
    hide ValidAttrName;
    if p.sub != "" {
      ValidNameChars(p.sub);
      var w := "." + p.sub;
      assert w[1..] == p.sub && w[0] == '.';
      assert w + "" == w;
      LexDotted(p.sub);
    }
  }

  lemma {:induction false} LexDotted(n: string)
    requires n != "" && forall c <- n :: IsWordChar(c)
    ensures Lex("." + n) == Ok(Lexeme(Word("." + n), ""))
  {
    var w := "." + n;
    RunExact(w, "", IsWordChar);
    assert w + "" == w;
    assert w[..|w|] == w && w[|w|..] == "";
  }

  lemma {:induction false} FilteredPathReads(p: Path)
    requires WellFormedPath(p) && p.filter.Some?
    ensures ParsePatchPath(PathText(p)) == Ok(p)
  {
    hide Lex, PlainPath, ExprText, WellFormed, Nesting, ParseValueFilter, ParseSubAttr, AttrText, SubText, SplitAttrPath;
    var f := p.filter.value;
    var head := Path(p.urn, p.attr, "", None);
    var t := "[" + ExprText(f) + "]" + SubText(p);
    HeadPlain(p);
    assert PathText(p) == PlainText(head) + t by {
      PathTextParts(p);
      HeadText(p);
      Glue3(AttrText(p) + "[", ExprText(f), "]", SubText(p));
      Glue2(AttrText(p), "[", ExprText(f) + ("]" + SubText(p)));
      Glue3("[", ExprText(f), "]", SubText(p));
    }
    PlainTextWord(head);
    LexWord(PlainText(head), t);
    SplitPlainText(head);
    SubTextReads(p, head.(filter := Some(f)));
    ValueFilterReads(f, SubText(p), 0);
  }

  lemma {:induction false} HeadText(p: Path)
    ensures PlainText(Path(p.urn, p.attr, "", None)) == AttrText(p)
  {
    assert AttrText(p) + "" == AttrText(p);
  }

  lemma HeadPlain(p: Path)
    requires WellFormedPath(p)
    ensures PlainPath(Path(p.urn, p.attr, "", None)) && (p.sub != "" ==> ValidAttrName(p.sub))
  {
  }

  /** ParsePath(p.String()) == p, value filter and trailing sub-attribute included, exactly
      for the well-formed paths. */
  lemma {:induction false} ParsePrintedPath(p: Path)
    ensures ParsePatchPath(PathText(p)) == Ok(p) <==> WellFormedPath(p)
  {
    hide Lex, PlainPath, PathText, ParsePatchPath, WellFormed, Nesting;
    ParsePatchPathAccepts(PathText(p));
    if WellFormedPath(p) {
      if p.filter.Some? {
        FilteredPathReads(p);
      } else {
        BarePathReads(p);
      }
    }
  }

  lemma LexNothing()
    ensures Lex("") == Ok(Lexeme(End, ""))
  {
  }

  lemma {:induction false} BarePathReads(p: Path)
    requires PlainPath(p)
    ensures ParsePatchPath(PathText(p)) == Ok(p)
  {
    hide ValidAttrName, HasPrefix, PathText, AttrText, SubText, SplitAttrPath, Lex;
    LexNothing();
    PathTextParts(p);
    PlainTextWord(p);
    assert PlainText(p) + "" == PlainText(p);
    LexWord(PlainText(p), "");
    SplitPlainText(p);
  }

  /** Whatever strict ParsePath accepts survives printing and parsing again. */
  lemma {:induction false} PrintParsedPath(s: string)
    ensures var r := ParsePatchPath(s); r.Ok? ==> ParsePatchPath(PathText(r.value)) == r
  {
    hide PathText, ParsePatchPath, WellFormedPath;
    ParsePatchPathAccepts(s);
    var r := ParsePatchPath(s);
    if r.Ok? {
      ParsePrintedPath(r.value);
    }
  }
}
