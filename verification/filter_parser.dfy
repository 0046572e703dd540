/** The recursive-descent parser of filter/parse.go: one token of lookahead, a depth counter and
    the in-value-filter flag, all moved in place. Each method is proved against the grammar
    function of the same name. */
module FilterParser {
  import opened Text
  import opened FilterAst
  import opened FilterScanner
  import G = FilterGrammar

  class Parser {
    const scanner: Scanner
    var tok: Token
    var depth: nat
    var inValueFilter: bool

    ghost function State(): Lexeme
      requires scanner.Valid()
      reads this, scanner
    {
      Lexeme(tok, scanner.Rest())
    }

    /** The call recognised what the grammar recognises, and put depth and flag back. */
    ghost predicate Agrees(r: Result<Expr>, spec: Result<G.Parsed>, d: nat, vf: bool)
      reads this, scanner
    {
      && scanner.Valid()
      && d <= depth
      && if spec.Ok? then r == Ok(spec.value.e) && State() == spec.value.next && depth == d && inValueFilter == vf
         else r == Err(spec.kind)
    }

    /** newParser without its first advance. */
    constructor (s: string)
      ensures scanner.Valid() && scanner.Rest() == s && fresh(scanner)
      ensures depth == 0 && !inValueFilter
    {
      scanner := new Scanner(s);
      tok, depth, inValueFilter := End, 0, false;
    }

    method Advance() returns (r: Result<Token>)
      requires scanner.Valid()
      modifies this`tok, scanner
      ensures scanner.Valid()
      ensures var l := Lex(old(scanner.Rest()));
              if l.Ok? then r.Ok? && State() == l.value else r == Err(l.kind)
    {
      r := scanner.Next();
      if r.Ok? { tok := r.value; }
    }

    method ParseOr() returns (r: Result<Expr>)
      requires scanner.Valid() && depth <= G.MAX_DEPTH
      modifies this, scanner
      ensures Agrees(r, G.ParseOr(old(State()), old(depth), old(inValueFilter)), old(depth), old(inValueFilter))
      decreases G.Size(State()), 5
    {
      hide G.ParseAnd, Lex;
      ghost var d, vf, spec := depth, inValueFilter, G.ParseOr(State(), depth, inValueFilter);
      ghost var size := G.Size(State());
      r := ParseAnd();
      while r.Ok? && G.Keyword(tok, "or")
        invariant scanner.Valid() && d <= depth
        invariant r.Ok? ==> depth == d && inValueFilter == vf && G.Size(State()) < size
        invariant r.Ok? ==> spec == G.OrLoop(r.value, State(), d, vf)
        invariant r.Err? ==> spec == Err(r.kind)
        decreases r.Ok?, if r.Ok? then G.Size(State()) else 0
      {
        var left := r.value;
        var next := Advance();
        if next.Err? { return Err(next.kind); }
        r := ParseAnd();
        if r.Ok? { r := Ok(Or(left, r.value)); }
      }
    }

    method ParseAnd() returns (r: Result<Expr>)
      requires scanner.Valid() && depth <= G.MAX_DEPTH
      modifies this, scanner
      ensures Agrees(r, G.ParseAnd(old(State()), old(depth), old(inValueFilter)), old(depth), old(inValueFilter))
      decreases G.Size(State()), 4
    {
      hide G.ParseUnary, Lex;
      ghost var d, vf, spec := depth, inValueFilter, G.ParseAnd(State(), depth, inValueFilter);
      ghost var size := G.Size(State());
      r := ParseUnary();
      while r.Ok? && G.Keyword(tok, "and")
        invariant scanner.Valid() && d <= depth
        invariant r.Ok? ==> depth == d && inValueFilter == vf && G.Size(State()) < size
        invariant r.Ok? ==> spec == G.AndLoop(r.value, State(), d, vf)
        invariant r.Err? ==> spec == Err(r.kind)
        decreases r.Ok?, if r.Ok? then G.Size(State()) else 0
      {
        var left := r.value;
        var next := Advance();
        if next.Err? { return Err(next.kind); }
        r := ParseUnary();
        if r.Ok? { r := Ok(And(left, r.value)); }
      }
    }

    method ParseUnary() returns (r: Result<Expr>)
      requires scanner.Valid() && depth <= G.MAX_DEPTH
      modifies this, scanner
      ensures Agrees(r, G.ParseUnary(old(State()), old(depth), old(inValueFilter)), old(depth), old(inValueFilter))
      decreases G.Size(State()), 3
    {
      hide G.ParsePrimary, Lex;
      if !G.Keyword(tok, "not") {
        r := ParsePrimary();
        return;
      }
      var next := Advance();
      if next.Err? { return Err(next.kind); }
      if tok != LParen { return Err(InvalidFilter); }
      var entered := Enter();
      if !entered { return Err(InvalidFilter); }
      r := ParsePrimary();
      Leave();
      if r.Ok? { r := Ok(Not(r.value)); }
    }

    /** enter: one more level of grouping, refused past the bound. */
    method Enter() returns (ok: bool)
      requires depth <= G.MAX_DEPTH
      modifies this`depth
      ensures depth == old(depth) + 1 && ok == (old(depth) < G.MAX_DEPTH)
    {
      depth := depth + 1;
      ok := depth <= G.MAX_DEPTH;
    }

    method Leave()
      requires 0 < depth
      modifies this`depth
      ensures depth == old(depth) - 1
    {
      depth := depth - 1;
    }

    method ParsePrimary() returns (r: Result<Expr>)
      requires scanner.Valid() && depth <= G.MAX_DEPTH
      modifies this, scanner
      ensures Agrees(r, G.ParsePrimary(old(State()), old(depth), old(inValueFilter)), old(depth), old(inValueFilter))
      decreases G.Size(State()), 2
    {
      hide G.ParseGroup, G.ParseAttrExpr;
      match tok
      case LParen => r := ParseGroup();
      case Word(_) => r := ParseAttrExpr();
      case _ => r := Err(InvalidFilter);
    }

    method ParseGroup() returns (r: Result<Expr>)
      requires scanner.Valid() && depth <= G.MAX_DEPTH && tok == LParen
      modifies this, scanner
      ensures Agrees(r, G.ParseGroup(old(State()), old(depth), old(inValueFilter)), old(depth), old(inValueFilter))
      decreases G.Size(State()), 1
    {
      hide G.ParseOr, Lex;
      var entered := Enter();
      if !entered { return Err(InvalidFilter); }
      var next := Advance();
      if next.Err? {
        Leave();
        return Err(next.kind);
      }
      r := ParseOr();
      if r.Ok? && tok != RParen { r := Err(InvalidFilter); }
      if r.Ok? {
        next := Advance();
        if next.Err? { r := Err(next.kind); }
      }
      Leave();
    }

    method ParseAttrExpr() returns (r: Result<Expr>)
      requires scanner.Valid() && depth <= G.MAX_DEPTH && tok.Word?
      modifies this, scanner
      ensures Agrees(r, G.ParseAttrExpr(old(State()), old(depth), old(inValueFilter)), old(depth), old(inValueFilter))
      decreases G.Size(State()), 1
    {
      hide G.ParseValueFilter, Lex, G.SplitAttrPath, G.OpOf;
      var path := G.SplitAttrPath(tok.text);
      if path.Err? { return Err(path.kind); }
      var next := Advance();
      if next.Err? { return Err(next.kind); }
      if tok == LBracket {
        if inValueFilter { return Err(InvalidFilter); }
        r := ParseValueFilter();
        if r.Ok? { r := Ok(ValuePath(path.value, r.value)); }
      } else if !tok.Word? {
        r := Err(InvalidFilter);
      } else {
        r := ParseOperator(path.value);
      }
    }

    /** The end of parseAttrExpr: pr, or a comparison operator and its literal. */
    method ParseOperator(path: Path) returns (r: Result<Expr>)
      requires scanner.Valid() && tok.Word?
      modifies this`tok, scanner
      ensures scanner.Valid()
      ensures var spec := OperatorSpec(path, old(State()));
              if spec.Ok? then r == Ok(spec.value.e) && State() == spec.value.next else r == Err(spec.kind)
    {
      hide Lex, G.OpOf;
      var op := tok.text;
      if !G.Keyword(tok, "pr") && G.OpOf(op).None? { return Err(InvalidFilter); }
      var present := G.Keyword(tok, "pr");
      var next := Advance();
      if next.Err? { return Err(next.kind); }
      if present { return Ok(Present(path)); }
      var lit := G.LiteralOf(tok);
      if lit.Err? { return Err(lit.kind); }
      next := Advance();
      r := if next.Err? then Err(next.kind) else Ok(Compare(path, G.OpOf(op).value, lit.value));
    }

    /** parseValueFilter: the flag is up between the brackets and back to what it was after. */
    method ParseValueFilter() returns (r: Result<Expr>)
      requires scanner.Valid() && depth <= G.MAX_DEPTH && tok == LBracket
      modifies this, scanner
      ensures Agrees(r, G.ParseValueFilter(old(State()), old(depth)), old(depth), old(inValueFilter))
      decreases G.Size(State()), 0
    {
      hide G.ParseOr, Lex;
      var next := Advance();
      if next.Err? { return Err(next.kind); }
      var outer := inValueFilter;
      inValueFilter := true;
      r := ParseOr();
      inValueFilter := outer;
      if r.Err? { return; }
      if tok != RBracket { return Err(InvalidFilter); }
      next := Advance();
      if next.Err? { r := Err(next.kind); }
    }
  }

  /** The part of the grammar's ParseAttrExpr after the attribute path, operator forms only. */
  ghost function OperatorSpec(path: Path, st: Lexeme): Result<G.Parsed>
    requires st.tok.Word?
  {
    if G.Keyword(st.tok, "pr") then
      var st2 :- Lex(st.rest);
      Ok(G.Parsed(Present(path), st2))
    else if G.OpOf(st.tok.text).None? then Err(InvalidFilter)
    else
      var st2 :- Lex(st.rest);
      var v :- G.LiteralOf(st2.tok);
      var st3 :- Lex(st2.rest);
      Ok(G.Parsed(Compare(path, G.OpOf(st.tok.text).value, v), st3))
  }

  /** Parse. */
  method Parse(s: string) returns (r: Result<Expr>)
    ensures r == G.ParseFilter(s)
  {
    hide G.ParseOr, Lex;
    var p := new Parser(s);
    var first := p.Advance();
    if first.Err? { return Err(first.kind); }
    r := p.ParseOr();
    if r.Ok? && p.tok != End { r := Err(InvalidFilter); }
  }

  /** ParsePath. */
  method ParsePath(s: string) returns (r: Result<Path>)
    ensures r == G.ParsePatchPath(s)
  {
    hide G.ParseValueFilter, Lex, G.SplitAttrPath, ValidAttrName;
    var p := new Parser(s);
    var next := p.Advance();
    if next.Err? || !p.tok.Word? { return Err(InvalidPath); }
    var path := G.SplitAttrPath(p.tok.text);
    if path.Err? { return Err(InvalidPath); }
    next := p.Advance();
    if next.Err? { return Err(InvalidPath); }
    r := path;
    if p.tok == LBracket {
      if path.value.sub != "" { return Err(InvalidPath); }
      var f := p.ParseValueFilter();
      if f.Err? { return Err(InvalidPath); }
      r := Ok(path.value.(filter := Some(f.value)));
      if p.tok.Word? {
        var word := p.tok.text;
        if word == "" || word[0] != '.' || !ValidAttrName(word[1..]) { return Err(InvalidPath); }
        r := Ok(r.value.(sub := word[1..]));
        next := p.Advance();
        if next.Err? { return Err(InvalidPath); }
      }
    }
    if p.tok != End { r := Err(InvalidPath); }
  }
}
