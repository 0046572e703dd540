/** The filter and PATCH-path grammar of filter/parse.go as functions on the scanner's output:
    every function takes the token under the parser's nose with the text after it, and
    returns what it recognised with the same two things. */
module FilterGrammar {
  import opened Text
  import opened FilterAst
  import opened FilterScanner

  const MAX_DEPTH: nat := 64

  datatype Parsed = Parsed(e: Expr, next: Lexeme)

  /** An attribute path a word token can spell. */
  predicate PlainPath(p: Path) {
    && p.filter.None?
    && (p.urn != "" ==> HasPrefix(Fold(p.urn), "urn:") && forall c <- p.urn :: IsWordChar(c))
    && ValidAttrName(p.attr)
    && (p.sub != "" ==> ValidAttrName(p.sub))
  }

  /** A path that would be read as the keyword not at the head of an expression. */
  predicate SpellsNot(p: Path) {
    p.urn == "" && p.sub == "" && Fold(p.attr) == "not"
  }

  /** The expressions the grammar can express, outside and inside a value filter. */
  predicate WellFormed(e: Expr, inValueFilter: bool) {
    match e
    case Compare(p, _, v) => PlainPath(p) && !SpellsNot(p) && (v.Number? ==> ValidNumber(v.text))
    case Present(p) => PlainPath(p) && !SpellsNot(p)
    case And(l, r) => WellFormed(l, inValueFilter) && WellFormed(r, inValueFilter)
    case Or(l, r) => WellFormed(l, inValueFilter) && WellFormed(r, inValueFilter)
    case Not(x) => WellFormed(x, inValueFilter)
    case ValuePath(p, f) => !inValueFilter && PlainPath(p) && !SpellsNot(p) && WellFormed(f, true)
  }

  /** Nesting of e as an operand of and: an or needs its parentheses. */
  function TermNesting(e: Expr): nat {
    Nesting(e) + if e.Or? then 1 else 0
  }

  /** Nesting of e as the right operand of and. */
  function FactorNesting(e: Expr): nat {
    Nesting(e) + if e.Or? || e.And? then 1 else 0
  }

  /** What is left to read, the current token included. */
  function Size(st: Lexeme): nat {
    |st.rest| + if st.tok == End then 0 else 1
  }

  predicate Keyword(t: Token, word: string) {
    t.Word? && Fold(t.text) == word
  }

  function OpOf(text: string): Option<CompareOp> {
    var op := Fold(text);
    if op == "eq" then Some(Eq) else if op == "ne" then Some(Ne) else if op == "co" then Some(Co)
    else if op == "sw" then Some(Sw) else if op == "ew" then Some(Ew) else if op == "gt" then Some(Gt)
    else if op == "ge" then Some(Ge) else if op == "lt" then Some(Lt) else if op == "le" then Some(Le)
    else None
  }

  /** splitAttrPath: the last colon ends the URN, the first dot after it starts the sub-attribute. */
  function SplitAttrPath(word: string): (r: Result<Path>)
    ensures r.Err? ==> r.kind == InvalidFilter
  {
    var colon := LastIndex(word, ':');
    var urn := if colon.Some? then word[..colon.value] else "";
    var rest := if colon.Some? then word[colon.value + 1..] else word;
    if colon.Some? && !HasPrefix(Fold(urn), "urn:") then Err(InvalidFilter)
    else
      var dot := FirstIndex(rest, '.');
      var attr := if dot.Some? then rest[..dot.value] else rest;
      var sub := if dot.Some? then rest[dot.value + 1..] else "";
      if !ValidAttrName(attr) || (dot.Some? && !ValidAttrName(sub)) then Err(InvalidFilter)
      else Ok(Path(urn, attr, sub, None))
  }

  function LiteralOf(t: Token): (r: Result<Literal>)
    ensures r.Err? ==> r.kind == InvalidFilter
  {
    match t
    case StringLit(s) => Ok(Str(s))
    case NumberLit(s) => Ok(Number(s))
    case Word(s) =>
      if s == "true" then Ok(Bool(true)) else if s == "false" then Ok(Bool(false))
      else if s == "null" then Ok(Null) else Err(InvalidFilter)
    case _ => Err(InvalidFilter)
  }

  function ParseOr(st: Lexeme, depth: nat, vf: bool): (r: Result<Parsed>)
    requires depth <= MAX_DEPTH
    ensures r.Err? ==> r.kind == InvalidFilter
    ensures r.Ok? ==> Size(r.value.next) < Size(st)
    decreases Size(st), 5
  {
    var left :- ParseAnd(st, depth, vf);
    OrLoop(left.e, left.next, depth, vf)
  }

  /** parseOr's loop, with the left operand folded so far. */
  function OrLoop(left: Expr, st: Lexeme, depth: nat, vf: bool): (r: Result<Parsed>)
    requires depth <= MAX_DEPTH
    ensures r.Err? ==> r.kind == InvalidFilter
    ensures r.Ok? ==> Size(r.value.next) <= Size(st)
    decreases Size(st), 5
  {
    if !Keyword(st.tok, "or") then Ok(Parsed(left, st))
    else
      var st1 :- Lex(st.rest);
      var right :- ParseAnd(st1, depth, vf);
      OrLoop(Or(left, right.e), right.next, depth, vf)
  }

  function ParseAnd(st: Lexeme, depth: nat, vf: bool): (r: Result<Parsed>)
    requires depth <= MAX_DEPTH
    ensures r.Err? ==> r.kind == InvalidFilter
    ensures r.Ok? ==> Size(r.value.next) < Size(st)
    decreases Size(st), 4
  {
    var left :- ParseUnary(st, depth, vf);
    AndLoop(left.e, left.next, depth, vf)
  }

  /** parseAnd's loop, with the left operand folded so far. */
  function AndLoop(left: Expr, st: Lexeme, depth: nat, vf: bool): (r: Result<Parsed>)
    requires depth <= MAX_DEPTH
    ensures r.Err? ==> r.kind == InvalidFilter
    ensures r.Ok? ==> Size(r.value.next) <= Size(st)
    decreases Size(st), 4
  {
    if !Keyword(st.tok, "and") then Ok(Parsed(left, st))
    else
      var st1 :- Lex(st.rest);
      var right :- ParseUnary(st1, depth, vf);
      AndLoop(And(left, right.e), right.next, depth, vf)
  }

  function ParseUnary(st: Lexeme, depth: nat, vf: bool): (r: Result<Parsed>)
    requires depth <= MAX_DEPTH
    ensures r.Err? ==> r.kind == InvalidFilter
    ensures r.Ok? ==> Size(r.value.next) < Size(st)
    decreases Size(st), 3
  {
    if !Keyword(st.tok, "not") then ParsePrimary(st, depth, vf)
    else
      var st1 :- Lex(st.rest);
      if st1.tok != LParen || depth == MAX_DEPTH then Err(InvalidFilter)
      else
        var x :- ParsePrimary(st1, depth + 1, vf);
        Ok(Parsed(Not(x.e), x.next))
  }

  function ParsePrimary(st: Lexeme, depth: nat, vf: bool): (r: Result<Parsed>)
    requires depth <= MAX_DEPTH
    ensures r.Err? ==> r.kind == InvalidFilter
    ensures r.Ok? ==> Size(r.value.next) < Size(st)
    decreases Size(st), 2
  {
    if st.tok == LParen then ParseGroup(st, depth, vf)
    else if st.tok.Word? then ParseAttrExpr(st, depth, vf)
    else Err(InvalidFilter)
  }

  function ParseGroup(st: Lexeme, depth: nat, vf: bool): (r: Result<Parsed>)
    requires depth <= MAX_DEPTH && st.tok == LParen
    ensures r.Err? ==> r.kind == InvalidFilter
    ensures r.Ok? ==> Size(r.value.next) < Size(st)
    decreases Size(st), 1
  {
    if depth == MAX_DEPTH then Err(InvalidFilter)
    else
      var st1 :- Lex(st.rest);
      var x :- ParseOr(st1, depth + 1, vf);
      if x.next.tok != RParen then Err(InvalidFilter)
      else
        var st2 :- Lex(x.next.rest);
        Ok(Parsed(x.e, st2))
  }

  function ParseAttrExpr(st: Lexeme, depth: nat, vf: bool): (r: Result<Parsed>)
    requires depth <= MAX_DEPTH && st.tok.Word?
    ensures r.Err? ==> r.kind == InvalidFilter
    ensures r.Ok? ==> Size(r.value.next) < Size(st)
    decreases Size(st), 1
  {
    var path :- SplitAttrPath(st.tok.text);
    var st1 :- Lex(st.rest);
    if st1.tok == LBracket then
      if vf then Err(InvalidFilter)
      else
        var f :- ParseValueFilter(st1, depth);
        Ok(Parsed(ValuePath(path, f.e), f.next))
    else if !st1.tok.Word? then Err(InvalidFilter)
    else if Keyword(st1.tok, "pr") then
      var st2 :- Lex(st1.rest);
      Ok(Parsed(Present(path), st2))
    else if OpOf(st1.tok.text).None? then Err(InvalidFilter)
    else
      var st2 :- Lex(st1.rest);
      var v :- LiteralOf(st2.tok);
      var st3 :- Lex(st2.rest);
      Ok(Parsed(Compare(path, OpOf(st1.tok.text).value, v), st3))
  }

  function ParseValueFilter(st: Lexeme, depth: nat): (r: Result<Parsed>)
    requires depth <= MAX_DEPTH && st.tok == LBracket
    ensures r.Err? ==> r.kind == InvalidFilter
    ensures r.Ok? ==> Size(r.value.next) < Size(st)
    decreases Size(st), 0
  {
    var st1 :- Lex(st.rest);
    var f :- ParseOr(st1, depth, true);
    if f.next.tok != RBracket then Err(InvalidFilter)
    else
      var st2 :- Lex(f.next.rest);
      Ok(Parsed(f.e, st2))
  }

  /** Parse: a whole filter and nothing after it. */
  function ParseFilter(s: string): (r: Result<Expr>)
    ensures r.Err? ==> r.kind == InvalidFilter
  {
    var st :- Lex(s);
    var p :- ParseOr(st, 0, false);
    if p.next.tok != End then Err(InvalidFilter) else Ok(p.e)
  }

  /** The optional sub-attribute after a value filter. */
  function ParseSubAttr(path: Path, st: Lexeme): (r: Result<(Path, Lexeme)>) {
    if !st.tok.Word? then Ok((path, st))
    else if st.tok.text == "" || st.tok.text[0] != '.' || !ValidAttrName(st.tok.text[1..]) then
      Err(InvalidPath)
    else
      var st1 := Lex(st.rest);
      if st1.Err? then Err(InvalidPath) else Ok((path.(sub := st.tok.text[1..]), st1.value))
  }

  /** What may follow the attribute of a PATCH path. */
  function ParsePathTail(path: Path, st: Lexeme): Result<(Path, Lexeme)> {
    if st.tok != LBracket then Ok((path, st))
    else if path.sub != "" then Err(InvalidPath)
    else
      var f := ParseValueFilter(st, 0);
      if f.Err? then Err(InvalidPath)
      else ParseSubAttr(path.(filter := Some(f.value.e)), f.value.next)
  }

  /** ParsePath, with every failure reclassified as invalidPath. */
  function ParsePatchPath(s: string): (r: Result<Path>)
    ensures r.Err? ==> r.kind == InvalidPath
  {
    var st := Lex(s);
    if st.Err? || !st.value.tok.Word? then Err(InvalidPath)
    else
      var path := SplitAttrPath(st.value.tok.text);
      var st1 := Lex(st.value.rest);
      if path.Err? || st1.Err? then Err(InvalidPath)
      else
        var t := ParsePathTail(path.value, st1.value);
        if t.Err? || t.value.1.tok != End then Err(InvalidPath) else Ok(t.value.0)
  }
}
