/** The filter grammar of section 3.4.2.2 of RFC 7644 as derivation trees over tokens, defined apart
    from the parser: a text is accepted exactly when a tree of at most 64 levels spells its tokens,
    and what it is parsed to is what that tree means. */
module FilterAbnf {
  import opened Text
  import opened FilterAst
  import opened FilterScanner
  import opened FilterGrammar
  import opened FilterLexing
  import opened FilterAccepts
  import opened FilterRoundTrip

  /** A filter as it stands in the text: its groups are kept, and so are its words, in the case
      they are written. */
  datatype Tree =
    | Test(path: Path, opWord: string, op: CompareOp, lit: Literal)
    | Has(path: Path, prWord: string)
    | Within(path: Path, inner: Tree)
    | Group(inner: Tree)
    | Negated(notWord: string, inner: Tree)
    | Both(l: Tree, andWord: string, r: Tree)
    | Either(l: Tree, orWord: string, r: Tree)

  predicate PathWord(p: Path) {
    PlainPath(p) && !SpellsNot(p)
  }

  /** The trees of the grammar: and binds tighter than or, both group to the left, not takes a
      group, value filters hold no value filters. Words count in any case. */
  predicate Derives(t: Tree, vf: bool) {
    match t
    case Test(p, w, op, v) => PathWord(p) && Fold(w) == OpText(op) && (v.Number? ==> ValidNumber(v.text))
    case Has(p, w) => PathWord(p) && Fold(w) == "pr"
    case Within(p, inner) => !vf && PathWord(p) && Derives(inner, true)
    case Group(inner) => Derives(inner, vf)
    case Negated(w, inner) => Fold(w) == "not" && Derives(inner, vf)
    case Both(l, w, r) => Fold(w) == "and" && Derives(l, vf) && Derives(r, vf) && !l.Either? && !r.Either? && !r.Both?
    case Either(l, w, r) => Fold(w) == "or" && Derives(l, vf) && Derives(r, vf) && !r.Either?
  }

  function LiteralToken(v: Literal): Token {
    match v
    case Null => Word("null")
    case Bool(b) => Word(if b then "true" else "false")
    case Number(s) => NumberLit(s)
    case Str(s) => StringLit(s)
  }

  /** The tokens a tree spells. */
  function Spelled(t: Tree): seq<Token> {
    match t
    case Test(p, w, _, v) => [Word(PlainText(p)), Word(w), LiteralToken(v)]
    case Has(p, w) => [Word(PlainText(p)), Word(w)]
    case Within(p, inner) => [Word(PlainText(p)), LBracket] + Spelled(inner) + [RBracket]
    case Group(inner) => [LParen] + Spelled(inner) + [RParen]
    case Negated(w, inner) => [Word(w), LParen] + Spelled(inner) + [RParen]
    case Both(l, w, r) => Spelled(l) + [Word(w)] + Spelled(r)
    case Either(l, w, r) => Spelled(l) + [Word(w)] + Spelled(r)
  }

  function Meaning(t: Tree): Expr {
    match t
    case Test(p, _, op, v) => Compare(p, op, v)
    case Has(p, _) => Present(p)
    case Within(p, inner) => ValuePath(p, Meaning(inner))
    case Group(inner) => Meaning(inner)
    case Negated(_, inner) => Not(Meaning(inner))
    case Both(l, _, r) => And(Meaning(l), Meaning(r))
    case Either(l, _, r) => Or(Meaning(l), Meaning(r))
  }

  /** A group takes a level, and one after not takes two. */
  function Height(t: Tree): nat {
    match t
    case Test(_, _, _, _) => 0
    case Has(_, _) => 0
    case Within(_, inner) => Height(inner)
    case Group(inner) => Height(inner) + 1
    case Negated(_, inner) => Height(inner) + 2
    case Both(l, _, r) => Max(Height(l), Height(r))
    case Either(l, _, r) => Max(Height(l), Height(r))
  }

  // ----- Scanning -----

  /** All tokens of a text. */
  function Scan(s: string): (r: Result<seq<Token>>)
    ensures r.Err? ==> r.kind == InvalidFilter
    decreases |s|
  {
    var l :- Lex(s);
    if l.tok == End then Ok([])
    else
      var more :- Scan(l.rest);
      Ok([l.tok] + more)
  }

  /** From a on, the tokens are ts and then b is reached. */
  predicate Steps(a: Lexeme, ts: seq<Token>, b: Lexeme)
    decreases |ts|
  {
    if ts == [] then a == b
    else a.tok == ts[0] && a.tok != End && Lex(a.rest).Ok? && Steps(Lex(a.rest).value, ts[1..], b)
  }

  lemma {:induction false} StepsJoin(a: Lexeme, xs: seq<Token>, b: Lexeme, ys: seq<Token>, c: Lexeme)
    requires Steps(a, xs, b) && Steps(b, ys, c)
    ensures Steps(a, xs + ys, c)
    decreases |xs|
  {
    hide Lex;
    if xs == [] {
      assert xs + ys == ys;
    } else {
      assert (xs + ys)[1..] == xs[1..] + ys;
      StepsJoin(Lex(a.rest).value, xs[1..], b, ys, c);
    }
  }

  lemma {:induction false} StepsSplit(a: Lexeme, xs: seq<Token>, ys: seq<Token>, c: Lexeme) returns (b: Lexeme)
    requires Steps(a, xs + ys, c)
    ensures Steps(a, xs, b) && Steps(b, ys, c)
    decreases |xs|
  {
    hide Lex;
    if xs == [] {
      assert xs + ys == ys;
      b := a;
    } else {
      assert (xs + ys)[1..] == xs[1..] + ys;
      b := StepsSplit(Lex(a.rest).value, xs[1..], ys, c);
    }
  }

  lemma StepsNone(a: Lexeme)
    ensures Steps(a, [], a)
  {
  }

  lemma StepsOne(a: Lexeme)
    requires a.tok != End && Lex(a.rest).Ok?
    ensures Steps(a, [a.tok], Lex(a.rest).value)
  {
    hide Lex;
    assert [a.tok][1..] == [];
  }

  lemma StepsFirst(a: Lexeme, x: Token, ys: seq<Token>, c: Lexeme)
    requires Steps(a, [x] + ys, c)
    ensures a.tok == x && a.tok != End && Lex(a.rest).Ok? && Steps(Lex(a.rest).value, ys, c)
  {
    hide Lex;
    assert ([x] + ys)[1..] == ys;
  }

  /** The whole text is scanned by stepping to its end. */
  lemma {:induction false} ScanSteps(s: string) returns (end: Lexeme)
    requires Scan(s).Ok?
    ensures Lex(s).Ok? && Steps(Lex(s).value, Scan(s).value, end) && end.tok == End
    decreases |s|
  {
    hide Lex;
    end := Lex(s).value;
    if end.tok != End {
      var l := end;
      end := ScanSteps(l.rest);
      assert ([l.tok] + Scan(l.rest).value)[1..] == Scan(l.rest).value;
    }
  }

  lemma {:induction false} StepsScan(s: string, ts: seq<Token>, end: Lexeme)
    requires Lex(s).Ok? && Steps(Lex(s).value, ts, end) && end.tok == End
    ensures Scan(s) == Ok(ts)
    decreases |s|
  {
    hide Lex;
    if ts != [] {
      StepsScan(Lex(s).value.rest, ts[1..], end);
      assert [ts[0]] + ts[1..] == ts;
    }
  }

  // ----- Words -----

  lemma {:induction false} OperatorWord(w: string, op: CompareOp)
    ensures OpOf(w) == Some(op) <==> Fold(w) == OpText(op)
    ensures Fold(w) == OpText(op) ==> Fold(w) != "pr"
  {
    hide Fold;
    var texts := ["eq", "ne", "co", "sw", "ew", "gt", "ge", "lt", "le", "pr"];
    assert forall i, j :: 0 <= i < j < 10 ==> texts[i][0] != texts[j][0] || texts[i][1] != texts[j][1];
  }

  lemma {:induction false} LiteralSpelled(t: Token, v: Literal)
    ensures LiteralOf(t) == Ok(v) <==> t == LiteralToken(v)
  {
    assert |"true"| == 4 && |"false"| == 5 && |"null"| == 4 && "true"[0] == 't' && "null"[0] == 'n';
  }

  /** A path's word divides at its last colon and the first dot after it, and in no other way. */
  lemma {:induction false} SplitIff(w: string, p: Path)
    requires forall c <- w :: IsWordChar(c)
    ensures SplitAttrPath(w) == Ok(p) <==> PlainPath(p) && PlainText(p) == w
  {
    hide PlainPath, PlainText;
    if SplitAttrPath(w) == Ok(p) {
      SplitAccepts(w);
      SplitText(w);
    } else if PlainPath(p) && PlainText(p) == w {
      SplitPlainText(p);
    }
  }

  lemma {:induction false} SplitText(w: string)
    ensures var r := SplitAttrPath(w); r.Ok? ==> PlainText(r.value) == w
  {
    hide ValidAttrName, Fold, HasPrefix, FirstIndex, LastIndex, AttrText, SubText, PlainText;
    var r := SplitAttrPath(w);
    if r.Ok? {
      var colon := LastIndex(w, ':');
      var rest := if colon.Some? then w[colon.value + 1..] else w;
      var dot := FirstIndex(rest, '.');
      NoName();
      NoUrn();
      NameText(r.value, rest, if dot.Some? then dot.value else |rest|);
      HeadJoins(r.value, rest);
      if colon.Some? {
        CutAt(w, colon.value);
      }
    }
  }

  lemma CutAt(w: string, i: nat)
    requires i < |w| && w[i] == ':'
    ensures w[..i] + ":" + w[i + 1..] == w
  {
  }

  lemma NameText(p: Path, rest: string, dot: nat)
    requires dot <= |rest| && p.attr == rest[..dot]
    requires if dot == |rest| then p.sub == "" else rest[dot] == '.' && p.sub == rest[dot + 1..] && p.sub != ""
    ensures p.attr + SubText(p) == rest
  {
    assert dot < |rest| ==> rest == rest[..dot] + ("." + rest[dot + 1..]);
  }

  lemma HeadJoins(p: Path, rest: string)
    requires p.attr + SubText(p) == rest
    ensures PlainText(p) == if p.urn == "" then rest else p.urn + ":" + rest
  {
    hide SubText;
    Glue2(p.urn + ":", p.attr, SubText(p));
    assert p.urn == "" ==> AttrText(p) == p.attr;
  }

  lemma NoName()
    ensures !ValidAttrName("")
  {
  }

  lemma NoUrn()
    ensures !HasPrefix(Fold(""), "urn:")
  {
  }

  // ----- What is accepted has a derivation -----

  lemma {:induction false} OrDerives(st: Lexeme, d: nat, vf: bool) returns (t: Tree)
    requires d <= MAX_DEPTH && Scanned(st.tok) && ParseOr(st, d, vf).Ok?
    ensures var r := ParseOr(st, d, vf).value;
            Derives(t, vf) && Meaning(t) == r.e && d + Height(t) <= MAX_DEPTH && Steps(st, Spelled(t), r.next) && Scanned(r.next.tok)
    decreases Size(st), 5
  {
    hide Lex, Steps, Scanned, ParseAnd, OrLoop, Keyword;
    var left := ParseAnd(st, d, vf).value;
    var l := AndDerives(st, d, vf);
    t := OrLoopDerives(st, l, left.next, d, vf);
  }

  /** The loop continues a tree whose tokens are read already. */
  lemma {:induction false} OrLoopDerives(start: Lexeme, l: Tree, st: Lexeme, d: nat, vf: bool) returns (t: Tree)
    requires d <= MAX_DEPTH && Scanned(st.tok) && OrLoop(Meaning(l), st, d, vf).Ok?
    requires Derives(l, vf) && d + Height(l) <= MAX_DEPTH && Steps(start, Spelled(l), st)
    ensures var r := OrLoop(Meaning(l), st, d, vf).value;
            Derives(t, vf) && Meaning(t) == r.e && d + Height(t) <= MAX_DEPTH && Steps(start, Spelled(t), r.next) && Scanned(r.next.tok)
    decreases Size(st), 5
  {
    hide Lex, Steps, Scanned, ParseAnd, Fold;
    t := l;
    if Keyword(st.tok, "or") {
      var st1 := Lex(st.rest).value;
      LexScanned(st.rest);
      var r := AndDerives(st1, d, vf);
      var next := ParseAnd(st1, d, vf).value.next;
      WordBetween(start, Spelled(l), st, Spelled(r), next);
      t := OrLoopDerives(start, Either(l, st.tok.text, r), next, d, vf);
    }
  }

  lemma {:induction false} WordBetween(a: Lexeme, xs: seq<Token>, b: Lexeme, ys: seq<Token>, c: Lexeme)
    requires Steps(a, xs, b) && b.tok != End && Lex(b.rest).Ok? && Steps(Lex(b.rest).value, ys, c)
    ensures Steps(a, xs + [b.tok] + ys, c)
  {
    hide Lex, Steps;
    StepsOne(b);
    StepsJoin(a, xs, b, [b.tok], Lex(b.rest).value);
    StepsJoin(a, xs + [b.tok], Lex(b.rest).value, ys, c);
  }

  lemma {:induction false} AndDerives(st: Lexeme, d: nat, vf: bool) returns (t: Tree)
    requires d <= MAX_DEPTH && Scanned(st.tok) && ParseAnd(st, d, vf).Ok?
    ensures var r := ParseAnd(st, d, vf).value;
            Derives(t, vf) && !t.Either? && Meaning(t) == r.e && d + Height(t) <= MAX_DEPTH && Steps(st, Spelled(t), r.next) && Scanned(r.next.tok)
    decreases Size(st), 4
  {
    hide Lex, Steps, Scanned, ParseUnary, AndLoop, Keyword;
    var left := ParseUnary(st, d, vf).value;
    var l := UnaryDerives(st, d, vf);
    t := AndLoopDerives(st, l, left.next, d, vf);
  }

  lemma {:induction false} AndLoopDerives(start: Lexeme, l: Tree, st: Lexeme, d: nat, vf: bool) returns (t: Tree)
    requires d <= MAX_DEPTH && Scanned(st.tok) && AndLoop(Meaning(l), st, d, vf).Ok?
    requires Derives(l, vf) && !l.Either? && d + Height(l) <= MAX_DEPTH && Steps(start, Spelled(l), st)
    ensures var r := AndLoop(Meaning(l), st, d, vf).value;
            Derives(t, vf) && !t.Either? && Meaning(t) == r.e && d + Height(t) <= MAX_DEPTH && Steps(start, Spelled(t), r.next) && Scanned(r.next.tok)
    decreases Size(st), 4
  {
    hide Lex, Steps, Scanned, ParseUnary, Fold;
    t := l;
    if Keyword(st.tok, "and") {
      var st1 := Lex(st.rest).value;
      LexScanned(st.rest);
      var r := UnaryDerives(st1, d, vf);
      var next := ParseUnary(st1, d, vf).value.next;
      WordBetween(start, Spelled(l), st, Spelled(r), next);
      t := AndLoopDerives(start, Both(l, st.tok.text, r), next, d, vf);
    }
  }

  lemma {:induction false} UnaryDerives(st: Lexeme, d: nat, vf: bool) returns (t: Tree)
    requires d <= MAX_DEPTH && Scanned(st.tok) && ParseUnary(st, d, vf).Ok?
    ensures var r := ParseUnary(st, d, vf).value;
            Derives(t, vf) && !t.Either? && !t.Both? && Meaning(t) == r.e && d + Height(t) <= MAX_DEPTH && Steps(st, Spelled(t), r.next) && Scanned(r.next.tok)
    decreases Size(st), 3
  {
    hide Lex, Steps, Scanned, ParseGroup, ParseAttrExpr, Fold;
    if Keyword(st.tok, "not") {
      var st1 := Lex(st.rest).value;
      var inner := GroupDerives(st1, d + 1, vf);
      t := Negated(st.tok.text, inner);
      StepsNone(st);
      WordBetween(st, [], st, [LParen] + Spelled(inner) + [RParen], ParseUnary(st, d, vf).value.next);
      assert [] + [st.tok] + ([LParen] + Spelled(inner) + [RParen]) == Spelled(t);
    } else if st.tok == LParen {
      var inner := GroupDerives(st, d, vf);
      t := Group(inner);
    } else {
      t := AttrExprDerives(st, d, vf);
    }
  }

  lemma {:induction false} GroupDerives(st: Lexeme, d: nat, vf: bool) returns (inner: Tree)
    requires d <= MAX_DEPTH && st.tok == LParen && ParseGroup(st, d, vf).Ok?
    ensures var r := ParseGroup(st, d, vf).value;
            Derives(inner, vf) && Meaning(inner) == r.e && d + Height(inner) + 1 <= MAX_DEPTH && Steps(st, [LParen] + Spelled(inner) + [RParen], r.next) && Scanned(r.next.tok)
    decreases Size(st), 1
  {
    hide Lex, Steps, Scanned, ParseOr, Derives, Spelled;
    var st1 := Lex(st.rest).value;
    LexScanned(st.rest);
    inner := OrDerives(st1, d + 1, vf);
    var close := ParseOr(st1, d + 1, vf).value.next;
    LexScanned(close.rest);
    Enclosed(st, Spelled(inner), close);
  }

  lemma {:induction false} Enclosed(open: Lexeme, ts: seq<Token>, close: Lexeme)
    requires open.tok != End && Lex(open.rest).Ok? && Steps(Lex(open.rest).value, ts, close) && close.tok != End && Lex(close.rest).Ok?
    ensures Steps(open, [open.tok] + ts + [close.tok], Lex(close.rest).value)
  {
    hide Lex, Steps;
    StepsOne(open);
    StepsJoin(open, [open.tok], Lex(open.rest).value, ts, close);
    StepsOne(close);
    StepsJoin(open, [open.tok] + ts, close, [close.tok], Lex(close.rest).value);
  }

  lemma {:induction false} AttrExprDerives(st: Lexeme, d: nat, vf: bool) returns (t: Tree)
    requires d <= MAX_DEPTH && Scanned(st.tok) && st.tok.Word? && !Keyword(st.tok, "not") && ParseAttrExpr(st, d, vf).Ok?
    ensures var r := ParseAttrExpr(st, d, vf).value;
            Derives(t, vf) && !t.Either? && !t.Both? && Meaning(t) == r.e && d + Height(t) <= MAX_DEPTH && Steps(st, Spelled(t), r.next) && Scanned(r.next.tok)
    decreases Size(st), 1
  {
    hide Lex, Steps, ValidNumber, ParseValueFilter, SplitAttrPath, OpOf, PlainText, Fold, PlainPath, SpellsNot;
    var p := SplitAttrPath(st.tok.text).value;
    SplitIff(st.tok.text, p);
    SplitAccepts(st.tok.text);
    var st1 := Lex(st.rest).value;
    LexScanned(st.rest);
    if st1.tok == LBracket {
      var inner := ValueFilterDerives(st1, d);
      t := Within(p, inner);
      var next := ParseValueFilter(st1, d).value.next;
      StepsNone(st);
      WordBetween(st, [], st, [LBracket] + Spelled(inner) + [RBracket], next);
      assert [] + [st.tok] + ([LBracket] + Spelled(inner) + [RBracket]) == Spelled(t);
    } else if Keyword(st1.tok, "pr") {
      t := Has(p, st1.tok.text);
      LexScanned(st1.rest);
      StepsOne(st);
      StepsOne(st1);
      StepsJoin(st, [st.tok], st1, [st1.tok], Lex(st1.rest).value);
      assert [st.tok] + [st1.tok] == Spelled(t);
    } else {
      t := TestDerives(st, p, st1, vf);
    }
  }

  lemma {:induction false} TestDerives(st: Lexeme, p: Path, st1: Lexeme, vf: bool) returns (t: Tree)
    requires st.tok == Word(PlainText(p)) && PathWord(p) && Lex(st.rest) == Ok(st1) && st1.tok.Word? && OpOf(st1.tok.text).Some?
    requires Lex(st1.rest).Ok? && LiteralOf(Lex(st1.rest).value.tok).Ok? && Lex(Lex(st1.rest).value.rest).Ok?
    ensures var st2 := Lex(st1.rest).value; var next := Lex(st2.rest).value;
            t == Test(p, st1.tok.text, OpOf(st1.tok.text).value, LiteralOf(st2.tok).value) && Derives(t, vf) && Steps(st, Spelled(t), next) && Scanned(next.tok)
  {
    hide Lex, Steps, ValidNumber, OpOf, PlainText, Fold, PathWord;
    var (op, st2) := (OpOf(st1.tok.text).value, Lex(st1.rest).value);
    var v := LiteralOf(st2.tok).value;
    t := Test(p, st1.tok.text, op, v);
    OperatorWord(st1.tok.text, op);
    LiteralSpelled(st2.tok, v);
    LexScanned(st1.rest);
    LexScanned(st2.rest);
    StepsOne(st);
    StepsOne(st1);
    StepsOne(st2);
    StepsJoin(st, [st.tok], st1, [st1.tok], st2);
    StepsJoin(st, [st.tok] + [st1.tok], st2, [st2.tok], Lex(st2.rest).value);
    assert [st.tok] + [st1.tok] + [st2.tok] == Spelled(t);
  }

  lemma {:induction false} ValueFilterDerives(st: Lexeme, d: nat) returns (inner: Tree)
    requires d <= MAX_DEPTH && st.tok == LBracket && ParseValueFilter(st, d).Ok?
    ensures var r := ParseValueFilter(st, d).value;
            Derives(inner, true) && Meaning(inner) == r.e && d + Height(inner) <= MAX_DEPTH && Steps(st, [LBracket] + Spelled(inner) + [RBracket], r.next) && Scanned(r.next.tok)
    decreases Size(st), 0
  {
    hide Lex, Steps, Scanned, ParseOr, Derives, Spelled;
    var st1 := Lex(st.rest).value;
    LexScanned(st.rest);
    inner := OrDerives(st1, d, true);
    var close := ParseOr(st1, d, true).value.next;
    LexScanned(close.rest);
    Enclosed(st, Spelled(inner), close);
  }

  // ----- What has a derivation is accepted -----

  lemma {:induction false} OrParses(t: Tree, st: Lexeme, next: Lexeme, d: nat, vf: bool)
    requires Derives(t, vf) && d + Height(t) <= MAX_DEPTH && Steps(st, Spelled(t), next) && !Keyword(next.tok, "and")
    ensures ParseOr(st, d, vf) == OrLoop(Meaning(t), next, d, vf)
    decreases t, 3
  {
    hide Lex, Steps, ParseAnd, ParseUnary, Fold;
    if t.Either? {
      var at := StepsSplit(st, Spelled(t.l) + [Word(t.orWord)], Spelled(t.r), next);
      var b := StepsSplit(st, Spelled(t.l), [Word(t.orWord)], at);
      StepsTo(b, Word(t.orWord), at);
      OrWord(t.orWord);
      OrParses(t.l, st, b, d, vf);
      AndParses(t.r, at, next, d, vf);
      AndStops(Meaning(t.r), next, d, vf);
    } else {
      AndParses(t, st, next, d, vf);
      AndStops(Meaning(t), next, d, vf);
    }
  }

  lemma OrWord(w: string)
    ensures Fold(w) == "or" ==> Fold(w) != "and"
    ensures Fold(w) == "and" ==> Fold(w) != "or"
  {
    assert |"or"| == 2;
  }

  lemma AndStops(e: Expr, next: Lexeme, d: nat, vf: bool)
    requires d <= MAX_DEPTH && !Keyword(next.tok, "and")
    ensures AndLoop(e, next, d, vf) == Ok(Parsed(e, next))
  {
  }

  lemma StepsTo(a: Lexeme, x: Token, b: Lexeme)
    requires Steps(a, [x], b)
    ensures a.tok == x && a.tok != End && Lex(a.rest) == Ok(b)
  {
    hide Lex;
    assert [x] + [] == [x];
    StepsFirst(a, x, [], b);
  }

  lemma {:induction false} AndParses(t: Tree, st: Lexeme, next: Lexeme, d: nat, vf: bool)
    requires Derives(t, vf) && !t.Either? && d + Height(t) <= MAX_DEPTH && Steps(st, Spelled(t), next)
    ensures ParseAnd(st, d, vf) == AndLoop(Meaning(t), next, d, vf)
    decreases t, 2
  {
    hide Lex, Steps, ParseUnary, Fold;
    if t.Both? {
      var at := StepsSplit(st, Spelled(t.l) + [Word(t.andWord)], Spelled(t.r), next);
      var b := StepsSplit(st, Spelled(t.l), [Word(t.andWord)], at);
      StepsTo(b, Word(t.andWord), at);
      AndParses(t.l, st, b, d, vf);
      UnaryParses(t.r, at, next, d, vf);
    } else {
      UnaryParses(t, st, next, d, vf);
    }
  }

  lemma {:induction false} UnaryParses(t: Tree, st: Lexeme, next: Lexeme, d: nat, vf: bool)
    requires Derives(t, vf) && !t.Either? && !t.Both? && d + Height(t) <= MAX_DEPTH && Steps(st, Spelled(t), next)
    ensures ParseUnary(st, d, vf) == Ok(Parsed(Meaning(t), next))
    decreases t, 1
  {
    hide Lex, Steps, ParseGroup, ParseAttrExpr, PlainText, Fold, PathWord;
    match t
    case Group(inner) =>
      GroupParses(inner, st, next, d, vf);
    case Negated(w, inner) =>
      assert Spelled(t) == [Word(w)] + ([LParen] + Spelled(inner) + [RParen]);
      StepsFirst(st, Word(w), [LParen] + Spelled(inner) + [RParen], next);
      GroupParses(inner, Lex(st.rest).value, next, d + 1, vf);
    case Within(p, inner) =>
      WithinParses(p, inner, st, next, d);
      PathFirst(p, st);
    case Has(p, w) =>
      HasParses(p, w, st, next, d, vf);
      PathFirst(p, st);
    case Test(p, w, op, v) =>
      TestParses(t, st, next, d, vf);
      PathFirst(p, st);
  }

  lemma PathFirst(p: Path, st: Lexeme)
    requires PathWord(p) && st.tok == Word(PlainText(p))
    ensures !Keyword(st.tok, "not")
  {
    hide PlainPath, SpellsNot, PlainText, Keyword;
    SpellsNotText(p);
  }

  lemma {:induction false} GroupParses(inner: Tree, st: Lexeme, next: Lexeme, d: nat, vf: bool)
    requires Derives(inner, vf) && d + Height(inner) + 1 <= MAX_DEPTH && Steps(st, [LParen] + Spelled(inner) + [RParen], next)
    ensures st.tok == LParen && ParseGroup(st, d, vf) == Ok(Parsed(Meaning(inner), next))
    decreases inner, 4
  {
    hide Lex, Steps, ParseAnd, Derives, Spelled;
    var close := Unclosed(st, LParen, Spelled(inner), RParen, next);
    OrParses(inner, Lex(st.rest).value, close, d + 1, vf);
  }

  /** The tokens between two delimiters. */
  lemma {:induction false} Unclosed(st: Lexeme, left: Token, ts: seq<Token>, right: Token, next: Lexeme) returns (close: Lexeme)
    requires Steps(st, [left] + ts + [right], next)
    ensures st.tok == left && Lex(st.rest).Ok? && Steps(Lex(st.rest).value, ts, close)
    ensures close.tok == right && Lex(close.rest) == Ok(next)
  {
    hide Lex, Steps;
    close := StepsSplit(st, [left] + ts, [right], next);
    StepsTo(close, right, next);
    StepsFirst(st, left, ts, close);
  }

  lemma {:induction false} WithinParses(p: Path, inner: Tree, st: Lexeme, next: Lexeme, d: nat)
    requires PathWord(p) && Derives(inner, true) && d + Height(inner) <= MAX_DEPTH
    requires Steps(st, [Word(PlainText(p)), LBracket] + Spelled(inner) + [RBracket], next)
    ensures st.tok == Word(PlainText(p)) && ParseAttrExpr(st, d, false) == Ok(Parsed(ValuePath(p, Meaning(inner)), next))
    decreases inner, 5
  {
    hide Lex, Steps, ParseOr, Derives, Spelled, PlainText, SplitAttrPath, PlainPath, SpellsNot;
    var rest := [LBracket] + Spelled(inner) + [RBracket];
    assert [Word(PlainText(p)), LBracket] + Spelled(inner) + [RBracket] == [Word(PlainText(p))] + rest;
    StepsFirst(st, Word(PlainText(p)), rest, next);
    SplitPlainText(p);
    BracketParses(inner, Lex(st.rest).value, next, d);
  }

  lemma {:induction false} BracketParses(inner: Tree, st: Lexeme, next: Lexeme, d: nat)
    requires Derives(inner, true) && d + Height(inner) <= MAX_DEPTH && Steps(st, [LBracket] + Spelled(inner) + [RBracket], next)
    ensures st.tok == LBracket && ParseValueFilter(st, d) == Ok(Parsed(Meaning(inner), next))
    decreases inner, 4
  {
    hide Lex, Steps, ParseAnd, Derives, Spelled;
    var close := Unclosed(st, LBracket, Spelled(inner), RBracket, next);
    OrParses(inner, Lex(st.rest).value, close, d, true);
  }

  lemma {:induction false} HasParses(p: Path, w: string, st: Lexeme, next: Lexeme, d: nat, vf: bool)
    requires PathWord(p) && Fold(w) == "pr" && d <= MAX_DEPTH && Steps(st, [Word(PlainText(p)), Word(w)], next)
    ensures st.tok == Word(PlainText(p)) && ParseAttrExpr(st, d, vf) == Ok(Parsed(Present(p), next))
  {
    hide Lex, Steps, PlainText, SplitAttrPath, PlainPath, SpellsNot, Fold;
    assert [Word(PlainText(p)), Word(w)] == [Word(PlainText(p))] + [Word(w)];
    StepsFirst(st, Word(PlainText(p)), [Word(w)], next);
    StepsTo(Lex(st.rest).value, Word(w), next);
    SplitPlainText(p);
  }

  lemma {:induction false} TestParses(t: Tree, st: Lexeme, next: Lexeme, d: nat, vf: bool)
    requires t.Test? && Derives(t, vf) && d <= MAX_DEPTH && Steps(st, Spelled(t), next)
    ensures st.tok == Word(PlainText(t.path)) && ParseAttrExpr(st, d, vf) == Ok(Parsed(Meaning(t), next))
  {
    hide Lex, Steps, PlainText, SplitAttrPath, PlainPath, SpellsNot, Fold, OpOf, LiteralToken, LiteralOf;
    var (a, b, c) := (Word(PlainText(t.path)), Word(t.opWord), LiteralToken(t.lit));
    assert Spelled(t) == [a] + ([b] + [c]);
    StepsFirst(st, a, [b] + [c], next);
    var st1 := Lex(st.rest).value;
    StepsFirst(st1, b, [c], next);
    StepsTo(Lex(st1.rest).value, c, next);
    SplitPlainText(t.path);
    OperatorWord(t.opWord, t.op);
    LiteralSpelled(c, t.lit);
  }

  // ----- Whole filters -----

  /** t is a derivation of the text s, within the bound of 64 levels. */
  predicate DerivationOf(s: string, t: Tree) {
    Derives(t, false) && Height(t) <= 64 && Scan(s) == Ok(Spelled(t))
  }

  lemma {:induction false} ParsedDerives(s: string) returns (t: Tree)
    requires ParseFilter(s).Ok?
    ensures DerivationOf(s, t) && Meaning(t) == ParseFilter(s).value
  {
    hide Lex, Steps, Scanned, ParseOr, Derives, Scan, Spelled;
    var st := Lex(s).value;
    LexScanned(s);
    t := OrDerives(st, 0, false);
    StepsScan(s, Spelled(t), ParseOr(st, 0, false).value.next);
  }

  lemma {:induction false} DerivedParses(s: string, t: Tree)
    requires DerivationOf(s, t)
    ensures ParseFilter(s) == Ok(Meaning(t))
  {
    hide Lex, Steps, ParseOr, Derives, Scan, Spelled;
    var end := ScanSteps(s);
    OrParses(t, Lex(s).value, end, 0, false);
  }

  /** A text is accepted and stands for e exactly when some derivation of it means e. */
  lemma {:induction false} ParsesIff(s: string, e: Expr)
    ensures ParseFilter(s) == Ok(e) <==> exists t :: DerivationOf(s, t) && Meaning(t) == e
  {
    hide ParseFilter, DerivationOf;
    if ParseFilter(s) == Ok(e) {
      var t := ParsedDerives(s);
      assert DerivationOf(s, t) && Meaning(t) == e;
    }
    forall t | DerivationOf(s, t) && Meaning(t) == e ensures ParseFilter(s) == Ok(e) {
      DerivedParses(s, t);
    }
  }

  // ----- PATCH paths -----

  /** The sub-attribute after a value filter is a word of its own. */
  function SubTokens(p: Path): seq<Token> {
    if p.sub == "" then [] else [Word("." + p.sub)]
  }

  predicate FilteredPathOf(s: string, p: Path, t: Tree) {
    && p.filter == Some(Meaning(t)) && Derives(t, true) && Height(t) <= 64
    && PlainPath(p.(sub := "", filter := None)) && (p.sub != "" ==> ValidAttrName(p.sub))
    && Scan(s) == Ok([Word(AttrText(p)), LBracket] + Spelled(t) + [RBracket] + SubTokens(p))
  }

  predicate BarePathOf(s: string, p: Path) {
    PlainPath(p) && Scan(s) == Ok([Word(PlainText(p))])
  }

  lemma {:induction false} BareParses(s: string, p: Path)
    requires BarePathOf(s, p)
    ensures ParsePatchPath(s) == Ok(p)
  {
    hide Lex, Steps, Scan, PlainText, SplitAttrPath, PlainPath;
    var end := ScanSteps(s);
    StepsTo(Lex(s).value, Word(PlainText(p)), end);
    SplitPlainText(p);
  }

  lemma {:induction false} FilteredParses(s: string, p: Path, t: Tree)
    requires FilteredPathOf(s, p, t)
    ensures ParsePatchPath(s) == Ok(p)
  {
    hide Lex, Steps, Scan, PlainText, AttrText, SplitAttrPath, PlainPath, ParseValueFilter, ParseSubAttr, Derives, Spelled;
    var head := p.(sub := "", filter := None);
    var end := ScanSteps(s);
    var st := Lex(s).value;
    var bracket := [LBracket] + Spelled(t) + [RBracket];
    assert [Word(AttrText(p)), LBracket] + Spelled(t) + [RBracket] + SubTokens(p) == [Word(AttrText(p))] + (bracket + SubTokens(p));
    StepsFirst(st, Word(AttrText(p)), bracket + SubTokens(p), end);
    var after := StepsSplit(Lex(st.rest).value, bracket, SubTokens(p), end);
    HeadText(p);
    SplitPlainText(head);
    BracketParses(t, Lex(st.rest).value, after, 0);
    SubParses(p, p.(sub := ""), after, end);
  }

  lemma {:induction false} SubParses(p: Path, q: Path, st: Lexeme, end: Lexeme)
    requires (p.sub != "" ==> ValidAttrName(p.sub)) && q == p.(sub := "") && Steps(st, SubTokens(p), end) && end.tok == End
    ensures ParseSubAttr(q, st) == Ok((p, end))
  {
    hide Lex, ValidAttrName;
    if p.sub != "" {
      StepsTo(st, Word("." + p.sub), end);
      assert ("." + p.sub)[1..] == p.sub;
    }
  }

  lemma {:induction false} ParsedBare(s: string)
    requires ParsePatchPath(s).Ok? && ParsePatchPath(s).value.filter.None?
    ensures BarePathOf(s, ParsePatchPath(s).value)
  {
    hide Lex, PlainText, SplitAttrPath, PlainPath, ParseValueFilter;
    var st := Lex(s).value;
    LexScanned(s);
    SplitIff(st.tok.text, SplitAttrPath(st.tok.text).value);
    StepsOne(st);
    StepsScan(s, [st.tok], Lex(st.rest).value);
  }

  lemma {:induction false} ParsedFiltered(s: string) returns (t: Tree)
    requires ParsePatchPath(s).Ok? && ParsePatchPath(s).value.filter.Some?
    ensures FilteredPathOf(s, ParsePatchPath(s).value, t)
  {
    hide Lex, Steps, Scan, PlainText, AttrText, SplitAttrPath, PlainPath, ParseValueFilter, ParseSubAttr, Derives, Spelled;
    var p := ParsePatchPath(s).value;
    var st := Lex(s).value;
    var head := SplitAttrPath(st.tok.text).value;
    LexScanned(s);
    SplitIff(st.tok.text, head);
    SplitIsBare(st.tok.text);
    var st1 := Lex(st.rest).value;
    t := ValueFilterDerives(st1, 0);
    var after := ParseValueFilter(st1, 0).value.next;
    var q := head.(filter := Some(Meaning(t)));
    var end := SubSteps(q, after);
    assert p == ParseSubAttr(q, after).value.0;
    HeadText(p);
    var bracket := [LBracket] + Spelled(t) + [RBracket];
    StepsOne(st);
    StepsJoin(st, [st.tok], st1, bracket, after);
    StepsJoin(st, [st.tok] + bracket, after, SubTokens(p), end);
    assert [st.tok] + bracket + SubTokens(p) == [st.tok, LBracket] + Spelled(t) + [RBracket] + SubTokens(p);
    StepsScan(s, [st.tok] + bracket + SubTokens(p), end);
  }

  lemma SplitIsBare(w: string)
    ensures SplitAttrPath(w).Ok? ==> SplitAttrPath(w).value.filter.None?
  {
    hide ValidAttrName, Fold, HasPrefix, FirstIndex, LastIndex;
  }

  lemma {:induction false} SubSteps(q: Path, st: Lexeme) returns (end: Lexeme)
    requires q.sub == "" && ParseSubAttr(q, st).Ok? && ParseSubAttr(q, st).value.1.tok == End
    ensures var p := ParseSubAttr(q, st).value.0;
            p == q.(sub := p.sub) && (p.sub != "" ==> ValidAttrName(p.sub)) && Steps(st, SubTokens(p), end) && end.tok == End
  {
    hide Lex, ValidAttrName;
    end := ParseSubAttr(q, st).value.1;
    if st.tok.Word? {
      NoName();
      assert st.tok.text == "." + st.tok.text[1..];
      StepsOne(st);
    }
  }

  /** A text is accepted as a PATCH path and stands for p exactly when it spells p: one word, or
      a word, a bracketed filter of at most 64 levels, and maybe a word for the sub-attribute. */
  lemma {:induction false} PathParsesIff(s: string, p: Path)
    ensures ParsePatchPath(s) == Ok(p) <==> if p.filter.None? then BarePathOf(s, p) else exists t :: FilteredPathOf(s, p, t)
  {
    hide ParsePatchPath, BarePathOf, FilteredPathOf;
    if ParsePatchPath(s) == Ok(p) {
      if p.filter.None? {
        ParsedBare(s);
      } else {
        var t := ParsedFiltered(s);
      }
    }
    if p.filter.None? {
      if BarePathOf(s, p) {
        BareParses(s, p);
      }
    } else {
      forall t | FilteredPathOf(s, p, t) ensures ParsePatchPath(s) == Ok(p) {
        FilteredParses(s, p, t);
      }
    }
  }
}
