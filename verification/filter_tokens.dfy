/** What the scanner takes for a token, stated on the text itself: blanks, then a spelling of the
    token as long as it can be. Numbers and string escapes are those of JSON (RFC 8259). */
module FilterTokens {
  import opened Text
  import opened FilterAst
  import opened FilterScanner
  import opened FilterLexing

  predicate Blank(s: string) {
    forall c <- s :: c == ' ' || c == '\t'
  }

  /** w is a way to write t. */
  predicate Spells(w: string, t: Token) {
    match t
    case End => w == ""
    case Word(x) => w == x && x != "" && !IsDigit(x[0]) && x[0] != '-' && forall c <- x :: IsWordChar(c)
    case NumberLit(x) => w == x && ValidNumber(x)
    case StringLit(x) => 2 <= |w| && w[0] == '"' && w[|w| - 1] == '"' && Unescape(w[1..|w| - 1]) == Some(x)
    case LParen => w == "("
    case RParen => w == ")"
    case LBracket => w == "["
    case RBracket => w == "]"
  }

  /** Nothing in the text that follows belongs to the token. */
  predicate Ends(t: Token, rest: string) {
    match t
    case End => rest == ""
    case Word(_) => rest != "" ==> !IsWordChar(rest[0])
    case NumberLit(_) => rest != "" ==> !IsNumberChar(rest[0])
    case _ => true
  }

  predicate Reads(s: string, blanks: string, w: string, t: Token, rest: string) {
    s == blanks + w + rest && Blank(blanks) && Spells(w, t) && Ends(t, rest)
  }

  lemma {:induction false} LexReads(s: string) returns (blanks: string, w: string)
    requires Lex(s).Ok?
    ensures Reads(s, blanks, w, Lex(s).value.tok, Lex(s).value.rest)
  {
    hide ValidNumber, Unescape, StringEnd, LexString, LexNumber;
    if s == "" {
      blanks, w := "", "";
    } else if IsSpace(s[0]) {
      blanks, w := LexReads(s[1..]);
      blanks := [s[0]] + blanks;
      assert s == [s[0]] + s[1..];
    } else {
      blanks := "";
      w := TokenReads(s);
    }
  }

  lemma {:induction false} TokenReads(s: string) returns (w: string)
    requires s != "" && !IsSpace(s[0]) && Lex(s).Ok?
    ensures Reads(s, "", w, Lex(s).value.tok, Lex(s).value.rest)
  {
    hide ValidNumber, Unescape, StringEnd, LexString, LexNumber, Run, IsWordChar, Reads;
    if Punct(s[0]).Some? {
      w := s[..1];
      PunctReads(s);
    } else if s[0] == '"' {
      w := StringReads(s);
    } else if s[0] == '-' || IsDigit(s[0]) {
      w := NumberReads(s);
    } else {
      w := s[..Run(s, IsWordChar)];
      WordReads(s);
    }
  }

  lemma ReadsCut(s: string, n: nat, t: Token)
    requires n <= |s| && Spells(s[..n], t) && Ends(t, s[n..])
    ensures Reads(s, "", s[..n], t, s[n..])
  {
    hide Spells, Ends;
    assert s == "" + s[..n] + s[n..];
  }

  lemma PunctReads(s: string)
    requires s != "" && Punct(s[0]).Some?
    ensures Reads(s, "", s[..1], Punct(s[0]).value, s[1..])
  {
    hide Reads;
    ReadsCut(s, 1, Punct(s[0]).value);
  }

  lemma {:induction false} WordReads(s: string)
    requires s != "" && IsWordChar(s[0]) && !IsDigit(s[0]) && s[0] != '-'
    ensures var n := Run(s, IsWordChar); Reads(s, "", s[..n], Word(s[..n]), s[n..])
  {
    hide IsWordChar, Reads;
    var n := Run(s, IsWordChar);
    ReadsCut(s, n, Word(s[..n]));
  }

  lemma {:induction false} NumberReads(s: string) returns (w: string)
    requires s != "" && IsNumberChar(s[0]) && LexNumber(s).Ok?
    ensures Reads(s, "", w, LexNumber(s).value.tok, LexNumber(s).value.rest)
  {
    hide IsNumberChar, ValidNumber, Run, Reads;
    var n := Run(s, IsNumberChar);
    w := s[..n];
    ReadsCut(s, n, NumberLit(w));
  }

  lemma {:induction false} StringReads(s: string) returns (w: string)
    requires s != "" && s[0] == '"' && LexString(s).Ok?
    ensures Reads(s, "", w, LexString(s).value.tok, LexString(s).value.rest)
  {
    hide Unescape, StringEnd, Reads;
    var q := StringEnd(s[1..]).value;
    w := s[..q + 2];
    assert s[1..][q] == '"' && w[1..|w| - 1] == s[1..q + 1];
    ReadsCut(s, q + 2, LexString(s).value.tok);
  }

  lemma {:induction false} LexSpelled(s: string, blanks: string, w: string, t: Token, rest: string)
    requires Reads(s, blanks, w, t, rest)
    ensures Lex(s) == Ok(Lexeme(t, rest))
    decreases |blanks|
  {
    hide ValidNumber, Unescape, StringEnd, LexString, LexNumber;
    if blanks == "" {
      assert s == w + rest;
      TokenLexed(w, t, rest);
    } else {
      assert s[0] == blanks[0] && blanks[0] in blanks && forall c <- blanks[1..] :: c in blanks;
      assert s[1..] == blanks[1..] + w + rest;
      LexSpelled(s[1..], blanks[1..], w, t, rest);
    }
  }

  lemma {:induction false} TokenLexed(w: string, t: Token, rest: string)
    requires Spells(w, t) && Ends(t, rest)
    ensures Lex(w + rest) == Ok(Lexeme(t, rest))
  {
    hide ValidNumber, Unescape, StringEnd;
    var s := w + rest;
    match t
    case Word(x) =>
      RunExact(w, rest, IsWordChar);
      assert s[0] == w[0] && s[..|w|] == w && s[|w|..] == rest;
    case NumberLit(x) =>
      ValidNumberChars(w);
      RunExact(w, rest, IsNumberChar);
      assert s[0] == w[0] && s[..|w|] == w && s[|w|..] == rest;
    case StringLit(x) =>
      var body := w[1..|w| - 1];
      QuoteFound(body, rest);
      assert s[1..] == body + "\"" + rest;
      assert s[1..|body| + 1] == body && s[|body| + 2..] == rest;
    case End =>
    case LParen =>
    case RParen =>
    case LBracket =>
    case RBracket =>
  }

  /** A body that decodes holds no quote that could close it. */
  lemma {:induction false} QuoteFound(body: string, rest: string)
    requires Unescape(body).Some?
    ensures StringEnd(body + "\"" + rest) == Some(|body|)
    decreases |body|
  {
    hide DecodeUnit, StringEnd;
    if body == "" {
      assert body + "\"" + rest == "\"" + rest;
      QuoteFirst(rest);
    } else if body[0] != '\\' {
      QuoteFound(body[1..], rest);
      assert body + "\"" + rest == [body[0]] + (body[1..] + "\"" + rest);
      StringEndPlain(body[0], body[1..] + "\"" + rest);
    } else if SimpleEscape(body[1]).Some? {
      QuoteFound(body[2..], rest);
      assert body + "\"" + rest == ['\\', body[1]] + (body[2..] + "\"" + rest);
      StringEndPair(body[1], body[2..] + "\"" + rest);
    } else {
      var n := DecodeUnit(body).value.1;
      QuoteFound(body[n..], rest);
      var tail := body[n..] + "\"" + rest;
      assert body + "\"" + rest == body[..n] + tail;
      UnitSkipped(body, tail);
    }
  }

  lemma QuoteFirst(rest: string)
    ensures StringEnd("\"" + rest) == Some(0)
  {
  }

  lemma {:induction false} UnitSkipped(body: string, tail: string)
    requires DecodeUnit(body).Some?
    ensures var n := DecodeUnit(body).value.1; StringEnd(body[..n] + tail) == Shift(StringEnd(tail), n)
  {
    hide StringEnd, CodeUnit;
    var n := DecodeUnit(body).value.1;
    if n == 6 {
      CodeSkipped(body, tail);
    } else {
      CodeSkipped(body[6..], tail);
      CodeSkipped(body, body[6..][..6] + tail);
      assert body[..12] + tail == body[..6] + (body[6..][..6] + tail);
    }
  }

  lemma {:induction false} CodeSkipped(body: string, tail: string)
    requires CodeUnit(body).Some?
    ensures StringEnd(body[..6] + tail) == Shift(StringEnd(tail), 6)
  {
    hide StringEnd;
    HexPlain(body[2]);
    HexPlain(body[3]);
    HexPlain(body[4]);
    HexPlain(body[5]);
    StringEndClean(body[2..6], tail);
    StringEndPair('u', body[2..6] + tail);
    assert body[..6] + tail == ['\\', 'u'] + (body[2..6] + tail);
  }

  lemma HexPlain(c: char)
    ensures HexValue(c).Some? ==> c != '"' && c != '\\'
  {
  }

  /** The scanner finds t and leaves rest exactly when the text is blanks, a spelling of t and rest,
      and the spelling could not be longer. */
  lemma {:induction false} LexIff(s: string, t: Token, rest: string)
    ensures Lex(s) == Ok(Lexeme(t, rest)) <==> exists blanks, w :: Reads(s, blanks, w, t, rest)
  {
    hide Lex, Reads;
    if Lex(s) == Ok(Lexeme(t, rest)) {
      var blanks, w := LexReads(s);
    }
    forall blanks, w | Reads(s, blanks, w, t, rest) ensures Lex(s) == Ok(Lexeme(t, rest)) {
      LexSpelled(s, blanks, w, t, rest);
    }
  }

  // ----- Numbers -----

  predicate DigitRun(s: string) {
    s != "" && forall c <- s :: IsDigit(c)
  }

  predicate IntPart(s: string) {
    s == "0" || (DigitRun(s) && s[0] != '0')
  }

  predicate FracPart(s: string) {
    s == "" || (s[0] == '.' && DigitRun(s[1..]))
  }

  predicate ExpPart(s: string) {
    s == "" || ((s[0] == 'e' || s[0] == 'E') && (DigitRun(s[1..]) || (1 < |s| && (s[1] == '+' || s[1] == '-') && DigitRun(s[2..]))))
  }

  /** The number production of section 6 of RFC 8259. */
  predicate NumberOf(s: string, sign: string, int_: string, frac: string, exp: string) {
    s == sign + int_ + frac + exp && (sign == "" || sign == "-") && IntPart(int_) && FracPart(frac) && ExpPart(exp)
  }

  predicate NoDigit(s: string) {
    s != "" ==> !IsDigit(s[0])
  }

  lemma {:induction false} RunDropped(d: string, r: string)
    requires (forall c <- d :: IsDigit(c)) && NoDigit(r)
    ensures DropDigits(d + r) == r
  {
    if d == "" {
      assert d + r == r;
    } else {
      assert d[0] in d && (d + r)[1..] == d[1..] + r;
      RunDropped(d[1..], r);
    }
  }

  lemma {:induction false} RunPassed(d: string, r: string)
    requires DigitRun(d) && NoDigit(r)
    ensures AfterDigits(d + r) == Some(r)
  {
    hide DropDigits;
    assert d[0] in d && (d + r)[1..] == d[1..] + r;
    RunDropped(d[1..], r);
  }

  lemma {:induction false} DropIsRun(s: string)
    ensures var r := DropDigits(s); r == s[|s| - |r|..] && NoDigit(r) && forall c <- s[..|s| - |r|] :: IsDigit(c)
  {
    if s != "" && IsDigit(s[0]) {
      DropIsRun(s[1..]);
      var r := DropDigits(s[1..]);
      assert s[..|s| - |r|] == [s[0]] + s[1..][..|s| - 1 - |r|];
    }
  }

  lemma {:induction false} AfterIsRun(s: string) returns (d: string)
    requires AfterDigits(s).Some?
    ensures s == d + AfterDigits(s).value && DigitRun(d) && NoDigit(AfterDigits(s).value)
  {
    hide DropDigits;
    DropIsRun(s[1..]);
    var r := DropDigits(s[1..]);
    d := s[..|s| - |r|];
    assert d == [s[0]] + s[1..][..|s| - 1 - |r|];
  }

  lemma {:induction false} IntPassed(u: string, int_: string, r: string)
    requires u == int_ + r && IntPart(int_) && NoDigit(r)
    ensures AfterInt(u) == Some(r)
  {
    hide AfterDigits;
    if int_ == "0" {
      assert u[0] == '0' && u[1..] == r;
    } else {
      assert u[0] == int_[0];
      RunPassed(int_, r);
    }
  }

  lemma {:induction false} FracPassed(u: string, frac: string, r: string)
    requires u == frac + r && FracPart(frac) && ExpPart(r)
    ensures AfterFrac(u) == Some(r)
  {
    hide AfterDigits;
    if frac == "" {
      assert u == r;
    } else {
      assert u[0] == '.' && u[1..] == frac[1..] + r;
      RunPassed(frac[1..], r);
    }
  }

  lemma {:induction false} ExpPassed(u: string)
    requires ExpPart(u)
    ensures AfterExp(u) == Some("")
  {
    hide AfterDigits;
    if u != "" {
      if DigitRun(u[1..]) {
        assert u[1] in u[1..] && u[1..] + "" == u[1..];
        RunPassed(u[1..], "");
      } else {
        assert u[2..] + "" == u[2..];
        RunPassed(u[2..], "");
      }
    }
  }

  lemma {:induction false} NumberPassed(s: string, sign: string, int_: string, frac: string, exp: string)
    requires NumberOf(s, sign, int_, frac, exp)
    ensures ValidNumber(s)
  {
    hide AfterInt, AfterFrac, AfterExp;
    var u := int_ + (frac + exp);
    assert s == sign + u;
    assert sign == "" ==> s == u;
    assert sign == "-" ==> s[1..] == u;
    assert int_[0] != '-' by { assert int_[0] in int_; }
    IntPassed(u, int_, frac + exp);
    FracPassed(frac + exp, frac, exp);
    ExpPassed(exp);
  }

  lemma {:induction false} IntRead(u: string) returns (int_: string)
    requires AfterInt(u).Some?
    ensures u == int_ + AfterInt(u).value && IntPart(int_)
  {
    hide AfterDigits;
    if u[0] == '0' {
      int_ := "0";
    } else {
      int_ := AfterIsRun(u);
      assert u[0] == int_[0];
    }
  }

  lemma {:induction false} FracRead(u: string) returns (frac: string)
    requires AfterFrac(u).Some?
    ensures u == frac + AfterFrac(u).value && FracPart(frac)
  {
    hide AfterDigits;
    frac := "";
    if u != "" && u[0] == '.' {
      var d := AfterIsRun(u[1..]);
      frac := "." + d;
      assert frac[1..] == d;
    }
  }

  lemma {:induction false} ExpRead(u: string)
    requires AfterExp(u) == Some("")
    ensures ExpPart(u)
  {
    hide AfterDigits;
    if u != "" {
      var signed := 1 < |u| && (u[1] == '+' || u[1] == '-');
      var d := AfterIsRun(if signed then u[2..] else u[1..]);
    }
  }

  lemma {:induction false} NumberRead(s: string) returns (sign: string, int_: string, frac: string, exp: string)
    requires ValidNumber(s)
    ensures NumberOf(s, sign, int_, frac, exp)
  {
    hide AfterInt, AfterFrac, AfterExp, IntPart, FracPart, ExpPart;
    sign := if s != "" && s[0] == '-' then "-" else "";
    var u := if sign == "-" then s[1..] else s;
    assert s == sign + u;
    int_ := IntRead(u);
    var i := AfterInt(u).value;
    frac := FracRead(i);
    exp := AfterFrac(i).value;
    ExpRead(exp);
    assert sign + (int_ + (frac + exp)) == sign + int_ + frac + exp;
  }

  /** A number literal is one of the JSON grammar: no leading zeros, digits on both sides of the
      point, digits in the exponent. */
  lemma {:induction false} NumberIff(s: string)
    ensures ValidNumber(s) <==> exists sign, int_, frac, exp :: NumberOf(s, sign, int_, frac, exp)
  {
    hide ValidNumber, NumberOf;
    if ValidNumber(s) {
      var sign, int_, frac, exp := NumberRead(s);
    }
    forall sign, int_, frac, exp | NumberOf(s, sign, int_, frac, exp) ensures ValidNumber(s) {
      NumberPassed(s, sign, int_, frac, exp);
    }
  }

  // ----- Escapes -----

  /** What a \u escape stands for: a character by itself, one of two escapes above U+FFFF, and
      U+FFFD for half of such a pair. */
  lemma {:induction false} EscapesDecoded(n: nat, t: string)
    requires n < 0x110000
    ensures n < 0x10000 && !(0xD800 <= n < 0xE000) ==> Unescape(HexEscape(n) + t) == Prepend(n as char, Unescape(t))
    ensures 0x10000 <= n ==> Unescape(HighHalf(n) + LowHalf(n) + t) == Prepend(n as char, Unescape(t))
    ensures 0xDC00 <= n < 0xE000 || (0xD800 <= n < 0xDC00 && !LowAhead(t)) ==> Unescape(HexEscape(n) + t) == Prepend('\U{FFFD}', Unescape(t))
  {
    hide HexEscape, CodeUnit, Unescape, HighHalf, LowHalf;
    if n < 0x10000 {
      HexUnit(n, t);
    } else {
      PairUnit(n, t);
    }
  }

  function HighHalf(n: nat): string
    requires 0x10000 <= n < 0x110000
  {
    HexEscape(0xD800 + (n - 0x10000) / 0x400)
  }

  function LowHalf(n: nat): string
    requires 0x10000 <= n < 0x110000
  {
    HexEscape(0xDC00 + (n - 0x10000) % 0x400)
  }

  predicate LowAhead(t: string) {
    CodeUnit(t).Some? && 0xDC00 <= CodeUnit(t).value < 0xE000
  }

  function Prepend(c: char, s: Option<string>): Option<string> {
    if s.None? then None else Some([c] + s.value)
  }

  lemma {:induction false} UnitFirst(s: string, c: char, n: nat)
    requires CodeUnit(s).Some? && DecodeUnit(s) == Some((c, n))
    ensures Unescape(s) == Prepend(c, Unescape(s[n..]))
  {
    hide DecodeUnit;
    assert s[0] == '\\' && s[1] == 'u';
  }

  lemma {:induction false} HexUnit(n: nat, t: string)
    requires n < 0x10000
    ensures !(0xD800 <= n < 0xE000) ==> Unescape(HexEscape(n) + t) == Prepend(n as char, Unescape(t))
    ensures 0xDC00 <= n < 0xE000 || (0xD800 <= n < 0xDC00 && !LowAhead(t)) ==> Unescape(HexEscape(n) + t) == Prepend('\U{FFFD}', Unescape(t))
  {
    hide CodeUnit, Unescape, HexDigits;
    var s := HexEscape(n) + t;
    HexEscapeCode(n, t);
    HexDigitsPlain(n);
    assert s[6..] == t;
    if !(0xD800 <= n < 0xE000) {
      UnitFirst(s, n as char, 6);
    } else if 0xDC00 <= n || !LowAhead(t) {
      UnitFirst(s, '\U{FFFD}', 6);
    }
  }

  lemma {:induction false} PairUnit(n: nat, t: string)
    requires 0x10000 <= n < 0x110000
    ensures Unescape(HighHalf(n) + LowHalf(n) + t) == Prepend(n as char, Unescape(t))
  {
    hide CodeUnit, Unescape, HexDigits;
    var (u, v) := (0xD800 + (n - 0x10000) / 0x400, 0xDC00 + (n - 0x10000) % 0x400);
    var s := HighHalf(n) + LowHalf(n) + t;
    HexEscapeCode(u, LowHalf(n) + t);
    HexEscapeCode(v, t);
    HexDigitsPlain(u);
    HexDigitsPlain(v);
    assert s == HexEscape(u) + (LowHalf(n) + t);
    assert s[6..] == LowHalf(n) + t && s[12..] == t;
    UnitFirst(s, n as char, 12);
  }
}
