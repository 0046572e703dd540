/** Scanning printed text: what the scanner reads back from each piece the printer writes. */
module FilterLexing {
  import opened Text
  import opened FilterAst
  import opened FilterScanner
  import opened FilterGrammar

  /** A following text that cannot extend the word, number or string before it. */
  predicate Fences(s: string) {
    s == "" || s[0] == ' ' || s[0] == ')' || s[0] == ']' || s[0] == '['
  }

  lemma Glue2(a: string, b: string, s: string)
    ensures a + b + s == a + (b + s)
  {
  }

  lemma Glue3(a: string, b: string, c: string, s: string)
    ensures a + b + c + s == a + (b + (c + s))
  {
  }

  lemma LexBlank(s: string)
    ensures Lex(" " + s) == Lex(s)
  {
    assert (" " + s)[1..] == s;
  }

  lemma LexPunct(c: char, s: string)
    requires Punct(c).Some?
    ensures Lex([c] + s) == Ok(Lexeme(Punct(c).value, s))
  {
    assert ([c] + s)[1..] == s;
  }

  lemma {:induction false} RunExact(w: string, s: string, p: char -> bool)
    requires forall i :: 0 <= i < |w| ==> p(w[i])
    requires s == "" || !p(s[0])
    ensures Run(w + s, p) == |w|
  {
    if w == "" {
      assert w + s == s;
    } else {
      RunExact(w[1..], s, p);
      assert (w + s)[1..] == w[1..] + s;
    }
  }

  lemma LexWord(w: string, s: string)
    requires w != "" && IsNameStart(w[0]) && forall c <- w :: IsWordChar(c)
    requires Fences(s)
    ensures Lex(w + s) == Ok(Lexeme(Word(w), s))
  {
    RunExact(w, s, IsWordChar);
    assert (w + s)[0] == w[0];
    assert (w + s)[..|w|] == w;
    assert (w + s)[|w|..] == s;
  }

  /** A keyword or operator printed between blanks. */
  lemma LexKeyword(w: string, s: string)
    requires w != "" && forall c <- w :: IsLetter(c)
    requires Fences(s)
    ensures Lex(" " + w + s) == Ok(Lexeme(Word(w), s))
  {
    LexBlank(w + s);
    assert " " + w + s == " " + (w + s);
    LexWord(w, s);
  }

  lemma LexNumberText(n: string, s: string)
    requires ValidNumber(n) && Fences(s)
    ensures Lex(n + s) == Ok(Lexeme(NumberLit(n), s))
  {
    hide ValidNumber;
    ValidNumberChars(n);
    RunExact(n, s, IsNumberChar);
    assert (n + s)[0] == n[0];
    assert (n + s)[..|n|] == n;
    assert (n + s)[|n|..] == s;
  }

  lemma {:induction false} DropDigitsChars(s: string)
    ensures var r := DropDigits(s);
            r == s[|s| - |r|..] && forall i :: 0 <= i < |s| - |r| ==> IsDigit(s[i])
  {
    if s != "" && IsDigit(s[0]) {
      DropDigitsChars(s[1..]);
      var r := DropDigits(s[1..]);
      forall i | 0 <= i < |s| - |r| ensures IsDigit(s[i]) {
        assert i > 0 ==> s[i] == s[1..][i - 1];
      }
    }
  }

  /** All of s up to the suffix r is made of number characters. */
  ghost predicate NumberTo(s: string, r: string) {
    |r| <= |s| && r == s[|s| - |r|..] && forall i :: 0 <= i < |s| - |r| ==> IsNumberChar(s[i])
  }

  lemma NumberToTrans(s: string, t: string, r: string)
    requires NumberTo(s, t) && NumberTo(t, r)
    ensures NumberTo(s, r)
  {
    forall i | 0 <= i < |s| - |r| ensures IsNumberChar(s[i]) {
      assert i >= |s| - |t| ==> s[i] == t[i - (|s| - |t|)];
    }
  }

  lemma NumberToStep(s: string)
    requires s != "" && IsNumberChar(s[0])
    ensures NumberTo(s, s[1..])
  {
  }

  lemma AfterDigitsChars(s: string)
    ensures var r := AfterDigits(s); r.Some? ==> NumberTo(s, r.value)
  {
    if s != "" && IsDigit(s[0]) {
      NumberToStep(s);
      DropDigitsChars(s[1..]);
      NumberToTrans(s, s[1..], DropDigits(s[1..]));
    }
  }

  lemma AfterFracChars(s: string)
    ensures var r := AfterFrac(s); r.Some? ==> NumberTo(s, r.value)
  {
    if s != "" && s[0] == '.' {
      NumberToStep(s);
      AfterDigitsChars(s[1..]);
      var r := AfterDigits(s[1..]);
      if r.Some? { NumberToTrans(s, s[1..], r.value); }
    }
  }

  lemma AfterExpChars(s: string)
    ensures var r := AfterExp(s); r.Some? ==> NumberTo(s, r.value)
  {
    if s != "" && (s[0] == 'e' || s[0] == 'E') {
      NumberToStep(s);
      AfterDigitsChars(s[1..]);
      if 1 < |s| && (s[1] == '+' || s[1] == '-') {
        NumberToStep(s[1..]);
        assert s[1..][1..] == s[2..];
        AfterDigitsChars(s[2..]);
        NumberToTrans(s, s[1..], s[2..]);
        var r := AfterDigits(s[2..]);
        if r.Some? { NumberToTrans(s, s[2..], r.value); }
      } else {
        var r := AfterDigits(s[1..]);
        if r.Some? { NumberToTrans(s, s[1..], r.value); }
      }
    }
  }

  /** A JSON number starts with a digit or '-' and is one run of number characters. */
  lemma ValidNumberChars(s: string)
    requires ValidNumber(s)
    ensures s != "" && (s[0] == '-' || IsDigit(s[0])) && forall i :: 0 <= i < |s| ==> IsNumberChar(s[i])
  {
    hide DropDigits, AfterDigits;
    var u := if s != "" && s[0] == '-' then s[1..] else s;
    assert NumberTo(s, u);
    var i := AfterInt(u);
    AfterDigitsChars(u);
    assert NumberTo(u, i.value);
    NumberToTrans(s, u, i.value);
    var f := AfterFrac(i.value);
    AfterFracChars(i.value);
    NumberToTrans(s, i.value, f.value);
    AfterExpChars(f.value);
    NumberToTrans(s, f.value, "");
    IntNonempty(u);
  }

  lemma IntNonempty(u: string)
    ensures AfterInt(u).Some? ==> u != "" && IsDigit(u[0])
  {
  }

  // ----- String literals -----

  lemma HexDigitValue(n: nat)
    requires n < 16
    ensures HexValue(HexDigit(n)) == Some(n)
  {
  }

  lemma HexEscapeCode(n: nat, t: string)
    requires n < 0x10000
    ensures CodeUnit(HexEscape(n) + t) == Some(n)
  {
    HexDigitValue(n / 16 / 16 / 16);
    HexDigitValue(n / 16 / 16 % 16);
    HexDigitValue(n / 16 % 16);
    HexDigitValue(n % 16);
  }

  lemma UnescapeHex(c: char, t: string)
    requires (c as int) < 0xD800
    ensures Unescape(HexEscape(c as int) + t) == var u := Unescape(t); if u.None? then None else Some([c] + u.value)
  {
    hide HexDigits, CodeUnit;
    var s := HexEscape(c as int) + t;
    HexEscapeCode(c as int, t);
    HexDigitsPlain(c as int);
    assert s[0] == '\\' && s[1] == 'u';
    assert s[6..] == t;
  }

  lemma UnescapeSimple(e: char, c: char, t: string)
    requires SimpleEscape(e) == Some(c)
    ensures Unescape(['\\', e] + t) == var u := Unescape(t); if u.None? then None else Some([c] + u.value)
  {
    assert (['\\', e] + t)[2..] == t;
  }

  lemma UnescapeEscaped(c: char, t: string)
    ensures Unescape(EscapeChar(c) + t) == var u := Unescape(t); if u.None? then None else Some([c] + u.value)
  {
    hide Unescape, HexEscape, HexDigits;
    if c == '"' || c == '\\' { UnescapeSimple(c, c, t); }
    else if c == '\U{0008}' { UnescapeSimple('b', c, t); }
    else if c == '\U{000C}' { UnescapeSimple('f', c, t); }
    else if c == '\n' { UnescapeSimple('n', c, t); }
    else if c == '\r' { UnescapeSimple('r', c, t); }
    else if c == '\t' { UnescapeSimple('t', c, t); }
    else if c < ' ' || c == '<' || c == '>' || c == '&' || c == '\U{2028}' || c == '\U{2029}' {
      UnescapeHex(c, t);
    } else {
      UnescapePlain(c, t);
    }
  }

  lemma UnescapePlain(c: char, t: string)
    requires ' ' <= c && c != '"' && c != '\\'
    ensures Unescape([c] + t) == var u := Unescape(t); if u.None? then None else Some([c] + u.value)
  {
    assert ([c] + t)[1..] == t;
  }

  /** Decoding an encoded string gives the string back, whatever characters it holds. */
  lemma {:induction false} UnescapeEscape(s: string)
    ensures Unescape(Escape(s)) == Some(s)
  {
    hide Unescape, EscapeChar;
    if s == "" {
      UnescapeNil();
    } else {
      UnescapeEscape(s[1..]);
      UnescapeEscaped(s[0], Escape(s[1..]));
      assert [s[0]] + s[1..] == s;
    }
  }

  lemma UnescapeNil()
    ensures Unescape("") == Some("")
  {
  }

  /** StringEnd of t, seen past k more characters. */
  function Shift(r: Option<nat>, k: nat): Option<nat> {
    if r.None? then None else Some(r.value + k)
  }

  lemma StringEndPlain(c: char, t: string)
    requires c != '"' && c != '\\'
    ensures StringEnd([c] + t) == Shift(StringEnd(t), 1)
  {
    assert ([c] + t)[1..] == t;
  }

  lemma StringEndPair(c: char, t: string)
    ensures StringEnd(['\\', c] + t) == Shift(StringEnd(t), 2)
  {
    assert (['\\', c] + t)[2..] == t;
  }

  lemma {:induction false} StringEndClean(w: string, t: string)
    requires forall i :: 0 <= i < |w| ==> w[i] != '"' && w[i] != '\\'
    ensures StringEnd(w + t) == Shift(StringEnd(t), |w|)
  {
    if w == "" {
      assert w + t == t;
    } else {
      StringEndPlain(w[0], w[1..] + t);
      assert w + t == [w[0]] + (w[1..] + t);
      StringEndClean(w[1..], t);
    }
  }

  lemma StringEndHex(n: nat, t: string)
    requires n < 0x10000
    ensures StringEnd(HexEscape(n) + t) == Shift(StringEnd(t), 6)
  {
    hide HexDigits, StringEnd;
    Glue2(['\\', 'u'], HexDigits(n), t);
    StringEndPair('u', HexDigits(n) + t);
    HexDigitsPlain(n);
    StringEndClean(HexDigits(n), t);
  }

  lemma HexDigitsPlain(n: nat)
    requires n < 0x10000
    ensures |HexDigits(n)| == 4 && forall i :: 0 <= i < 4 ==> HexDigits(n)[i] != '"' && HexDigits(n)[i] != '\\'
  {
    assert forall k: nat :: k < 16 ==> HexDigit(k) != '"' && HexDigit(k) != '\\';
  }

  lemma StringEndEscaped(c: char, t: string)
    ensures StringEnd(EscapeChar(c) + t) == Shift(StringEnd(t), |EscapeChar(c)|)
  {
    hide StringEnd, HexDigits;
    HexEscapeLength(c);
    if |EscapeChar(c)| == 1 {
      StringEndPlain(c, t);
    } else if |EscapeChar(c)| == 2 {
      StringEndPair(EscapeChar(c)[1], t);
      assert EscapeChar(c) == ['\\', EscapeChar(c)[1]];
    } else {
      StringEndHex(c as int, t);
    }
  }

  lemma HexEscapeLength(c: char)
    ensures (c as int) < 0x10000 ==> |HexEscape(c as int)| == 6
  {
  }

  lemma {:induction false} StringEndEscape(s: string, t: string)
    ensures StringEnd(Escape(s) + "\"" + t) == Some(|Escape(s)|)
  {
    hide EscapeChar;
    if s == "" {
    } else {
      StringEndEscape(s[1..], t);
      StringEndEscaped(s[0], Escape(s[1..]) + "\"" + t);
      Glue3(EscapeChar(s[0]), Escape(s[1..]), "\"", t);
      Glue2(Escape(s[1..]), "\"", t);
    }
  }

  lemma LexStringText(v: string, s: string)
    ensures Lex("\"" + Escape(v) + "\"" + s) == Ok(Lexeme(StringLit(v), s))
  {
    hide Escape, Unescape, StringEnd;
    var body := Escape(v) + "\"" + s;
    var w := "\"" + Escape(v) + "\"" + s;
    assert w[1..] == body;
    StringEndEscape(v, s);
    UnescapeEscape(v);
    assert w[1..|Escape(v)| + 1] == Escape(v);
    assert w[|Escape(v)| + 2..] == s;
  }

  /** Every literal scans back to a token the parser reads as that literal. */
  lemma LexLiteral(v: Literal, s: string)
    requires (v.Number? ==> ValidNumber(v.text)) && Fences(s)
    ensures var r := Lex(LiteralText(v) + s);
            r.Ok? && LiteralOf(r.value.tok) == Ok(v) && r.value.rest == s
  {
    hide Lex, ValidNumber, Escape;
    match v
    case Null => LexWord("null", s);
    case Bool(b) => LexWord(if b then "true" else "false", s);
    case Number(t) => LexNumberText(t, s);
    case Str(t) => LexStringText(t, s);
  }

  // ----- Attribute paths -----

  lemma ValidNameChars(s: string)
    requires ValidAttrName(s)
    ensures s != "" && IsNameStart(s[0]) && ':' !in s && '.' !in s && forall c <- s :: IsWordChar(c)
  {
  }

  lemma UrnStart(u: string)
    requires HasPrefix(Fold(u), "urn:")
    ensures u != "" && IsNameStart(u[0])
  {
    assert Fold(u)[..4][0] == 'u';
  }

  /** The word an attribute path prints as, when it carries no value filter. */
  function PlainText(p: Path): string {
    AttrText(p) + SubText(p)
  }

  lemma PlainTextWord(p: Path)
    requires PlainPath(p)
    ensures var w := PlainText(p); w != "" && IsNameStart(w[0]) && forall c <- w :: IsWordChar(c)
  {
    hide ValidAttrName, Fold, HasPrefix, IsWordChar, IsNameStart;
    ValidNameChars(p.attr);
    if p.sub != "" { ValidNameChars(p.sub); }
    if p.urn != "" { UrnStart(p.urn); }
    assert IsWordChar(':') && IsWordChar('.') by { SeparatorsAreWord(); }
    var w := PlainText(p);
    assert w[0] == if p.urn == "" then p.attr[0] else p.urn[0];
    forall c <- w ensures IsWordChar(c) {
      assert c in p.urn || c == ':' || c in p.attr || c == '.' || c in p.sub;
    }
  }

  lemma SeparatorsAreWord()
    ensures IsWordChar(':') && IsWordChar('.')
  {
  }

  /** How the text after the URN divides into attribute and sub-attribute. */
  predicate Divides(rest: string, attr: string, sub: string) {
    && FirstIndex(rest, '.') == (if sub == "" then None else Some(|attr|))
    && if sub == "" then rest == attr else |attr| < |rest| && rest[..|attr|] == attr && rest[|attr| + 1..] == sub
  }

  lemma SplitName(p: Path)
    requires PlainPath(p)
    ensures var rest := p.attr + SubText(p); ':' !in rest && Divides(rest, p.attr, p.sub)
  {
    hide ValidAttrName, FirstIndex;
    ValidNameChars(p.attr);
    if p.sub == "" {
      assert p.attr + SubText(p) == p.attr;
      FirstIndexAbsent(p.attr, '.');
    } else {
      ValidNameChars(p.sub);
      FirstIndexUnique(p.attr + SubText(p), '.', |p.attr|);
    }
  }

  lemma SplitAt(p: Path, w: string, rest: string)
    requires PlainPath(p) && Divides(rest, p.attr, p.sub)
    requires if p.urn == "" then LastIndex(w, ':') == None && w == rest
             else LastIndex(w, ':') == Some(|p.urn|) && |p.urn| < |w| && w[..|p.urn|] == p.urn && w[|p.urn| + 1..] == rest
    ensures SplitAttrPath(w) == Ok(p)
  {
    hide ValidAttrName, Fold, HasPrefix, IsWordChar, LastIndex, FirstIndex;
  }

  /** splitAttrPath undoes the printing of an attribute path. */
  lemma SplitPlainText(p: Path)
    requires PlainPath(p)
    ensures SplitAttrPath(PlainText(p)) == Ok(p)
  {
    hide PlainPath, SubText, Divides, LastIndex;
    var rest := p.attr + SubText(p);
    SplitName(p);
    if p.urn == "" {
      assert PlainText(p) == rest;
      LastIndexAbsent(rest, ':');
    } else {
      assert PlainText(p) == p.urn + ":" + rest;
      LastIndexUnique(PlainText(p), ':', |p.urn|);
    }
    SplitAt(p, PlainText(p), rest);
  }

  lemma FirstIndexAbsent(s: string, c: char)
    requires c !in s
    ensures FirstIndex(s, c) == None
  {
  }

  lemma LastIndexAbsent(s: string, c: char)
    requires c !in s
    ensures LastIndex(s, c) == None
  {
  }

  lemma SpellsNotText(p: Path)
    requires PlainPath(p) && !SpellsNot(p)
    ensures !Keyword(Word(PlainText(p)), "not")
  {
    hide ValidAttrName, HasPrefix, IsWordChar;
    if p.urn != "" {
      UrnLength(p.urn);
    } else if p.sub != "" {
      assert PlainText(p)[|p.attr|] == '.';
      assert Fold(PlainText(p))[|p.attr|] == '.';
    } else {
      assert PlainText(p) == p.attr;
    }
  }

  lemma UrnLength(u: string)
    requires HasPrefix(Fold(u), "urn:")
    ensures 4 <= |u|
  {
  }
}
