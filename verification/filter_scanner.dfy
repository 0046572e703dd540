/** The filter scanner (filter/token.go). The specification Lex works on the text still to be
    read; class Scanner is the scanner itself, a position moved along the input. */
module FilterScanner {
  import opened Text

  datatype Token =
    | End
    | Word(text: string)
    | StringLit(text: string)
    | NumberLit(text: string)
    | LParen | RParen | LBracket | RBracket

  datatype Lexeme = Lexeme(tok: Token, rest: string)

  predicate IsSpace(c: char) { c == ' ' || c == '\t' }

  predicate IsLetter(c: char) { 'a' <= c <= 'z' || 'A' <= c <= 'Z' }

  predicate IsDigit(c: char) { '0' <= c <= '9' }

  predicate IsWordChar(c: char) {
    IsLetter(c) || IsDigit(c) || c == '-' || c == '_' || c == '$' || c == '.' || c == ':'
  }

  predicate IsNameStart(c: char) { IsLetter(c) || c == '$' }

  predicate IsNameChar(c: char) { IsLetter(c) || IsDigit(c) || c == '-' || c == '_' }

  predicate IsNumberChar(c: char) {
    IsDigit(c) || c == '-' || c == '+' || c == '.' || c == 'e' || c == 'E'
  }

  function Punct(c: char): Option<Token> {
    if c == '(' then Some(LParen)
    else if c == ')' then Some(RParen)
    else if c == '[' then Some(LBracket)
    else if c == ']' then Some(RBracket)
    else None
  }

  /** How many leading characters satisfy p. */
  function Run(s: string, p: char -> bool): (n: nat)
    ensures n <= |s|
    ensures forall i :: 0 <= i < n ==> p(s[i])
    ensures n < |s| ==> !p(s[n])
  {
    if s != "" && p(s[0]) then 1 + Run(s[1..], p) else 0
  }

  /** Where the closing quote stands, reading s after the opening quote; a backslash skips
      the character after it. */
  function StringEnd(s: string): (r: Option<nat>)
    ensures r.Some? ==> r.value < |s| && s[r.value] == '"'
  {
    if s == "" then None
    else if s[0] == '"' then Some(0)
    else
      var skip := if s[0] == '\\' then 2 else 1;
      if |s| < skip then None
      else
        var r := StringEnd(s[skip..]);
        if r.None? then None else Some(r.value + skip)
  }

  function HexValue(c: char): Option<nat> {
    if '0' <= c <= '9' then Some((c as int) - ('0' as int))
    else if 'a' <= c <= 'f' then Some((c as int) - ('a' as int) + 10)
    else if 'A' <= c <= 'F' then Some((c as int) - ('A' as int) + 10)
    else None
  }

  /** The code unit of a \uXXXX escape at the front of s. */
  function CodeUnit(s: string): (r: Option<nat>)
    ensures r.Some? ==> 6 <= |s| && r.value < 0x10000
  {
    if |s| < 6 || s[0] != '\\' || s[1] != 'u' then None
    else
      var (a, b, c, d) := (HexValue(s[2]), HexValue(s[3]), HexValue(s[4]), HexValue(s[5]));
      if a.None? || b.None? || c.None? || d.None? then None
      else Some(a.value * 4096 + b.value * 256 + c.value * 16 + d.value)
  }

  function SimpleEscape(c: char): Option<char> {
    if c == '"' || c == '\\' || c == '/' then Some(c)
    else if c == 'b' then Some('\U{0008}')
    else if c == 'f' then Some('\U{000C}')
    else if c == 'n' then Some('\n')
    else if c == 'r' then Some('\r')
    else if c == 't' then Some('\t')
    else None
  }

  /** One decoded character and how much of the escape at the front of s it takes. A lone
      surrogate decodes to the replacement character; a pair is one character. */
  function DecodeUnit(s: string): (r: Option<(char, nat)>)
    ensures r.Some? ==> 0 < r.value.1 <= |s|
  {
    var u := CodeUnit(s);
    if u.None? then None
    else if u.value < 0xD800 || 0xE000 <= u.value then Some((u.value as char, 6))
    else
      var v := CodeUnit(s[6..]);
      if u.value < 0xDC00 && v.Some? && 0xDC00 <= v.value < 0xE000 then
        Some((((u.value - 0xD800) * 0x400 + (v.value - 0xDC00) + 0x1_0000) as char, 12))
      else Some(('\U{FFFD}', 6))
  }

  /** What encoding/json decodes the inside of a string literal to. */
  function Unescape(s: string): Option<string> {
    if s == "" then Some("")
    else if s[0] < ' ' || s[0] == '"' then None
    else if s[0] != '\\' then
      var t := Unescape(s[1..]);
      if t.None? then None else Some([s[0]] + t.value)
    else if |s| < 2 then None
    else if SimpleEscape(s[1]).Some? then
      var t := Unescape(s[2..]);
      if t.None? then None else Some([SimpleEscape(s[1]).value] + t.value)
    else
      var u := DecodeUnit(s);
      if u.None? then None
      else
        var t := Unescape(s[u.value.1..]);
        if t.None? then None else Some([u.value.0] + t.value)
  }

  function DropDigits(s: string): (r: string)
    ensures |r| <= |s|
  {
    if s != "" && IsDigit(s[0]) then DropDigits(s[1..]) else s
  }

  /** What follows a run of at least one digit. */
  function AfterDigits(s: string): (r: Option<string>)
    ensures r.Some? ==> |r.value| < |s|
  {
    if s != "" && IsDigit(s[0]) then Some(DropDigits(s[1..])) else None
  }

  function AfterInt(s: string): Option<string> {
    if s != "" && s[0] == '0' then Some(s[1..]) else AfterDigits(s)
  }

  function AfterFrac(s: string): Option<string> {
    if s != "" && s[0] == '.' then AfterDigits(s[1..]) else Some(s)
  }

  function AfterExp(s: string): Option<string> {
    if s != "" && (s[0] == 'e' || s[0] == 'E') then
      if 1 < |s| && (s[1] == '+' || s[1] == '-') then AfterDigits(s[2..]) else AfterDigits(s[1..])
    else Some(s)
  }

  /** A JSON number literal: the texts encoding/json accepts as a json.Number. */
  predicate ValidNumber(s: string) {
    var i := AfterInt(if s != "" && s[0] == '-' then s[1..] else s);
    i.Some? &&
    var f := AfterFrac(i.value);
    f.Some? && AfterExp(f.value) == Some("")
  }

  /** The ATTRNAME production of RFC 7644, with a leading '$' allowed. */
  predicate ValidAttrName(s: string) {
    s != "" && IsNameStart(s[0]) && forall i :: 1 <= i < |s| ==> IsNameChar(s[i])
  }

  /** scanner.next on the text still to be read. */
  function Lex(s: string): (r: Result<Lexeme>)
    ensures r.Err? ==> r.kind == InvalidFilter
    ensures r.Ok? ==> |r.value.rest| <= |s|
    ensures r.Ok? && r.value.tok != End ==> |r.value.rest| < |s|
    ensures r.Ok? && r.value.tok == End ==> r.value.rest == ""
  {
    if s == "" then Ok(Lexeme(End, ""))
    else if IsSpace(s[0]) then Lex(s[1..])
    else if Punct(s[0]).Some? then Ok(Lexeme(Punct(s[0]).value, s[1..]))
    else if s[0] == '"' then LexString(s)
    else if s[0] == '-' || IsDigit(s[0]) then LexNumber(s)
    else if IsWordChar(s[0]) then
      var n := Run(s, IsWordChar);
      Ok(Lexeme(Word(s[..n]), s[n..]))
    else Err(InvalidFilter)
  }

  function LexString(s: string): (r: Result<Lexeme>)
    requires s != "" && s[0] == '"'
    ensures r.Err? ==> r.kind == InvalidFilter
    ensures r.Ok? ==> |r.value.rest| < |s| && r.value.tok.StringLit?
  {
    var q := StringEnd(s[1..]);
    if q.None? then Err(InvalidFilter)
    else
      var v := Unescape(s[1..q.value + 1]);
      if v.None? then Err(InvalidFilter) else Ok(Lexeme(StringLit(v.value), s[q.value + 2..]))
  }

  function LexNumber(s: string): (r: Result<Lexeme>)
    requires s != "" && IsNumberChar(s[0])
    ensures r.Err? ==> r.kind == InvalidFilter
    ensures r.Ok? ==> |r.value.rest| < |s| && r.value.tok.NumberLit? && ValidNumber(r.value.tok.text)
  {
    var n := Run(s, IsNumberChar);
    if ValidNumber(s[..n]) then Ok(Lexeme(NumberLit(s[..n]), s[n..])) else Err(InvalidFilter)
  }

  /** The scanner: the whole input and how far it has been read. */
  class Scanner {
    const input: string
    var pos: nat

    ghost predicate Valid()
      reads this
    {
      pos <= |input|
    }

    /** The text still to be read. */
    ghost function Rest(): string
      requires Valid()
      reads this
    {
      input[pos..]
    }

    constructor (s: string)
      ensures Valid() && Rest() == s
    {
      input, pos := s, 0;
    }

    /** scanner.next: reads exactly the token Lex gives and stops where Lex stops. */
    method Next() returns (r: Result<Token>)
      requires Valid()
      modifies this
      ensures Valid()
      ensures var l := Lex(old(Rest()));
              if l.Ok? then r == Ok(l.value.tok) && Rest() == l.value.rest else r == Err(l.kind)
    {
      while pos < |input| && IsSpace(input[pos])
        invariant Valid()
        invariant Lex(Rest()) == Lex(old(Rest()))
      {
        assert input[pos..][1..] == input[pos + 1..];
        pos := pos + 1;
      }
      if pos == |input| { return Ok(End); }
      var c := input[pos];
      if Punct(c).Some? {
        assert input[pos..][1..] == input[pos + 1..];
        pos := pos + 1;
        return Ok(Punct(c).value);
      }
      if c == '"' {
        r := ScanString();
      } else if c == '-' || IsDigit(c) {
        r := ScanNumber();
      } else if IsWordChar(c) {
        var text := TakeRun(IsWordChar);
        r := Ok(Word(text));
      } else {
        r := Err(InvalidFilter);
      }
    }

    /** The scanner's inner loops: advances over the longest run of characters satisfying p. */
    method TakeRun(p: char -> bool) returns (text: string)
      requires Valid()
      modifies this
      ensures Valid()
      ensures var n := Run(old(Rest()), p); text == old(Rest())[..n] && Rest() == old(Rest())[n..]
    {
      var start := pos;
      while pos < |input| && p(input[pos])
        invariant start <= pos <= |input|
        invariant Run(old(Rest()), p) == pos - start + Run(Rest(), p)
      {
        assert input[pos..][1..] == input[pos + 1..];
        pos := pos + 1;
      }
      text := input[start..pos];
    }

    method ScanNumber() returns (r: Result<Token>)
      requires Valid() && Rest() != "" && IsNumberChar(Rest()[0])
      modifies this
      ensures Valid()
      ensures var l := LexNumber(old(Rest()));
              if l.Ok? then r == Ok(l.value.tok) && Rest() == l.value.rest else r == Err(l.kind)
    {
      var raw := TakeRun(IsNumberChar);
      r := if ValidNumber(raw) then Ok(NumberLit(raw)) else Err(InvalidFilter);
    }

    method ScanString() returns (r: Result<Token>)
      requires Valid() && Rest() != "" && Rest()[0] == '"'
      modifies this
      ensures Valid()
      ensures var l := LexString(old(Rest()));
              if l.Ok? then r == Ok(l.value.tok) && Rest() == l.value.rest else r == Err(l.kind)
    {
      hide Unescape;
      var start := pos;
      assert input[pos..][1..] == input[pos + 1..];
      pos := pos + 1;
      var closed := SkipToQuote();
      if !closed { return Err(InvalidFilter); }
      assert input[start..][1..pos - start] == input[start + 1..pos];
      assert input[start..][pos - start + 1..] == input[pos + 1..];
      var decoded := Unescape(input[start + 1..pos]);
      pos := pos + 1;
      r := if decoded.None? then Err(InvalidFilter) else Ok(StringLit(decoded.value));
    }

    /** scanString's loop: stops on the closing quote, stepping over escaped characters. */
    method SkipToQuote() returns (closed: bool)
      requires Valid()
      modifies this
      ensures Valid()
      ensures var q := StringEnd(old(Rest())); closed == q.Some? && (closed ==> pos == old(pos) + q.value)
    {
      hide StringEndFrom;
      ghost var body, start := Rest(), pos;
      StringEndFromStart(body);
      while pos < |input| && input[pos] != '"'
        invariant start <= pos <= |input|
        invariant StringEnd(body) == StringEndFrom(body, pos - start)
      {
        StringEndFromStep(body, pos - start);
        pos := pos + if input[pos] == '\\' then 2 else 1;
        if |input| < pos {
          pos := |input|;
          return false;
        }
      }
      StringEndFromStop(body, pos - start);
      closed := pos < |input|;
    }
  }

  /** The closing quote as seen from offset k of s. */
  ghost function StringEndFrom(s: string, k: nat): Option<nat>
    requires k <= |s|
  {
    var t := StringEnd(s[k..]);
    if t.None? then None else Some(t.value + k)
  }

  lemma StringEndFromStart(s: string)
    ensures StringEndFrom(s, 0) == StringEnd(s)
  {
    assert s[0..] == s;
  }

  lemma StringEndFromStep(s: string, k: nat)
    requires k < |s| && s[k] != '"'
    ensures var n := k + if s[k] == '\\' then 2 else 1;
            StringEndFrom(s, k) == if |s| < n then None else StringEndFrom(s, n)
  {
    var n := k + if s[k] == '\\' then 2 else 1;
    if n <= |s| {
      assert s[k..][n - k..] == s[n..];
    }
  }

  lemma StringEndFromStop(s: string, k: nat)
    requires k <= |s| && (k < |s| ==> s[k] == '"')
    ensures StringEndFrom(s, k) == if k < |s| then Some(k) else None
  {
  }
}
