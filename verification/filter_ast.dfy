/** The filter syntax tree and its printer (filter/ast.go). */
module FilterAst {
  import opened Text

  datatype CompareOp = Eq | Ne | Co | Sw | Ew | Gt | Ge | Lt | Le

  /** The strict JSON literals a comparison may carry. Number keeps the literal's text. */
  datatype Literal = Null | Bool(b: bool) | Number(text: string) | Str(s: string)

  datatype Path = Path(urn: string, attr: string, sub: string, filter: Option<Expr>)

  datatype Expr =
    | Compare(path: Path, op: CompareOp, lit: Literal)
    | Present(path: Path)
    | And(l: Expr, r: Expr)
    | Or(l: Expr, r: Expr)
    | Not(e: Expr)
    | ValuePath(path: Path, inner: Expr)

  function OpText(op: CompareOp): string {
    match op
    case Eq => "eq" case Ne => "ne" case Co => "co" case Sw => "sw" case Ew => "ew"
    case Gt => "gt" case Ge => "ge" case Lt => "lt" case Le => "le"
  }

  function HexDigit(n: nat): char
    requires n < 16
  {
    "0123456789abcdef"[n]
  }

  function HexDigits(n: nat): string
    requires n < 0x10000
  {
    [HexDigit(n / 16 / 16 / 16), HexDigit(n / 16 / 16 % 16), HexDigit(n / 16 % 16), HexDigit(n % 16)]
  }

  /** The \u escape encoding/json writes for a code unit. */
  function HexEscape(n: nat): string
    requires n < 0x10000
  {
    ['\\', 'u'] + HexDigits(n)
  }

  /** How encoding/json escapes one character inside a string literal, HTML escaping included. */
  function EscapeChar(c: char): string {
    if c == '"' || c == '\\' then ['\\', c]
    else if c == '\U{0008}' then ['\\', 'b']
    else if c == '\U{000C}' then ['\\', 'f']
    else if c == '\n' then ['\\', 'n']
    else if c == '\r' then ['\\', 'r']
    else if c == '\t' then ['\\', 't']
    else if c < ' ' || c == '<' || c == '>' || c == '&' || c == '\U{2028}' || c == '\U{2029}' then
      HexEscape(c as int)
    else [c]
  }

  function Escape(s: string): string {
    if s == "" then "" else EscapeChar(s[0]) + Escape(s[1..])
  }

  function LiteralText(v: Literal): string {
    match v
    case Null => "null"
    case Bool(b) => if b then "true" else "false"
    case Number(t) => t
    case Str(s) => "\"" + Escape(s) + "\""
  }

  function AttrText(p: Path): string {
    (if p.urn == "" then "" else p.urn + ":") + p.attr
  }

  function SubText(p: Path): string {
    if p.sub == "" then "" else "." + p.sub
  }

  /** Path.String. */
  function PathText(p: Path): string
    decreases p, 0
  {
    AttrText(p) + (if p.filter.Some? then "[" + ExprText(p.filter.value) + "]" else "") + SubText(p)
  }

  function Parens(wrap: bool, s: string): string {
    if wrap then "(" + s + ")" else s
  }

  /** Expr.String, with parentheses only where the bare form would reparse to another tree. */
  function ExprText(e: Expr): string
    decreases e, 1
  {
    match e
    case Compare(p, op, v) => PathText(p) + " " + OpText(op) + " " + LiteralText(v)
    case Present(p) => PathText(p) + " pr"
    case And(l, r) => Parens(l.Or?, ExprText(l)) + " and " + Parens(r.Or? || r.And?, ExprText(r))
    case Or(l, r) => ExprText(l) + " or " + Parens(r.Or?, ExprText(r))
    case Not(x) => "not (" + ExprText(x) + ")"
    case ValuePath(p, f) => PathText(p) + "[" + ExprText(f) + "]"
  }

  function Max(a: nat, b: nat): nat {
    if a < b then b else a
  }

  /** The grouping levels the parser spends on the printed form of e: one per parenthesis and
      one more per not. */
  function Nesting(e: Expr): nat {
    match e
    case Compare(_, _, _) => 0
    case Present(_) => 0
    case And(l, r) => Max(Nesting(l) + (if l.Or? then 1 else 0), Nesting(r) + (if r.Or? || r.And? then 1 else 0))
    case Or(l, r) => Max(Nesting(l), Nesting(r) + (if r.Or? then 1 else 0))
    case Not(x) => Nesting(x) + 2
    case ValuePath(_, f) => Nesting(f)
  }
}
