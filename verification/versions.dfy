/** Version tokens: how the store prints a version counter and how tokens are compared
    (server/memstore/memstore.go, server/etag.go). */
module Versions {
  import opened Text

  function Digit(n: nat): char
    requires n < 10
  {
    ('0' as int + n) as char
  }

  /** strconv.FormatUint in base ten. */
  function Decimal(n: nat): (s: string)
    ensures s != ""
  {
    if n < 10 then [Digit(n)] else Decimal(n / 10) + [Digit(n % 10)]
  }

  /** versionString: the weak ETag of a counter. */
  function VersionString(n: nat): string {
    "W/\"" + Decimal(n) + "\""
  }

  function TrimLeft(s: string, p: char -> bool): (r: string) {
    if s != "" && p(s[0]) then TrimLeft(s[1..], p) else s
  }

  function TrimRight(s: string, p: char -> bool): (r: string) {
    if s != "" && p(s[|s| - 1]) then TrimRight(s[..|s| - 1], p) else s
  }

  predicate IsBlank(c: char) {
    c == ' ' || '\t' <= c <= '\r'
  }

  predicate IsQuote(c: char) {
    c == '"'
  }

  function TrimPrefix(s: string, p: string): string {
    if HasPrefix(s, p) then s[|p|..] else s
  }

  function Trim(s: string, p: char -> bool): string {
    TrimRight(TrimLeft(s, p), p)
  }

  /** opaqueVersion, which opaqueTag repeats. */
  function Opaque(v: string): string {
    Trim(TrimPrefix(Trim(v, IsBlank), "W/"), IsQuote)
  }

  /** versionMatches: an empty token carries no precondition. */
  predicate VersionMatches(token: string, current: string) {
    token == "" || Opaque(token) == Opaque(current)
  }

  /** The comma-separated candidates of an If-Match header. */
  function Split(s: string): (r: seq<string>)
    ensures |r| > 0
    decreases |s|
  {
    var i := FirstIndex(s, ',');
    if i.None? then [s] else [s[..i.value]] + Split(s[i.value + 1..])
  }

  /** etagMatch. */
  predicate EtagMatch(header: string, tag: string) {
    Trim(header, IsBlank) == "*" || exists i :: 0 <= i < |Split(header)| && Opaque(Split(header)[i]) == Opaque(tag)
  }

  // ----- Printed counters compare as counters -----

  lemma {:induction false} DecimalDigits(n: nat)
    ensures forall i :: 0 <= i < |Decimal(n)| ==> '0' <= Decimal(n)[i] <= '9'
  {
    if n >= 10 { DecimalDigits(n / 10); }
  }

  lemma {:induction false} DecimalInjective(m: nat, n: nat)
    requires Decimal(m) == Decimal(n)
    ensures m == n
  {
    var s, t := Decimal(m), Decimal(n);
    assert s[|s| - 1] == Digit(m % 10) && t[|t| - 1] == Digit(n % 10);
    if m >= 10 && n >= 10 {
      assert Decimal(m / 10) == s[..|s| - 1] && Decimal(n / 10) == t[..|t| - 1];
      DecimalInjective(m / 10, n / 10);
    }
  }

  /** Trimming stops at once at characters that stay. */
  lemma TrimNothing(s: string, p: char -> bool)
    requires s != "" ==> !p(s[0]) && !p(s[|s| - 1])
    ensures Trim(s, p) == s
  {
  }

  lemma {:induction false} OpaqueVersion(n: nat)
    ensures Opaque(VersionString(n)) == Decimal(n)
  {
    var v, d := VersionString(n), Decimal(n);
    DecimalDigits(n);
    TrimNothing(v, IsBlank);
    var quoted := "\"" + d + "\"";
    assert v == "W/" + quoted;
    assert v[..2] == "W/" && v[2..] == quoted;
    assert quoted[1..] == d + "\"";
    assert TrimLeft(quoted, IsQuote) == TrimLeft(d + "\"", IsQuote) == d + "\"";
    assert (d + "\"")[..|d|] == d;
    assert TrimRight(d + "\"", IsQuote) == TrimRight(d, IsQuote);
    assert TrimRight(d, IsQuote) == d;
  }

  /** Two stamped versions match exactly when their counters are equal: the compare-and-swap
      test is a test on counters. */
  lemma {:induction false} VersionMatchesIff(m: nat, n: nat)
    ensures VersionMatches(VersionString(m), VersionString(n)) <==> m == n
    ensures VersionString(m) != ""
  {
    OpaqueVersion(m);
    OpaqueVersion(n);
    if Decimal(m) == Decimal(n) { DecimalInjective(m, n); }
  }

  lemma {:induction false} NoPrefix(s: string, p: string)
    requires s != "" && p != "" && s[0] != p[0]
    ensures !HasPrefix(s, p)
  {
    assert |p| <= |s| ==> s[..|p|][0] == s[0];
  }

  /** A stamped version sent as an If-Match header admits exactly that version. */
  lemma {:induction false} EtagMatchIff(m: nat, n: nat)
    ensures EtagMatch(VersionString(m), VersionString(n)) <==> m == n
  {
    hide Trim;
    var v := VersionString(m);
    DecimalDigits(m);
    TrimNothing(v, IsBlank);
    assert ',' !in v;
    assert Split(v) == [v] && Split(v)[0] == v;
    assert |v| > 1;
    VersionMatchesIff(m, n);
  }

  /** Clients may echo a version bare, quoted or weak: all three forms match. */
  lemma {:induction false} EchoedForms(n: nat)
    ensures VersionMatches(Decimal(n), VersionString(n))
    ensures VersionMatches("\"" + Decimal(n) + "\"", VersionString(n))
  {
    var d := Decimal(n);
    var quoted := "\"" + d + "\"";
    DecimalDigits(n);
    OpaqueVersion(n);
    TrimNothing(d, IsBlank);
    TrimNothing(d, IsQuote);
    NoPrefix(d, "W/");
    NoPrefix(quoted, "W/");
    TrimNothing(quoted, IsBlank);
    assert quoted[1..] == d + "\"";
    assert TrimLeft(quoted, IsQuote) == TrimLeft(d + "\"", IsQuote) == d + "\"";
    assert (d + "\"")[..|d|] == d;
    assert TrimRight(d + "\"", IsQuote) == TrimRight(d, IsQuote) == d;
  }

  // ----- Headers -----

  predicate AllOf(s: string, p: char -> bool) {
    forall i :: 0 <= i < |s| ==> p(s[i])
  }

  /** t is d as a client may write it: between quotes or not, marked weak or not, blanks around. */
  predicate Echoes(t: string, b1: string, w: string, q1: string, d: string, q2: string, b2: string) {
    t == b1 + w + q1 + d + q2 + b2 && AllOf(b1, IsBlank) && AllOf(b2, IsBlank) && AllOf(q1, IsQuote) && AllOf(q2, IsQuote) && (w == "" || w == "W/")
  }

  predicate Numeral(d: string) {
    d != "" && forall i :: 0 <= i < |d| ==> '0' <= d[i] <= '9'
  }

  lemma {:induction false} LeftTrimmed(a: string, s: string, p: char -> bool)
    requires AllOf(a, p) && (s != "" ==> !p(s[0]))
    ensures TrimLeft(a + s, p) == s
  {
    if a == "" {
      assert a + s == s;
    } else {
      assert (a + s)[1..] == a[1..] + s;
      LeftTrimmed(a[1..], s, p);
    }
  }

  lemma {:induction false} RightTrimmed(s: string, b: string, p: char -> bool)
    requires AllOf(b, p) && (s != "" ==> !p(s[|s| - 1]))
    ensures TrimRight(s + b, p) == s
    decreases |b|
  {
    if b == "" {
      assert s + b == s;
    } else {
      assert (s + b)[..|s + b| - 1] == s + b[..|b| - 1];
      RightTrimmed(s, b[..|b| - 1], p);
    }
  }

  lemma {:induction false} Trimmed(a: string, s: string, b: string, p: char -> bool)
    requires AllOf(a, p) && AllOf(b, p) && s != "" && !p(s[0]) && !p(s[|s| - 1])
    ensures Trim(a + s + b, p) == s
  {
    assert a + s + b == a + (s + b);
    LeftTrimmed(a, s + b, p);
    RightTrimmed(s, b, p);
  }

  lemma {:induction false} LeftRun(s: string, p: char -> bool) returns (a: string)
    ensures s == a + TrimLeft(s, p) && AllOf(a, p)
  {
    a := "";
    if s != "" && p(s[0]) {
      a := LeftRun(s[1..], p);
      a := [s[0]] + a;
      assert s == [s[0]] + s[1..];
    }
  }

  lemma {:induction false} RightRun(s: string, p: char -> bool) returns (b: string)
    ensures s == TrimRight(s, p) + b && AllOf(b, p)
    decreases |s|
  {
    b := "";
    if s != "" && p(s[|s| - 1]) {
      b := RightRun(s[..|s| - 1], p);
      b := b + [s[|s| - 1]];
      assert s == s[..|s| - 1] + [s[|s| - 1]];
    }
  }

  lemma {:induction false} Runs(s: string, p: char -> bool) returns (a: string, b: string)
    ensures s == a + Trim(s, p) + b && AllOf(a, p) && AllOf(b, p)
  {
    a := LeftRun(s, p);
    b := RightRun(TrimLeft(s, p), p);
    assert a + (Trim(s, p) + b) == a + Trim(s, p) + b;
  }

  lemma {:induction false} WrittenOpaque(t: string, b1: string, w: string, q1: string, d: string, q2: string, b2: string)
    requires Echoes(t, b1, w, q1, d, q2, b2) && Numeral(d)
    ensures Opaque(t) == d
  {
    hide Trim, TrimLeft, TrimRight;
    var quoted := q1 + d + q2;
    var core := w + quoted;
    assert t == b1 + core + b2;
    assert core[0] == if w != "" then 'W' else if q1 != "" then q1[0] else d[0];
    assert core[|core| - 1] == if q2 != "" then q2[|q2| - 1] else d[|d| - 1];
    Trimmed(b1, core, b2, IsBlank);
    if w == "" {
      assert core == quoted;
      NoPrefix(core, "W/");
    } else {
      assert core[..2] == "W/" && core[2..] == quoted;
    }
    Trimmed(q1, d, q2, IsQuote);
  }

  lemma {:induction false} OpaqueWritten(t: string) returns (b1: string, w: string, q1: string, q2: string, b2: string)
    ensures Echoes(t, b1, w, q1, Opaque(t), q2, b2)
  {
    hide Trim, AllOf, IsBlank, IsQuote;
    b1, b2 := Runs(t, IsBlank);
    var core := Trim(t, IsBlank);
    w := if HasPrefix(core, "W/") then "W/" else "";
    var quoted := TrimPrefix(core, "W/");
    assert core == w + quoted;
    q1, q2 := Runs(quoted, IsQuote);
    Regroup(b1, w, q1, Opaque(t), q2, b2);
  }

  lemma Regroup(a: string, b: string, c: string, d: string, e: string, f: string)
    ensures a + (b + (c + d + e)) + f == a + b + c + d + e + f
  {
  }

  /** The candidate names version n. */
  ghost predicate Names(t: string, n: nat) {
    exists b1, w, q1, q2, b2 :: Echoes(t, b1, w, q1, Decimal(n), q2, b2)
  }

  lemma {:induction false} NamesIff(t: string, n: nat)
    ensures Names(t, n) <==> Opaque(t) == Decimal(n)
  {
    hide Echoes, Opaque;
    DecimalDigits(n);
    if Opaque(t) == Decimal(n) {
      var b1, w, q1, q2, b2 := OpaqueWritten(t);
    }
    forall b1, w, q1, q2, b2 | Echoes(t, b1, w, q1, Decimal(n), q2, b2) ensures Opaque(t) == Decimal(n) {
      WrittenOpaque(t, b1, w, q1, Decimal(n), q2, b2);
    }
  }

  function Joined(tokens: seq<string>): string {
    if tokens == [] then "" else if |tokens| == 1 then tokens[0] else tokens[0] + "," + Joined(tokens[1..])
  }

  lemma {:induction false} SplitJoined(tokens: seq<string>)
    requires tokens != [] && forall i :: 0 <= i < |tokens| ==> ',' !in tokens[i]
    ensures Split(Joined(tokens)) == tokens
    decreases |tokens|
  {
    var (t, s) := (tokens[0], Joined(tokens));
    if |tokens| == 1 {
      assert FirstIndex(s, ',').None?;
    } else {
      SplitJoined(tokens[1..]);
      assert s[|t|] == ',' && forall j :: 0 <= j < |t| ==> s[j] == t[j] && s[j] in t;
      FirstIndexUnique(s, ',', |t|);
      assert s[..|t|] == t && s[|t| + 1..] == Joined(tokens[1..]);
      assert [t] + tokens[1..] == tokens;
    }
  }

  /** An If-Match header of any candidates admits a stamped version exactly when one of them names
      it, or the header is a star. */
  lemma {:induction false} HeaderIff(tokens: seq<string>, n: nat)
    requires tokens != [] && forall i :: 0 <= i < |tokens| ==> ',' !in tokens[i]
    ensures EtagMatch(Joined(tokens), VersionString(n)) <==> (exists i :: 0 <= i < |tokens| && Names(tokens[i], n)) || IsStar(Joined(tokens))
  {
    hide Opaque, Names, Joined, Split, Trim;
    SplitJoined(tokens);
    OpaqueVersion(n);
    StarIff(Joined(tokens));
    forall i | 0 <= i < |tokens| ensures Names(tokens[i], n) <==> Opaque(tokens[i]) == Decimal(n) {
      NamesIff(tokens[i], n);
    }
  }

  predicate StarBetween(s: string, a: string, b: string) {
    s == a + "*" + b && AllOf(a, IsBlank) && AllOf(b, IsBlank)
  }

  ghost predicate IsStar(s: string) {
    exists a, b :: StarBetween(s, a, b)
  }

  lemma {:induction false} StarIff(s: string)
    ensures Trim(s, IsBlank) == "*" <==> IsStar(s)
  {
    hide Trim, AllOf;
    if Trim(s, IsBlank) == "*" {
      var a, b := Runs(s, IsBlank);
      assert StarBetween(s, a, b);
    }
    forall a, b | StarBetween(s, a, b) ensures Trim(s, IsBlank) == "*" {
      Trimmed(a, "*", b, IsBlank);
    }
  }

  /** A token stands for a stored version exactly when it is empty or names it. */
  lemma {:induction false} TokenIff(token: string, n: nat)
    ensures VersionMatches(token, VersionString(n)) <==> token == "" || Names(token, n)
  {
    hide Opaque, Names;
    OpaqueVersion(n);
    NamesIff(token, n);
  }
}
