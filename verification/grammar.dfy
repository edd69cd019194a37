/** The lexical level of the query grammar (lisp.py:3-15, query.py:3-15).

    The two copies of the grammar differ only in the character class of function names, so the
    lexer is parameterised by a `Dialect`. Every token class starts with a character no other class
    starts with, so the class of the next token is decided by its first character; within a class the
    regular expression is matched the way Python's `re` does (greedy, with backtracking). */
module Grammar {
  import opened Results

  /** `Lisp` is the grammar of lisp.py, `Query` the earlier one of query.py. */
  datatype Dialect = Lisp | Query

  /** The `WS` class `[ \t\n]`. */
  predicate IsSpace(c: char) {
    c == ' ' || c == '\t' || c == '\n'
  }

  predicate IsDigit(c: char) {
    '0' <= c <= '9'
  }

  /** One character of a function name: `[^\(\)0-9" \t\n]` in lisp.py, `[a-zA-Z_/\*\+\-]` in query.py. */
  predicate IsFuncChar(d: Dialect, c: char) {
    match d
    case Lisp => c != '(' && c != ')' && !IsDigit(c) && c != '"' && !IsSpace(c)
    case Query => ('a' <= c <= 'z') || ('A' <= c <= 'Z') || c == '_' || c == '/' || c == '*' || c == '+' || c == '-'
  }

  datatype Token =
    | Open                 // '\('
    | Close                // '\)'
    | Name(text: string)   // func
    | Numeral(text: string) // number
    | Quoted(text: string) // string, quotes included

  /** The characters a token was read from. */
  function Text(t: Token): string {
    match t
    case Open => "("
    case Close => ")"
    case Name(x) => x
    case Numeral(x) => x
    case Quoted(x) => x
  }

  predicate AllSpace(s: string) {
    forall i :: 0 <= i < |s| ==> IsSpace(s[i])
  }

  predicate AllDigits(s: string) {
    forall i :: 0 <= i < |s| ==> IsDigit(s[i])
  }

  /** A word of the func class: `[...]+`. */
  predicate IsFuncName(d: Dialect, s: string) {
    |s| > 0 && forall i :: 0 <= i < |s| ==> IsFuncChar(d, s[i])
  }

  /** A word of the number class `[0-9]+(\.[0-9]+)?`. */
  predicate IsNumeral(s: string) {
    var k := DigitRun(s);
    k > 0 && (k == |s| || (s[k] == '.' && k + 1 < |s| && AllDigits(s[k + 1..])))
  }

  /** A word of the string class `"[^ \t\n]*"`. */
  predicate IsQuoted(s: string) {
    |s| >= 2 && s[0] == '"' && s[|s| - 1] == '"' && forall i :: 0 <= i < |s| ==> !IsSpace(s[i])
  }

  predicate ValidToken(d: Dialect, t: Token) {
    match t
    case Open => true
    case Close => true
    case Name(x) => IsFuncName(d, x)
    case Numeral(x) => IsNumeral(x)
    case Quoted(x) => IsQuoted(x)
  }

  /** Length of the longest prefix of `s` made of digits. */
  function DigitRun(s: string): (n: nat)
    ensures n <= |s|
    ensures AllDigits(s[..n])
    ensures n < |s| ==> !IsDigit(s[n])
  {
    if s == [] || !IsDigit(s[0]) then 0 else 1 + DigitRun(s[1..])
  }

  /** Length of the longest prefix of `s` made of function-name characters. */
  function FuncRun(d: Dialect, s: string): (n: nat)
    ensures n <= |s|
    ensures forall i :: 0 <= i < n ==> IsFuncChar(d, s[i])
    ensures n < |s| ==> !IsFuncChar(d, s[n])
  {
    if s == [] || !IsFuncChar(d, s[0]) then 0 else 1 + FuncRun(d, s[1..])
  }

  /** Length of the longest prefix of `s` containing no whitespace. */
  function NonSpaceRun(s: string): (n: nat)
    ensures n <= |s|
    ensures forall i :: 0 <= i < n ==> !IsSpace(s[i])
    ensures n < |s| ==> IsSpace(s[n])
  {
    if s == [] || IsSpace(s[0]) then 0 else 1 + NonSpaceRun(s[1..])
  }

  /** The largest position `p` with `1 <= p < n` holding a double quote, if any. */
  function LastQuote(s: string, n: nat): (r: Option<nat>)
    requires n <= |s|
    ensures r.Some? ==> 1 <= r.value < n && s[r.value] == '"'
    ensures r.Some? ==> forall q :: r.value < q < n ==> s[q] != '"'
    ensures r.None? ==> forall q :: 1 <= q < n ==> s[q] != '"'
  {
    if n <= 1 then None
    else if s[n - 1] == '"' then Some(n - 1)
    else LastQuote(s, n - 1)
  }

  /** Length of the number token at the start of `s`: the digits, then `.` and more digits when
      a digit follows the dot (the optional group of the regex is taken greedily). No longer
      prefix is a number. */
  function NumeralLength(s: string): (n: nat)
    requires |s| > 0 && IsDigit(s[0])
    ensures 0 < n <= |s| && DigitRun(s) <= n
    ensures IsNumeral(s[..n])
    ensures n < |s| ==> !IsDigit(s[n])
    ensures n == DigitRun(s) ==> !(n + 1 < |s| && s[n] == '.' && IsDigit(s[n + 1]))
    ensures forall m {:trigger IsNumeral(s[..m])} :: n < m <= |s| ==> !IsNumeral(s[..m])
  {
    var k := DigitRun(s);
    assert s[..k][..DigitRun(s[..k])] == s[..k][..k];
    DigitRunPrefix(s, k);
    if k + 1 < |s| && s[k] == '.' && IsDigit(s[k + 1]) then
      var m := DigitRun(s[k + 1..]);
      var n := k + 1 + m;
      DigitRunPrefix(s, n);
      assert s[..n][k + 1..] == s[k + 1..][..m];
      assert n < |s| ==> s[n] == s[k + 1..][m];
      NumeralNotExtended(s, n);
      n
    else
      NumeralNotExtended(s, k);
      k
  }

  /** The run of leading digits does not change when the string is cut after it. */
  lemma DigitRunPrefix(s: string, n: nat)
    requires DigitRun(s) <= n <= |s|
    ensures DigitRun(s[..n]) == DigitRun(s)
    decreases n
  {
    if s != [] && IsDigit(s[0]) {
      assert s[..n][1..] == s[1..][..n - 1];
      DigitRunPrefix(s[1..], n - 1);
    }
  }

  /** A prefix that stops where neither a digit nor, after the integer part, a dot and a digit
      follows cannot be extended to a longer number. */
  lemma NumeralNotExtended(s: string, n: nat)
    requires DigitRun(s) <= n <= |s|
    requires n == DigitRun(s) ==> !(n + 1 < |s| && s[n] == '.' && IsDigit(s[n + 1]))
    requires n > DigitRun(s) && n < |s| ==> !IsDigit(s[n])
    ensures forall m {:trigger IsNumeral(s[..m])} :: n < m <= |s| ==> !IsNumeral(s[..m])
  {
    var k := DigitRun(s);
    forall m | n < m <= |s|
      ensures !IsNumeral(s[..m])
    {
      var t := s[..m];
      DigitRunPrefix(s, m);
      assert DigitRun(t) == k < |t|;
      if k + 1 < |t| {
        if n == k {
          assert t[k] == s[k] && t[k + 1..][0] == s[k + 1];
        } else {
          assert t[k + 1..][n - k - 1] == s[n];
        }
      }
    }
  }

  /** The character class a token starting with `c` belongs to has no rival: Scan dispatches on it. */
  predicate StartsToken(d: Dialect, c: char) {
    c == '(' || c == ')' || IsDigit(c) || c == '"' || IsFuncChar(d, c)
  }

  /** Reads one token from the start of `s`, returning it and the number of characters it spans. */
  function Scan(d: Dialect, s: string): (r: Result<(Token, nat), QueryError>)
    requires |s| > 0 && !IsSpace(s[0])
    ensures r.Ok? ==> 0 < r.value.1 <= |s| && Text(r.value.0) == s[..r.value.1] && ValidToken(d, r.value.0)
    ensures r.Ok? && r.value.0.Name? ==> r.value.1 == |s| || !IsFuncChar(d, s[r.value.1])
    ensures r.Ok? && r.value.0.Numeral? ==> r.value.1 == |s| || !IsDigit(s[r.value.1])
    ensures r.Ok? && r.value.0.Numeral? ==> forall m {:trigger IsNumeral(s[..m])} :: r.value.1 < m <= |s| ==> !IsNumeral(s[..m])
    ensures r.Ok? && r.value.0.Quoted? ==>
      forall q :: r.value.1 <= q < |s| && s[q] == '"' ==> exists i :: r.value.1 <= i < q && IsSpace(s[i])
    ensures r.Err? <==>
      !StartsToken(d, s[0]) ||
      (s[0] == '"' && forall q :: 1 <= q <= NonSpaceRun(s[1..]) ==> s[q] != '"')
    ensures r.Err? ==> r.error == LexError
  {
    if s[0] == '(' then Ok((Open, 1))
    else if s[0] == ')' then Ok((Close, 1))
    else if IsDigit(s[0]) then
      var n := NumeralLength(s);
      Ok((Numeral(s[..n]), n))
    else if s[0] == '"' then
      var run := 1 + NonSpaceRun(s[1..]);
      match LastQuote(s, run)
      case Some(p) =>
        QuoteTokenNoSpace(s, run, p);
        QuoteTokenMaximal(s, run, p);
        Ok((Quoted(s[..p + 1]), p + 1))
      case None =>
        assert forall q :: 1 <= q <= NonSpaceRun(s[1..]) ==> s[q] != '"';
        Err(LexError)
    else if IsFuncChar(d, s[0]) then
      var n := FuncRun(d, s);
      Ok((Name(s[..n]), n))
    else
      Err(LexError)
  }

  lemma QuoteTokenNoSpace(s: string, run: nat, p: nat)
    requires |s| > 0 && !IsSpace(s[0])
    requires run == 1 + NonSpaceRun(s[1..]) && 1 <= p < run
    ensures forall i :: 0 <= i < p + 1 ==> !IsSpace(s[i])
  {
    forall i | 0 <= i < p + 1
      ensures !IsSpace(s[i])
    {
      if i > 0 {
        assert s[1..][i - 1] == s[i];
      }
    }
  }

  lemma QuoteTokenMaximal(s: string, run: nat, p: nat)
    requires |s| > 0 && run == 1 + NonSpaceRun(s[1..]) && 1 <= p < run
    requires forall q :: p < q < run ==> s[q] != '"'
    ensures forall q :: p + 1 <= q < |s| && s[q] == '"' ==> exists i :: p + 1 <= i < q && IsSpace(s[i])
  {
    forall q | p + 1 <= q < |s| && s[q] == '"'
      ensures exists i :: p + 1 <= i < q && IsSpace(s[i])
    {
      assert run <= q;
      assert s[1..][run - 1] == s[run];
      assert IsSpace(s[run]);
    }
  }

  /** Splits a query into tokens, skipping whitespace between them. */
  function Lex(d: Dialect, s: string): (r: Result<seq<Token>, QueryError>)
    ensures r.Ok? ==> forall i :: 0 <= i < |r.value| ==> ValidToken(d, r.value[i])
    ensures r.Err? ==> r.error == LexError
    decreases |s|
  {
    if s == [] then Ok([])
    else if IsSpace(s[0]) then Lex(d, s[1..])
    else
      match Scan(d, s)
      case Err(e) => Err(e)
      case Ok((t, n)) =>
        match Lex(d, s[n..])
        case Err(e) => Err(e)
        case Ok(rest) => Ok([t] + rest)
  }

  // ---------------------------------------------------------------------------------------------
  // Laying tokens out with whitespace, and reading them back

  /** `ts` written out with `seps[i]` before token `i` and `seps[|ts|]` after the last one. */
  function Layout(ts: seq<Token>, seps: seq<string>): string
    requires |seps| == |ts| + 1
  {
    if ts == [] then seps[0] else seps[0] + Text(ts[0]) + Layout(ts[1..], seps[1..])
  }

  /** What may follow the text of token `t` so that the scanner stops exactly at its end: anything
      after a parenthesis; no function-name character after a name; after a number no digit, and
      no dot followed by a digit while the number has no fractional part; after a string literal no
      double quote before the next whitespace, since the literal reaches up to the last one. */
  predicate EndsToken(d: Dialect, t: Token, r: string) {
    match t
    case Open => true
    case Close => true
    case Name(_) => r == [] || !IsFuncChar(d, r[0])
    case Numeral(x) => r == [] || (!IsDigit(r[0]) && (DigitRun(x) < |x| || !(|r| > 1 && r[0] == '.' && IsDigit(r[1]))))
    case Quoted(_) => forall q :: 0 <= q < NonSpaceRun(r) ==> r[q] != '"'
  }

  /** The layouts the lexer reads back token by token: whitespace separators, valid tokens, and
      every token followed by text that ends it. */
  predicate Lexable(d: Dialect, ts: seq<Token>, seps: seq<string>)
    decreases ts
  {
    && |seps| == |ts| + 1
    && AllSpace(seps[0])
    && (ts != [] ==>
          ValidToken(d, ts[0]) && EndsToken(d, ts[0], Layout(ts[1..], seps[1..])) &&
          Lexable(d, ts[1..], seps[1..]))
  }

  /** Token `b` may directly follow token `a` with no whitespace between them: after a parenthesis;
      a parenthesis after a name or a number, which it cannot extend; and a closing parenthesis
      after a string literal, provided no other literal starts before the next whitespace (see
      `Separators`). */
  predicate MayAbut(a: Token, b: Token) {
    a.Open? || a.Close? || ((a.Name? || a.Numeral?) && (b.Open? || b.Close?)) || (a.Quoted? && b.Close?)
  }

  /** A string literal starts in the layout before its first whitespace. */
  predicate QuoteAhead(ts: seq<Token>, seps: seq<string>)
    requires |seps| == |ts| + 1
    decreases ts
  {
    seps[0] == [] && ts != [] && (ts[0].Quoted? || QuoteAhead(ts[1..], seps[1..]))
  }

  /** Separators that are whitespace only, non-empty between two tokens that may not abut, and
      with whitespace after a string literal before any other string literal. This is a syntactic
      condition under which every token ends where it should. */
  predicate Separators(ts: seq<Token>, seps: seq<string>) {
    && |seps| == |ts| + 1
    && (forall i :: 0 <= i < |seps| ==> AllSpace(seps[i]))
    && (forall i :: 0 < i < |ts| ==> |seps[i]| > 0 || MayAbut(ts[i - 1], ts[i]))
    && (forall i :: 0 < i < |ts| && ts[i - 1].Quoted? ==> !QuoteAhead(ts[i..], seps[i..]))
  }

  /** Leading whitespace is skipped. */
  lemma {:induction false} LexSkipsSpace(d: Dialect, w: string, s: string)
    requires AllSpace(w)
    ensures Lex(d, w + s) == Lex(d, s)
    decreases |w|
  {
    if w == [] {
      assert w + s == s;
    } else {
      assert w + s != [] && (w + s)[0] == w[0];
      assert (w + s)[1..] == w[1..] + s;
      assert Lex(d, w + s) == Lex(d, w[1..] + s);
      LexSkipsSpace(d, w[1..], s);
    }
  }

  lemma {:induction false} DigitRunStops(x: string, r: string)
    requires AllDigits(x)
    requires r == [] || !IsDigit(r[0])
    ensures DigitRun(x + r) == |x|
    decreases |x|
  {
    if x == [] {
      assert x + r == r;
    } else {
      assert (x + r)[0] == x[0];
      assert (x + r)[1..] == x[1..] + r;
      DigitRunStops(x[1..], r);
    }
  }

  lemma {:induction false} FuncRunStops(d: Dialect, x: string, r: string)
    requires forall i :: 0 <= i < |x| ==> IsFuncChar(d, x[i])
    requires r == [] || !IsFuncChar(d, r[0])
    ensures FuncRun(d, x + r) == |x|
    decreases |x|
  {
    if x == [] {
      assert x + r == r;
    } else {
      assert (x + r)[0] == x[0];
      assert (x + r)[1..] == x[1..] + r;
      FuncRunStops(d, x[1..], r);
    }
  }

  lemma {:induction false} NonSpaceRunAppend(x: string, r: string)
    requires forall i :: 0 <= i < |x| ==> !IsSpace(x[i])
    ensures NonSpaceRun(x + r) == |x| + NonSpaceRun(r)
    decreases |x|
  {
    if x == [] {
      assert x + r == r;
    } else {
      assert (x + r)[0] == x[0];
      assert (x + r)[1..] == x[1..] + r;
      NonSpaceRunAppend(x[1..], r);
    }
  }

  lemma {:induction false} LastQuoteIs(s: string, n: nat, p: nat)
    requires n <= |s| && 1 <= p < n && s[p] == '"'
    requires forall q :: p < q < n ==> s[q] != '"'
    ensures LastQuote(s, n) == Some(p)
    decreases n
  {
    if n - 1 != p {
      LastQuoteIs(s, n - 1, p);
    }
  }

  /** The text of a valid token is non-empty and has no whitespace, and only a string literal has
      a double quote in it. */
  lemma TokenText(d: Dialect, t: Token)
    requires ValidToken(d, t)
    ensures |Text(t)| > 0
    ensures forall i :: 0 <= i < |Text(t)| ==> !IsSpace(Text(t)[i]) && (Text(t)[i] == '"' ==> t.Quoted?)
  {
    match t
    case Numeral(x) =>
      var k := DigitRun(x);
      forall i | 0 <= i < |x|
        ensures !IsSpace(x[i]) && x[i] != '"'
      {
        if i < k {
          assert x[..k][i] == x[i];
        } else if i > k {
          assert x[k + 1..][i - k - 1] == x[i];
        }
      }
    case _ =>
  }

  /** A numeral followed by something that ends it is read back whole. */
  lemma NumeralLengthOf(x: string, r: string)
    requires IsNumeral(x)
    requires EndsToken(Lisp, Numeral(x), r)
    ensures NumeralLength(x + r) == |x|
  {
    if DigitRun(x) == |x| {
      IntegerLengthOf(x, r);
    } else {
      FractionLengthOf(x, r);
    }
  }

  lemma IntegerLengthOf(x: string, r: string)
    requires IsNumeral(x) && DigitRun(x) == |x|
    requires EndsToken(Lisp, Numeral(x), r)
    ensures NumeralLength(x + r) == |x|
  {
    var s := x + r;
    assert x[..|x|] == x && x[|x|..] + r == r;
    assert s == x[..|x|] + (x[|x|..] + r);
    DigitRunStops(x, r);
    if r != [] {
      assert s[|x|] == r[0];
      if |r| > 1 {
        assert s[|x| + 1] == r[1];
      }
    }
  }

  lemma FractionLengthOf(x: string, r: string)
    requires IsNumeral(x) && DigitRun(x) < |x|
    requires EndsToken(Lisp, Numeral(x), r)
    ensures NumeralLength(x + r) == |x|
  {
    var s := x + r;
    var k := DigitRun(x);
    var y := x[k + 1..];
    assert x[k] == '.' && k + 1 < |x| && AllDigits(y);
    FractionSplit(x, r, k, y);
    DigitRunStops(x[..k], x[k..] + r);
    DigitRunStops(y, r);
    assert DigitRun(s) == k;
    assert s[k] == '.' && IsDigit(s[k + 1]);
    assert DigitRun(s[k + 1..]) == |y|;
    NumeralLengthFraction(s, k);
  }

  /** Where a dot and a digit follow the integer part, the number token takes the fraction's digits. */
  lemma NumeralLengthFraction(s: string, k: nat)
    requires |s| > 0 && IsDigit(s[0]) && k == DigitRun(s)
    requires k + 1 < |s| && s[k] == '.' && IsDigit(s[k + 1])
    ensures NumeralLength(s) == k + 1 + DigitRun(s[k + 1..])
  {
  }

  lemma FractionSplit(x: string, r: string, k: nat, y: string)
    requires k + 1 < |x| && x[k] == '.' && y == x[k + 1..]
    ensures x + r == x[..k] + (x[k..] + r)
    ensures (x[k..] + r)[0] == '.'
    ensures (x + r)[k] == '.' && (x + r)[k + 1] == x[k + 1]
    ensures (x + r)[k + 1..] == y + r
  {
    assert x == x[..k] + x[k..];
    assert x == x[..k + 1] + y;
  }


  /** Whitespace and parentheses end a number and a name. */
  lemma Delimiter(d: Dialect, c: char)
    requires IsSpace(c) || c == '(' || c == ')'
    ensures !IsDigit(c) && c != '.' && !IsFuncChar(d, c)
  {
    assert c == ' ' || c == '\t' || c == '\n' || c == '(' || c == ')';
  }

  /** A valid token followed by something that ends it is scanned back as itself. */
  lemma ScanReadsToken(d: Dialect, t: Token, r: string)
    requires ValidToken(d, t) && EndsToken(d, t, r)
    ensures Scan(d, Text(t) + r) == Ok((t, |Text(t)|))
  {
    var x := Text(t);
    var s := x + r;
    TokenText(d, t);
    assert s[0] == x[0];
    assert s[..|x|] == x;
    match t
    case Open =>
    case Close =>
    case Name(_) => ScanReadsName(d, x, r);
    case Numeral(_) => ScanReadsNumeral(d, x, r);
    case Quoted(_) => ScanReadsQuoted(d, x, r);
  }

  lemma ScanReadsName(d: Dialect, x: string, r: string)
    requires IsFuncName(d, x) && (r == [] || !IsFuncChar(d, r[0]))
    ensures Scan(d, x + r) == Ok((Name(x), |x|))
  {
    var s := x + r;
    assert s[0] == x[0] && s[..|x|] == x;
    assert IsFuncChar(d, x[0]);
    FuncRunStops(d, x, r);
    if d == Query {
      assert !IsDigit(s[0]) && s[0] != '"';
    }
  }

  lemma ScanReadsNumeral(d: Dialect, x: string, r: string)
    requires IsNumeral(x) && EndsToken(d, Numeral(x), r)
    ensures Scan(d, x + r) == Ok((Numeral(x), |x|))
  {
    var s := x + r;
    assert s[0] == x[0] && s[..|x|] == x;
    assert DigitRun(x) > 0;
    assert IsDigit(s[0]);
    NumeralLengthOf(x, r);
  }

  lemma ScanReadsQuoted(d: Dialect, x: string, r: string)
    requires IsQuoted(x) && EndsToken(d, Quoted(x), r)
    ensures Scan(d, x + r) == Ok((Quoted(x), |x|))
  {
    var s := x + r;
    assert s[0] == x[0] == '"' && s[..|x|] == x;
    var run := QuotedRun(x, r);
    LastQuoteIs(s, run, |x| - 1);
  }

  /** The non-whitespace run after the opening quote of a string literal reaches past its closing
      quote, with no other quote after that. */
  lemma QuotedRun(x: string, r: string) returns (run: nat)
    requires IsQuoted(x) && EndsToken(Lisp, Quoted(x), r)
    ensures run == 1 + NonSpaceRun((x + r)[1..]) && |x| <= run <= |x + r|
    ensures forall q :: |x| - 1 < q < run ==> (x + r)[q] != '"'
  {
    var s := x + r;
    var body := x[1..];
    assert s[1..] == body + r;
    NonSpaceRunAppend(body, r);
    run := 1 + NonSpaceRun(s[1..]);
    assert run == |x| + NonSpaceRun(r);
    forall q | |x| - 1 < q < run
      ensures s[q] != '"'
    {
      assert s[q] == r[q - |x|];
    }
  }

  /** Conversely, the scanner stops only where what follows ends the token it read. */
  lemma ScanEnds(d: Dialect, s: string)
    requires |s| > 0 && !IsSpace(s[0]) && Scan(d, s).Ok?
    ensures EndsToken(d, Scan(d, s).value.0, s[Scan(d, s).value.1..])
  {
    var t := Scan(d, s).value.0;
    var n := Scan(d, s).value.1;
    var r := s[n..];
    if r != [] {
      assert r[0] == s[n];
    }
    if |r| > 1 {
      assert r[1] == s[n + 1];
    }
    match t
    case Open =>
    case Close =>
    case Name(_) =>
    case Numeral(x) =>
      assert n == NumeralLength(s);
      DigitRunPrefix(s, n);
    case Quoted(_) =>
      forall q | 0 <= q < NonSpaceRun(r)
        ensures r[q] != '"'
      {
        forall i | n <= i < n + q
          ensures !IsSpace(s[i])
        {
          assert s[i] == r[i - n];
        }
        assert r[q] == s[n + q];
      }
  }

  /** A valid token is scanned back as itself exactly when what follows it ends it. */
  lemma ScanToken(d: Dialect, t: Token, r: string)
    requires ValidToken(d, t)
    ensures |Text(t) + r| > 0 && !IsSpace((Text(t) + r)[0])
    ensures Scan(d, Text(t) + r) == Ok((t, |Text(t)|)) <==> EndsToken(d, t, r)
  {
    var s := Text(t) + r;
    TokenText(d, t);
    assert s[0] == Text(t)[0];
    if EndsToken(d, t, r) {
      ScanReadsToken(d, t, r);
    }
    if Scan(d, s) == Ok((t, |Text(t)|)) {
      ScanEnds(d, s);
      assert s[|Text(t)|..] == r;
    }
  }

  /** With no string literal before the next whitespace, a layout has no double quote there. */
  lemma {:induction false} QuoteFreeRun(d: Dialect, ts: seq<Token>, seps: seq<string>)
    requires |seps| == |ts| + 1 && (forall i :: 0 <= i < |seps| ==> AllSpace(seps[i]))
    requires forall i :: 0 <= i < |ts| ==> ValidToken(d, ts[i])
    requires !QuoteAhead(ts, seps)
    ensures forall q :: 0 <= q < NonSpaceRun(Layout(ts, seps)) ==> Layout(ts, seps)[q] != '"'
    decreases |ts|
  {
    var l := Layout(ts, seps);
    if |seps[0]| > 0 {
      assert l[0] == seps[0][0];
    } else if ts != [] {
      var x := Text(ts[0]);
      var rest := Layout(ts[1..], seps[1..]);
      assert l == x + rest;
      assert !ts[0].Quoted? && !QuoteAhead(ts[1..], seps[1..]);
      TokenText(d, ts[0]);
      QuoteFreeRun(d, ts[1..], seps[1..]);
      QuoteFreeAppend(x, rest);
    }
  }

  /** A quote-free word without whitespace in front of a quote-free run keeps the run quote-free. */
  lemma QuoteFreeAppend(x: string, rest: string)
    requires forall i :: 0 <= i < |x| ==> !IsSpace(x[i]) && x[i] != '"'
    requires forall q :: 0 <= q < NonSpaceRun(rest) ==> rest[q] != '"'
    ensures forall q :: 0 <= q < NonSpaceRun(x + rest) ==> (x + rest)[q] != '"'
  {
    var l := x + rest;
    NonSpaceRunAppend(x, rest);
    forall q | 0 <= q < NonSpaceRun(l)
      ensures l[q] != '"'
    {
      if q < |x| {
        assert l[q] == x[q];
      } else {
        assert l[q] == rest[q - |x|];
      }
    }
  }

  /** In a layout with separators, what follows the first token ends it. */
  lemma LayoutTailEndsToken(d: Dialect, ts: seq<Token>, seps: seq<string>)
    requires |ts| > 0 && Separators(ts, seps)
    requires forall i :: 0 <= i < |ts| ==> ValidToken(d, ts[i])
    ensures EndsToken(d, ts[0], Layout(ts[1..], seps[1..]))
  {
    var us := ts[1..];
    var vs := seps[1..];
    var tail := Layout(us, vs);
    assert vs[0] == seps[1];
    if ts[0].Quoted? {
      QuoteFreeRun(d, us, vs);
    } else if (ts[0].Name? || ts[0].Numeral?) && tail != [] {
      assert IsSpace(tail[0]) || tail[0] == '(' || tail[0] == ')' by {
        if us == [] {
          assert tail == seps[1];
        } else if |seps[1]| > 0 {
          assert tail[0] == seps[1][0];
        } else {
          assert MayAbut(ts[0], ts[1]);
          assert tail == Text(us[0]) + Layout(us[1..], vs[1..]);
          assert tail[0] == Text(us[0])[0];
        }
      }
      Delimiter(d, tail[0]);
    }
  }

  lemma SeparatorsSuffix(ts: seq<Token>, seps: seq<string>, k: nat)
    requires Separators(ts, seps) && k <= |ts|
    ensures Separators(ts[k..], seps[k..])
  {
    var us, vs := ts[k..], seps[k..];
    forall i | 0 < i < |us|
      ensures |vs[i]| > 0 || MayAbut(us[i - 1], us[i])
      ensures us[i - 1].Quoted? ==> !QuoteAhead(us[i..], vs[i..])
    {
      assert us[i - 1] == ts[k + i - 1] && us[i] == ts[k + i] && vs[i] == seps[k + i];
      assert us[i..] == ts[k + i..] && vs[i..] == seps[k + i..];
    }
  }

  /** Every layout with separators is one the lexer reads back. */
  lemma {:induction false} SeparatorsLexable(d: Dialect, ts: seq<Token>, seps: seq<string>)
    requires forall i :: 0 <= i < |ts| ==> ValidToken(d, ts[i])
    requires Separators(ts, seps)
    ensures Lexable(d, ts, seps)
    decreases |ts|
  {
    if ts != [] {
      LayoutTailEndsToken(d, ts, seps);
      SeparatorsSuffix(ts, seps, 1);
      assert forall i :: 0 <= i < |ts[1..]| ==> ts[1..][i] == ts[i + 1];
      SeparatorsLexable(d, ts[1..], seps[1..]);
    }
  }

  /** Whitespace in front of a layout the lexer accepts is absorbed by its first separator. */
  lemma LexablePrependSpace(d: Dialect, ts: seq<Token>, seps: seq<string>, w: string)
    requires Lexable(d, ts, seps) && AllSpace(w)
    ensures Lexable(d, ts, [w + seps[0]] + seps[1..])
    ensures Layout(ts, [w + seps[0]] + seps[1..]) == w + Layout(ts, seps)
  {
    var seps2 := [w + seps[0]] + seps[1..];
    LayoutPrepend(ts, seps, w);
    assert seps2[1..] == seps[1..];
    forall i | 0 <= i < |seps2[0]|
      ensures IsSpace(seps2[0][i])
    {
      if i >= |w| {
        assert seps2[0][i] == seps[0][i - |w|];
      }
    }
  }

  /** A token ended by what follows it extends a layout the lexer accepts. */
  lemma LexableCons(d: Dialect, t: Token, ts: seq<Token>, seps: seq<string>)
    requires Lexable(d, ts, seps) && ValidToken(d, t) && EndsToken(d, t, Layout(ts, seps))
    ensures Lexable(d, [t] + ts, [""] + seps)
    ensures Layout([t] + ts, [""] + seps) == Text(t) + Layout(ts, seps)
  {
    var us, vs := [t] + ts, [""] + seps;
    assert us[1..] == ts && vs[1..] == seps;
  }

  /** Reading back a layout the lexer accepts yields exactly its tokens. */
  lemma {:induction false} LexLayout(d: Dialect, ts: seq<Token>, seps: seq<string>)
    requires Lexable(d, ts, seps)
    ensures Lex(d, Layout(ts, seps)) == Ok(ts)
    decreases |ts|
  {
    if ts == [] {
      assert seps[0] + [] == seps[0];
      LexSkipsSpace(d, seps[0], []);
    } else {
      var t := ts[0];
      var tail := Layout(ts[1..], seps[1..]);
      LexLayout(d, ts[1..], seps[1..]);
      LexReadsToken(d, t, tail, ts[1..]);
      assert Layout(ts, seps) == seps[0] + (Text(t) + tail);
      LexSkipsSpace(d, seps[0], Text(t) + tail);
      assert [t] + ts[1..] == ts;
    }
  }

  /** A token ended by what follows it is the first token the lexer returns. */
  lemma LexReadsToken(d: Dialect, t: Token, tail: string, rest: seq<Token>)
    requires ValidToken(d, t) && EndsToken(d, t, tail) && Lex(d, tail) == Ok(rest)
    ensures Lex(d, Text(t) + tail) == Ok([t] + rest)
  {
    ScanReadsToken(d, t, tail);
    var s := Text(t) + tail;
    TokenText(d, t);
    assert s[0] == Text(t)[0];
    assert s[|Text(t)|..] == tail;
  }

  lemma LayoutPrepend(ts: seq<Token>, seps: seq<string>, w: string)
    requires |seps| == |ts| + 1
    ensures Layout(ts, [w + seps[0]] + seps[1..]) == w + Layout(ts, seps)
  {
    var seps2 := [w + seps[0]] + seps[1..];
    assert seps2[1..] == seps[1..];
  }

  /** The whitespace the lexer skips before each token it returns, and after the last one. */
  ghost function Gaps(d: Dialect, s: string): (seps: seq<string>)
    requires Lex(d, s).Ok?
    ensures |seps| == |Lex(d, s).value| + 1
    decreases |s|
  {
    if s == [] then [""]
    else if IsSpace(s[0]) then
      var g := Gaps(d, s[1..]);
      [s[..1] + g[0]] + g[1..]
    else
      [""] + Gaps(d, s[Scan(d, s).value.1..])
  }

  /** The tokens the lexer returns, with the whitespace it skipped between them, spell the input,
      and each of them is ended by what follows it. */
  lemma {:induction false} LexSound(d: Dialect, s: string)
    requires Lex(d, s).Ok?
    ensures Lexable(d, Lex(d, s).value, Gaps(d, s)) && s == Layout(Lex(d, s).value, Gaps(d, s))
    decreases |s|
  {
    var ts := Lex(d, s).value;
    if s == [] {
    } else if IsSpace(s[0]) {
      LexSound(d, s[1..]);
      var g := Gaps(d, s[1..]);
      var w := s[..1];
      assert AllSpace(w);
      LexablePrependSpace(d, ts, g, w);
      assert s == w + s[1..];
    } else {
      LexScanned(d, s);
      var t := Scan(d, s).value.0;
      var n := Scan(d, s).value.1;
      var rest := Lex(d, s[n..]).value;
      LexSound(d, s[n..]);
      var g := Gaps(d, s[n..]);
      ScanEnds(d, s);
      LexableToken(d, s, n, t, rest, g);
    }
  }

  /** A scanned token in front of a layout the lexer accepts gives a layout of the whole text. */
  lemma LexableToken(d: Dialect, s: string, n: nat, t: Token, rest: seq<Token>, g: seq<string>)
    requires 0 < n <= |s| && Text(t) == s[..n] && ValidToken(d, t) && EndsToken(d, t, s[n..])
    requires Lexable(d, rest, g) && s[n..] == Layout(rest, g)
    ensures Lexable(d, [t] + rest, [""] + g) && s == Layout([t] + rest, [""] + g)
  {
    LexableCons(d, t, rest, g);
    assert s == s[..n] + s[n..];
  }

  /** One step of the lexer at a token. */
  lemma LexScanned(d: Dialect, s: string)
    requires s != [] && !IsSpace(s[0]) && Lex(d, s).Ok?
    ensures Scan(d, s).Ok? && Lex(d, s[Scan(d, s).value.1..]).Ok?
    ensures Lex(d, s).value == [Scan(d, s).value.0] + Lex(d, s[Scan(d, s).value.1..]).value
    ensures Gaps(d, s) == [""] + Gaps(d, s[Scan(d, s).value.1..])
  {
  }

  /** The lexer is exact: it returns `ts` for `s` if and only if `s` is a layout of `ts` in which
      every token is ended by what follows it. */
  lemma LexExactly(d: Dialect, s: string, ts: seq<Token>)
    ensures Lex(d, s) == Ok(ts) <==> exists seps :: Lexable(d, ts, seps) && s == Layout(ts, seps)
  {
    if Lex(d, s) == Ok(ts) {
      LexSound(d, s);
      assert Lexable(d, ts, Gaps(d, s)) && s == Layout(ts, Gaps(d, s));
    }
    if exists seps :: Lexable(d, ts, seps) && s == Layout(ts, seps) {
      var seps :| Lexable(d, ts, seps) && s == Layout(ts, seps);
      LexLayout(d, ts, seps);
    }
  }

  /** Lexing fails, with a lexical error, exactly when the text is no such layout of any tokens. */
  lemma LexFails(d: Dialect, s: string)
    ensures Lex(d, s).Err? <==> forall ts, seps :: !(Lexable(d, ts, seps) && s == Layout(ts, seps))
    ensures Lex(d, s).Err? ==> Lex(d, s).error == LexError
  {
    if Lex(d, s).Ok? {
      LexSound(d, s);
      assert Lexable(d, Lex(d, s).value, Gaps(d, s)) && s == Layout(Lex(d, s).value, Gaps(d, s));
    }
    forall ts, seps | Lexable(d, ts, seps) && s == Layout(ts, seps)
      ensures Lex(d, s).Ok?
    {
      LexLayout(d, ts, seps);
    }
  }

  /** Whitespace between tokens is insignificant: two separated layouts of the same tokens lex alike. */
  lemma LexIgnoresSpacing(d: Dialect, ts: seq<Token>, seps1: seq<string>, seps2: seq<string>)
    requires forall i :: 0 <= i < |ts| ==> ValidToken(d, ts[i])
    requires Separators(ts, seps1) && Separators(ts, seps2)
    ensures Lex(d, Layout(ts, seps1)) == Lex(d, Layout(ts, seps2)) == Ok(ts)
  {
    SeparatorsLexable(d, ts, seps1);
    SeparatorsLexable(d, ts, seps2);
    LexLayout(d, ts, seps1);
    LexLayout(d, ts, seps2);
  }

  /** A call without params and without any whitespace, `(name)`, lexes as its three tokens. */
  lemma LexBareCall(d: Dialect, n: string)
    requires IsFuncName(d, n)
    ensures Lex(d, "(" + n + ")") == Ok([Open, Name(n), Close])
  {
    var ts := [Open, Name(n), Close];
    var seps := ["", "", "", ""];
    BareCallSeparators(n, ts, seps);
    BareCallLayout(n, ts, seps);
    assert forall i :: 0 <= i < |ts| ==> ValidToken(d, ts[i]);
    SeparatorsLexable(d, ts, seps);
    LexLayout(d, ts, seps);
  }

  lemma BareCallSeparators(n: string, ts: seq<Token>, seps: seq<string>)
    requires ts == [Open, Name(n), Close] && seps == ["", "", "", ""]
    ensures Separators(ts, seps)
  {
    assert MayAbut(ts[0], ts[1]) && MayAbut(ts[1], ts[2]);
  }

  lemma BareCallLayout(n: string, ts: seq<Token>, seps: seq<string>)
    requires ts == [Open, Name(n), Close] && seps == ["", "", "", ""]
    ensures Layout(ts, seps) == "(" + n + ")"
  {
    assert ts[1..] == [Name(n), Close] && ts[2..] == [Close] && ts[3..] == [];
    assert seps[1..] == ["", "", ""] && seps[2..] == ["", ""] && seps[3..] == [""];
    assert Layout(ts[3..], seps[3..]) == "";
    assert Layout(ts[2..], seps[2..]) == "" + ")" + "";
    assert Layout(ts[1..], seps[1..]) == "" + n + ")";
    assert Layout(ts, seps) == "" + "(" + (n + ")");
  }

  /** There are no signed literals: a `-` always starts a function name, in both grammars. */
  lemma MinusStartsName(d: Dialect, s: string)
    requires |s| > 0 && s[0] == '-'
    ensures Scan(d, s).Ok? && Scan(d, s).value.0.Name?
  {
    assert IsFuncChar(d, s[0]);
    assert !IsDigit(s[0]) && s[0] != '"' && s[0] != '(' && s[0] != ')';
  }
}
