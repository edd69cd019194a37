/** The bottom-up transformer of lisp.py:17-45 (and its copy at query.py:41-67): literals become
    values, a call's func name is looked up in the function dictionary, and the function is applied
    to the already-transformed params, in written order. */
module Transformer {
  import opened Results
  import opened Grammar
  import opened Parser

  /** What a param can be: an `int`, a `float` (kept as its literal text), a `str`. Builtins that
      return other kinds of Python objects are not part of this model. */
  datatype Value = Int(i: int) | Float(text: string) | Str(s: string)

  /** A callable of the function dictionary; raising is returning `Err`. */
  type Builtin = seq<Value> -> Result<Value, QueryError>

  type FuncTable = map<string, Builtin>

  // ---------------------------------------------------------------------------------------------
  // Literals

  function DigitValue(c: char): int {
    c as int - '0' as int
  }

  /** Python's `int(s)` on a string of decimal digits. */
  function DecimalValue(s: string): int
    decreases |s|
  {
    if s == [] then 0 else DecimalValue(s[..|s| - 1]) * 10 + DigitValue(s[|s| - 1])
  }

  /** The decimal digits of `n`, most significant first, without leading zeros. */
  function DecimalText(n: nat): (s: string)
    ensures |s| > 0 && AllDigits(s)
  {
    var last := ['0' + (n % 10) as char];
    if n < 10 then last else DecimalText(n / 10) + last
  }

  /** Reading back the digits of `n` gives `n`. */
  lemma {:induction false} DecimalRoundTrip(n: nat)
    ensures DecimalValue(DecimalText(n)) == n
  {
    var s := DecimalText(n);
    assert s[|s| - 1] == '0' + (n % 10) as char;
    if n >= 10 {
      assert s[..|s| - 1] == DecimalText(n / 10);
      DecimalRoundTrip(n / 10);
    } else {
      assert s[..|s| - 1] == [];
    }
  }

  /** The `number` rule: `int(text)` when that succeeds, i.e. when the literal has no dot,
      otherwise `float(text)`. */
  function NumberValue(text: string): (v: Value)
    ensures IsNumeral(text) ==> (v.Int? <==> AllDigits(text))
    ensures v.Float? ==> v.text == text
    ensures !v.Str?
  {
    NumeralDot(text);
    if '.' in text then Float(text) else Int(DecimalValue(text))
  }

  /** A numeral has a dot exactly when it has a fractional part. */
  lemma NumeralDot(x: string)
    ensures IsNumeral(x) ==> ('.' in x <==> !AllDigits(x))
  {
    if IsNumeral(x) && !AllDigits(x) {
      var k := DigitRun(x);
      assert k < |x|;
      assert x[k] == '.';
    }
  }

  /** The `string` rule: the token with its first and last characters cut off (`[1:-1]`, which is
      empty for a token shorter than two characters). No escape sequence is interpreted. */
  function StringValue(text: string): (v: Value)
    ensures v.Str?
    ensures |text| >= 2 ==> text == [text[0]] + v.s + [text[|text| - 1]]
    ensures |text| < 2 ==> v.s == ""
  {
    if |text| < 2 then Str("") else Str(text[1..|text| - 1])
  }

  /** A digits-only literal is the integer it spells: writing `n` in decimal and transforming it
      gives back `n`. */
  lemma IntegerLiteral(n: nat)
    ensures IsNumeral(DecimalText(n))
    ensures NumberValue(DecimalText(n)) == Int(n)
  {
    var s := DecimalText(n);
    DigitsOnlyRun(s);
    DecimalRoundTrip(n);
    assert forall i :: 0 <= i < |s| ==> s[i] != '.';
  }

  /** Leading zeros do not change an integer literal: `int("007") == 7`. */
  lemma ZeroPaddedLiteral(z: string, n: nat)
    requires forall i :: 0 <= i < |z| ==> z[i] == '0'
    ensures IsNumeral(z + DecimalText(n))
    ensures NumberValue(z + DecimalText(n)) == Int(n)
  {
    var t := DecimalText(n);
    var s := z + t;
    assert AllDigits(s) by {
      forall i | 0 <= i < |s|
        ensures IsDigit(s[i])
      {
        if i >= |z| {
          assert s[i] == t[i - |z|];
        }
      }
    }
    DigitsOnlyRun(s);
    LeadingZeros(z, t);
    DecimalRoundTrip(n);
    assert forall i :: 0 <= i < |s| ==> s[i] != '.';
  }

  /** Zeros in front of digits add nothing to their value. */
  lemma {:induction false} LeadingZeros(z: string, t: string)
    requires forall i :: 0 <= i < |z| ==> z[i] == '0'
    ensures DecimalValue(z + t) == DecimalValue(t)
    decreases |t|
  {
    if t == [] {
      assert z + t == z;
      AllZeros(z);
    } else {
      var s := z + t;
      assert s[..|s| - 1] == z + t[..|t| - 1];
      assert s[|s| - 1] == t[|t| - 1];
      LeadingZeros(z, t[..|t| - 1]);
    }
  }

  lemma {:induction false} AllZeros(z: string)
    requires forall i :: 0 <= i < |z| ==> z[i] == '0'
    ensures DecimalValue(z) == 0
    decreases |z|
  {
    if z != [] {
      AllZeros(z[..|z| - 1]);
    }
  }

  lemma {:induction false} DigitsOnlyRun(s: string)
    requires AllDigits(s)
    ensures DigitRun(s) == |s|
    decreases |s|
  {
    if s != [] {
      DigitsOnlyRun(s[1..]);
    }
  }

  /** A numeral with a fractional part becomes a float, tagged with its text. */
  lemma FloatLiteral(x: string)
    requires IsNumeral(x) && !AllDigits(x)
    ensures NumberValue(x) == Float(x)
  {
    var k := DigitRun(x);
    assert k < |x|;
    assert x[k] == '.';
  }

  // ---------------------------------------------------------------------------------------------
  // Evaluation

  /** The value of a tree and the func names applied while computing it, in application order. */
  datatype Reduction = Reduction(value: Value, applied: seq<string>)

  /** Transforms a tree bottom-up: the func name is looked up first (a missing name is the KeyError
      of the dictionary), then the params are transformed left to right, then the function is
      applied to their values. */
  function Eval(e: Tree, funcs: FuncTable): (r: Result<Reduction, QueryError>)
    ensures !e.Call? ==> r.Ok? && r.value.applied == []
    ensures e.Call? && e.name !in funcs ==> r == Err(UnknownFunction(e.name))
    ensures r.Ok? && e.Call? ==>
      e.name in funcs && exists vs :: |vs| == |e.params| && funcs[e.name](vs) == Ok(r.value.value)
  {
    match e
    case Number(x) => Ok(Reduction(NumberValue(x), []))
    case String(x) => Ok(Reduction(StringValue(x), []))
    case Call(n, ps) =>
      if n !in funcs then Err(UnknownFunction(n))
      else
        match EvalParams(ps, funcs)
        case Err(err) => Err(err)
        case Ok((vs, applied)) =>
          match funcs[n](vs)
          case Err(err) => Err(err)
          case Ok(v) => Ok(Reduction(v, applied + [n]))
  }

  function EvalParams(ps: seq<Tree>, funcs: FuncTable): (r: Result<(seq<Value>, seq<string>), QueryError>)
    ensures r.Ok? ==> |r.value.0| == |ps|
  {
    if ps == [] then Ok(([], []))
    else
      match Eval(ps[0], funcs)
      case Err(err) => Err(err)
      case Ok(first) =>
        match EvalParams(ps[1..], funcs)
        case Err(err) => Err(err)
        case Ok((vs, applied)) => Ok(([first.value] + vs, first.applied + applied))
  }

  /** Params are transformed independently of each other: the i-th value is the value of the
      i-th param. */
  lemma {:induction false} EvalParamsPointwise(ps: seq<Tree>, funcs: FuncTable)
    requires EvalParams(ps, funcs).Ok?
    ensures forall i :: 0 <= i < |ps| ==>
      Eval(ps[i], funcs).Ok? && Eval(ps[i], funcs).value.value == EvalParams(ps, funcs).value.0[i]
  {
    if ps != [] {
      EvalParamsPointwise(ps[1..], funcs);
      forall i | 0 < i < |ps|
        ensures Eval(ps[i], funcs).Ok? && Eval(ps[i], funcs).value.value == EvalParams(ps, funcs).value.0[i]
      {
        assert ps[i] == ps[1..][i - 1];
      }
    }
  }

  /** A call that reduces applies its function to the values of its params, in order. */
  lemma CallAppliesToParams(n: string, ps: seq<Tree>, funcs: FuncTable)
    requires Eval(Call(n, ps), funcs).Ok?
    ensures n in funcs
    ensures forall i :: 0 <= i < |ps| ==> Eval(ps[i], funcs).Ok?
    ensures funcs[n](seq(|ps|, i requires 0 <= i < |ps| && Eval(ps[i], funcs).Ok? => Eval(ps[i], funcs).value.value))
            == Ok(Eval(Call(n, ps), funcs).value.value)
  {
    EvalParamsPointwise(ps, funcs);
    var vs := EvalParams(ps, funcs).value.0;
    assert seq(|ps|, i requires 0 <= i < |ps| && Eval(ps[i], funcs).Ok? => Eval(ps[i], funcs).value.value) == vs;
  }

  /** Conversely, a call whose params reduce and whose function accepts their values reduces to
      the function's result, recording its name after the params' applications. */
  lemma CallEval(n: string, ps: seq<Tree>, vs: seq<Value>, applied: seq<string>, v: Value, table: FuncTable)
    requires n in table
    requires EvalParams(ps, table) == Ok((vs, applied))
    requires table[n](vs) == Ok(v)
    ensures Eval(Call(n, ps), table) == Ok(Reduction(v, applied + [n]))
  {
  }

  /** Params are transformed left to right: a failure is the failure of the first param that fails,
      every param before it having succeeded. */
  lemma {:induction false} EvalParamsFirstError(ps: seq<Tree>, funcs: FuncTable)
    requires EvalParams(ps, funcs).Err?
    ensures exists i :: 0 <= i < |ps| && Eval(ps[i], funcs) == Err(EvalParams(ps, funcs).error) &&
                        forall j :: 0 <= j < i ==> Eval(ps[j], funcs).Ok?
  {
    var err := EvalParams(ps, funcs).error;
    if Eval(ps[0], funcs).Err? {
      assert Eval(ps[0], funcs) == Err(err);
    } else {
      EvalParamsFirstError(ps[1..], funcs);
      var i :| 0 <= i < |ps[1..]| && Eval(ps[1..][i], funcs) == Err(err) &&
               forall j :: 0 <= j < i ==> Eval(ps[1..][j], funcs).Ok?;
      assert Eval(ps[i + 1], funcs) == Err(err);
      forall j | 0 <= j < i + 1
        ensures Eval(ps[j], funcs).Ok?
      {
        if j > 0 {
          assert ps[j] == ps[1..][j - 1];
        }
      }
    }
  }

  /** The call nodes of a tree in post-order: every call after all the calls nested in it, and
      sibling calls left to right. */
  function PostOrder(e: Tree): seq<string> {
    match e
    case Call(n, ps) => PostOrderParams(ps) + [n]
    case Number(_) => []
    case String(_) => []
  }

  function PostOrderParams(ps: seq<Tree>): seq<string> {
    if ps == [] then [] else PostOrder(ps[0]) + PostOrderParams(ps[1..])
  }

  /** Evaluation is bottom-up and visits every call exactly once: the functions are applied in
      the post-order of the tree. */
  lemma {:induction false} EvalAppliesInPostOrder(e: Tree, funcs: FuncTable)
    requires Eval(e, funcs).Ok?
    ensures Eval(e, funcs).value.applied == PostOrder(e)
    decreases e, 0
  {
    match e
    case Call(n, ps) => EvalParamsAppliesInPostOrder(ps, funcs);
    case Number(_) =>
    case String(_) =>
  }

  lemma {:induction false} EvalParamsAppliesInPostOrder(ps: seq<Tree>, funcs: FuncTable)
    requires EvalParams(ps, funcs).Ok?
    ensures EvalParams(ps, funcs).value.1 == PostOrderParams(ps)
    decreases ps, 1
  {
    if ps != [] {
      EvalAppliesInPostOrder(ps[0], funcs);
      EvalParamsAppliesInPostOrder(ps[1..], funcs);
    }
  }

  /** Every func name of the tree is a key of the dictionary. */
  predicate AllNamesBound(e: Tree, funcs: FuncTable) {
    match e
    case Call(n, ps) => n in funcs && AllParamsBound(ps, funcs)
    case Number(_) => true
    case String(_) => true
  }

  predicate AllParamsBound(ps: seq<Tree>, funcs: FuncTable) {
    ps == [] || (AllNamesBound(ps[0], funcs) && AllParamsBound(ps[1..], funcs))
  }

  /** A query that evaluates names only functions the dictionary has. */
  lemma {:induction false} EvalNeedsBoundNames(e: Tree, funcs: FuncTable)
    requires Eval(e, funcs).Ok?
    ensures AllNamesBound(e, funcs)
    decreases e, 0
  {
    match e
    case Call(n, ps) => EvalParamsNeedBoundNames(ps, funcs);
    case Number(_) =>
    case String(_) =>
  }

  lemma {:induction false} EvalParamsNeedBoundNames(ps: seq<Tree>, funcs: FuncTable)
    requires EvalParams(ps, funcs).Ok?
    ensures AllParamsBound(ps, funcs)
    decreases ps, 1
  {
    if ps != [] {
      EvalNeedsBoundNames(ps[0], funcs);
      EvalParamsNeedBoundNames(ps[1..], funcs);
    }
  }

  /** Where an error of an evaluation can come from: a name of the tree that the dictionary lacks
      (its KeyError), or one of the tree's functions raising on some arguments. */
  ghost predicate Raised(err: QueryError, names: seq<string>, funcs: FuncTable) {
    || (err.UnknownFunction? && err.name in names && err.name !in funcs)
    || exists n, vs :: n in names && n in funcs && funcs[n](vs) == Err(err)
  }

  lemma RaisedWider(err: QueryError, a: seq<string>, b: seq<string>, funcs: FuncTable)
    requires Raised(err, a, funcs)
    requires forall x :: x in a ==> x in b
    ensures Raised(err, b, funcs)
  {
    if !(err.UnknownFunction? && err.name in a && err.name !in funcs) {
      var n, vs :| n in a && n in funcs && funcs[n](vs) == Err(err);
      assert n in b;
    }
  }

  /** Evaluation fails only where the program raises: at an unbound name of the tree, or inside one
      of the tree's functions. */
  lemma {:induction false} EvalFailsOnlyInBuiltins(e: Tree, funcs: FuncTable)
    ensures Eval(e, funcs).Err? ==> Raised(Eval(e, funcs).error, PostOrder(e), funcs)
    decreases e, 0
  {
    match e
    case Call(n, ps) =>
      if n in funcs && EvalParams(ps, funcs).Err? {
        EvalParamsFailOnlyInBuiltins(ps, funcs);
        RaisedWider(EvalParams(ps, funcs).error, PostOrderParams(ps), PostOrder(e), funcs);
      } else if n in funcs && EvalParams(ps, funcs).Ok? {
        var vs := EvalParams(ps, funcs).value.0;
        assert n in PostOrder(e);
        if funcs[n](vs).Err? {
          assert Eval(e, funcs) == Err(funcs[n](vs).error);
        }
      }
    case Number(_) =>
    case String(_) =>
  }

  lemma {:induction false} EvalParamsFailOnlyInBuiltins(ps: seq<Tree>, funcs: FuncTable)
    ensures EvalParams(ps, funcs).Err? ==> Raised(EvalParams(ps, funcs).error, PostOrderParams(ps), funcs)
    decreases ps, 1
  {
    if ps != [] {
      var whole := PostOrderParams(ps);
      assert whole == PostOrder(ps[0]) + PostOrderParams(ps[1..]);
      if Eval(ps[0], funcs).Err? {
        EvalFailsOnlyInBuiltins(ps[0], funcs);
        RaisedWider(Eval(ps[0], funcs).error, PostOrder(ps[0]), whole, funcs);
      } else {
        EvalParamsFailOnlyInBuiltins(ps[1..], funcs);
        if EvalParams(ps[1..], funcs).Err? {
          RaisedWider(EvalParams(ps[1..], funcs).error, PostOrderParams(ps[1..]), whole, funcs);
        }
      }
    }
  }

  /** Every name of a tree whose names are all bound is a key of the dictionary. */
  lemma {:induction false} BoundNamesInPostOrder(e: Tree, funcs: FuncTable)
    requires AllNamesBound(e, funcs)
    ensures forall x :: x in PostOrder(e) ==> x in funcs
    decreases e, 0
  {
    match e
    case Call(n, ps) => BoundParamNamesInPostOrder(ps, funcs);
    case Number(_) =>
    case String(_) =>
  }

  lemma {:induction false} BoundParamNamesInPostOrder(ps: seq<Tree>, funcs: FuncTable)
    requires AllParamsBound(ps, funcs)
    ensures forall x :: x in PostOrderParams(ps) ==> x in funcs
    decreases ps, 1
  {
    if ps != [] {
      BoundNamesInPostOrder(ps[0], funcs);
      BoundParamNamesInPostOrder(ps[1..], funcs);
    }
  }

  /** Functions that never raise the dictionary's KeyError themselves. */
  ghost predicate NoBuiltinUnknown(funcs: FuncTable) {
    forall n, vs :: n in funcs && funcs[n](vs).Err? ==> !funcs[n](vs).error.UnknownFunction?
  }

  /** Conversely to `EvalNeedsBoundNames`: when every name of the tree is bound, evaluation does
      not fail with an unknown function, unless a function itself reports one. */
  lemma BoundNamesNoKeyError(e: Tree, funcs: FuncTable)
    requires AllNamesBound(e, funcs) && NoBuiltinUnknown(funcs)
    ensures Eval(e, funcs).Err? ==> !Eval(e, funcs).error.UnknownFunction?
  {
    EvalFailsOnlyInBuiltins(e, funcs);
    BoundNamesInPostOrder(e, funcs);
  }

  // ---------------------------------------------------------------------------------------------
  // The entry point

  /** `parse(expr, func_dict)`: lex, parse exactly one `expr`, transform it. A value comes from a
      call laid out as the text, and an error is a lexical or syntax error or comes from the
      call's names. */
  function ParseQuery(d: Dialect, text: string, funcs: FuncTable): (r: Result<Value, QueryError>)
    ensures r.Ok? ==>
      exists e: Tree, seps: seq<string> :: e.Call? && Lexable(d, Tokens(e), seps) && text == Layout(Tokens(e), seps) &&
        Eval(e, funcs).Ok? && Eval(e, funcs).value.value == r.value
    ensures r.Err? ==>
      r.error == LexError || r.error == SyntaxError ||
      exists e: Tree :: e.Call? && Lex(d, text) == Ok(Tokens(e)) && Raised(r.error, PostOrder(e), funcs)
  {
    match Lex(d, text)
    case Err(err) => Err(err)
    case Ok(ts) =>
      match ParseTokens(ts)
      case Err(err) => Err(err)
      case Ok(e) =>
        LexSound(d, text);
        EvalFailsOnlyInBuiltins(e, funcs);
        match Eval(e, funcs)
        case Err(err) => Err(err)
        case Ok(red) => Ok(red.value)
  }

  /** lisp.py's `parse`, whose func class admits every character but parentheses, digits, the
      double quote and whitespace. Its value is what one of the dictionary's functions returned,
      that of the outermost call; an unknown-function error names a missing key, unless a function
      reports one itself. */
  function LispParse(text: string, funcs: FuncTable): (r: Result<Value, QueryError>)
    ensures r.Ok? ==> exists n, vs :: n in funcs && funcs[n](vs) == Ok(r.value)
    ensures r.Err? && r.error.UnknownFunction? && NoBuiltinUnknown(funcs) ==> r.error.name !in funcs
  {
    ParseQuery(Lisp, text, funcs)
  }

  /** `(name)` in lisp.py's grammar calls the function bound to `name` with no arguments, or fails
      with the dictionary's KeyError. */
  lemma LispParseBareCall(n: string, funcs: FuncTable)
    requires IsFuncName(Lisp, n)
    ensures LispParse("(" + n + ")", funcs) == if n in funcs then funcs[n]([]) else Err(UnknownFunction(n))
  {
    var e := Call(n, []);
    LexBareCall(Lisp, n);
    assert Tokens(e) == [Open, Name(n), Close];
    ParseTokensExactly([Open, Name(n), Close], e);
    if n in funcs {
      assert EvalParams([], funcs) == Ok(([], []));
    }
  }

  /** The value of a query depends on its tree only: any layout of a call's tokens that the lexer
      reads back evaluates to the value of that call, or fails with the same error. */
  lemma ParseQueryLayout(d: Dialect, e: Tree, seps: seq<string>, funcs: FuncTable)
    requires e.Call? && Lexable(d, Tokens(e), seps)
    ensures ParseQuery(d, Layout(Tokens(e), seps), funcs) ==
      match Eval(e, funcs)
      case Ok(red) => Ok(red.value)
      case Err(err) => Err(err)
  {
    LexLayout(d, Tokens(e), seps);
    ParseTokensExactly(Tokens(e), e);
  }
}
