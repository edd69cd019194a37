/** Concrete queries and what they evaluate to, derived from the general lemmas: each text is
    shown to be a whitespace layout of a tree's tokens, and the tree is then evaluated. */
module Examples {
  import opened Results
  import opened Grammar
  import opened Parser
  import opened Transformer
  import opened Arithmetic

  /** `(+ 1 (* 2 3))`: the nested product is folded first, then the sum. */
  lemma NestedArithmetic()
    ensures QueryParse("(+ 1 (* 2 3))") == Ok(Int(7))
  {
    var e := NestedTree();
    var seps := NestedText(e);
    NestedValid(e);
    NestedEval();
    LayoutQuery(e, seps, "(+ 1 (* 2 3))", Ok(Reduction(Int(7), ["*", "+"])));
  }

  lemma NestedValid(e: Tree)
    requires e == NestedTree()
    ensures ValidTree(Query, e)
  {
    DigitNumeral('1');
    DigitNumeral('2');
    DigitNumeral('3');
  }

  /** A valid call laid out with separating whitespace reads back as the query it spells, whose
      value or error is that of the call's evaluation. */
  lemma LayoutQuery(e: Tree, seps: seq<string>, text: string, er: Result<Reduction, QueryError>)
    requires e.Call? && ValidTree(Query, e)
    requires Separators(Tokens(e), seps) && Layout(Tokens(e), seps) == text
    requires er == Eval(e, ArithmeticTable())
    ensures QueryParse(text) == match er
      case Ok(red) => Ok(red.value)
      case Err(err) => Err(err)
  {
    ValidTreeTokens(Query, e);
    SeparatorsLexable(Query, Tokens(e), seps);
    ParseQueryLayout(Query, e, seps, ArithmeticTable());
  }

  function NestedTree(): Tree {
    Call("+", [Number("1"), Call("*", [Number("2"), Number("3")])])
  }

  lemma NestedText(e: Tree) returns (seps: seq<string>)
    requires e == NestedTree()
    ensures Separators(Tokens(e), seps)
    ensures Layout(Tokens(e), seps) == "(+ 1 (* 2 3))"
  {
    NestedTokens();
    var ts := [Open, Name("+"), Numeral("1"), Open, Name("*"), Numeral("2"), Numeral("3"), Close, Close];
    seps := ["", "", " ", " ", "", " ", " ", "", "", ""];
    NestedSeparators(ts, seps);
    NestedLayout(ts, seps);
  }

  lemma NestedTokens()
    ensures Tokens(NestedTree()) ==
      [Open, Name("+"), Numeral("1"), Open, Name("*"), Numeral("2"), Numeral("3"), Close, Close]
  {
    var inner := Call("*", [Number("2"), Number("3")]);
    assert ParamTokens([Number("2"), Number("3")]) == [Numeral("2"), Numeral("3")] by {
      assert [Number("2"), Number("3")][1..] == [Number("3")];
      assert [Number("3")][1..] == [];
    }
    assert Tokens(inner) == [Open, Name("*"), Numeral("2"), Numeral("3"), Close];
    assert ParamTokens([Number("1"), inner]) == [Numeral("1")] + Tokens(inner) by {
      assert [Number("1"), inner][1..] == [inner];
      assert [inner][1..] == [];
    }
  }

  /** The separators of two layouts laid end to end: the last one of the first and the first one of
      the second merge. */
  function Join(seps: seq<string>, vs: seq<string>): (r: seq<string>)
    requires |seps| > 0 && |vs| > 0
    ensures |r| == |seps| + |vs| - 1
  {
    seps[..|seps| - 1] + [seps[|seps| - 1] + vs[0]] + vs[1..]
  }

  /** Laying out two token lists one after the other is laying out their concatenation. */
  lemma {:induction false} LayoutAppend(ts: seq<Token>, seps: seq<string>, us: seq<Token>, vs: seq<string>)
    requires |seps| == |ts| + 1 && |vs| == |us| + 1
    ensures Layout(ts + us, Join(seps, vs)) == Layout(ts, seps) + Layout(us, vs)
    decreases |ts|
  {
    var j := Join(seps, vs);
    if ts == [] {
      assert ts + us == us;
      assert j == [seps[0] + vs[0]] + vs[1..];
      LayoutPrepend(us, vs, seps[0]);
    } else {
      LayoutAppend(ts[1..], seps[1..], us, vs);
      var n := |seps|;
      assert (ts + us)[0] == ts[0] && (ts + us)[1..] == ts[1..] + us;
      assert seps[..n - 1][1..] == seps[1..][..n - 2];
      assert j[0] == seps[0];
      assert j[1..] == Join(seps[1..], vs);
      assert Layout(ts + us, j) == seps[0] + Text(ts[0]) + Layout(ts[1..] + us, Join(seps[1..], vs));
    }
  }

  /** Joining onto a layout that starts without whitespace appends its remaining separators. */
  lemma JoinTight(seps: seq<string>, vs: seq<string>)
    requires |seps| > 0 && |vs| > 0 && vs[0] == ""
    ensures Join(seps, vs) == seps + vs[1..]
  {
    var n := |seps|;
    assert seps[n - 1] + vs[0] == seps[n - 1];
    assert seps[..n - 1] + [seps[n - 1]] == seps;
  }

  lemma NestedSeparators(ts: seq<Token>, seps: seq<string>)
    requires ts == [Open, Name("+"), Numeral("1"), Open, Name("*"), Numeral("2"), Numeral("3"), Close, Close]
    requires seps == ["", "", " ", " ", "", " ", " ", "", "", ""]
    ensures Separators(ts, seps)
  {
    forall i | 0 <= i < |seps|
      ensures AllSpace(seps[i])
    {
    }
    forall i | 0 < i < |ts|
      ensures |seps[i]| > 0 || MayAbut(ts[i - 1], ts[i])
    {
    }
    assert forall i :: 0 <= i < |ts| ==> !ts[i].Quoted?;
  }

  lemma NestedChunk1()
    ensures Layout([Open, Name("+"), Numeral("1")], ["", "", " ", " "]) == "(+ 1 "
  {
    assert Layout([Numeral("1")], [" ", " "]) == " 1 ";
    assert Layout([Name("+"), Numeral("1")], ["", " ", " "]) == "+ 1 ";
  }

  lemma NestedChunk2()
    ensures Layout([Open, Name("*"), Numeral("2")], ["", "", " ", " "]) == "(* 2 "
  {
    assert Layout([Numeral("2")], [" ", " "]) == " 2 ";
    assert Layout([Name("*"), Numeral("2")], ["", " ", " "]) == "* 2 ";
  }

  lemma NestedChunk3()
    ensures Layout([Numeral("3"), Close, Close], ["", "", "", ""]) == "3))"
  {
    assert Layout([Close], ["", ""]) == ")";
    assert Layout([Close, Close], ["", "", ""]) == "))";
  }

  lemma NestedLayout(ts: seq<Token>, seps: seq<string>)
    requires ts == [Open, Name("+"), Numeral("1"), Open, Name("*"), Numeral("2"), Numeral("3"), Close, Close]
    requires seps == ["", "", " ", " ", "", " ", " ", "", "", ""]
    ensures Layout(ts, seps) == "(+ 1 (* 2 3))"
  {
    var c1, s1 := [Open, Name("+"), Numeral("1")], ["", "", " ", " "];
    var c2, s2 := [Open, Name("*"), Numeral("2")], ["", "", " ", " "];
    var c3, s3 := [Numeral("3"), Close, Close], ["", "", "", ""];
    NestedChunk1();
    NestedChunk2();
    NestedChunk3();
    LayoutAppend(c1, s1, c2, s2);
    LayoutAppend(c1 + c2, Join(s1, s2), c3, s3);
    NestedPieces(ts, seps, c1, s1, c2, s2, c3, s3);
  }

  lemma NestedPieces(ts: seq<Token>, seps: seq<string>, c1: seq<Token>, s1: seq<string>,
                     c2: seq<Token>, s2: seq<string>, c3: seq<Token>, s3: seq<string>)
    requires ts == [Open, Name("+"), Numeral("1"), Open, Name("*"), Numeral("2"), Numeral("3"), Close, Close]
    requires seps == ["", "", " ", " ", "", " ", " ", "", "", ""]
    requires c1 == [Open, Name("+"), Numeral("1")] && s1 == ["", "", " ", " "]
    requires c2 == [Open, Name("*"), Numeral("2")] && s2 == ["", "", " ", " "]
    requires c3 == [Numeral("3"), Close, Close] && s3 == ["", "", "", ""]
    ensures c1 + c2 + c3 == ts && Join(Join(s1, s2), s3) == seps
  {
    JoinTight(s1, s2);
    JoinTight(Join(s1, s2), s3);
    assert s1 + s2[1..] + s3[1..] == seps;
  }

  lemma NestedEval()
    ensures Eval(NestedTree(), ArithmeticTable()) == Ok(Reduction(Int(7), ["*", "+"]))
  {
    var table := ArithmeticTable();
    assert table["*"] == Multiply && table["+"] == Add;
    NestedEvalIn(table);
  }

  lemma NestedEvalIn(table: FuncTable)
    requires "*" in table && table["*"] == Multiply
    requires "+" in table && table["+"] == Add
    ensures Eval(NestedTree(), table) == Ok(Reduction(Int(7), ["*", "+"]))
  {
    var inner := Call("*", [Number("2"), Number("3")]);
    var none: seq<string> := [];
    SmallNumber('1', 1);
    InnerEvalIn(table);
    TwoParams(Number("1"), inner, Reduction(Int(1), []), Reduction(Int(6), ["*"]), table);
    TwoIntsSum(1, 6);
    assert none + ["*"] == ["*"];
    CallEval("+", [Number("1"), inner], [Int(1), Int(6)], ["*"], Int(7), table);
    assert ["*"] + ["+"] == ["*", "+"];
  }

  lemma InnerEvalIn(table: FuncTable)
    requires "*" in table && table["*"] == Multiply
    ensures Eval(Call("*", [Number("2"), Number("3")]), table) == Ok(Reduction(Int(6), ["*"]))
  {
    var inner := Call("*", [Number("2"), Number("3")]);
    SmallNumber('2', 2);
    SmallNumber('3', 3);
    TwoParams(Number("2"), Number("3"), Reduction(Int(2), []), Reduction(Int(3), []), table);
    assert inner.params == [Number("2"), Number("3")];
    var none: seq<string> := [];
    assert none + none == none;
    assert EvalParams(inner.params, table) == Ok(([Int(2), Int(3)], none));
    TwoIntsProduct(2, 3);
    CallEval("*", inner.params, [Int(2), Int(3)], none, Int(6), table);
    assert none + ["*"] == ["*"];
  }

  /** The sum of two integers, through the contract of `+`. */
  lemma TwoIntsSum(a: int, b: int)
    ensures Add([Int(a), Int(b)]) == Ok(Int(a + b))
  {
    var args := [Int(a), Int(b)];
    assert args[1..] == [Int(b)] && args[1..][1..] == [];
    assert AllInts(args);
    assert Ints(args) == [a, b];
    assert [a, b][1..] == [b] && [b][1..] == [];
    assert IntSum([b]) == b + IntSum([]);
    assert IntSum([a, b]) == a + IntSum([b]);
  }

  /** The product of two integers, through the contract of `*`. */
  lemma TwoIntsProduct(a: int, b: int)
    ensures Multiply([Int(a), Int(b)]) == Ok(Int(a * b))
  {
    var args := [Int(a), Int(b)];
    assert args[1..] == [Int(b)] && args[1..][1..] == [];
    assert AllInts(args);
    assert Ints(args) == [a, b];
    assert [a, b][1..] == [b] && [b][1..] == [];
    assert IntProduct([b]) == b * IntProduct([]);
    assert IntProduct([a, b]) == a * IntProduct([b]);
  }

  /** Two params that reduce on their own reduce together, left before right. */
  lemma TwoParams(a: Tree, b: Tree, ra: Reduction, rb: Reduction, table: FuncTable)
    requires Eval(a, table) == Ok(ra) && Eval(b, table) == Ok(rb)
    ensures EvalParams([a, b], table) == Ok(([ra.value, rb.value], ra.applied + rb.applied))
  {
    var ps := [a, b];
    assert ps[0] == a && ps[1..] == [b];
    assert ps[1..][0] == b && ps[1..][1..] == [];
    assert EvalParams(ps[1..][1..], table) == Ok(([], []));
    assert rb.applied + [] == rb.applied;
    var tail := EvalParams(ps[1..], table);
    assert tail.Ok?;
    assert tail.value.0 == [rb.value];
    assert tail.value.1 == rb.applied;
    var whole := EvalParams(ps, table);
    assert whole.Ok?;
    assert whole.value.0 == [ra.value, rb.value];
    assert whole.value.1 == ra.applied + rb.applied;
  }

  /** `(/ (- 7) 2)`: division floors, as Python 2 does on integers, so -7 / 2 is -4 and not -3. */
  lemma FloorExample()
    ensures QueryParse("(/ (- 7) 2)") == Ok(Int(-4))
  {
    var e := FloorTree();
    var seps := FloorText(e);
    assert ValidTree(Query, e) by {
      DigitNumeral('7');
      DigitNumeral('2');
    }
    var table := ArithmeticTable();
    assert table["/"] == Divide && table["-"] == Subtract;
    FloorEvalIn(table);
    LayoutQuery(e, seps, "(/ (- 7) 2)", Ok(Reduction(Int(-4), ["-", "/"])));
  }

  function FloorTree(): Tree {
    Call("/", [Call("-", [Number("7")]), Number("2")])
  }

  lemma FloorText(e: Tree) returns (seps: seq<string>)
    requires e == FloorTree()
    ensures Separators(Tokens(e), seps)
    ensures Layout(Tokens(e), seps) == "(/ (- 7) 2)"
  {
    FloorTokens();
    var ts := [Open, Name("/"), Open, Name("-"), Numeral("7"), Close, Numeral("2"), Close];
    seps := ["", "", " ", "", " ", "", " ", "", ""];
    FloorSeparators(ts, seps);
    FloorLayout(ts, seps);
  }

  lemma FloorSeparators(ts: seq<Token>, seps: seq<string>)
    requires ts == [Open, Name("/"), Open, Name("-"), Numeral("7"), Close, Numeral("2"), Close]
    requires seps == ["", "", " ", "", " ", "", " ", "", ""]
    ensures Separators(ts, seps)
  {
    forall i | 0 <= i < |seps|
      ensures AllSpace(seps[i])
    {
    }
    assert forall i :: 0 <= i < |ts| ==> !ts[i].Quoted?;
  }

  lemma FloorTokens()
    ensures Tokens(FloorTree()) == [Open, Name("/"), Open, Name("-"), Numeral("7"), Close, Numeral("2"), Close]
  {
    var inner := Call("-", [Number("7")]);
    assert ParamTokens([Number("7")]) == [Numeral("7")] by {
      assert [Number("7")][1..] == [];
    }
    assert Tokens(inner) == [Open, Name("-"), Numeral("7"), Close];
    assert ParamTokens([inner, Number("2")]) == Tokens(inner) + [Numeral("2")] by {
      assert [inner, Number("2")][1..] == [Number("2")];
      assert [Number("2")][1..] == [];
    }
  }

  lemma FloorChunk1()
    ensures Layout([Open, Name("/"), Open], ["", "", " ", ""]) == "(/ ("
  {
    assert Layout([Open], [" ", ""]) == " (";
    assert Layout([Name("/"), Open], ["", " ", ""]) == "/ (";
  }

  lemma FloorChunk2()
    ensures Layout([Name("-"), Numeral("7"), Close], ["", " ", "", " "]) == "- 7) "
  {
    assert Layout([Close], ["", " "]) == ") ";
    assert Layout([Numeral("7"), Close], [" ", "", " "]) == " 7) ";
  }

  lemma FloorChunk3()
    ensures Layout([Numeral("2"), Close], ["", "", ""]) == "2)"
  {
  }

  lemma FloorLayout(ts: seq<Token>, seps: seq<string>)
    requires ts == [Open, Name("/"), Open, Name("-"), Numeral("7"), Close, Numeral("2"), Close]
    requires seps == ["", "", " ", "", " ", "", " ", "", ""]
    ensures Layout(ts, seps) == "(/ (- 7) 2)"
  {
    var c1, s1 := [Open, Name("/"), Open], ["", "", " ", ""];
    var c2, s2 := [Name("-"), Numeral("7"), Close], ["", " ", "", " "];
    var c3, s3 := [Numeral("2"), Close], ["", "", ""];
    FloorChunk1();
    FloorChunk2();
    FloorChunk3();
    LayoutAppend(c1, s1, c2, s2);
    LayoutAppend(c1 + c2, Join(s1, s2), c3, s3);
    assert c1 + c2 + c3 == ts;
    JoinTight(s1, s2);
    JoinTight(Join(s1, s2), s3);
    assert s1 + s2[1..] + s3[1..] == seps;
  }

  lemma FloorEvalIn(table: FuncTable)
    requires "/" in table && table["/"] == Divide
    requires "-" in table && table["-"] == Subtract
    ensures Eval(FloorTree(), table) == Ok(Reduction(Int(-4), ["-", "/"]))
  {
    var inner := Call("-", [Number("7")]);
    SmallNumber('7', 7);
    SmallNumber('2', 2);
    var none: seq<string> := [];
    OneParam(Number("7"), Reduction(Int(7), none), table);
    assert Subtract([Int(7)]) == Ok(Int(-7));
    CallEval("-", inner.params, [Int(7)], none, Int(-7), table);
    assert none + ["-"] == ["-"];
    TwoParams(inner, Number("2"), Reduction(Int(-7), ["-"]), Reduction(Int(2), none), table);
    assert ["-"] + none == ["-"];
    assert Divide([Int(-7), Int(2)]) == Ok(Int(-4)) by {
      assert FloorDiv(-7, 2) == -4;
    }
    CallEval("/", [inner, Number("2")], [Int(-7), Int(2)], ["-"], Int(-4), table);
    assert ["-"] + ["/"] == ["-", "/"];
  }

  /** `(/ 1 0)`: dividing by zero is an error of the whole query. */
  lemma ZeroDivisionExample()
    ensures QueryParse("(/ 1 0)") == Err(ZeroDivision)
  {
    var e := Call("/", [Number("1"), Number("0")]);
    var seps := ZeroDivisionText(e);
    assert ValidTree(Query, e) by {
      DigitNumeral('1');
      DigitNumeral('0');
    }
    var table := ArithmeticTable();
    assert table["/"] == Divide;
    ZeroDivisionEvalIn(e, table);
    LayoutQuery(e, seps, "(/ 1 0)", Err(ZeroDivision));
  }

  lemma ZeroDivisionText(e: Tree) returns (seps: seq<string>)
    requires e == Call("/", [Number("1"), Number("0")])
    ensures Separators(Tokens(e), seps)
    ensures Layout(Tokens(e), seps) == "(/ 1 0)"
  {
    var ts := [Open, Name("/"), Numeral("1"), Numeral("0"), Close];
    seps := ["", "", " ", " ", "", ""];
    assert Tokens(e) == ts by {
      var ps := [Number("1"), Number("0")];
      assert e.params == ps;
      assert ps[1..] == [Number("0")];
      assert ps[1..][1..] == [];
      assert ParamTokens(ps[1..][1..]) == [];
      assert ParamTokens(ps[1..]) == [Numeral("0")];
      assert ParamTokens(ps) == [Numeral("1"), Numeral("0")];
    }
    ZeroDivisionSeparators(ts, seps);
    ZeroDivisionLayout(ts, seps);
  }

  lemma ZeroDivisionSeparators(ts: seq<Token>, seps: seq<string>)
    requires ts == [Open, Name("/"), Numeral("1"), Numeral("0"), Close]
    requires seps == ["", "", " ", " ", "", ""]
    ensures Separators(ts, seps)
  {
    forall i | 0 <= i < |seps|
      ensures AllSpace(seps[i])
    {
    }
    assert forall i :: 0 <= i < |ts| ==> !ts[i].Quoted?;
  }

  lemma ZeroDivisionChunk1()
    ensures Layout([Open, Name("/"), Numeral("1")], ["", "", " ", " "]) == "(/ 1 "
  {
    assert Layout([Numeral("1")], [" ", " "]) == " 1 ";
    assert Layout([Name("/"), Numeral("1")], ["", " ", " "]) == "/ 1 ";
  }

  lemma ZeroDivisionChunk2()
    ensures Layout([Numeral("0"), Close], ["", "", ""]) == "0)"
  {
  }

  lemma ZeroDivisionLayout(ts: seq<Token>, seps: seq<string>)
    requires ts == [Open, Name("/"), Numeral("1"), Numeral("0"), Close]
    requires seps == ["", "", " ", " ", "", ""]
    ensures Layout(ts, seps) == "(/ 1 0)"
  {
    var c1, s1 := [Open, Name("/"), Numeral("1")], ["", "", " ", " "];
    var c2, s2 := [Numeral("0"), Close], ["", "", ""];
    ZeroDivisionChunk1();
    ZeroDivisionChunk2();
    LayoutAppend(c1, s1, c2, s2);
    assert c1 + c2 == ts;
    JoinTight(s1, s2);
    assert s1 + s2[1..] == seps;
  }

  lemma ZeroDivisionEvalIn(e: Tree, table: FuncTable)
    requires e == Call("/", [Number("1"), Number("0")])
    requires "/" in table && table["/"] == Divide
    ensures Eval(e, table) == Err(ZeroDivision)
  {
    SmallNumber('1', 1);
    SmallNumber('0', 0);
    var none: seq<string> := [];
    TwoParams(Number("1"), Number("0"), Reduction(Int(1), none), Reduction(Int(0), none), table);
    assert none + none == none;
    assert Divide([Int(1), Int(0)]) == Err(ZeroDivision);
  }

  /** One param that reduces on its own is the whole param list's reduction. */
  lemma OneParam(a: Tree, ra: Reduction, table: FuncTable)
    requires Eval(a, table) == Ok(ra)
    ensures EvalParams([a], table) == Ok(([ra.value], ra.applied))
  {
    var ps := [a];
    assert ps[0] == a && ps[1..] == [];
    assert EvalParams(ps[1..], table) == Ok(([], []));
    assert ra.applied + [] == ra.applied;
    var whole := EvalParams(ps, table);
    assert whole.Ok?;
    assert whole.value.0 == [ra.value];
    assert whole.value.1 == ra.applied;
  }

  lemma DigitNumeral(c: char)
    requires IsDigit(c)
    ensures IsNumeral([c])
  {
    assert DigitRun([c]) == 1 by {
      assert [c][1..] == [];
    }
  }

  lemma SmallNumber(c: char, n: int)
    requires '0' <= c <= '9' && n == c as int - '0' as int
    ensures NumberValue([c]) == Int(n)
  {
    assert [c][..0] == [];
    assert DecimalValue([c]) == DecimalValue([]) * 10 + DigitValue(c);
    assert c != '.';
    assert '.' !in [c];
  }

  /** `(f "a")`: a string literal may be directly followed by the closing parenthesis. */
  lemma StringBeforeClose()
    ensures Lex(Lisp, "(f \"a\")") == Ok([Open, Name("f"), Quoted("\"a\""), Close])
  {
    var ts := [Open, Name("f"), Quoted("\"a\""), Close];
    var seps := ["", "", " ", "", ""];
    StringSeparators(ts, seps);
    StringLayout(ts, seps);
    SeparatorsLexable(Lisp, ts, seps);
    LexLayout(Lisp, ts, seps);
  }

  lemma StringSeparators(ts: seq<Token>, seps: seq<string>)
    requires ts == [Open, Name("f"), Quoted("\"a\""), Close]
    requires seps == ["", "", " ", "", ""]
    ensures Separators(ts, seps)
    ensures forall i :: 0 <= i < |ts| ==> ValidToken(Lisp, ts[i])
  {
    assert MayAbut(ts[0], ts[1]) && MayAbut(ts[2], ts[3]);
    assert ts[3..] == [Close] && seps[3..] == ["", ""];
    assert !QuoteAhead(ts[3..][1..], seps[3..][1..]);
    forall i | 0 <= i < |seps|
      ensures AllSpace(seps[i])
    {
    }
    assert ValidToken(Lisp, ts[2]) by {
      var q := "\"a\"";
      assert |q| == 3 && q[0] == '"' && q[2] == '"' && q[1] == 'a';
    }
  }

  lemma StringChunk1()
    ensures Layout([Open, Name("f")], ["", "", " "]) == "(f "
  {
  }

  lemma StringChunk2()
    ensures Layout([Quoted("\"a\""), Close], ["", "", ""]) == "\"a\")"
  {
  }

  lemma StringLayout(ts: seq<Token>, seps: seq<string>)
    requires ts == [Open, Name("f"), Quoted("\"a\""), Close]
    requires seps == ["", "", " ", "", ""]
    ensures Layout(ts, seps) == "(f \"a\")"
  {
    var c1, s1 := [Open, Name("f")], ["", "", " "];
    var c2, s2 := [Quoted("\"a\""), Close], ["", "", ""];
    StringChunk1();
    StringChunk2();
    LayoutAppend(c1, s1, c2, s2);
    assert c1 + c2 == ts;
    JoinTight(s1, s2);
    assert s1 + s2[1..] == seps;
  }
}
