/** The arithmetic builtins registered by query.py:25-39 and the entry point `parse` of
    query.py:63-67, which evaluates against the global table with the grammar of query.py.

    Python 2 semantics on `int` and `str` operands: `/` on integers is floor division, `*` repeats a
    string, and any other mix of kinds raises `TypeError`. Float operands are tags only, and any
    arithmetic on them is reported as `FloatArithmetic`. */
module Arithmetic {
  import opened Results
  import opened Grammar
  import opened Parser
  import opened Transformer
  import opened Registry

  /** Python's `x // y` on integers: the quotient rounded towards negative infinity. */
  function FloorDiv(x: int, y: int): (q: int)
    requires y != 0
    ensures y > 0 ==> y * q <= x < y * q + y
    ensures y < 0 ==> y * q >= x > y * q + y
  {
    if y > 0 then x / y else (-x) / (-y)
  }

  /** `s * n` for a string and an integer: `n` copies of `s`, none when `n <= 0`. Dropping the
      first copy leaves the same string as dropping the last one, so every character is the one
      a copy of `s` earlier. */
  function Repeat(s: string, n: int): (r: string)
    ensures |r| == if n <= 0 then 0 else n * |s|
    ensures n >= 1 ==> |s| <= |r| && r[..|s|] == s && r[|s|..] == r[..|r| - |s|]
    ensures n == 1 ==> r == s
    decreases n
  {
    if n <= 0 then ""
    else
      var rest := Repeat(s, n - 1);
      var r := s + rest;
      assert r[..|s|] == s && r[|s|..] == rest;
      assert n > 1 ==> r[..|r| - |s|] == rest by {
        if n > 1 {
          calc {
            r[..|r| - |s|];
            s + rest[..|rest| - |s|];
            rest[..|s|] + rest[|s|..];
            rest;
          }
        }
      }
      r
  }

  /** Repeating `a + b` times is repeating `a` times, then `b` times. */
  lemma RepeatAdds(s: string, a: nat, b: nat)
    ensures Repeat(s, a + b) == Repeat(s, a) + Repeat(s, b)
  {
    RepeatIsCopies(s, a + b);
    RepeatIsCopies(s, a);
    RepeatIsCopies(s, b);
    CopiesAdd(s, a, b);
    SplitTransfer(Repeat(s, a + b), Repeat(s, a), Repeat(s, b), Copies(s, a + b), Copies(s, a), Copies(s, b));
  }

  /** `n` copies of `s` without `Repeat`'s contract, whose length clause is nonlinear. */
  ghost function Copies(s: string, n: nat): string
  {
    if n == 0 then "" else s + Copies(s, n - 1)
  }

  lemma {:induction false} RepeatIsCopies(s: string, n: nat)
    ensures Repeat(s, n) == Copies(s, n)
  {
    if n > 0 {
      RepeatIsCopies(s, n - 1);
    }
  }

  lemma {:induction false} CopiesAdd(s: string, a: nat, b: nat)
    ensures Copies(s, a + b) == Copies(s, a) + Copies(s, b)
  {
    if a > 0 {
      CopiesAdd(s, a - 1, b);
      ConsConcat(s, Copies(s, a + b), Copies(s, a - 1 + b), Copies(s, a), Copies(s, a - 1), Copies(s, b));
    }
  }

  lemma SplitTransfer<T>(x: seq<T>, y: seq<T>, z: seq<T>, cx: seq<T>, cy: seq<T>, cz: seq<T>)
    requires x == cx && y == cy && z == cz && cx == cy + cz
    ensures x == y + z
  { }

  /** `x == p + y` with `y == a1 + b` and `a == p + a1` gives `x == a + b`. */
  lemma ConsConcat<T>(p: seq<T>, x: seq<T>, y: seq<T>, a: seq<T>, a1: seq<T>, b: seq<T>)
    requires x == p + y && y == a1 + b && a == p + a1
    ensures x == a + b
  {
    assert p + (a1 + b) == (p + a1) + b;
  }

  /** `x + y`. */
  function Plus(x: Value, y: Value): Result<Value, QueryError> {
    match (x, y)
    case (Int(a), Int(b)) => Ok(Int(a + b))
    case (Str(a), Str(b)) => Ok(Str(a + b))
    case _ => if x.Float? || y.Float? then Err(FloatArithmetic) else Err(TypeError)
  }

  /** `x * y`. */
  function Times(x: Value, y: Value): Result<Value, QueryError> {
    match (x, y)
    case (Int(a), Int(b)) => Ok(Int(a * b))
    case (Int(a), Str(b)) => Ok(Str(Repeat(b, a)))
    case (Str(a), Int(b)) => Ok(Str(Repeat(a, b)))
    case _ => if x.Float? || y.Float? then Err(FloatArithmetic) else Err(TypeError)
  }

  /** `x - y`. */
  function Minus(x: Value, y: Value): Result<Value, QueryError> {
    match (x, y)
    case (Int(a), Int(b)) => Ok(Int(a - b))
    case _ => if x.Float? || y.Float? then Err(FloatArithmetic) else Err(TypeError)
  }

  /** `-x`. */
  function Negate(x: Value): Result<Value, QueryError> {
    match x
    case Int(a) => Ok(Int(-a))
    case Float(_) => Err(FloatArithmetic)
    case Str(_) => Err(TypeError)
  }

  /** `x / y` and `x // y`, which agree on integers in Python 2. */
  function Quotient(x: Value, y: Value): Result<Value, QueryError> {
    match (x, y)
    case (Int(a), Int(b)) => if b == 0 then Err(ZeroDivision) else Ok(Int(FloorDiv(a, b)))
    case _ => if x.Float? || y.Float? then Err(FloatArithmetic) else Err(TypeError)
  }

  /** `reduce(lambda x, y: x + y, args, acc)`. */
  function SumFrom(acc: Value, args: seq<Value>): (r: Result<Value, QueryError>)
    ensures r.Err? ==> r.error == TypeError || r.error == FloatArithmetic
    decreases args
  {
    if args == [] then Ok(acc)
    else
      match Plus(acc, args[0])
      case Err(e) => Err(e)
      case Ok(v) => SumFrom(v, args[1..])
  }

  /** `reduce(lambda x, y: x * y, args, acc)`. */
  function ProductFrom(acc: Value, args: seq<Value>): (r: Result<Value, QueryError>)
    ensures r.Err? ==> r.error == TypeError || r.error == FloatArithmetic
    decreases args
  {
    if args == [] then Ok(acc)
    else
      match Times(acc, args[0])
      case Err(e) => Err(e)
      case Ok(v) => ProductFrom(v, args[1..])
  }

  /** `reduce(lambda x, y: x - y, args, acc)`. */
  function DifferenceFrom(acc: Value, args: seq<Value>): (r: Result<Value, QueryError>)
    ensures r.Err? ==> r.error == TypeError || r.error == FloatArithmetic
    decreases args
  {
    if args == [] then Ok(acc)
    else
      match Minus(acc, args[0])
      case Err(e) => Err(e)
      case Ok(v) => DifferenceFrom(v, args[1..])
  }

  /** The builtin `+` (query.py:26): a sum seeded with 0. It succeeds exactly on integer
      arguments and returns their sum, so `(+)` is 0. */
  function Add(args: seq<Value>): (r: Result<Value, QueryError>)
    ensures r.Ok? <==> AllInts(args)
    ensures AllInts(args) ==> r == Ok(Int(IntSum(Ints(args))))
    ensures r.Err? ==> r.error == TypeError || r.error == FloatArithmetic
  {
    SumFromInts(0, args);
    SumFrom(Int(0), args)
  }

  /** The builtin `*` (query.py:27): a product seeded with 1. Python 2 multiplies integers and
      repeats a string by an integer, so it succeeds exactly when no operand is a float and at most
      one is a string, and the result is a string exactly when one operand is. On integer arguments
      it is their product, so `(*)` is 1; two strings raise `TypeError`. */
  function Multiply(args: seq<Value>): (r: Result<Value, QueryError>)
    ensures r.Ok? <==> NoFloats(args) && StrCount(args) <= 1
    ensures r.Ok? ==> (r.value.Str? <==> StrCount(args) == 1)
    ensures AllInts(args) ==> r == Ok(Int(IntProduct(Ints(args))))
    ensures |args| == 2 && args[0].Str? && args[1].Str? ==> r == Err(TypeError)
    ensures r.Err? ==> r.error == TypeError || r.error == FloatArithmetic
  {
    ProductFromKinds(Int(1), args);
    if |args| == 2 && args[0].Str? && args[1].Str? then ProductOfStrings(args); ProductFrom(Int(1), args)
    else if AllInts(args) then ProductFromInts(1, args); ProductFrom(Int(1), args)
    else ProductFrom(Int(1), args)
  }

  /** The builtins `/` and `//` (query.py:28-29): two-argument lambdas; any other number of
      arguments is the `TypeError` of a Python call with the wrong arity. On two integers they fail
      on a zero divisor and otherwise return the floor quotient. */
  function Divide(args: seq<Value>): (r: Result<Value, QueryError>)
    ensures r.Ok? <==> |args| == 2 && args[0].Int? && args[1].Int? && args[1].i != 0
    ensures |args| != 2 ==> r == Err(ArityError)
    ensures |args| == 2 && !(args[0].Int? && args[1].Int?) ==>
      r == Err(if args[0].Float? || args[1].Float? then FloatArithmetic else TypeError)
    ensures |args| == 2 && args[0].Int? && args[1].Int? ==>
      if args[1].i == 0 then r == Err(ZeroDivision)
      else (r.Ok? && r.value.Int? &&
            var q := r.value.i;
            var x := args[0].i;
            var y := args[1].i;
            (y > 0 ==> y * q <= x < y * q + y) && (y < 0 ==> y * q >= x > y * q + y))
    ensures r.Err? ==> r.error in {ArityError, ZeroDivision, TypeError, FloatArithmetic}
  {
    if |args| != 2 then Err(ArityError) else Quotient(args[0], args[1])
  }

  /** The builtin `-` (query.py:31-37). It succeeds exactly on integer arguments: 0 without
      arguments, the negation of a single one, and otherwise the first minus all the others,
      `a0 - a1 - ... - an`. */
  function Subtract(args: seq<Value>): (r: Result<Value, QueryError>)
    ensures r.Ok? <==> AllInts(args)
    ensures AllInts(args) && |args| == 0 ==> r == Ok(Int(0))
    ensures AllInts(args) && |args| == 1 ==> r == Ok(Int(-args[0].i))
    ensures AllInts(args) && |args| >= 2 ==> r == Ok(Int(args[0].i - IntSum(Ints(args[1..]))))
    ensures r.Err? ==> r.error == TypeError || r.error == FloatArithmetic
  {
    if |args| == 1 then AllIntsTail(args); Negate(args[0])
    else if |args| == 0 then Ok(Int(0))
    else
      AllIntsTail(args);
      DifferenceFromKinds(args[0], args[1..]);
      if AllInts(args) then
        AllIntsTail(args);
        DifferenceFromInts(args[0].i, args[1..]);
        DifferenceFrom(args[0], args[1..])
      else DifferenceFrom(args[0], args[1..])
  }

  /** The table query.py builds at import time, one `expose` after another: the five operators,
      with `/` and `//` bound to the same function. */
  function ArithmeticTable(): (t: FuncTable)
    ensures t.Keys == {"+", "*", "/", "//", "-"}
    ensures t["+"] == Add && t["*"] == Multiply && t["/"] == Divide && t["//"] == Divide && t["-"] == Subtract
  {
    var t0: FuncTable := map[];
    var t1 := Expose(t0, "+", Add).table;
    var t2 := Expose(t1, "*", Multiply).table;
    var t3 := Expose(t2, "/", Divide).table;
    var t4 := Expose(t3, "//", Divide).table;
    Expose(t4, "-", Subtract).table
  }

  /** No arithmetic builtin reports an unknown function. */
  lemma ArithmeticNoUnknown()
    ensures NoBuiltinUnknown(ArithmeticTable())
  {
    var t := ArithmeticTable();
    forall n, vs | n in t && t[n](vs).Err?
      ensures !t[n](vs).error.UnknownFunction?
    {
      if n == "+" {
        assert t[n](vs) == Add(vs);
      } else if n == "*" {
        assert t[n](vs) == Multiply(vs);
      } else if n == "-" {
        assert t[n](vs) == Subtract(vs);
      } else {
        assert t[n](vs) == Divide(vs);
      }
    }
  }

  /** query.py's `parse(expr)`: its own grammar, evaluated against the global table. */
  function QueryParse(text: string): (r: Result<Value, QueryError>)
    ensures r.Err? && r.error.UnknownFunction? ==> r.error.name !in ArithmeticTable()
  {
    ArithmeticNoUnknown();
    ParseQuery(Query, text, ArithmeticTable())
  }

  // ---------------------------------------------------------------------------------------------
  // Reference definitions on integers

  predicate AllInts(args: seq<Value>) {
    forall i :: 0 <= i < |args| ==> args[i].Int?
  }

  function Ints(args: seq<Value>): (xs: seq<int>)
    requires AllInts(args)
    ensures |xs| == |args|
  {
    if args == [] then [] else [args[0].i] + Ints(args[1..])
  }

  /** The sum of a list of integers, folded from the right. */
  function IntSum(xs: seq<int>): int {
    if xs == [] then 0 else xs[0] + IntSum(xs[1..])
  }

  /** The product of a list of integers, folded from the right. */
  function IntProduct(xs: seq<int>): int {
    if xs == [] then 1 else xs[0] * IntProduct(xs[1..])
  }

  /** Folding `+` from the left from `a` adds the right-folded sum to `a`; strings, floats and any
      operand that is not an integer make it fail. */
  lemma {:induction false} SumFromInts(a: int, args: seq<Value>)
    ensures SumFrom(Int(a), args).Ok? <==> AllInts(args)
    ensures AllInts(args) ==> SumFrom(Int(a), args) == Ok(Int(a + IntSum(Ints(args))))
    decreases args
  {
    if args != [] {
      if args[0].Int? {
        SumFromInts(a + args[0].i, args[1..]);
        AllIntsTail(args);
      }
    }
  }

  lemma AllIntsTail(args: seq<Value>)
    requires args != []
    ensures AllInts(args) <==> args[0].Int? && AllInts(args[1..])
  {
    if args[0].Int? && AllInts(args[1..]) {
      forall i | 0 < i < |args|
        ensures args[i].Int?
      {
        assert args[i] == args[1..][i - 1];
      }
    }
  }

  /** No operand is a float. */
  predicate NoFloats(args: seq<Value>) {
    forall i :: 0 <= i < |args| ==> !args[i].Float?
  }

  /** How many operands are strings. */
  function StrCount(args: seq<Value>): nat {
    if args == [] then 0 else (if args[0].Str? then 1 else 0) + StrCount(args[1..])
  }

  lemma NoFloatsTail(args: seq<Value>)
    requires args != []
    ensures NoFloats(args) <==> !args[0].Float? && NoFloats(args[1..])
  {
    if !args[0].Float? && NoFloats(args[1..]) {
      forall i | 0 < i < |args|
        ensures !args[i].Float?
      {
        assert args[i] == args[1..][i - 1];
      }
    }
  }

  /** Folding `*` from the left from an integer or a string succeeds exactly when no operand is a
      float and at most one string is met, the seed included; the result is then a string exactly
      when one was met. */
  lemma {:induction false} ProductFromKinds(acc: Value, args: seq<Value>)
    requires !acc.Float?
    ensures ProductFrom(acc, args).Ok? <==>
      NoFloats(args) && StrCount(args) + (if acc.Str? then 1 else 0) <= 1
    ensures ProductFrom(acc, args).Ok? ==>
      (ProductFrom(acc, args).value.Str? <==> acc.Str? || StrCount(args) == 1)
    decreases args
  {
    if args != [] {
      NoFloatsTail(args);
      match Times(acc, args[0])
      case Ok(v) => ProductFromKinds(v, args[1..]);
      case Err(_) =>
    }
  }

  /** Two strings: the first is repeated once, and then `str * str` raises. */
  lemma ProductOfStrings(args: seq<Value>)
    requires |args| == 2 && args[0].Str? && args[1].Str?
    ensures ProductFrom(Int(1), args) == Err(TypeError)
  {
    assert Times(Int(1), args[0]) == Ok(Str(Repeat(args[0].s, 1)));
    assert args[1..][0] == args[1];
    assert ProductFrom(Str(Repeat(args[0].s, 1)), args[1..]) == Err(TypeError);
  }

  /** Folding `*` from the left over integers multiplies `a` by the right-folded product. */
  lemma {:induction false} ProductFromInts(a: int, args: seq<Value>)
    requires AllInts(args)
    ensures ProductFrom(Int(a), args) == Ok(Int(a * IntProduct(Ints(args))))
    decreases args
  {
    if args != [] {
      AllIntsTail(args);
      ProductFromInts(a * args[0].i, args[1..]);
      assert a * args[0].i * IntProduct(Ints(args[1..])) == a * (args[0].i * IntProduct(Ints(args[1..])));
    }
  }

  /** `*` also repeats a string: an integer count times a string, or a string times a count. */
  lemma MultiplyRepeats(s: string, n: int)
    ensures Multiply([Str(s), Int(n)]) == Ok(Str(Repeat(s, n)))
    ensures Multiply([Int(n), Str(s)]) == Ok(Str(Repeat(s, n)))
  {
    assert Repeat(s, 1) == s;
    var a := [Str(s), Int(n)];
    assert a[1..] == [Int(n)] && a[1..][1..] == [];
    assert Times(Int(1), Str(s)) == Ok(Str(s));
    assert ProductFrom(Str(s), [Int(n)]) == Ok(Str(Repeat(s, n)));
    var b := [Int(n), Str(s)];
    assert b[1..] == [Str(s)] && b[1..][1..] == [];
    assert ProductFrom(Int(n), [Str(s)]) == Ok(Str(Repeat(s, n)));
  }

  /** Folding `-` from the left succeeds exactly when there is nothing to subtract, or the seed and
      every operand are integers. */
  lemma {:induction false} DifferenceFromKinds(acc: Value, args: seq<Value>)
    ensures DifferenceFrom(acc, args).Ok? <==> args == [] || (acc.Int? && AllInts(args))
    decreases args
  {
    if args != [] {
      AllIntsTail(args);
      if acc.Int? && args[0].Int? {
        DifferenceFromKinds(Int(acc.i - args[0].i), args[1..]);
      }
    }
  }

  /** Folding `-` from the left from `a` subtracts the sum of the integers that follow. */
  lemma {:induction false} DifferenceFromInts(a: int, args: seq<Value>)
    requires AllInts(args)
    ensures DifferenceFrom(Int(a), args) == Ok(Int(a - IntSum(Ints(args))))
    decreases args
  {
    if args != [] {
      AllIntsTail(args);
      DifferenceFromInts(a - args[0].i, args[1..]);
    }
  }

  /** The floor quotient is the only integer satisfying its bounds. */
  lemma FloorDivUnique(x: int, y: int, q: int)
    requires y != 0
    requires y > 0 ==> y * q <= x < y * q + y
    requires y < 0 ==> y * q >= x > y * q + y
    ensures q == FloorDiv(x, y)
  {
    var p := FloorDiv(x, y);
    if y > 0 {
      BoundsPinQuotient(x, y, p, q);
    } else {
      assert (-y) * p <= -x < (-y) * p + (-y);
      assert (-y) * q <= -x < (-y) * q + (-y);
      BoundsPinQuotient(-x, -y, p, q);
    }
  }

  lemma BoundsPinQuotient(x: int, y: int, p: int, q: int)
    requires y > 0
    requires y * p <= x < y * p + y
    requires y * q <= x < y * q + y
    ensures p == q
  {
    if p < q {
      MulMonotone(y, p + 1, q);
    } else if q < p {
      MulMonotone(y, q + 1, p);
    }
  }

  lemma MulMonotone(y: int, a: int, b: int)
    requires y > 0 && a <= b
    ensures y * a <= y * b
  {
    assert y * b == y * a + y * (b - a);
  }

  /** Every registered name is a word of query.py's func class (letters, `_`, `/`, `*`, `+`, `-`)
      and of lisp.py's, so each of them can be written as the head of a call. */
  lemma ArithmeticNamesWritable(n: string)
    requires n in ArithmeticTable()
    ensures IsFuncName(Query, n) && IsFuncName(Lisp, n)
    ensures Lex(Query, "(" + n + ")") == Ok([Open, Name(n), Close])
  {
    TableNames(n);
    OperatorIsName(n);
    LexBareCall(Query, n);
  }

  lemma TableNames(n: string)
    requires n in ArithmeticTable()
    ensures n in {"+", "*", "/", "//", "-"}
  {
    assert n in ArithmeticTable().Keys;
  }

  lemma OperatorIsName(n: string)
    requires n in {"+", "*", "/", "//", "-"}
    ensures IsFuncName(Query, n) && IsFuncName(Lisp, n)
  {
    if n == "//" {
      assert n[0] == '/' && n[1] == '/';
    } else {
      assert |n| == 1 && n[0] in "+*/-";
    }
  }
}
