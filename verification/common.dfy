/** The two helpers that rel/graph.py and notes.py each define identically: `to_iter`, which
    normalises an optional argument to a list, and `short`, the one-line summary of a content. */
module Common {

  /** What may be passed as `add` or `remove`: nothing (`None`), something with `__iter__`, or a
      single object. A Python 2 `str` has no `__iter__`, so a string is a `Scalar`. */
  datatype PyArg<T> = NoneArg | Iterable(items: seq<T>) | Scalar(item: T)

  /** `to_iter(o)`: no element for `None`, the iterable itself, or a one-element list. */
  function ToIter<T>(o: PyArg<T>): (r: seq<T>)
    ensures o.NoneArg? ==> r == []
    ensures o.Iterable? ==> r == o.items
    ensures o.Scalar? ==> r == [o.item]
  {
    match o
    case NoneArg => []
    case Iterable(items) => items
    case Scalar(item) => [item]
  }

  /** Normalising is idempotent: a result of `to_iter`, passed back in, comes out unchanged. */
  lemma ToIterIdempotent<T>(o: PyArg<T>)
    ensures ToIter(Iterable(ToIter(o))) == ToIter(o)
    ensures |ToIter(o)| == 0 <==> o.NoneArg? || (o.Iterable? && o.items == [])
    ensures forall x :: x in ToIter(o) <==> (o.Iterable? && x in o.items) || (o.Scalar? && x == o.item)
  {
  }

  /** `SUMMARY_LENGTH`, the longest summary. */
  const SummaryLength: nat := 140

  /** The index of the first newline of `c`, or `|c|` when there is none (the `ValueError` case
      of `str.index`). */
  function FirstNewline(c: string): (n: nat)
    ensures n <= |c|
    ensures forall i :: 0 <= i < n ==> c[i] != '\n'
    ensures n < |c| ==> c[n] == '\n'
  {
    if c == [] then 0
    else if c[0] == '\n' then 0
    else 1 + FirstNewline(c[1..])
  }

  function Min(a: nat, b: nat): nat {
    if a <= b then a else b
  }

  /** `short`: the content up to its first newline, at most `SummaryLength` characters. */
  function Short(c: string): (r: string)
    ensures |r| <= SummaryLength && |r| <= |c|
    ensures r == c[..|r|]
    ensures forall i :: 0 <= i < |r| ==> r[i] != '\n'
    ensures |r| < |c| ==> |r| == SummaryLength || c[|r|] == '\n'
  {
    c[..Min(FirstNewline(c), SummaryLength)]
  }

  /** The summary is determined by these properties: any prefix of `c` without a newline that
      stops only at the length cap or at a newline is `Short(c)`. */
  lemma ShortUnique(c: string, r: string)
    requires |r| <= SummaryLength && |r| <= |c| && r == c[..|r|]
    requires forall i :: 0 <= i < |r| ==> r[i] != '\n'
    requires |r| < |c| ==> |r| == SummaryLength || c[|r|] == '\n'
    ensures r == Short(c)
  {
    var s := Short(c);
    assert |s| == |r|;
  }

  /** A content of one line within the cap is its own summary. */
  lemma ShortIdentity(c: string)
    requires |c| <= SummaryLength
    requires forall i :: 0 <= i < |c| ==> c[i] != '\n'
    ensures Short(c) == c
  {
    ShortUnique(c, c);
  }

  /** Summarising a summary changes nothing. */
  lemma ShortIdempotent(c: string)
    ensures Short(Short(c)) == Short(c)
  {
    ShortIdentity(Short(c));
  }
}
