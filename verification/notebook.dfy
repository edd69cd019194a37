/** The notebook of notes.py: a graph_tool multigraph whose vertices carry an `id` and a
    `content` property. Vertices are numbered `0 .. |vertices| - 1`, as graph_tool numbers them;
    an edge `(p, c)` runs from the parent `p` to the child `c`. graph_tool allows parallel edges,
    so the edges are a sequence and their multiplicities matter. */
module Notebooks {
  import opened Results
  import opened Common

  type Vertex = nat
  type Edge = (Vertex, Vertex)

  /** The two vertex properties a note is made of. */
  datatype NoteData = NoteData(id: string, content: string)

  datatype Notebook = Notebook(vertices: seq<NoteData>, edges: seq<Edge>)

  datatype NoteError =
    | NoSuchEdge(parent: Vertex, child: Vertex)   // `graph.edge` found nothing to remove
    | IdRequired                                  // "ID required"
    | NoSuchNote                                  // "Specified note doesn't exist"
    | NoIdAttribute                               // `v.id` on a graph_tool vertex

  /** Every edge joins two vertices of the graph. */
  predicate Valid(nb: Notebook) {
    InRange(nb.edges, |nb.vertices|)
  }

  predicate AllVertices(nb: Notebook, vs: seq<Vertex>) {
    forall k :: 0 <= k < |vs| ==> vs[k] < |nb.vertices|
  }

  /** `Note.short` for the note at vertex `v`. */
  function NoteShort(nb: Notebook, v: Vertex): (r: string)
    requires v < |nb.vertices|
    ensures r == Short(nb.vertices[v].content)
    ensures |r| <= SummaryLength && r == nb.vertices[v].content[..|r|]
  {
    Short(nb.vertices[v].content)
  }

  // ---------------------------------------------------------------------------------------------
  // Edges

  /** The edges from `self` to each of `others`, or from each of `others` to `self`. */
  function EdgesTo(self: Vertex, others: seq<Vertex>, otherIsChild: bool): (r: seq<Edge>)
    ensures |r| == |others|
    ensures forall k :: 0 <= k < |r| ==> r[k] == if otherIsChild then (self, others[k]) else (others[k], self)
  {
    if others == [] then []
    else [if otherIsChild then (self, others[0]) else (others[0], self)] + EdgesTo(self, others[1..], otherIsChild)
  }

  /** `graph.remove_edge(graph.edge(p, c))`: one edge `(p, c)` fewer. Parallel edges are
      indistinguishable, so which of them goes does not matter. */
  function RemoveOne(edges: seq<Edge>, e: Edge): (r: seq<Edge>)
    requires e in edges
    ensures multiset(r) == multiset(edges) - multiset{e}
    ensures |r| == |edges| - 1
    ensures forall k :: 0 <= k < |r| ==> r[k] in edges
  {
    assert edges == [edges[0]] + edges[1..];
    if edges[0] == e then edges[1..]
    else [edges[0]] + RemoveOne(edges[1..], e)
  }

  /** Removes one edge for each element of `es`, in order; a missing edge stops the loop. */
  function RemoveEach(edges: seq<Edge>, es: seq<Edge>): (r: Result<seq<Edge>, NoteError>)
    ensures r.Ok? <==> multiset(es) <= multiset(edges)
    ensures r.Ok? ==> multiset(r.value) == multiset(edges) - multiset(es)
    ensures r.Ok? ==> forall k :: 0 <= k < |r.value| ==> r.value[k] in edges
    decreases es
  {
    if es == [] then Ok(edges)
    else if es[0] !in edges then
      assert es == [es[0]] + es[1..];
      assert multiset(es)[es[0]] > 0 == multiset(edges)[es[0]];
      Err(NoSuchEdge(es[0].0, es[0].1))
    else
      var rest := RemoveOne(edges, es[0]);
      var r := RemoveEach(rest, es[1..]);
      assert es == [es[0]] + es[1..];
      SubMultisetStep(multiset(edges), es[0], multiset(es[1..]));
      r
  }

  /** `{x} + a <= b` exactly when `x` is in `b` and `a <= b - {x}`. */
  lemma SubMultisetStep<T>(b: multiset<T>, x: T, a: multiset<T>)
    requires x in b
    ensures multiset{x} + a <= b <==> a <= b - multiset{x}
    ensures multiset{x} + a <= b ==> b - (multiset{x} + a) == (b - multiset{x}) - a
  {
  }

  /** `children(add, remove)` and `parents(add, remove)`: first `create_edge` for each added note,
      then `remove_edge` for each removed one, then the neighbours on the far end. */
  function Update(nb: Notebook, self: Vertex, add: PyArg<Vertex>, remove: PyArg<Vertex>, otherIsChild: bool): (r: Result<Notebook, NoteError>)
    ensures r.Ok? <==>
      multiset(EdgesTo(self, ToIter(remove), otherIsChild)) <= multiset(nb.edges) + multiset(EdgesTo(self, ToIter(add), otherIsChild))
    ensures r.Ok? ==> r.value.vertices == nb.vertices
    ensures r.Ok? ==>
      multiset(r.value.edges) ==
      multiset(nb.edges) + multiset(EdgesTo(self, ToIter(add), otherIsChild)) - multiset(EdgesTo(self, ToIter(remove), otherIsChild))
  {
    var extra := EdgesTo(self, ToIter(add), otherIsChild);
    var gone := EdgesTo(self, ToIter(remove), otherIsChild);
    var added := nb.edges + extra;
    assert multiset(added) == multiset(nb.edges) + multiset(extra);
    match RemoveEach(added, gone)
    case Err(err) => Err(err)
    case Ok(edges) => Ok(nb.(edges := edges))
  }

  /** Updates keep every edge between vertices of the graph. */
  lemma UpdateValid(nb: Notebook, self: Vertex, add: PyArg<Vertex>, remove: PyArg<Vertex>, otherIsChild: bool)
    requires Valid(nb) && self < |nb.vertices| && AllVertices(nb, ToIter(add))
    ensures Update(nb, self, add, remove, otherIsChild).Ok? ==> Valid(Update(nb, self, add, remove, otherIsChild).value)
  {
    if Update(nb, self, add, remove, otherIsChild).Ok? {
      var n := |nb.vertices|;
      var extra := EdgesTo(self, ToIter(add), otherIsChild);
      var added := nb.edges + extra;
      EdgesToInRange(self, ToIter(add), otherIsChild, n);
      InRangeAppend(nb.edges, extra, n);
      var r := RemoveEach(added, EdgesTo(self, ToIter(remove), otherIsChild));
      assert Update(nb, self, add, remove, otherIsChild).value.edges == r.value;
      InRangeSubset(r.value, added, n);
    }
  }


  lemma EdgesToInRange(self: Vertex, others: seq<Vertex>, otherIsChild: bool, n: nat)
    requires self < n && forall k :: 0 <= k < |others| ==> others[k] < n
    ensures InRange(EdgesTo(self, others, otherIsChild), n)
  {
  }

  lemma InRangeAppend(a: seq<Edge>, b: seq<Edge>, n: nat)
    requires InRange(a, n) && InRange(b, n)
    ensures InRange(a + b, n)
  {
    forall k | 0 <= k < |a + b|
      ensures (a + b)[k].0 < n && (a + b)[k].1 < n
    {
      if k >= |a| {
        assert (a + b)[k] == b[k - |a|];
      }
    }
  }

  /** Every edge of `edges` has both ends below `n`. */
  predicate InRange(edges: seq<Edge>, n: nat) {
    forall k :: 0 <= k < |edges| ==> edges[k].0 < n && edges[k].1 < n
  }

  lemma InRangeSubset(sub: seq<Edge>, edges: seq<Edge>, n: nat)
    requires InRange(edges, n)
    requires forall k :: 0 <= k < |sub| ==> sub[k] in edges
    ensures InRange(sub, n)
  {
    forall k | 0 <= k < |sub|
      ensures sub[k].0 < n && sub[k].1 < n
    {
      var j :| 0 <= j < |edges| && edges[j] == sub[k];
    }
  }

  /** How many elements of `xs` equal `x`. */
  function Count<T(==)>(xs: seq<T>, x: T): nat {
    multiset(xs)[x]
  }

  /** `vertex.out_neighbours()`: the head of every edge leaving `v`, once per parallel edge. */
  function OutNeighbours(edges: seq<Edge>, v: Vertex): (r: seq<Vertex>)
    ensures forall w :: Count(r, w) == Count(edges, (v, w))
    ensures forall w :: w in r <==> (v, w) in edges
    decreases edges
  {
    if edges == [] then []
    else
      var rest := OutNeighbours(edges[1..], v);
      assert edges == [edges[0]] + edges[1..];
      if edges[0].0 == v then
        assert multiset([edges[0].1] + rest) == multiset{edges[0].1} + multiset(rest);
        [edges[0].1] + rest
      else rest
  }

  /** `vertex.in_neighbours()`: the tail of every edge entering `v`, once per parallel edge. */
  function InNeighbours(edges: seq<Edge>, v: Vertex): (r: seq<Vertex>)
    ensures forall w :: Count(r, w) == Count(edges, (w, v))
    ensures forall w :: w in r <==> (w, v) in edges
    decreases edges
  {
    if edges == [] then []
    else
      var rest := InNeighbours(edges[1..], v);
      assert edges == [edges[0]] + edges[1..];
      if edges[0].1 == v then
        assert multiset([edges[0].0] + rest) == multiset{edges[0].0} + multiset(rest);
        [edges[0].0] + rest
      else rest
  }

  /** `note.children(add, remove)`: edges `self -> c`, answered with the out-neighbours. */
  function Children(nb: Notebook, self: Vertex, add: PyArg<Vertex>, remove: PyArg<Vertex>): (r: Result<(Notebook, seq<Vertex>), NoteError>)
    ensures r.Ok? <==> Update(nb, self, add, remove, true).Ok?
    ensures r.Ok? ==> r.value.0 == Update(nb, self, add, remove, true).value
    ensures r.Ok? ==> forall c :: Count(r.value.1, c) == Count(r.value.0.edges, (self, c))
  {
    match Update(nb, self, add, remove, true)
    case Err(err) => Err(err)
    case Ok(nb1) => Ok((nb1, OutNeighbours(nb1.edges, self)))
  }

  /** `note.parents(add, remove)`: edges `p -> self`, answered with the in-neighbours. */
  function Parents(nb: Notebook, self: Vertex, add: PyArg<Vertex>, remove: PyArg<Vertex>): (r: Result<(Notebook, seq<Vertex>), NoteError>)
    ensures r.Ok? <==> Update(nb, self, add, remove, false).Ok?
    ensures r.Ok? ==> r.value.0 == Update(nb, self, add, remove, false).value
    ensures r.Ok? ==> forall p :: Count(r.value.1, p) == Count(r.value.0.edges, (p, self))
  {
    match Update(nb, self, add, remove, false)
    case Err(err) => Err(err)
    case Ok(nb1) => Ok((nb1, InNeighbours(nb1.edges, self)))
  }

  /** With nothing removed, `children(add=C)` always succeeds and every `c` of `C` is among the
      children it returns, once more for each time it is listed. */
  lemma ChildrenAdds(nb: Notebook, self: Vertex, add: PyArg<Vertex>, c: Vertex)
    ensures Children(nb, self, add, NoneArg).Ok?
    ensures Count(Children(nb, self, add, NoneArg).value.1, c) ==
      Count(OutNeighbours(nb.edges, self), c) + Count(ToIter(add), c)
  {
    EdgesToCount(self, ToIter(add), c, true);
    assert multiset(EdgesTo(self, ToIter<Vertex>(NoneArg), true)) == multiset{};
  }

  /** With nothing removed, `parents(add=P)` always succeeds and every `p` of `P` is among the
      parents it returns. */
  lemma ParentsAdds(nb: Notebook, self: Vertex, add: PyArg<Vertex>, p: Vertex)
    ensures Parents(nb, self, add, NoneArg).Ok?
    ensures Count(Parents(nb, self, add, NoneArg).value.1, p) ==
      Count(InNeighbours(nb.edges, self), p) + Count(ToIter(add), p)
  {
    EdgesToCount(self, ToIter(add), p, false);
    assert multiset(EdgesTo(self, ToIter<Vertex>(NoneArg), false)) == multiset{};
  }

  /** The edge to `x` appears in `EdgesTo` once per listing of `x`. */
  lemma {:induction false} EdgesToCount(self: Vertex, others: seq<Vertex>, x: Vertex, otherIsChild: bool)
    ensures Count(EdgesTo(self, others, otherIsChild), if otherIsChild then (self, x) else (x, self)) == Count(others, x)
  {
    if others != [] {
      var e := if otherIsChild then (self, x) else (x, self);
      var head := if otherIsChild then (self, others[0]) else (others[0], self);
      var tail := EdgesTo(self, others[1..], otherIsChild);
      EdgesToCount(self, others[1..], x, otherIsChild);
      assert others == [others[0]] + others[1..];
      assert EdgesTo(self, others, otherIsChild) == [head] + tail;
      assert multiset([head] + tail) == multiset{head} + multiset(tail);
      assert multiset(others) == multiset{others[0]} + multiset(others[1..]);
      assert (head == e) == (others[0] == x);
    }
  }

  /** Adding `c` as a child of `p` and adding `p` as a parent of `c` make the same graph. */
  lemma ChildrenParentsMirror(nb: Notebook, p: Vertex, c: Vertex)
    ensures Children(nb, p, Scalar(c), NoneArg).Ok? && Parents(nb, c, Scalar(p), NoneArg).Ok?
    ensures Children(nb, p, Scalar(c), NoneArg).value.0 == Parents(nb, c, Scalar(p), NoneArg).value.0
  {
    assert EdgesTo(p, [c], true) == [(p, c)] == EdgesTo(c, [p], false);
    assert multiset(EdgesTo(p, ToIter<Vertex>(NoneArg), true)) == multiset{};
    assert multiset(EdgesTo(c, ToIter<Vertex>(NoneArg), false)) == multiset{};
    var none: seq<Edge> := [];
    assert RemoveEach(nb.edges + [(p, c)], none) == Ok(nb.edges + [(p, c)]);
  }

  /** Removing a child takes away exactly one edge `self -> c`, which must exist; all other edges
      keep their multiplicity. */
  lemma RemoveChildExactly(nb: Notebook, self: Vertex, c: Vertex)
    ensures Children(nb, self, NoneArg, Scalar(c)).Ok? <==> (self, c) in nb.edges
    ensures Children(nb, self, NoneArg, Scalar(c)).Ok? ==>
      multiset(Children(nb, self, NoneArg, Scalar(c)).value.0.edges) == multiset(nb.edges) - multiset{(self, c)}
  {
    var none: seq<Vertex> := [];
    assert ToIter<Vertex>(NoneArg) == none;
    assert EdgesTo(self, none, true) == [];
    assert nb.edges + [] == nb.edges;
    assert EdgesTo(self, [c], true) == [(self, c)];
    assert multiset([(self, c)]) == multiset{(self, c)};
  }

  // ---------------------------------------------------------------------------------------------
  // Listing notes

  /** `notes(predicate)`: every vertex's note in vertex order, keeping those the predicate accepts;
      with no predicate, all of them. */
  function Notes(nb: Notebook, accept: Option<NoteData -> bool>): (r: seq<NoteData>)
    ensures |r| <= |nb.vertices|
    ensures forall k :: 0 <= k < |r| ==> r[k] in nb.vertices
    decreases nb.vertices
  {
    if nb.vertices == [] then []
    else
      var n := nb.vertices[0];
      var rest := Notes(nb.(vertices := nb.vertices[1..]), accept);
      if accept.None? || accept.value(n) then [n] + rest else rest
  }

  /** `xs` is `ys` with some elements dropped and the rest kept in order. */
  predicate IsSubsequence<T(==)>(xs: seq<T>, ys: seq<T>)
    decreases ys
  {
    if ys == [] then xs == []
    else (xs != [] && xs[0] == ys[0] && IsSubsequence(xs[1..], ys[1..])) || IsSubsequence(xs, ys[1..])
  }

  /** A note is listed exactly when it is in the notebook and passes the predicate, and the listed
      notes keep the notebook's order. */
  lemma {:induction false} NotesFilter(nb: Notebook, accept: Option<NoteData -> bool>)
    ensures forall n :: n in Notes(nb, accept) <==> n in nb.vertices && (accept.None? || accept.value(n))
    ensures forall n ::
      multiset(Notes(nb, accept))[n] == if accept.None? || accept.value(n) then multiset(nb.vertices)[n] else 0
    ensures IsSubsequence(Notes(nb, accept), nb.vertices)
    decreases nb.vertices
  {
    if nb.vertices != [] {
      var first := nb.vertices[0];
      var tail := nb.(vertices := nb.vertices[1..]);
      NotesFilter(tail, accept);
      assert nb.vertices == [first] + tail.vertices;
      assert multiset(nb.vertices) == multiset{first} + multiset(tail.vertices);
      var r := Notes(nb, accept);
      if accept.None? || accept.value(first) {
        assert r == [first] + Notes(tail, accept);
        assert r[1..] == Notes(tail, accept);
        assert multiset(r) == multiset{first} + multiset(Notes(tail, accept));
      } else {
        assert r == Notes(tail, accept);
      }
    }
  }

  /** With no predicate every note is listed, in vertex order. */
  lemma {:induction false} NotesAll(nb: Notebook)
    ensures Notes(nb, None) == nb.vertices
    decreases nb.vertices
  {
    if nb.vertices != [] {
      NotesAll(nb.(vertices := nb.vertices[1..]));
    }
  }

  // ---------------------------------------------------------------------------------------------
  // Removing notes

  /** The first vertex whose note has the id `id`. */
  function FindId(vs: seq<NoteData>, id: string): (r: Option<nat>)
    ensures r.Some? ==> r.value < |vs| && vs[r.value].id == id && forall j :: 0 <= j < r.value ==> vs[j].id != id
    ensures r.None? ==> forall j :: 0 <= j < |vs| ==> vs[j].id != id
  {
    if vs == [] then None
    else if vs[0].id == id then Some(0)
    else match FindId(vs[1..], id)
      case None => None
      case Some(i) => Some(i + 1)
  }

  /** graph_tool's `remove_vertex(i, fast=True)`: the last vertex moves into slot `i`. */
  function Relabel(i: Vertex, last: Vertex, x: Vertex): Vertex {
    if x == last then i else x
  }

  predicate Incident(e: Edge, i: Vertex) {
    e.0 == i || e.1 == i
  }

  /** The edges not touching `i`, with the last vertex renumbered to `i`. */
  function RelabelEdges(edges: seq<Edge>, i: Vertex, last: Vertex): (r: seq<Edge>)
    requires i <= last && InRange(edges, last + 1)
    ensures |r| <= |edges|
    ensures InRange(r, last)
    decreases edges
  {
    if edges == [] then []
    else
      var rest := RelabelEdges(edges[1..], i, last);
      var e := edges[0];
      if Incident(e, i) then rest else [(Relabel(i, last, e.0), Relabel(i, last, e.1))] + rest
  }

  /** The vertices after `remove_vertex(i, fast=True)`. */
  function Remaining(vs: seq<NoteData>, i: Vertex): (r: seq<NoteData>)
    requires i < |vs|
    ensures |r| == |vs| - 1
  {
    var last := |vs| - 1;
    if i == last then vs[..last] else vs[..i] + [vs[last]] + vs[i + 1..last]
  }

  /** Every other note keeps its place, except the last, which moves to `i`; so the remaining
      notes are the old ones less one copy of the removed one. */
  lemma RemainingNotes(vs: seq<NoteData>, i: Vertex)
    requires i < |vs|
    ensures multiset(Remaining(vs, i)) == multiset(vs) - multiset{vs[i]}
    ensures forall x: Vertex :: x < |vs| && x != i ==> Remaining(vs, i)[Relabel(i, |vs| - 1, x)] == vs[x]
  {
    RemainingMultiset(vs, i);
    RemainingPlaces(vs, i);
  }

  lemma RemainingMultiset(vs: seq<NoteData>, i: Vertex)
    requires i < |vs|
    ensures multiset(Remaining(vs, i)) == multiset(vs) - multiset{vs[i]}
  {
    var last := |vs| - 1;
    if i == last {
      assert vs == vs[..last] + [vs[last]];
    } else {
      var front, middle := vs[..i], vs[i + 1..last];
      assert vs == front + [vs[i]] + middle + [vs[last]];
      assert Remaining(vs, i) == front + [vs[last]] + middle;
      SwapMultiset(front, vs[i], middle, vs[last]);
    }
  }

  /** Moving the last element into a freed slot leaves the other elements' multiset unchanged. */
  lemma SwapMultiset<T>(front: seq<T>, x: T, middle: seq<T>, y: T)
    ensures multiset(front + [y] + middle) == multiset(front + [x] + middle + [y]) - multiset{x}
  {
    assert multiset(front + [x] + middle + [y]) == multiset(front) + multiset{x} + multiset(middle) + multiset{y};
    assert multiset(front + [y] + middle) == multiset(front) + multiset{y} + multiset(middle);
  }

  lemma RemainingPlaces(vs: seq<NoteData>, i: Vertex)
    requires i < |vs|
    ensures forall x: Vertex :: x < |vs| && x != i ==> Remaining(vs, i)[Relabel(i, |vs| - 1, x)] == vs[x]
  {
    var last := |vs| - 1;
    var r := Remaining(vs, i);
    forall x: Vertex | x < |vs| && x != i
      ensures r[Relabel(i, last, x)] == vs[x]
    {
      if x == last {
        assert r[i] == vs[last];
      } else if x < i {
        assert r[x] == vs[..i][x];
      } else {
        assert r[x] == vs[i + 1..last][x - i - 1];
      }
    }
  }

  function RemoveVertex(nb: Notebook, i: Vertex): (r: Notebook)
    requires Valid(nb) && i < |nb.vertices|
    ensures Valid(r)
    ensures |r.vertices| == |nb.vertices| - 1
    ensures multiset(r.vertices) == multiset(nb.vertices) - multiset{nb.vertices[i]}
  {
    RemainingNotes(nb.vertices, i);
    Notebook(Remaining(nb.vertices, i), RelabelEdges(nb.edges, i, |nb.vertices| - 1))
  }

  /** The relation between notes that an edge list stands for. */
  function NotePairs(vs: seq<NoteData>, edges: seq<Edge>): seq<(NoteData, NoteData)>
    requires InRange(edges, |vs|)
    decreases edges
  {
    if edges == [] then [] else [(vs[edges[0].0], vs[edges[0].1])] + NotePairs(vs, edges[1..])
  }

  /** The edges that do not touch `i`. */
  function Surviving(edges: seq<Edge>, i: Vertex): (r: seq<Edge>)
    ensures forall k :: 0 <= k < |r| ==> r[k] in edges && !Incident(r[k], i)
    decreases edges
  {
    if edges == [] then []
    else if Incident(edges[0], i) then Surviving(edges[1..], i)
    else [edges[0]] + Surviving(edges[1..], i)
  }

  /** Fast removal keeps, between the remaining notes, exactly the edges that did not touch the
      removed vertex, in their order. */
  lemma RemoveVertexEdges(nb: Notebook, i: Vertex)
    requires Valid(nb) && i < |nb.vertices|
    ensures NotePairs(RemoveVertex(nb, i).vertices, RemoveVertex(nb, i).edges) ==
      NotePairs(nb.vertices, Surviving(nb.edges, i))
  {
    RemainingNotes(nb.vertices, i);
    RelabelPairs(nb.vertices, nb.edges, i);
  }

  lemma {:induction false} RelabelPairs(vs: seq<NoteData>, edges: seq<Edge>, i: Vertex)
    requires i < |vs| && InRange(edges, |vs|)
    requires forall x: Vertex :: x < |vs| && x != i ==> Remaining(vs, i)[Relabel(i, |vs| - 1, x)] == vs[x]
    ensures NotePairs(Remaining(vs, i), RelabelEdges(edges, i, |vs| - 1)) == NotePairs(vs, Surviving(edges, i))
    decreases edges
  {
    if edges != [] {
      assert InRange(edges[1..], |vs|) by {
        forall k | 0 <= k < |edges[1..]|
          ensures edges[1..][k].0 < |vs| && edges[1..][k].1 < |vs|
        {
          assert edges[1..][k] == edges[k + 1];
        }
      }
      RelabelPairs(vs, edges[1..], i);
    }
  }

  /** `remove_note(note, id)` with the vertex lookup by the id property: the id of `note` wins
      over `id`; a missing or empty id and an id no note has are errors that change nothing;
      otherwise the first note with that id is removed together with its edges. */
  function RemoveNote(nb: Notebook, note: Option<NoteData>, id: Option<string>): (r: Result<Notebook, NoteError>)
    requires Valid(nb)
    ensures r == Err(IdRequired) <==> EffectiveId(note, id) == None
    ensures r == Err(NoSuchNote) <==>
      EffectiveId(note, id).Some? && forall j :: 0 <= j < |nb.vertices| ==> nb.vertices[j].id != EffectiveId(note, id).value
    ensures r.Ok? || r == Err(IdRequired) || r == Err(NoSuchNote)
    ensures r.Ok? ==>
      exists j :: 0 <= j < |nb.vertices| && nb.vertices[j].id == EffectiveId(note, id).value &&
        (forall k :: 0 <= k < j ==> nb.vertices[k].id != EffectiveId(note, id).value) &&
        r.value == RemoveVertex(nb, j)
  {
    match EffectiveId(note, id)
    case None => Err(IdRequired)
    case Some(key) =>
      match FindId(nb.vertices, key)
      case None => Err(NoSuchNote)
      case Some(j) => Ok(RemoveVertex(nb, j))
  }

  /** `if note: id = note.id` then `if not id`: the id to look for, absent when it is `None` or
      the empty string. A note object is always true in Python. */
  function EffectiveId(note: Option<NoteData>, id: Option<string>): (r: Option<string>)
    ensures r.Some? ==> r.value != ""
    ensures note.Some? ==> (r.Some? <==> note.value.id != "")
    ensures note.None? ==> (r.Some? <==> id.Some? && id.value != "")
    ensures r.Some? ==> r.value == if note.Some? then note.value.id else id.value
  {
    var key := if note.Some? then Some(note.value.id) else id;
    if key.None? || key.value == "" then None else key
  }

  /** Ids are uuid4 strings, so no two notes share one. */
  predicate UniqueIds(nb: Notebook) {
    forall j, k :: 0 <= j < k < |nb.vertices| ==> nb.vertices[j].id != nb.vertices[k].id
  }

  /** When ids are unique, a successful removal leaves no note with that id and keeps every
      other note. */
  lemma RemoveNoteRemoves(nb: Notebook, note: Option<NoteData>, id: Option<string>)
    requires Valid(nb) && UniqueIds(nb)
    ensures RemoveNote(nb, note, id).Ok? ==>
      forall n :: n in RemoveNote(nb, note, id).value.vertices ==> n.id != EffectiveId(note, id).value
    ensures RemoveNote(nb, note, id).Ok? ==>
      forall n :: n in nb.vertices && n.id != EffectiveId(note, id).value ==> n in RemoveNote(nb, note, id).value.vertices
  {
    if RemoveNote(nb, note, id).Ok? {
      RemovedNoteGone(nb, note, id);
    }
  }

  lemma RemovedNoteGone(nb: Notebook, note: Option<NoteData>, id: Option<string>)
    requires Valid(nb) && UniqueIds(nb) && RemoveNote(nb, note, id).Ok?
    ensures forall n :: n in RemoveNote(nb, note, id).value.vertices ==> n.id != EffectiveId(note, id).value
    ensures forall n :: n in nb.vertices && n.id != EffectiveId(note, id).value ==> n in RemoveNote(nb, note, id).value.vertices
  {
    var key := EffectiveId(note, id).value;
    var j := FindId(nb.vertices, key).value;
    var r := RemoveVertex(nb, j);
    assert RemoveNote(nb, note, id).value == r;
    MultiplicityOne(nb, j);
    forall n | n in r.vertices
      ensures n.id != key
    {
      RemovedDropsOne(nb.vertices, r.vertices, nb.vertices[j], n);
      UniqueIdNote(nb, j, n);
    }
    forall n | n in nb.vertices && n.id != key
      ensures n in r.vertices
    {
      RemovedKeepsOthers(nb.vertices, r.vertices, nb.vertices[j], n);
    }
  }

  /** When a note occurs once and one copy of it is taken away, it is gone. */
  lemma RemovedDropsOne(vs: seq<NoteData>, rs: seq<NoteData>, x: NoteData, n: NoteData)
    requires multiset(rs) == multiset(vs) - multiset{x} && multiset(vs)[x] == 1 && n in rs
    ensures n != x && n in vs
  {
    assert n in multiset(rs);
  }

  /** Taking away one copy of `x` keeps every other note. */
  lemma RemovedKeepsOthers(vs: seq<NoteData>, rs: seq<NoteData>, x: NoteData, n: NoteData)
    requires multiset(rs) == multiset(vs) - multiset{x} && n in vs && n != x
    ensures n in rs
  {
    assert n in multiset(vs);
    assert n in multiset(rs);
  }

  /** With unique ids, the only note carrying the id of vertex `j` is that vertex's note. */
  lemma UniqueIdNote(nb: Notebook, j: nat, n: NoteData)
    requires UniqueIds(nb) && j < |nb.vertices| && n in nb.vertices && n != nb.vertices[j]
    ensures n.id != nb.vertices[j].id
  {
    var k :| 0 <= k < |nb.vertices| && nb.vertices[k] == n;
    assert k != j;
  }

  /** With unique ids each note occurs once. */
  lemma MultiplicityOne(nb: Notebook, j: nat)
    requires UniqueIds(nb) && j < |nb.vertices|
    ensures multiset(nb.vertices)[nb.vertices[j]] == 1
  {
    var vs := nb.vertices;
    assert vs == vs[..j] + [vs[j]] + vs[j + 1..];
    assert vs[j] !in vs[..j];
    assert vs[j] !in vs[j + 1..];
  }

  /** `remove_note` as written: the loop reads `v.id` from a graph_tool vertex, which has no such
      attribute, so the first vertex it looks at raises. */
  function RemoveNoteAsWritten(nb: Notebook, note: Option<NoteData>, id: Option<string>): (r: Result<Notebook, NoteError>)
    ensures r.Err?
    ensures r == Err(IdRequired) <==> EffectiveId(note, id) == None
    ensures r == Err(NoIdAttribute) <==> EffectiveId(note, id).Some? && |nb.vertices| > 0
  {
    match EffectiveId(note, id)
    case None => Err(IdRequired)
    case Some(_) => if |nb.vertices| > 0 then Err(NoIdAttribute) else Err(NoSuchNote)
  }

  /** The discrepancy: a notebook holding the one note `"a"` cannot have it removed as written,
      while looking the id up in the vertex property removes it. */
  lemma RemoveNoteAsWrittenFails()
    ensures RemoveNoteAsWritten(Notebook([NoteData("a", "")], []), None, Some("a")) == Err(NoIdAttribute)
    ensures RemoveNote(Notebook([NoteData("a", "")], []), None, Some("a")) == Ok(Notebook([], []))
  {
    var nb := Notebook([NoteData("a", "")], []);
    assert FindId(nb.vertices, "a") == Some(0);
    assert RemoveVertex(nb, 0).vertices == [];
  }
}
