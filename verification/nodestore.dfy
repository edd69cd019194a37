/** The parent/child relation of rel/graph.py. The `edge` table's primary key is
    `(head_id, tail_id)`, so the edges form a set of pairs of node ids: a head is the parent, a
    tail is the child. Nodes are known by their ids; a join with the `node` table keeps only edges
    whose other end is a stored node. */
module NodeStore {
  import opened Results
  import opened Common

  type NodeId = int
  type Edge = (NodeId, NodeId)

  datatype Store = Store(nodes: set<NodeId>, edges: set<Edge>)

  datatype StoreError =
    | DuplicateEdge(head: NodeId, tail: NodeId)   // a second row with the same primary key
    | MissingEdge(head: NodeId, tail: NodeId)     // `find(...).one()` found no row to remove

  /** `_create_edge(storm, parent, child)`: adds the row `(parent, child)`. */
  function CreateEdge(s: Store, parent: NodeId, child: NodeId): (r: Result<Store, StoreError>)
    ensures r.Ok? <==> (parent, child) !in s.edges
    ensures r.Err? ==> r.error == DuplicateEdge(parent, child)
    ensures r.Ok? ==> r.value.nodes == s.nodes && r.value.edges == s.edges + {(parent, child)}
  {
    if (parent, child) in s.edges then Err(DuplicateEdge(parent, child))
    else Ok(s.(edges := s.edges + {(parent, child)}))
  }

  /** `_delete_edge(storm, parent, child)`: removes the row `(parent, child)`, which must exist. */
  function DeleteEdge(s: Store, parent: NodeId, child: NodeId): (r: Result<Store, StoreError>)
    ensures r.Ok? <==> (parent, child) in s.edges
    ensures r.Err? ==> r.error == MissingEdge(parent, child)
    ensures r.Ok? ==> r.value.nodes == s.nodes && r.value.edges == s.edges - {(parent, child)}
  {
    if (parent, child) !in s.edges then Err(MissingEdge(parent, child))
    else Ok(s.(edges := s.edges - {(parent, child)}))
  }

  /** The edge between `self` and `other`, oriented by the role `other` plays. */
  function Oriented(self: NodeId, other: NodeId, otherIsChild: bool): Edge {
    if otherIsChild then (self, other) else (other, self)
  }

  /** No id is listed twice. */
  predicate Distinct(xs: seq<NodeId>) {
    forall i, j :: 0 <= i < j < |xs| ==> xs[i] != xs[j]
  }

  lemma DistinctCons(xs: seq<NodeId>)
    requires xs != []
    ensures Distinct(xs) <==> Distinct(xs[1..]) && forall i :: 0 <= i < |xs[1..]| ==> xs[1..][i] != xs[0]
  {
    if Distinct(xs[1..]) && forall i :: 0 <= i < |xs[1..]| ==> xs[1..][i] != xs[0] {
      forall i, j | 0 <= i < j < |xs|
        ensures xs[i] != xs[j]
      {
        assert xs[j] == xs[1..][j - 1];
        if i > 0 {
          assert xs[i] == xs[1..][i - 1];
        }
      }
    }
  }

  /** Creates the edges to each of `others` in turn; the first failure stops the loop. */
  function CreateAll(s: Store, self: NodeId, others: seq<NodeId>, otherIsChild: bool): (r: Result<Store, StoreError>)
    ensures r.Ok? ==> r.value.nodes == s.nodes
    ensures r.Ok? <==> Distinct(others) && forall i :: 0 <= i < |others| ==> Oriented(self, others[i], otherIsChild) !in s.edges
    ensures r.Ok? ==> r.value.edges == s.edges + set i | 0 <= i < |others| :: Oriented(self, others[i], otherIsChild)
    decreases others
  {
    if others == [] then Ok(s)
    else
      var e := Oriented(self, others[0], otherIsChild);
      match CreateEdge(s, e.0, e.1)
      case Err(err) => Err(err)
      case Ok(s1) =>
        var r := CreateAll(s1, self, others[1..], otherIsChild);
        OrientedCons(self, others, otherIsChild);
        r
  }

  /** The edges to a non-empty list are the edge to its head and the edges to its tail. */
  lemma OrientedCons(self: NodeId, others: seq<NodeId>, otherIsChild: bool)
    requires others != []
    ensures (set i | 0 <= i < |others| :: Oriented(self, others[i], otherIsChild)) ==
            {Oriented(self, others[0], otherIsChild)} + set i | 0 <= i < |others[1..]| :: Oriented(self, others[1..][i], otherIsChild)
  {
    var e := Oriented(self, others[0], otherIsChild);
    var tail := set i | 0 <= i < |others[1..]| :: Oriented(self, others[1..][i], otherIsChild);
    var whole := set i | 0 <= i < |others| :: Oriented(self, others[i], otherIsChild);
    forall x | x in whole
      ensures x in {e} + tail
    {
      var i :| 0 <= i < |others| && x == Oriented(self, others[i], otherIsChild);
      if i > 0 {
        assert others[1..][i - 1] == others[i];
      }
    }
    forall x | x in tail
      ensures x in whole
    {
      var i :| 0 <= i < |others[1..]| && x == Oriented(self, others[1..][i], otherIsChild);
      assert others[i + 1] == others[1..][i];
    }
  }

  /** Deletes the edges to each of `others` in turn; the first failure stops the loop. */
  function DeleteAll(s: Store, self: NodeId, others: seq<NodeId>, otherIsChild: bool): (r: Result<Store, StoreError>)
    ensures r.Ok? ==> r.value.nodes == s.nodes
    ensures r.Ok? <==> Distinct(others) && forall i :: 0 <= i < |others| ==> Oriented(self, others[i], otherIsChild) in s.edges
    ensures r.Ok? ==> r.value.edges == s.edges - set i | 0 <= i < |others| :: Oriented(self, others[i], otherIsChild)
    decreases others
  {
    if others == [] then Ok(s)
    else
      var e := Oriented(self, others[0], otherIsChild);
      match DeleteEdge(s, e.0, e.1)
      case Err(err) => Err(err)
      case Ok(s1) =>
        var r := DeleteAll(s1, self, others[1..], otherIsChild);
        assert r.Ok? ==> r.value.edges == s.edges - set i | 0 <= i < |others| :: Oriented(self, others[i], otherIsChild) by {
          if r.Ok? {
            var tail := set i | 0 <= i < |others[1..]| :: Oriented(self, others[1..][i], otherIsChild);
            var whole := set i | 0 <= i < |others| :: Oriented(self, others[i], otherIsChild);
            assert whole == {e} + tail by {
              forall x | x in whole
                ensures x in {e} + tail
              {
                var i :| 0 <= i < |others| && x == Oriented(self, others[i], otherIsChild);
                if i > 0 {
                  assert others[1..][i - 1] == others[i];
                }
              }
              forall x | x in tail
                ensures x in whole
              {
                var i :| 0 <= i < |others[1..]| && x == Oriented(self, others[1..][i], otherIsChild);
                assert others[i + 1] == others[1..][i];
              }
              assert e == Oriented(self, others[0], otherIsChild);
            }
          }
        }
        r
  }

  /** `update_children(add, remove)`: first the edges `(self, c)` for each added child, then the
      removal of `(self, c)` for each removed child. */
  function UpdateChildren(s: Store, self: NodeId, add: PyArg<NodeId>, remove: PyArg<NodeId>): (r: Result<Store, StoreError>)
    ensures r.Ok? <==>
      && Distinct(ToIter(add)) && (forall c :: c in ToIter(add) ==> (self, c) !in s.edges)
      && Distinct(ToIter(remove)) && (forall c :: c in ToIter(remove) ==> (self, c) in s.edges || c in ToIter(add))
    ensures r.Ok? ==> r.value.nodes == s.nodes
    ensures r.Ok? ==>
      r.value.edges == (s.edges + (set c | c in ToIter(add) :: (self, c))) - (set c | c in ToIter(remove) :: (self, c))
  {
    var added := CreateAll(s, self, ToIter(add), true);
    assert added.Ok? ==> added.value.edges == s.edges + set c | c in ToIter(add) :: (self, c) by {
      OrientedChildren(self, ToIter(add));
    }
    OrientedChildren(self, ToIter(remove));
    match added
    case Err(err) => Err(err)
    case Ok(s1) => DeleteAll(s1, self, ToIter(remove), true)
  }

  /** `update_parents(add, remove)`: the mirror image, on the edges `(p, self)`. */
  function UpdateParents(s: Store, self: NodeId, add: PyArg<NodeId>, remove: PyArg<NodeId>): (r: Result<Store, StoreError>)
    ensures r.Ok? <==>
      && Distinct(ToIter(add)) && (forall p :: p in ToIter(add) ==> (p, self) !in s.edges)
      && Distinct(ToIter(remove)) && (forall p :: p in ToIter(remove) ==> (p, self) in s.edges || p in ToIter(add))
    ensures r.Ok? ==> r.value.nodes == s.nodes
    ensures r.Ok? ==>
      r.value.edges == (s.edges + (set p | p in ToIter(add) :: (p, self))) - (set p | p in ToIter(remove) :: (p, self))
  {
    var added := CreateAll(s, self, ToIter(add), false);
    assert added.Ok? ==> added.value.edges == s.edges + set p | p in ToIter(add) :: (p, self) by {
      OrientedParents(self, ToIter(add));
    }
    OrientedParents(self, ToIter(remove));
    match added
    case Err(err) => Err(err)
    case Ok(s1) => DeleteAll(s1, self, ToIter(remove), false)
  }

  lemma OrientedChildren(self: NodeId, others: seq<NodeId>)
    ensures (set i | 0 <= i < |others| :: Oriented(self, others[i], true)) == set c | c in others :: (self, c)
  {
    var a := set i | 0 <= i < |others| :: Oriented(self, others[i], true);
    var b := set c | c in others :: (self, c);
    forall x | x in b
      ensures x in a
    {
      var c :| c in others && x == (self, c);
      var i :| 0 <= i < |others| && others[i] == c;
      assert x == Oriented(self, others[i], true);
    }
  }

  lemma OrientedParents(self: NodeId, others: seq<NodeId>)
    ensures (set i | 0 <= i < |others| :: Oriented(self, others[i], false)) == set p | p in others :: (p, self)
  {
    var a := set i | 0 <= i < |others| :: Oriented(self, others[i], false);
    var b := set p | p in others :: (p, self);
    forall x | x in b
      ensures x in a
    {
      var p :| p in others && x == (p, self);
      var i :| 0 <= i < |others| && others[i] == p;
      assert x == Oriented(self, others[i], false);
    }
  }

  /** `children()`: the stored nodes that are tails of an edge whose head is `self`. */
  function Children(s: Store, self: NodeId): (r: set<NodeId>)
    ensures forall n :: n in r <==> n in s.nodes && (self, n) in s.edges
  {
    set n | n in s.nodes && (self, n) in s.edges
  }

  /** `parents()`: the stored nodes that are heads of an edge whose tail is `self`. */
  function Parents(s: Store, self: NodeId): (r: set<NodeId>)
    ensures forall n :: n in r <==> n in s.nodes && (n, self) in s.edges
  {
    set n | n in s.nodes && (n, self) in s.edges
  }

  /** The two queries read the same relation from its two ends. */
  lemma ChildParentMirror(s: Store, a: NodeId, b: NodeId)
    requires a in s.nodes && b in s.nodes
    ensures b in Children(s, a) <==> a in Parents(s, b)
  {
  }

  /** After `update_children(add=C)` each stored `c` in `C` is a child of `self`, and `self`
      (when stored) is a parent of `c`. */
  lemma UpdateChildrenAdds(s: Store, self: NodeId, add: PyArg<NodeId>, c: NodeId)
    requires UpdateChildren(s, self, add, NoneArg).Ok?
    requires c in ToIter(add) && c in s.nodes
    ensures c in Children(UpdateChildren(s, self, add, NoneArg).value, self)
    ensures self in s.nodes ==> self in Parents(UpdateChildren(s, self, add, NoneArg).value, c)
  {
    var s1 := UpdateChildren(s, self, add, NoneArg).value;
    assert (self, c) in set x | x in ToIter(add) :: (self, x);
    assert (set x: NodeId | x in ToIter<NodeId>(NoneArg) :: (self, x)) == {};
    assert (self, c) in s1.edges;
  }

  /** After `update_parents(add=P)` each stored `p` in `P` is a parent of `self`. */
  lemma UpdateParentsAdds(s: Store, self: NodeId, add: PyArg<NodeId>, p: NodeId)
    requires UpdateParents(s, self, add, NoneArg).Ok?
    requires p in ToIter(add) && p in s.nodes
    ensures p in Parents(UpdateParents(s, self, add, NoneArg).value, self)
    ensures self in s.nodes ==> self in Children(UpdateParents(s, self, add, NoneArg).value, p)
  {
    var s1 := UpdateParents(s, self, add, NoneArg).value;
    assert (p, self) in set x | x in ToIter(add) :: (x, self);
    assert (set x: NodeId | x in ToIter<NodeId>(NoneArg) :: (x, self)) == {};
    assert (p, self) in s1.edges;
  }

  /** Adding `c` as a child of `self` and adding `self` as a parent of `c` are the same change. */
  lemma ChildrenParentsMirror(s: Store, self: NodeId, c: NodeId)
    ensures UpdateChildren(s, self, Scalar(c), NoneArg) == UpdateParents(s, c, Scalar(self), NoneArg)
  {
    var none: seq<NodeId> := [];
    assert ToIter<NodeId>(NoneArg) == none;
    assert [c][1..] == none && [self][1..] == none;
    var e := CreateEdge(s, self, c);
    assert CreateAll(s, self, [c], true) == e by {
      assert Oriented(self, [c][0], true) == (self, c);
      if e.Ok? {
        assert CreateAll(e.value, self, none, true) == Ok(e.value);
      }
    }
    assert CreateAll(s, c, [self], false) == e by {
      assert Oriented(c, [self][0], false) == (self, c);
      if e.Ok? {
        assert CreateAll(e.value, c, none, false) == Ok(e.value);
      }
    }
    if e.Ok? {
      assert DeleteAll(e.value, self, none, true) == Ok(e.value);
      assert DeleteAll(e.value, c, none, false) == Ok(e.value);
    }
  }

  /** Removing a child deletes exactly the pair `(self, c)`; every other edge stays. */
  lemma RemoveChildExactly(s: Store, self: NodeId, c: NodeId)
    ensures UpdateChildren(s, self, NoneArg, Scalar(c)).Ok? <==> (self, c) in s.edges
    ensures UpdateChildren(s, self, NoneArg, Scalar(c)).Ok? ==>
      forall e :: e in UpdateChildren(s, self, NoneArg, Scalar(c)).value.edges <==> e in s.edges && e != (self, c)
  {
    var none: seq<NodeId> := [];
    assert ToIter(NoneArg) == none;
    assert ToIter(Scalar(c)) == [c];
    assert [c][1..] == none;
    assert CreateAll(s, self, none, true) == Ok(s);
    assert DeleteAll(s, self, [c], true) == DeleteEdge(s, self, c);
  }
}
