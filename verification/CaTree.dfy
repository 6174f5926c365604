/**
 The certificate authorities of app/models/ca.py as a forest of parent links, with
 the certificates they issued.
 */
module CaTree {
  import opened Prelude

  /** `is_revoked`, `revoked_at` and `revocation_reason` in one. */
  datatype Revocation = Revocation(at: int, reason: string)

  datatype Ca = Ca(parent: Option<nat>, serial: string, revoked: Option<Revocation>, keyed: bool, pending: bool,
                   notAfter: int, pathLen: Option<int>, imported: bool)
  {
    predicate Revoked() {
      revoked.Some?
    }
  }

  datatype Leaf = Leaf(ca: nat, serial: string, revoked: Option<Revocation>) {
    predicate Revoked() {
      revoked.Some?
    }
  }

  type Forest = map<nat, Ca>

  /** A parent row exists before its children, so its primary key is smaller. */
  ghost predicate Rooted(cas: Forest, c: nat)
    requires c in cas
  {
    cas[c].parent.Some? ==> cas[c].parent.value in cas && cas[c].parent.value < c
  }

  ghost predicate Acyclic(cas: Forest) {
    forall c :: c in cas ==> Rooted(cas, c)
  }

  /** `x` is `top` or lies below it. */
  ghost predicate Under(cas: Forest, top: nat, x: nat)
    decreases x
  {
    x in cas &&
    (x == top || (cas[x].parent.Some? && cas[x].parent.value < x && Under(cas, top, cas[x].parent.value)))
  }

  ghost function Subtree(cas: Forest, top: nat): set<nat> {
    set x | x in cas && Under(cas, top, x)
  }

  function Children(cas: Forest, c: nat): set<nat> {
    set x | x in cas && cas[x].parent == Some(c)
  }

  /** The links of two forests agree. */
  ghost predicate SameLinks(cas: Forest, cas': Forest) {
    cas.Keys == cas'.Keys && forall c :: c in cas ==> cas[c].parent == cas'[c].parent
  }

  lemma {:induction false} UnderSameLinks(cas: Forest, cas': Forest, top: nat, x: nat)
    requires SameLinks(cas, cas')
    ensures Under(cas, top, x) <==> Under(cas', top, x)
    decreases x
  {
    if x in cas && x != top && cas[x].parent.Some? && cas[x].parent.value < x {
      UnderSameLinks(cas, cas', top, cas[x].parent.value);
    }
  }

  lemma SubtreeSameLinks(cas: Forest, cas': Forest, top: nat)
    requires SameLinks(cas, cas')
    ensures Subtree(cas, top) == Subtree(cas', top)
  {
    forall x
      ensures Under(cas, top, x) <==> Under(cas', top, x)
    {
      UnderSameLinks(cas, cas', top, x);
    }
  }

  lemma {:induction false} UnderIsLarger(cas: Forest, top: nat, x: nat)
    requires Under(cas, top, x)
    ensures top <= x
    decreases x
  {
    if x != top {
      UnderIsLarger(cas, top, cas[x].parent.value);
    }
  }

  lemma {:induction false} UnderTrans(cas: Forest, a: nat, b: nat, x: nat)
    requires Under(cas, a, b) && Under(cas, b, x)
    ensures Under(cas, a, x)
    decreases x
  {
    if x != b {
      UnderTrans(cas, a, b, cas[x].parent.value);
    }
  }

  /** Below `top` means below exactly one of its children. */
  lemma {:induction false} UnderSomeChild(cas: Forest, top: nat, x: nat) returns (c: nat)
    requires Under(cas, top, x) && x != top
    ensures c in Children(cas, top) && Under(cas, c, x)
    decreases x
  {
    var p := cas[x].parent.value;
    if p == top {
      c := x;
    } else {
      c := UnderSomeChild(cas, top, p);
    }
  }

  /** Subtrees of two CAs that are not above each other are disjoint. */
  lemma {:induction false} Comparable(cas: Forest, a: nat, b: nat, x: nat)
    requires Under(cas, a, x) && Under(cas, b, x)
    ensures Under(cas, a, b) || Under(cas, b, a)
    decreases x
  {
    if x != a && x != b {
      Comparable(cas, a, b, cas[x].parent.value);
    }
  }

  lemma SiblingsDisjoint(cas: Forest, top: nat, a: nat, b: nat)
    requires Acyclic(cas) && a in Children(cas, top) && b in Children(cas, top) && a != b
    ensures Subtree(cas, a) !! Subtree(cas, b)
  {
    forall x | x in Subtree(cas, a) && x in Subtree(cas, b)
      ensures false
    {
      assert Rooted(cas, a) && Rooted(cas, b);
      Comparable(cas, a, b, x);
      if Under(cas, a, b) {
        UnderIsLarger(cas, a, top);
      } else {
        UnderIsLarger(cas, b, top);
      }
    }
  }

  lemma ChildSubtree(cas: Forest, top: nat, c: nat)
    requires Acyclic(cas) && top in cas && c in Children(cas, top)
    ensures Subtree(cas, c) <= Subtree(cas, top) - {top}
  {
    assert Rooted(cas, c);
    forall x | x in Subtree(cas, c)
      ensures x in Subtree(cas, top) && x != top
    {
      UnderTrans(cas, top, c, x);
      UnderIsLarger(cas, c, x);
    }
  }

  // ---------------------------------------------------------------------------
  // Revocation
  // ---------------------------------------------------------------------------

  /** Every unrevoked CA of `t` revoked with `rev`. */
  function MarkCas(cas: Forest, t: set<nat>, rev: Revocation): Forest {
    map c | c in cas :: if c in t && !cas[c].Revoked() then cas[c].(revoked := Some(rev)) else cas[c]
  }

  /** Every unrevoked certificate of a CA of `t` revoked with `rev`. */
  function MarkLeaves(leaves: map<nat, Leaf>, t: set<nat>, rev: Revocation): map<nat, Leaf> {
    map k | k in leaves :: if leaves[k].ca in t && !leaves[k].Revoked() then leaves[k].(revoked := Some(rev)) else leaves[k]
  }

  function LiveCas(cas: Forest, t: set<nat>): set<nat> {
    set c | c in t && c in cas && !cas[c].Revoked()
  }

  function LiveLeaves(leaves: map<nat, Leaf>, t: set<nat>): set<nat> {
    set k | k in leaves && leaves[k].ca in t && !leaves[k].Revoked()
  }

  /** A revoked CA has only revoked certificates, and its children are revoked. */
  ghost predicate ClosedAt(cas: Forest, leaves: map<nat, Leaf>, c: nat)
    requires c in cas
  {
    cas[c].Revoked() ==> LiveCas(cas, Children(cas, c)) == {} && LiveLeaves(leaves, {c}) == {}
  }

  /** Revocation is downward closed below `top`. */
  ghost predicate ClosedBelow(cas: Forest, leaves: map<nat, Leaf>, top: nat) {
    forall c :: c in cas && Under(cas, top, c) ==> ClosedAt(cas, leaves, c)
  }

  ghost predicate Closed(cas: Forest, leaves: map<nat, Leaf>) {
    forall c :: c in cas ==> ClosedAt(cas, leaves, c)
  }

  /** Below a revoked CA nothing is live. */
  lemma {:induction false} DeadBelow(cas: Forest, leaves: map<nat, Leaf>, top: nat, x: nat)
    requires ClosedBelow(cas, leaves, top) && top in cas && cas[top].Revoked() && Under(cas, top, x)
    ensures cas[x].Revoked()
    decreases x
  {
    if x != top {
      var p := cas[x].parent.value;
      DeadBelow(cas, leaves, top, p);
      assert ClosedAt(cas, leaves, p);
      assert x in Children(cas, p);
      assert cas[x].Revoked() || x in LiveCas(cas, Children(cas, p));
    }
  }

  lemma DeadSubtree(cas: Forest, leaves: map<nat, Leaf>, top: nat)
    requires ClosedBelow(cas, leaves, top) && top in cas && cas[top].Revoked()
    ensures LiveCas(cas, Subtree(cas, top)) == {} && LiveLeaves(leaves, Subtree(cas, top)) == {}
  {
    forall x | x in Subtree(cas, top)
      ensures cas[x].Revoked() && LiveLeaves(leaves, {x}) == {}
    {
      DeadBelow(cas, leaves, top, x);
      assert ClosedAt(cas, leaves, x);
    }
    forall k | k in leaves && leaves[k].ca in Subtree(cas, top)
      ensures leaves[k].Revoked()
    {
      var c := leaves[k].ca;
      assert k !in LiveLeaves(leaves, {c});
    }
  }

  // --- marking -----------------------------------------------------------------

  lemma MarkKeepsLinks(cas: Forest, t: set<nat>, rev: Revocation)
    ensures SameLinks(cas, MarkCas(cas, t, rev))
  {
  }

  lemma MarkTwice(cas: Forest, leaves: map<nat, Leaf>, t: set<nat>, u: set<nat>, rev: Revocation)
    ensures MarkCas(MarkCas(cas, t, rev), u, rev) == MarkCas(cas, t + u, rev)
    ensures MarkLeaves(MarkLeaves(leaves, t, rev), u, rev) == MarkLeaves(leaves, t + u, rev)
  {
  }

  /** Marking elsewhere leaves a subtree closed and its live members live. */
  lemma MarkElsewhere(cas: Forest, leaves: map<nat, Leaf>, t: set<nat>, rev: Revocation, c: nat)
    requires Acyclic(cas) && ClosedBelow(cas, leaves, c) && Subtree(cas, c) !! t
    ensures var cas', leaves' := MarkCas(cas, t, rev), MarkLeaves(leaves, t, rev);
      && ClosedBelow(cas', leaves', c) && Subtree(cas', c) == Subtree(cas, c) && Acyclic(cas')
      && LiveCas(cas', Subtree(cas, c)) == LiveCas(cas, Subtree(cas, c))
      && LiveLeaves(leaves', Subtree(cas, c)) == LiveLeaves(leaves, Subtree(cas, c))
  {
    var cas', leaves' := MarkCas(cas, t, rev), MarkLeaves(leaves, t, rev);
    MarkKeepsLinks(cas, t, rev);
    SubtreeSameLinks(cas, cas', c);
    forall x | x in cas
      ensures Rooted(cas', x)
    {
      assert Rooted(cas, x);
    }
    forall x | x in cas' && Under(cas', c, x)
      ensures ClosedAt(cas', leaves', x)
    {
      UnderSameLinks(cas, cas', c, x);
      assert ClosedAt(cas, leaves, x) && x in Subtree(cas, c);
      assert Children(cas', x) == Children(cas, x);
      assert LiveCas(cas', Children(cas, x)) <= LiveCas(cas, Children(cas, x));
      assert LiveLeaves(leaves', {x}) <= LiveLeaves(leaves, {x});
    }
  }

  // --- what the cascade must reach -----------------------------------------------

  /** Revoking `c` with everything below it. */
  ghost predicate Cascaded(cas: Forest, leaves: map<nat, Leaf>, cas': Forest, leaves': map<nat, Leaf>,
                           t: set<nat>, rev: Revocation) {
    cas' == MarkCas(cas, t, rev) && leaves' == MarkLeaves(leaves, t, rev)
  }

  /** The part of a tree that is the top and the subtrees of some of its children. */
  ghost function Explored(cas: Forest, top: nat, done: set<nat>): set<nat> {
    set x | x in cas && (x == top || exists c :: c in done && Under(cas, c, x))
  }

  lemma ExploredAll(cas: Forest, top: nat)
    requires Acyclic(cas) && top in cas
    ensures Explored(cas, top, Children(cas, top)) == Subtree(cas, top)
  {
    forall x | x in Subtree(cas, top) && x != top
      ensures exists c :: c in Children(cas, top) && Under(cas, c, x)
    {
      var c := UnderSomeChild(cas, top, x);
    }
    forall x, c | c in Children(cas, top) && Under(cas, c, x)
      ensures x in Subtree(cas, top)
    {
      ChildSubtree(cas, top, c);
      assert x in Subtree(cas, c);
    }
  }

  lemma ExploredMore(cas: Forest, top: nat, done: set<nat>, c: nat)
    requires Acyclic(cas) && top in cas && c in Children(cas, top) && done <= Children(cas, top) && c !in done
    ensures Explored(cas, top, done + {c}) == Explored(cas, top, done) + Subtree(cas, c)
    ensures Explored(cas, top, done) !! Subtree(cas, c)
  {
    forall x | x in Explored(cas, top, done)
      ensures x !in Subtree(cas, c)
    {
      if x == top {
        ChildSubtree(cas, top, c);
      } else {
        var d :| d in done && Under(cas, d, x);
        SiblingsDisjoint(cas, top, c, d);
        assert x in Subtree(cas, d);
      }
    }
  }

  lemma ClosedBelowChild(cas: Forest, leaves: map<nat, Leaf>, top: nat, c: nat)
    requires Acyclic(cas) && top in cas && ClosedBelow(cas, leaves, top) && c in Children(cas, top)
    ensures ClosedBelow(cas, leaves, c)
  {
    ChildSubtree(cas, top, c);
    forall x | x in cas && Under(cas, c, x)
      ensures ClosedAt(cas, leaves, x)
    {
      assert x in Subtree(cas, c);
      assert x in Subtree(cas, top);
    }
  }
}
