/** The revocation cascade of app/services/crl_service.py and its preview. */
module CaRegistries {
  import opened Prelude
  import opened CaTree

  class CaRegistry {
    var cas: Forest
    var leaves: map<nat, Leaf>

    ghost predicate Valid()
      reads this
    {
      Acyclic(cas) && Closed(cas, leaves)
    }

    /** `_revoke_ca_recursive`: revokes `c`, its certificates, and its unrevoked
        children; a revoked child is skipped. */
    method RevokeRecursive(c: nat, rev: Revocation) returns (leavesRevoked: nat, subCasRevoked: nat)
      requires Acyclic(cas) && c in cas && !cas[c].Revoked() && ClosedBelow(cas, leaves, c)
      modifies this
      ensures Cascaded(old(cas), old(leaves), cas, leaves, Subtree(old(cas), c), rev)
      ensures subCasRevoked == |LiveCas(old(cas), Subtree(old(cas), c) - {c})|
      ensures leavesRevoked == |LiveLeaves(old(leaves), Subtree(old(cas), c))|
      decreases Subtree(cas, c)
    {
      ghost var cas0, leaves0, done := cas, leaves, {};
      cas := cas[c := cas[c].(revoked := Some(rev))];
      leavesRevoked := RevokeLeavesOf(c, rev);
      subCasRevoked := 0;
      var todo := Children(cas, c);
      Begin(cas0, leaves0, cas, leaves, c, rev, leavesRevoked);
      while todo != {}
        invariant todo <= Children(cas0, c) && done == Children(cas0, c) - todo
        invariant Progress(cas0, leaves0, cas, leaves, c, done, rev, leavesRevoked, subCasRevoked)
      {
        var child :| child in todo;
        Descend(cas0, leaves0, cas, leaves, c, done, child, rev, leavesRevoked, subCasRevoked);
        ghost var cas1, leaves1 := cas, leaves;
        if !cas[child].Revoked() {
          var l, s := RevokeRecursive(child, rev);
          Ascend(cas0, leaves0, cas1, leaves1, cas, leaves, c, done, child, rev, leavesRevoked, subCasRevoked, l, s);
          leavesRevoked, subCasRevoked := leavesRevoked + l, subCasRevoked + 1 + s;
        } else {
          Skip(cas0, leaves0, cas, leaves, c, done, child, rev, leavesRevoked, subCasRevoked);
        }
        assert Progress(cas0, leaves0, cas, leaves, c, done + {child}, rev, leavesRevoked, subCasRevoked);
        done, todo := done + {child}, todo - {child};
      }
      Finish(cas0, leaves0, cas, leaves, c, done, rev, leavesRevoked, subCasRevoked);
    }

    method RevokeLeavesOf(c: nat, rev: Revocation) returns (n: nat)
      modifies this`leaves
      ensures leaves == MarkLeaves(old(leaves), {c}, rev)
      ensures n == |LiveLeaves(old(leaves), {c})|
    {
      n := 0;
      var active := set k | k in leaves && leaves[k].ca == c && !leaves[k].Revoked();
      ghost var leaves0 := leaves;
      assert active == LiveLeaves(leaves0, {c});
      var todo := active;
      while todo != {}
        invariant todo <= active && n == |active| - |todo|
        invariant leaves.Keys == leaves0.Keys
        invariant forall k :: k in leaves ==>
          leaves[k] == if k in active - todo then leaves0[k].(revoked := Some(rev)) else leaves0[k]
      {
        var k :| k in todo;
        leaves := leaves[k := leaves[k].(revoked := Some(rev))];
        n, todo := n + 1, todo - {k};
      }
    }

    /** `revoke_ca`. */
    method RevokeCa(c: nat, rev: Revocation) returns (r: Result<(nat, nat), string>)
      requires Valid()
      modifies this
      ensures Valid()
      ensures r.Ok? <==> c in old(cas) && !old(cas)[c].Revoked()
      ensures r.Err? ==> cas == old(cas) && leaves == old(leaves)
      ensures r.Ok? ==> Cascaded(old(cas), old(leaves), cas, leaves, Subtree(old(cas), c), rev)
      ensures r.Ok? ==>
        r.value == (|LiveLeaves(old(leaves), Subtree(old(cas), c))|, |LiveCas(old(cas), Subtree(old(cas), c) - {c})|)
    {
      if c !in cas {
        return Err("CA not found");
      }
      if cas[c].Revoked() {
        return Err("CA is already revoked");
      }
      ghost var cas0, leaves0 := cas, leaves;
      var l, s := RevokeRecursive(c, rev);
      CascadeStaysClosed(cas0, leaves0, c, rev);
      r := Ok((l, s));
    }

    /** `_count_active_sub_cas`, the number the confirmation page shows. */
    method CountActiveSubCas(c: nat) returns (n: nat)
      requires Acyclic(cas) && c in cas && ClosedBelow(cas, leaves, c)
      ensures n == |LiveCas(cas, Subtree(cas, c) - {c})|
      decreases Subtree(cas, c)
    {
      n := 0;
      ghost var done := {};
      var todo := Children(cas, c);
      assert LiveCas(cas, Explored(cas, c, {}) - {c}) == {};
      while todo != {}
        invariant todo !! done && todo + done == Children(cas, c)
        invariant n == |LiveCas(cas, Explored(cas, c, done) - {c})|
      {
        var child :| child in todo;
        CountMore(cas, leaves, c, done, child);
        if !cas[child].Revoked() {
          var m := CountActiveSubCas(child);
          n := n + 1 + m;
        }
        done, todo := done + {child}, todo - {child};
      }
      ExploredAll(cas, c);
    }
  }

  /** How far the loop over the children of `c` has come. */
  ghost predicate Progress(cas0: Forest, leaves0: map<nat, Leaf>, cas: Forest, leaves: map<nat, Leaf>, c: nat,
                           done: set<nat>, rev: Revocation, l: nat, s: nat) {
    var t := Explored(cas0, c, done);
    && c in cas0 && Acyclic(cas0) && ClosedBelow(cas0, leaves0, c) && done <= Children(cas0, c)
    && Cascaded(cas0, leaves0, cas, leaves, t, rev)
    && s == |LiveCas(cas0, t - {c})| && l == |LiveLeaves(leaves0, t)|
  }

  lemma Begin(cas0: Forest, leaves0: map<nat, Leaf>, cas: Forest, leaves: map<nat, Leaf>, c: nat, rev: Revocation, l: nat)
    requires c in cas0 && Acyclic(cas0) && ClosedBelow(cas0, leaves0, c) && !cas0[c].Revoked()
    requires cas == cas0[c := cas0[c].(revoked := Some(rev))] && leaves == MarkLeaves(leaves0, {c}, rev)
    requires l == |LiveLeaves(leaves0, {c})|
    ensures Progress(cas0, leaves0, cas, leaves, c, {}, rev, l, 0)
    ensures Children(cas, c) == Children(cas0, c)
  {
    assert Explored(cas0, c, {}) == {c};
    assert LiveCas(cas0, {c} - {c}) == {};
    assert cas == MarkCas(cas0, {c}, rev);
  }

  /** The next child's subtree is untouched and closed, so the cascade may enter it. */
  lemma Descend(cas0: Forest, leaves0: map<nat, Leaf>, cas: Forest, leaves: map<nat, Leaf>, c: nat,
                done: set<nat>, child: nat, rev: Revocation, l: nat, s: nat)
    requires Progress(cas0, leaves0, cas, leaves, c, done, rev, l, s)
    requires child in Children(cas0, c) && child !in done
    ensures Acyclic(cas) && child in cas && ClosedBelow(cas, leaves, child)
    ensures cas[child] == cas0[child]
    ensures Subtree(cas, child) == Subtree(cas0, child) < Subtree(cas0, c)
    ensures LiveCas(cas, Subtree(cas0, child)) == LiveCas(cas0, Subtree(cas0, child))
    ensures LiveLeaves(leaves, Subtree(cas0, child)) == LiveLeaves(leaves0, Subtree(cas0, child))
  {
    ExploredMore(cas0, c, done, child);
    ClosedBelowChild(cas0, leaves0, c, child);
    MarkElsewhere(cas0, leaves0, Explored(cas0, c, done), rev, child);
    ChildSubtree(cas0, c, child);
    assert child in Subtree(cas0, child) && c in Subtree(cas0, c);
  }

  /** The cascade below `child` adds its subtree. */
  lemma Ascend(cas0: Forest, leaves0: map<nat, Leaf>, cas1: Forest, leaves1: map<nat, Leaf>, cas: Forest,
               leaves: map<nat, Leaf>, c: nat, done: set<nat>, child: nat, rev: Revocation, l: nat, s: nat,
               l': nat, s': nat)
    requires Progress(cas0, leaves0, cas1, leaves1, c, done, rev, l, s)
    requires child in Children(cas0, c) && child !in done && !cas0[child].Revoked()
    requires Cascaded(cas1, leaves1, cas, leaves, Subtree(cas0, child), rev)
    requires s' == |LiveCas(cas1, Subtree(cas0, child) - {child})| && l' == |LiveLeaves(leaves1, Subtree(cas0, child))|
    ensures Progress(cas0, leaves0, cas, leaves, c, done + {child}, rev, l + l', s + 1 + s')
  {
    var t, u := Explored(cas0, c, done), Subtree(cas0, child);
    Descend(cas0, leaves0, cas1, leaves1, c, done, child, rev, l, s);
    ExploredMore(cas0, c, done, child);
    ChildSubtree(cas0, c, child);
    Grow(cas0, leaves0, t, c, u, rev);
    LiveSplit(cas0, child);
    assert LiveCas(cas1, u - {child}) == LiveCas(cas1, u) - {child};
    assert LiveCas(cas0, u - {child}) == LiveCas(cas0, u) - {child};
  }

  /** A revoked child has nothing live below it, so skipping it loses nothing. */
  lemma Skip(cas0: Forest, leaves0: map<nat, Leaf>, cas: Forest, leaves: map<nat, Leaf>, c: nat,
             done: set<nat>, child: nat, rev: Revocation, l: nat, s: nat)
    requires Progress(cas0, leaves0, cas, leaves, c, done, rev, l, s)
    requires child in Children(cas0, c) && child !in done && cas0[child].Revoked()
    ensures Progress(cas0, leaves0, cas, leaves, c, done + {child}, rev, l, s)
  {
    var t, u := Explored(cas0, c, done), Subtree(cas0, child);
    Descend(cas0, leaves0, cas, leaves, c, done, child, rev, l, s);
    ExploredMore(cas0, c, done, child);
    ChildSubtree(cas0, c, child);
    Grow(cas0, leaves0, t, c, u, rev);
    ClosedBelowChild(cas0, leaves0, c, child);
    DeadSubtree(cas0, leaves0, child);
    MarkDead(cas, leaves, u, rev);
  }

  lemma Finish(cas0: Forest, leaves0: map<nat, Leaf>, cas: Forest, leaves: map<nat, Leaf>, c: nat,
               done: set<nat>, rev: Revocation, l: nat, s: nat)
    requires Progress(cas0, leaves0, cas, leaves, c, done, rev, l, s) && done == Children(cas0, c)
    ensures Cascaded(cas0, leaves0, cas, leaves, Subtree(cas0, c), rev)
    ensures s == |LiveCas(cas0, Subtree(cas0, c) - {c})| && l == |LiveLeaves(leaves0, Subtree(cas0, c))|
  {
    ExploredAll(cas0, c);
  }

  lemma LiveWithoutTop(cas: Forest, c: nat)
    requires Acyclic(cas) && c in cas
    ensures c in Subtree(cas, c)
  {
  }

  lemma CountMore(cas: Forest, leaves: map<nat, Leaf>, c: nat, done: set<nat>, child: nat)
    requires Acyclic(cas) && c in cas && ClosedBelow(cas, leaves, c)
    requires done <= Children(cas, c) && child in Children(cas, c) && child !in done
    ensures ClosedBelow(cas, leaves, child) && Subtree(cas, child) < Subtree(cas, c)
    ensures |LiveCas(cas, Explored(cas, c, done + {child}) - {c})| == |LiveCas(cas, Explored(cas, c, done) - {c})|
      + if cas[child].Revoked() then 0 else 1 + |LiveCas(cas, Subtree(cas, child) - {child})|
  {
    ClosedBelowChild(cas, leaves, c, child);
    ExploredMore(cas, c, done, child);
    ChildSubtree(cas, c, child);
    LiveWithoutTop(cas, c);
    GrowCas(cas, Explored(cas, c, done), c, Subtree(cas, child));
    if cas[child].Revoked() {
      DeadSubtree(cas, leaves, child);
    } else {
      LiveSplit(cas, child);
    }
  }

  lemma GrowCas(cas: Forest, t: set<nat>, c: nat, u: set<nat>)
    requires t !! u && c !in u
    ensures |LiveCas(cas, t + u - {c})| == |LiveCas(cas, t - {c})| + |LiveCas(cas, u)|
  {
    assert LiveCas(cas, t + u - {c}) == LiveCas(cas, t - {c}) + LiveCas(cas, u);
  }

  lemma Grow(cas: Forest, leaves: map<nat, Leaf>, t: set<nat>, c: nat, u: set<nat>, rev: Revocation)
    requires t !! u && c !in u
    ensures |LiveCas(cas, t + u - {c})| == |LiveCas(cas, t - {c})| + |LiveCas(cas, u)|
    ensures |LiveLeaves(leaves, t + u)| == |LiveLeaves(leaves, t)| + |LiveLeaves(leaves, u)|
    ensures MarkCas(MarkCas(cas, t, rev), u, rev) == MarkCas(cas, t + u, rev)
    ensures MarkLeaves(MarkLeaves(leaves, t, rev), u, rev) == MarkLeaves(leaves, t + u, rev)
  {
    GrowCas(cas, t, c, u);
    assert LiveLeaves(leaves, t + u) == LiveLeaves(leaves, t) + LiveLeaves(leaves, u);
    MarkTwice(cas, leaves, t, u, rev);
  }

  /** The live CAs of a subtree whose top is live: the top and the rest. */
  lemma LiveSplit(cas: Forest, c: nat)
    requires c in cas && !cas[c].Revoked()
    ensures |LiveCas(cas, Subtree(cas, c))| == 1 + |LiveCas(cas, Subtree(cas, c) - {c})|
  {
    assert LiveCas(cas, Subtree(cas, c)) == {c} + LiveCas(cas, Subtree(cas, c) - {c});
  }

  lemma MarkDead(cas: Forest, leaves: map<nat, Leaf>, t: set<nat>, rev: Revocation)
    requires LiveCas(cas, t) == {} && LiveLeaves(leaves, t) == {}
    ensures MarkCas(cas, t, rev) == cas && MarkLeaves(leaves, t, rev) == leaves
  {
    forall c | c in cas && c in t
      ensures cas[c].Revoked()
    {
      assert cas[c].Revoked() || c in LiveCas(cas, t);
    }
    forall k | k in leaves && leaves[k].ca in t
      ensures leaves[k].Revoked()
    {
      assert leaves[k].Revoked() || k in LiveLeaves(leaves, t);
    }
  }

  /** Revoking a whole subtree keeps revocation downward closed. */
  lemma CascadeStaysClosed(cas: Forest, leaves: map<nat, Leaf>, c: nat, rev: Revocation)
    requires Acyclic(cas) && Closed(cas, leaves)
    ensures var cas', leaves' := MarkCas(cas, Subtree(cas, c), rev), MarkLeaves(leaves, Subtree(cas, c), rev);
      Acyclic(cas') && Closed(cas', leaves')
  {
    var t := Subtree(cas, c);
    var cas', leaves' := MarkCas(cas, t, rev), MarkLeaves(leaves, t, rev);
    forall x | x in cas
      ensures Rooted(cas', x) && ClosedAt(cas', leaves', x)
    {
      assert Rooted(cas, x) && ClosedAt(cas, leaves, x);
      assert Children(cas', x) == Children(cas, x);
      forall y | y in Children(cas, x)
        ensures cas'[x].Revoked() ==> cas'[y].Revoked()
      {
        assert Rooted(cas, y);
        assert cas[y].Revoked() || y in LiveCas(cas, Children(cas, x));
      }
      forall k | k in leaves && leaves[k].ca == x
        ensures cas'[x].Revoked() ==> leaves'[k].Revoked()
      {
        assert leaves[k].Revoked() || k in LiveLeaves(leaves, {x});
      }
    }
  }
}
