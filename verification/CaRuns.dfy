/**
 The hierarchy over whole runs: creation, import, approval, issuance, renewal,
 revocation, re-issue and cross-signing, each route handler one step.
 */
module CaRuns {
  import opened Prelude
  import opened CaTree
  import opened CaRegistries

  datatype Kind = Cross | Previous | Reissue

  /** An alternate certificate for a CA's key; a pending re-issue carries the serial
      and expiry it would bring. */
  datatype Alternate = Alternate(ca: nat, kind: Kind, issuer: Option<nat>, approved: bool, imported: bool,
                                 serial: string, notAfter: int)

  datatype Pki = Pki(cas: Forest, leaves: map<nat, Leaf>, alternates: map<nat, Alternate>)

  const EMPTY := Pki(map[], map[], map[])

  /** The outcomes of checks on certificates and keys are part of the event: an
      import, for instance, names the parent that was verified to have issued it. */
  datatype Event =
    | CreateRoot(id: nat, serial: string, pending: bool, notAfter: int, pathLen: Option<int>)
    | CreateIntermediate(id: nat, parent: nat, serial: string, pending: bool, notAfter: int, pathLen: Option<int>, now: int)
    | Import(id: nat, under: Option<nat>, serial: string, keyed: bool, pending: bool, notAfter: int, pathLen: Option<int>)
    | Approve(ca: nat)
    | IssueLeaf(leaf: nat, ca: nat, serial: string, now: int)
    | Renew(prior: nat, leaf: nat, serial: string, rekey: bool, revokeOld: bool, rev: Revocation, now: int)
    | RevokeLeaf(leaf: nat, rev: Revocation)
    | RevokeCa(ca: nat, rev: Revocation)
    | ReissueCa(alt: nat, ca: nat, serial: string, notAfter: int, pending: bool, now: int)
    | CrossSign(alt: nat, ca: nat, issuer: nat, serial: string, notAfter: int, pending: bool, now: int)
    | ImportAlternate(alt: nat, ca: nat, signer: Option<nat>, serial: string, notAfter: int)
    | ApproveAlternate(alt: nat)
    | DeleteAlternate(alt: nat)

  /** The child's path length under a parent's budget. */
  function Budget(parent: Option<int>, requested: Option<int>): Option<int> {
    if parent.None? then requested
    else if requested.None? || requested.value > parent.value - 1 then Some(parent.value - 1)
    else requested
  }

  predicate CanCertify(ca: Ca, now: int) {
    ca.keyed && !ca.pending && !ca.Revoked() && ca.notAfter > now && (ca.pathLen.Some? ==> ca.pathLen.value > 0)
  }

  predicate CanIssue(ca: Ca, now: int) {
    !ca.Revoked() && ca.keyed && !ca.pending && ca.notAfter > now
  }

  function Promote(p: Pki, alt: nat): Pki
    requires alt in p.alternates && p.alternates[alt].ca in p.cas
  {
    var a := p.alternates[alt];
    var ca := p.cas[a.ca];
    p.(cas := p.cas[a.ca := ca.(serial := a.serial, notAfter := a.notAfter)],
       alternates := p.alternates[alt := a.(kind := Previous, issuer := ca.parent, approved := true,
                                            serial := ca.serial, notAfter := ca.notAfter)])
  }

  /** The signer of a re-issue: the CA itself when it is a root, else its parent. */
  predicate CanReissue(p: Pki, c: nat, now: int) {
    c in p.cas && !p.cas[c].Revoked() && !p.cas[c].pending &&
    match p.cas[c].parent
    case None => p.cas[c].keyed
    case Some(q) => q in p.cas && CanIssue(p.cas[q], now)
  }

  ghost predicate CanCrossSign(p: Pki, c: nat, issuer: nat, now: int) {
    && c in p.cas && issuer in p.cas && issuer != c && !p.cas[c].Revoked()
    && CanCertify(p.cas[issuer], now)
    && !Under(p.cas, c, issuer)
  }

  ghost function Apply(p: Pki, e: Event): Pki {
    match e
    case CreateRoot(id, serial, pending, notAfter, pathLen) =>
      p.(cas := p.cas[id := Ca(None, serial, None, true, pending, notAfter, pathLen, false)])
    case CreateIntermediate(id, parent, serial, pending, notAfter, pathLen, now) =>
      if parent !in p.cas || !CanCertify(p.cas[parent], now) then p
      else p.(cas := p.cas[id := Ca(Some(parent), serial, None, true, pending, notAfter,
                                    Budget(p.cas[parent].pathLen, pathLen), false)])
    case Import(id, parent, serial, keyed, pending, notAfter, pathLen) =>
      if parent.Some? && (parent.value !in p.cas || p.cas[parent.value].Revoked()) then p
      else p.(cas := p.cas[id := Ca(parent, serial, None, keyed, pending && keyed, notAfter, pathLen, true)])
    case Approve(ca) =>
      if ca in p.cas then p.(cas := p.cas[ca := p.cas[ca].(pending := false)]) else p
    case IssueLeaf(leaf, ca, serial, now) =>
      if ca !in p.cas || !CanIssue(p.cas[ca], now) then p
      else p.(leaves := p.leaves[leaf := Leaf(ca, serial, None)])
    case Renew(prior, leaf, serial, rekey, revokeOld, rev, now) =>
      if prior !in p.leaves || p.leaves[prior].ca !in p.cas || !CanIssue(p.cas[p.leaves[prior].ca], now)
         || (p.leaves[prior].Revoked() && !rekey) then p
      else
        var leaves := p.leaves[leaf := Leaf(p.leaves[prior].ca, serial, None)];
        p.(leaves := if revokeOld && !p.leaves[prior].Revoked()
                     then leaves[prior := p.leaves[prior].(revoked := Some(rev))] else leaves)
    case RevokeLeaf(leaf, rev) =>
      if leaf in p.leaves && !p.leaves[leaf].Revoked()
      then p.(leaves := p.leaves[leaf := p.leaves[leaf].(revoked := Some(rev))]) else p
    case RevokeCa(ca, rev) =>
      if ca in p.cas && !p.cas[ca].Revoked()
      then p.(cas := MarkCas(p.cas, Subtree(p.cas, ca), rev), leaves := MarkLeaves(p.leaves, Subtree(p.cas, ca), rev))
      else p
    case ReissueCa(alt, ca, serial, notAfter, pending, now) =>
      if !CanReissue(p, ca, now) then p
      else
        var q := p.(alternates := p.alternates[alt := Alternate(ca, Reissue, p.cas[ca].parent, !pending, false, serial, notAfter)]);
        if pending then q else Promote(q, alt)
    case CrossSign(alt, ca, issuer, serial, notAfter, pending, now) =>
      if CanCrossSign(p, ca, issuer, now)
      then p.(alternates := p.alternates[alt := Alternate(ca, Cross, Some(issuer), !pending, false, serial, notAfter)])
      else p
    case ImportAlternate(alt, ca, issuer, serial, notAfter) =>
      if ca in p.cas && (issuer.Some? ==> issuer.value in p.cas)
      then p.(alternates := p.alternates[alt := Alternate(ca, Cross, issuer, true, true, serial, notAfter)])
      else p
    case ApproveAlternate(alt) =>
      if alt !in p.alternates || p.alternates[alt].approved then p
      else if p.alternates[alt].kind.Reissue? && p.alternates[alt].ca in p.cas then Promote(p, alt)
      else p.(alternates := p.alternates[alt := p.alternates[alt].(approved := true)])
    case DeleteAlternate(alt) => p.(alternates := p.alternates - {alt})
  }

  /** New primary keys are larger than the ones in use; CA rows are never deleted. */
  ghost predicate Enabled(p: Pki, e: Event) {
    match e
    case CreateRoot(id, _, _, _, _) => NewId(p, id)
    case CreateIntermediate(id, _, _, _, _, _, _) => NewId(p, id)
    case Import(id, _, _, _, _, _, _) => NewId(p, id)
    case IssueLeaf(leaf, _, _, _) => leaf !in p.leaves
    case Renew(_, leaf, _, _, _, _, _) => leaf !in p.leaves
    case ReissueCa(alt, _, _, _, _, _) => alt !in p.alternates
    case CrossSign(alt, _, _, _, _, _, _) => alt !in p.alternates
    case ImportAlternate(alt, _, _, _, _) => alt !in p.alternates
    case _ => true
  }

  ghost predicate NewId(p: Pki, id: nat) {
    forall c :: c in p.cas ==> c < id
  }

  ghost function Play(run: seq<Event>): Pki {
    if run == [] then EMPTY else Apply(Play(run[..|run| - 1]), run[|run| - 1])
  }

  ghost predicate Legal(run: seq<Event>) {
    run == [] || (Legal(run[..|run| - 1]) && Enabled(Play(run[..|run| - 1]), run[|run| - 1]))
  }

  // ---------------------------------------------------------------------------
  // What every step keeps
  // ---------------------------------------------------------------------------

  /** `q` came from `p` by adding rows and by changes that leave links and the
      revocations already made alone. */
  ghost predicate Later(p: Pki, q: Pki) {
    && (forall c :: c in p.cas ==> c in q.cas && CaLater(p.cas[c], q.cas[c]))
    && (forall k :: k in p.leaves ==> k in q.leaves && LeafLater(p.leaves[k], q.leaves[k]))
  }

  ghost predicate CaLater(a: Ca, b: Ca) {
    b.parent == a.parent && b.pathLen == a.pathLen && b.imported == a.imported && b.keyed == a.keyed
    && (a.Revoked() ==> b.revoked == a.revoked)
  }

  ghost predicate LeafLater(a: Leaf, b: Leaf) {
    b.ca == a.ca && b.serial == a.serial && (a.Revoked() ==> b.revoked == a.revoked)
  }

  lemma CasLater(p: Pki, e: Event, c: nat)
    requires Enabled(p, e) && c in p.cas
    ensures c in Apply(p, e).cas && CaLater(p.cas[c], Apply(p, e).cas[c])
  {
  }

  lemma LeavesLater(p: Pki, e: Event, k: nat)
    requires Enabled(p, e) && k in p.leaves
    ensures k in Apply(p, e).leaves && LeafLater(p.leaves[k], Apply(p, e).leaves[k])
  {
  }

  lemma ApplyIsLater(p: Pki, e: Event)
    requires Enabled(p, e)
    ensures Later(p, Apply(p, e))
  {
    forall c | c in p.cas
      ensures c in Apply(p, e).cas && CaLater(p.cas[c], Apply(p, e).cas[c])
    {
      CasLater(p, e, c);
    }
    forall k | k in p.leaves
      ensures k in Apply(p, e).leaves && LeafLater(p.leaves[k], Apply(p, e).leaves[k])
    {
      LeavesLater(p, e, k);
    }
  }

  ghost predicate Wellformed(p: Pki) {
    Acyclic(p.cas) && Closed(p.cas, p.leaves)
  }

  /** One more CA, live and without children, under a parent that is not revoked. */
  lemma AddCa(cas: Forest, leaves: map<nat, Leaf>, id: nat, ca: Ca)
    requires Acyclic(cas) && Closed(cas, leaves) && !ca.Revoked() && id !in cas
    requires ca.parent.Some? ==> ca.parent.value in cas && ca.parent.value < id && !cas[ca.parent.value].Revoked()
    ensures Acyclic(cas[id := ca]) && Closed(cas[id := ca], leaves)
  {
    var cas' := cas[id := ca];
    forall c | c in cas'
      ensures Rooted(cas', c) && ClosedAt(cas', leaves, c)
    {
      if c != id {
        assert Rooted(cas, c) && ClosedAt(cas, leaves, c);
        if cas[c].Revoked() {
          assert LiveCas(cas', Children(cas', c)) == LiveCas(cas, Children(cas, c));
        }
      }
    }
  }

  /** Changing a CA's certificate or approval changes no link and no revocation. */
  lemma EditCa(cas: Forest, leaves: map<nat, Leaf>, id: nat, ca: Ca)
    requires Acyclic(cas) && Closed(cas, leaves) && id in cas
    requires ca.parent == cas[id].parent && ca.revoked == cas[id].revoked
    ensures Acyclic(cas[id := ca]) && Closed(cas[id := ca], leaves)
  {
    var cas' := cas[id := ca];
    forall c | c in cas'
      ensures Rooted(cas', c) && ClosedAt(cas', leaves, c)
    {
      assert Rooted(cas, c) && ClosedAt(cas, leaves, c);
      assert Children(cas', c) == Children(cas, c);
      assert LiveCas(cas', Children(cas, c)) == LiveCas(cas, Children(cas, c));
    }
  }

  /** A certificate may be added to a live CA, or revoked anywhere. */
  lemma EditLeaf(cas: Forest, leaves: map<nat, Leaf>, k: nat, leaf: Leaf)
    requires Closed(cas, leaves)
    requires k in leaves ==> leaf.ca == leaves[k].ca && (leaves[k].Revoked() ==> leaf.Revoked())
    requires k in leaves || (leaf.ca in cas && !cas[leaf.ca].Revoked())
    ensures Closed(cas, leaves[k := leaf])
  {
    var leaves' := leaves[k := leaf];
    forall c | c in cas
      ensures ClosedAt(cas, leaves', c)
    {
      assert ClosedAt(cas, leaves, c);
      if cas[c].Revoked() {
        forall j | j in leaves' && leaves'[j].ca == c
          ensures leaves'[j].Revoked()
        {
          assert j in leaves && (leaves[j].Revoked() || j in LiveLeaves(leaves, {c}));
        }
      }
    }
  }

  lemma ApplyKeepsWellformed(p: Pki, e: Event)
    requires Wellformed(p) && Enabled(p, e)
    ensures Wellformed(Apply(p, e))
  {
    match e
    case CreateRoot(id, serial, pending, notAfter, pathLen) => AddCa(p.cas, p.leaves, id, Apply(p, e).cas[id]);
    case CreateIntermediate(id, parent, _, _, _, _, now) =>
      if parent in p.cas && CanCertify(p.cas[parent], now) {
        AddCa(p.cas, p.leaves, id, Apply(p, e).cas[id]);
      }
    case Import(id, parent, _, _, _, _, _) =>
      if !(parent.Some? && (parent.value !in p.cas || p.cas[parent.value].Revoked())) {
        AddCa(p.cas, p.leaves, id, Apply(p, e).cas[id]);
      }
    case Approve(ca) =>
      if ca in p.cas {
        EditCa(p.cas, p.leaves, ca, Apply(p, e).cas[ca]);
      }
    case IssueLeaf(leaf, ca, _, now) =>
      if ca in p.cas && CanIssue(p.cas[ca], now) {
        EditLeaf(p.cas, p.leaves, leaf, Apply(p, e).leaves[leaf]);
      }
    case Renew(prior, leaf, serial, rekey, _, rev, now) =>
      if prior in p.leaves && p.leaves[prior].ca in p.cas && CanIssue(p.cas[p.leaves[prior].ca], now) {
        var issued := Leaf(p.leaves[prior].ca, serial, None);
        EditLeaf(p.cas, p.leaves, leaf, issued);
        EditLeaf(p.cas, p.leaves[leaf := issued], prior, p.leaves[prior].(revoked := Some(rev)));
      }
    case RevokeLeaf(leaf, rev) =>
      if leaf in p.leaves {
        EditLeaf(p.cas, p.leaves, leaf, p.leaves[leaf].(revoked := Some(rev)));
      }
    case RevokeCa(ca, rev) => CascadeStaysClosed(p.cas, p.leaves, ca, rev);
    case ReissueCa(alt, ca, _, _, pending, now) =>
      if CanReissue(p, ca, now) {
        EditCa(p.cas, p.leaves, ca, Apply(p, e).cas[ca]);
      }
    case ApproveAlternate(alt) =>
      if alt in p.alternates && p.alternates[alt].ca in p.cas {
        EditCa(p.cas, p.leaves, p.alternates[alt].ca, Apply(p, e).cas[p.alternates[alt].ca]);
      }
    case _ =>
  }

  lemma {:induction false} RunKeepsWellformed(run: seq<Event>)
    requires Legal(run)
    ensures Wellformed(Play(run))
  {
    if run != [] {
      RunKeepsWellformed(run[..|run| - 1]);
      ApplyKeepsWellformed(Play(run[..|run| - 1]), run[|run| - 1]);
    }
  }

  /** In every reachable state revocation is downward closed: whatever lies below a
      revoked CA, at any depth, is revoked, and so are all its certificates. */
  lemma EveryRunClosesRevocation(run: seq<Event>, c: nat, x: nat)
    requires Legal(run) && c in Play(run).cas && Play(run).cas[c].Revoked() && Under(Play(run).cas, c, x)
    ensures Play(run).cas[x].Revoked()
    ensures forall k :: k in Play(run).leaves && Play(run).leaves[k].ca == x ==> Play(run).leaves[k].Revoked()
  {
    var p := Play(run);
    RunKeepsWellformed(run);
    DeadBelow(p.cas, p.leaves, c, x);
    assert ClosedAt(p.cas, p.leaves, x);
    forall k | k in p.leaves && p.leaves[k].ca == x
      ensures p.leaves[k].Revoked()
    {
      assert p.leaves[k].Revoked() || k in LiveLeaves(p.leaves, {x});
    }
  }

  /** A revocation is permanent: neither it nor its date and reason ever change. */
  lemma {:induction false} EveryRunKeepsRevocations(run: seq<Event>, n: nat)
    requires Legal(run) && n <= |run|
    ensures Later(Play(run[..n]), Play(run))
  {
    if n == |run| {
      assert run[..n] == run;
    } else {
      var init := run[..|run| - 1];
      EveryRunKeepsRevocations(init, n);
      assert init[..n] == run[..n];
      ApplyIsLater(Play(init), run[|run| - 1]);
    }
  }

  /** Closure is what makes the cascade complete: below a revoked child that broke
      it, a live CA would be skipped. */
  lemma SkippingNeedsClosure(rev: Revocation)
    ensures var top := Ca(None, "a", None, true, false, 0, None, false);
      var mid := Ca(Some(0), "b", Some(rev), true, false, 0, None, false);
      var low := Ca(Some(1), "c", None, true, false, 0, None, false);
      var cas := map[0 := top, 1 := mid, 2 := low];
      && Acyclic(cas) && !Closed(cas, map[])
      && Under(cas, 0, 2) && LiveCas(cas, Children(cas, 0)) == {}
  {
    var cas := map[0 := Ca(None, "a", None, true, false, 0, None, false),
                   1 := Ca(Some(0), "b", Some(rev), true, false, 0, None, false),
                   2 := Ca(Some(1), "c", None, true, false, 0, None, false)];
    assert Under(cas, 0, 1);
    assert 2 in LiveCas(cas, Children(cas, 1));
    assert !ClosedAt(cas, map[], 1);
  }

  // ---------------------------------------------------------------------------
  // Path length
  // ---------------------------------------------------------------------------

  /** A CA fits under a parent with a path length when its own is smaller. */
  predicate Fits(parent: Option<int>, child: Option<int>) {
    parent.Some? ==> parent.value > 0 && child.Some? && child.value <= parent.value - 1
  }

  ghost predicate FitsAt(cas: Forest, c: nat)
    requires c in cas
  {
    cas[c].parent.Some? && cas[c].parent.value in cas ==> Fits(cas[cas[c].parent.value].pathLen, cas[c].pathLen)
  }

  /** A CA this server generated stays within its parent's budget. */
  ghost predicate WithinBudget(cas: Forest, c: nat)
    requires c in cas
  {
    !cas[c].imported ==> FitsAt(cas, c)
  }

  ghost predicate Budgeted(cas: Forest) {
    forall c :: c in cas ==> WithinBudget(cas, c)
  }

  /** The number of links from `x` up to `top`. */
  ghost function Steps(cas: Forest, top: nat, x: nat): nat
    requires Under(cas, top, x)
    decreases x
  {
    if x == top then 0 else 1 + Steps(cas, top, cas[x].parent.value)
  }

  /** Every CA on the line from `x` up to `top`, but for `top`, was generated here. */
  ghost predicate GeneratedLine(cas: Forest, top: nat, x: nat)
    requires Under(cas, top, x)
    decreases x
  {
    x == top || (!cas[x].imported && GeneratedLine(cas, top, cas[x].parent.value))
  }

  lemma ApplyKeepsBudget(p: Pki, e: Event)
    requires Acyclic(p.cas) && Budgeted(p.cas) && Enabled(p, e)
    ensures Budgeted(Apply(p, e).cas)
  {
    var q := Apply(p, e);
    ApplyIsLater(p, e);
    forall c | c in q.cas
      ensures WithinBudget(q.cas, c)
    {
      if c in p.cas {
        assert WithinBudget(p.cas, c) && Rooted(p.cas, c);
      }
    }
  }

  lemma {:induction false} LineWithinBudget(cas: Forest, top: nat, x: nat)
    requires Budgeted(cas) && Under(cas, top, x) && GeneratedLine(cas, top, x)
    requires top in cas && cas[top].pathLen.Some?
    ensures cas[x].pathLen.Some? && cas[x].pathLen.value + Steps(cas, top, x) <= cas[top].pathLen.value
    ensures x != top ==> Steps(cas, top, x) <= cas[top].pathLen.value
    decreases x
  {
    if x != top {
      LineWithinBudget(cas, top, cas[x].parent.value);
      assert WithinBudget(cas, x);
    }
  }

  lemma {:induction false} RunKeepsBudget(run: seq<Event>)
    requires Legal(run)
    ensures Budgeted(Play(run).cas)
  {
    if run != [] {
      RunKeepsBudget(run[..|run| - 1]);
      RunKeepsWellformed(run[..|run| - 1]);
      ApplyKeepsBudget(Play(run[..|run| - 1]), run[|run| - 1]);
    }
  }

  /** On any line of generated CAs below a CA with path length `n` there are at most
      `n` of them, and none when `n` is not positive. */
  lemma EveryRunRespectsPathLength(run: seq<Event>, top: nat, x: nat)
    requires Legal(run) && Under(Play(run).cas, top, x) && GeneratedLine(Play(run).cas, top, x)
    requires top in Play(run).cas && Play(run).cas[top].pathLen.Some?
    ensures var n := Play(run).cas[top].pathLen.value;
      Steps(Play(run).cas, top, x) <= if n < 0 then 0 else n
  {
    RunKeepsBudget(run);
    LineWithinBudget(Play(run).cas, top, x);
  }

  /** Every CA, imported or not, fits under its parent. */
  ghost predicate AllFit(cas: Forest) {
    forall c :: c in cas ==> FitsAt(cas, c)
  }

  /** An import that is accepted although it does not fit. */
  predicate Oversteps(p: Pki, e: Event) {
    && e.Import? && e.under.Some? && e.under.value in p.cas && !p.cas[e.under.value].Revoked()
    && !Fits(p.cas[e.under.value].pathLen, e.pathLen)
  }

  /** Whatever a step adds fits under its parent if and only if the step is not an
      accepted import that oversteps. */
  lemma StepFitsIffNoOverstep(p: Pki, e: Event)
    requires Acyclic(p.cas) && AllFit(p.cas) && Enabled(p, e)
    ensures AllFit(Apply(p, e).cas) <==> !Oversteps(p, e)
  {
    var q := Apply(p, e);
    ApplyIsLater(p, e);
    forall c | c in p.cas
      ensures FitsAt(q.cas, c)
    {
      assert FitsAt(p.cas, c) && Rooted(p.cas, c) && CaLater(p.cas[c], q.cas[c]);
      assert ParentLater(p, q, c);
    }
    if Oversteps(p, e) {
      assert !FitsAt(q.cas, e.id);
    } else {
      NewFits(p, e);
    }
  }

  /** The parent of an old row keeps its path length. */
  ghost predicate ParentLater(p: Pki, q: Pki, c: nat)
    requires c in p.cas
  {
    p.cas[c].parent.Some? && p.cas[c].parent.value in p.cas && p.cas[c].parent.value in q.cas ==>
      CaLater(p.cas[p.cas[c].parent.value], q.cas[p.cas[c].parent.value])
  }

  lemma NewFits(p: Pki, e: Event)
    requires Enabled(p, e) && !Oversteps(p, e)
    ensures forall c :: c in Apply(p, e).cas && c !in p.cas ==> FitsAt(Apply(p, e).cas, c)
  {
  }

  /** A CA that does not fit never comes to fit. */
  lemma NeverFitsLater(p: Pki, e: Event)
    requires Acyclic(p.cas) && Enabled(p, e) && !AllFit(p.cas)
    ensures !AllFit(Apply(p, e).cas)
  {
    var c :| c in p.cas && !FitsAt(p.cas, c);
    ApplyIsLater(p, e);
    var q := Apply(p, e);
    assert CaLater(p.cas[c], q.cas[c]) && ParentLater(p, q, c);
    assert !FitsAt(q.cas, c);
  }

  /** In every run: all CAs fit under their parents if and only if no import overstepped. */
  lemma {:induction false} EveryRunFitsIffNoImportOversteps(run: seq<Event>)
    requires Legal(run)
    ensures AllFit(Play(run).cas) <==> forall k :: 0 <= k < |run| ==> !OverstepsAt(run, k)
  {
    if run != [] {
      var init := run[..|run| - 1];
      EveryRunFitsIffNoImportOversteps(init);
      RunKeepsWellformed(init);
      forall k | 0 <= k < |init|
        ensures OverstepsAt(run, k) <==> OverstepsAt(init, k)
      {
        assert run[..k] == init[..k];
      }
      assert OverstepsAt(run, |init|) <==> Oversteps(Play(init), run[|run| - 1]);
      if AllFit(Play(init).cas) {
        StepFitsIffNoOverstep(Play(init), run[|run| - 1]);
      } else {
        NeverFitsLater(Play(init), run[|run| - 1]);
      }
    }
  }

  ghost predicate OverstepsAt(run: seq<Event>, k: int)
    requires 0 <= k < |run|
  {
    Oversteps(Play(run[..k]), run[k])
  }

  /** Then on any line below a CA with path length `n`, imports included, there are at
      most `n` CAs. */
  lemma {:induction false} FittingLines(cas: Forest, top: nat, x: nat)
    requires AllFit(cas) && Under(cas, top, x) && top in cas && cas[top].pathLen.Some?
    ensures cas[x].pathLen.Some? && cas[x].pathLen.value + Steps(cas, top, x) <= cas[top].pathLen.value
    ensures x != top ==> Steps(cas, top, x) <= cas[top].pathLen.value
    decreases x
  {
    if x != top {
      FittingLines(cas, top, cas[x].parent.value);
      assert FitsAt(cas, x);
    }
  }

  lemma PlayOn(run: seq<Event>, e: Event)
    requires Legal(run) && Enabled(Play(run), e)
    ensures Legal(run + [e]) && Play(run + [e]) == Apply(Play(run), e)
  {
    assert (run + [e])[..|run + [e]| - 1] == run;
  }

  /** An import is not held to the budget: a CA with path length 0 can gain a child. */
  lemma ImportIgnoresPathLength(root: Event, child: Event)
    requires root == CreateRoot(1, "a", false, 10, Some(0)) && child == Import(2, Some(1), "b", false, false, 10, None)
    ensures Legal([root, child]) && Under(Play([root, child]).cas, 1, 2) && OverstepsAt([root, child], 1)
    ensures Play([root, child]).cas[1].pathLen == Some(0) && Steps(Play([root, child]).cas, 1, 2) == 1
  {
    assert [] + [root] == [root] && [root] + [child] == [root, child] && [root, child][..1] == [root];
    PlayOn([], root);
    PlayOn([root], child);
    var p := Play([root, child]);
    assert Under(p.cas, 1, 1);
    assert Steps(p.cas, 1, 1) == 0;
  }
}
