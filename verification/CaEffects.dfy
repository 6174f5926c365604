/**
 What each change of the hierarchy does to its rows, in the stored columns: the
 certificate, CA or alternate it is about, and nothing else.
 */
module CaEffects {
  import opened Prelude
  import opened CaTree
  import opened CaRuns
  import opened Crls

  // ---------------------------------------------------------------------------
  // Certificates
  // ---------------------------------------------------------------------------

  /** Only certificate `k` differs between the two. */
  ghost predicate OnlyLeafChanges(p: Pki, q: Pki, k: nat) {
    q.cas == p.cas && q.alternates == p.alternates && q.leaves - {k} == p.leaves - {k}
  }

  /** A live certificate is revoked, with the date and reason given; an unknown or revoked
      one is left alone. */
  lemma RevokingACertificate(p: Pki, k: nat, rev: Revocation)
    ensures var q := Apply(p, RevokeLeaf(k, rev));
      if k in p.leaves && p.leaves[k].revoked.None? then
        k in q.leaves && q.leaves[k] == Leaf(p.leaves[k].ca, p.leaves[k].serial, Some(rev)) && OnlyLeafChanges(p, q, k)
      else q == p
  {
  }

  /** A CA that may sign certificates: neither revoked, waiting, expired nor without key. */
  predicate MaySign(p: Pki, c: nat, now: int) {
    c in p.cas && p.cas[c].revoked.None? && p.cas[c].keyed && !p.cas[c].pending && now < p.cas[c].notAfter
  }

  lemma IssuingACertificate(p: Pki, k: nat, ca: nat, serial: string, now: int)
    requires k !in p.leaves
    ensures var q := Apply(p, IssueLeaf(k, ca, serial, now));
      if MaySign(p, ca, now) then k in q.leaves && q.leaves[k] == Leaf(ca, serial, None) && OnlyLeafChanges(p, q, k)
      else q == p
  {
  }

  /** A renewal is a live certificate of the same CA. The old one is revoked with it if
      that is asked for, and otherwise stays as it is; a revoked one needs a new key. */
  lemma RenewingACertificate(p: Pki, prior: nat, k: nat, serial: string, rekey: bool, revokeOld: bool,
                             rev: Revocation, now: int)
    requires k !in p.leaves
    ensures var q := Apply(p, Renew(prior, k, serial, rekey, revokeOld, rev, now));
      if prior in p.leaves && MaySign(p, p.leaves[prior].ca, now) && (p.leaves[prior].revoked.None? || rekey) then
        var was := p.leaves[prior];
        && q.leaves.Keys == p.leaves.Keys + {k} && q.leaves[k] == Leaf(was.ca, serial, None)
        && q.leaves[prior] == Leaf(was.ca, was.serial, if revokeOld && was.revoked.None? then Some(rev) else was.revoked)
        && q.cas == p.cas && q.alternates == p.alternates && q.leaves - {k, prior} == p.leaves - {prior}
      else q == p
  {
  }

  /** What revokes certificate `k`: its own revocation, or its renewal. */
  predicate Revokes(p: Pki, e: Event, k: nat, rev: Revocation) {
    || e == RevokeLeaf(k, rev)
    || (e.Renew? && e.prior == k && e.revokeOld && e.rev == rev && k in p.leaves && MaySign(p, p.leaves[k].ca, e.now))
  }

  /** From then on its CA's next CRL lists it and OCSP answers REVOKED. */
  lemma {:induction false} RevokedIsPublished(run: seq<Action>, e: Event, k: nat, rev: Revocation)
    requires Feasible(run + [Change(e)]) && k in Perform(run).pki.leaves && Perform(run).pki.leaves[k].revoked.None?
    requires Revokes(Perform(run).pki, e, k, rev) && CanSignCrl(Perform(run).pki, Perform(run).pki.leaves[k].ca)
    ensures var leaf := Perform(run).pki.leaves[k]; var next := run + [Change(e)] + [Publish(leaf.ca)]; var s := Perform(next);
      && Feasible(next) && k in s.pki.leaves && s.pki.leaves[k] == Leaf(leaf.ca, leaf.serial, Some(rev))
      && leaf.ca in s.crls && leaf.serial in s.crls[leaf.ca].serials
      && StoredStatus(s.pki, leaf.ca, leaf.serial).RevokedStatus?
  {
    var p, leaf, more := Perform(run).pki, Perform(run).pki.leaves[k], run + [Change(e)];
    assert more[..|more| - 1] == run;
    var q := Perform(more).pki;
    if e.Renew? {
      RenewingACertificate(p, k, e.leaf, e.serial, e.rekey, true, rev, e.now);
    } else {
      RevokingACertificate(p, k, rev);
    }
    assert k in q.leaves && q.leaves[k] == Leaf(leaf.ca, leaf.serial, Some(rev)) && q.cas == p.cas;
    var next := more + [Publish(leaf.ca)];
    assert next[..|next| - 1] == more;
    RunKeepsPublished(more);
    assert CarriedRevoked(q, leaf.ca, leaf.serial);
    StatusIsThatOfTheCarrier(q, leaf.ca, leaf.serial);
    CrlAgreesWithOcsp(q, leaf.ca, leaf.serial);
  }

  // ---------------------------------------------------------------------------
  // CAs
  // ---------------------------------------------------------------------------

  function Dead(ca: Ca, rev: Revocation): Ca {
    if ca.revoked.None? then ca.(revoked := Some(rev)) else ca
  }

  function DeadLeaf(leaf: Leaf, rev: Revocation): Leaf {
    if leaf.revoked.None? then leaf.(revoked := Some(rev)) else leaf
  }

  /** A revocation reaches every CA below and every certificate of theirs; what was live
      gets its date and reason, what was revoked keeps its own, the rest is left alone. */
  lemma RevokingACa(p: Pki, c: nat, rev: Revocation)
    ensures var q := Apply(p, RevokeCa(c, rev));
      if c in p.cas && p.cas[c].revoked.None? then
        && q.cas.Keys == p.cas.Keys && q.leaves.Keys == p.leaves.Keys && q.alternates == p.alternates
        && (forall x :: x in p.cas ==> q.cas[x] == if Under(p.cas, c, x) then Dead(p.cas[x], rev) else p.cas[x])
        && (forall k :: k in p.leaves ==>
              q.leaves[k] == if Under(p.cas, c, p.leaves[k].ca) then DeadLeaf(p.leaves[k], rev) else p.leaves[k])
      else q == p
  {
  }

  /** The path length of a new CA is what was asked for where that fits under the parent,
      and otherwise the largest that does and is no larger than asked. */
  lemma BudgetIsTheLargestThatFits(parent: Option<int>, requested: Option<int>)
    requires parent.Some? ==> parent.value > 0
    ensures var granted := Budget(parent, requested);
      && (parent.Some? ==> granted.Some? && granted.value < parent.value)
      && (requested.Some? ==> granted.Some? && granted.value <= requested.value)
      && (parent.None? || (requested.Some? && requested.value < parent.value) ==> granted == requested)
      && (parent.Some? && (requested.None? || requested.value >= parent.value) ==> granted == Some(parent.value - 1))
  {
  }

  /** An intermediate is created exactly below a parent that may sign and has path length
      left. */
  lemma CreatingAnIntermediate(p: Pki, id: nat, parent: nat, serial: string, pending: bool, notAfter: int,
                               pathLen: Option<int>, now: int)
    requires id !in p.cas
    ensures var q := Apply(p, CreateIntermediate(id, parent, serial, pending, notAfter, pathLen, now));
      if MaySign(p, parent, now) && (p.cas[parent].pathLen.None? || p.cas[parent].pathLen.value > 0) then
        && q.leaves == p.leaves && q.alternates == p.alternates && id in q.cas && q.cas - {id} == p.cas
        && q.cas[id] == Ca(Some(parent), serial, None, true, pending, notAfter, Budget(p.cas[parent].pathLen, pathLen), false)
      else q == p
  {
    var q := Apply(p, CreateIntermediate(id, parent, serial, pending, notAfter, pathLen, now));
    if q != p {
      assert q.cas - {id} == p.cas;
    }
  }

  /** An import needs no parent, or one that is not revoked; it waits only with a key. */
  lemma ImportingACa(p: Pki, id: nat, under: Option<nat>, serial: string, keyed: bool, pending: bool, notAfter: int,
                     pathLen: Option<int>)
    requires id !in p.cas
    ensures var q := Apply(p, Import(id, under, serial, keyed, pending, notAfter, pathLen));
      if under.None? || (under.value in p.cas && p.cas[under.value].revoked.None?) then
        && q.leaves == p.leaves && q.alternates == p.alternates && id in q.cas && q.cas - {id} == p.cas
        && q.cas[id] == Ca(under, serial, None, keyed, keyed && pending, notAfter, pathLen, true)
      else q == p
  {
    var q := Apply(p, Import(id, under, serial, keyed, pending, notAfter, pathLen));
    if q != p {
      assert q.cas - {id} == p.cas;
    }
  }

  lemma ApprovingACa(p: Pki, c: nat)
    requires c in p.cas
    ensures var q := Apply(p, Approve(c));
      q.cas.Keys == p.cas.Keys && q.cas[c] == p.cas[c].(pending := false) && q.cas - {c} == p.cas - {c}
      && q.leaves == p.leaves && q.alternates == p.alternates
  {
  }

  // ---------------------------------------------------------------------------
  // Alternates
  // ---------------------------------------------------------------------------

  /** The CA carries a new certificate, and its alternate `alt` the one it had. */
  ghost predicate Promoted(p: Pki, q: Pki, alt: nat, c: nat, serial: string, notAfter: int) {
    && c in p.cas && q.cas.Keys == p.cas.Keys && q.cas - {c} == p.cas - {c} && q.leaves == p.leaves
    && q.cas[c] == p.cas[c].(serial := serial, notAfter := notAfter)
    && alt in q.alternates && q.alternates - {alt} == p.alternates - {alt}
    && q.alternates[alt].ca == c && q.alternates[alt].kind.Previous? && q.alternates[alt].approved
    && q.alternates[alt].serial == p.cas[c].serial && q.alternates[alt].notAfter == p.cas[c].notAfter
  }

  /** A re-issue becomes the primary at once, or waits beside it. A root signs it itself,
      another CA's parent does; both must be able to. */
  lemma ReissuingACa(p: Pki, alt: nat, c: nat, serial: string, notAfter: int, pending: bool, now: int)
    requires alt !in p.alternates
    ensures var q := Apply(p, ReissueCa(alt, c, serial, notAfter, pending, now));
      if c in p.cas && p.cas[c].revoked.None? && !p.cas[c].pending
         && (match p.cas[c].parent case None => p.cas[c].keyed case Some(up) => MaySign(p, up, now)) then
        if pending then
          && q.cas == p.cas && q.leaves == p.leaves && alt in q.alternates && q.alternates - {alt} == p.alternates
          && q.alternates[alt] == Alternate(c, Reissue, p.cas[c].parent, false, false, serial, notAfter)
        else Promoted(p, q, alt, c, serial, notAfter)
      else q == p
  {
    var q := Apply(p, ReissueCa(alt, c, serial, notAfter, pending, now));
    assert q.alternates - {alt} == p.alternates;
  }

  /** Approving a pending re-issue makes it the primary; any other alternate is approved
      where it is, and an approved one is left alone. */
  lemma ApprovingAnAlternate(p: Pki, alt: nat)
    requires alt in p.alternates ==> p.alternates[alt].ca in p.cas
    ensures var q := Apply(p, ApproveAlternate(alt));
      if alt !in p.alternates || p.alternates[alt].approved then q == p
      else
        var a := p.alternates[alt];
        if a.kind.Reissue? then Promoted(p, q, alt, a.ca, a.serial, a.notAfter)
        else
          && q.cas == p.cas && q.leaves == p.leaves && q.alternates.Keys == p.alternates.Keys
          && q.alternates[alt] == a.(approved := true) && q.alternates - {alt} == p.alternates - {alt}
  {
  }

  /** A cross-certificate is made exactly for a live CA, by another one that may sign, has
      path length left and does not lie below it. */
  lemma CrossSigningACa(p: Pki, alt: nat, c: nat, issuer: nat, serial: string, notAfter: int, pending: bool, now: int)
    requires alt !in p.alternates
    ensures var q := Apply(p, CrossSign(alt, c, issuer, serial, notAfter, pending, now));
      if c in p.cas && p.cas[c].revoked.None? && issuer != c && MaySign(p, issuer, now)
         && (p.cas[issuer].pathLen.None? || p.cas[issuer].pathLen.value > 0) && !Under(p.cas, c, issuer) then
        && q.cas == p.cas && q.leaves == p.leaves && alt in q.alternates && q.alternates - {alt} == p.alternates
        && q.alternates[alt] == Alternate(c, Cross, Some(issuer), !pending, false, serial, notAfter)
      else q == p
  {
    var q := Apply(p, CrossSign(alt, c, issuer, serial, notAfter, pending, now));
    assert q.alternates - {alt} == p.alternates;
  }

  /** A root has no parent and the path length asked for; an attached or deleted alternate
      changes nothing else. */
  lemma PlainChanges(p: Pki, id: nat, serial: string, pending: bool, notAfter: int, pathLen: Option<int>,
                     alt: nat, ca: nat, signer: Option<nat>)
    requires id !in p.cas && alt !in p.alternates && ca in p.cas && (signer.Some? ==> signer.value in p.cas)
    ensures Apply(p, CreateRoot(id, serial, pending, notAfter, pathLen)) ==
            p.(cas := p.cas[id := Ca(None, serial, None, true, pending, notAfter, pathLen, false)])
    ensures Apply(p, ImportAlternate(alt, ca, signer, serial, notAfter)) ==
            p.(alternates := p.alternates[alt := Alternate(ca, Cross, signer, true, true, serial, notAfter)])
    ensures forall d :: Apply(p, DeleteAlternate(d)) == p.(alternates := p.alternates - {d})
  {
  }
}
