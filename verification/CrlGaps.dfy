/**
 What the CRLs of an issuer leave out: serial numbers shared between the two tables,
 alternate certificates of a revoked CA, and a serial replaced after revocation.
 */
module CrlGaps {
  import opened Prelude
  import opened CaTree
  import opened CaRuns
  import opened Crls

  // ---------------------------------------------------------------------------
  // One serial number in both tables
  // ---------------------------------------------------------------------------

  /** What the database enforces: a serial occurs once among the certificates and once
      among the CAs. */
  ghost predicate UniquePerTable(p: Pki) {
    && (forall k, l :: k in p.leaves && l in p.leaves && p.leaves[k].serial == p.leaves[l].serial ==> k == l)
    && (forall c, d :: c in p.cas && d in p.cas && p.cas[c].serial == p.cas[d].serial ==> c == d)
  }

  /** A certificate that is not revoked and a revoked sub-CA of one issuer share it. */
  ghost predicate Masked(p: Pki, ca: nat, serial: string) {
    && (exists k :: k in LeavesWith(p, ca, serial) && !p.leaves[k].Revoked())
    && (exists c :: c in SubCasWith(p, ca, serial) && p.cas[c].Revoked())
  }

  /** CRL and OCSP agree on a serial number if and only if it is not masked. */
  lemma AgreeIffNotMasked(p: Pki, ca: nat, serial: string)
    requires UniquePerTable(p)
    ensures (serial in RevokedSerials(p, ca) <==> StoredStatus(p, ca, serial).RevokedStatus?)
       <==> !Masked(p, ca, serial)
  {
    WhyListed(p, ca, serial);
    var leaves, subs := LeavesWith(p, ca, serial), SubCasWith(p, ca, serial);
    if leaves != {} {
      var k :| k in leaves;
      forall l | l in leaves
        ensures l == k
      {
      }
      assert StoredStatus(p, ca, serial) == if p.leaves[k].Revoked() then RevokedStatus else Good;
    } else if subs != {} {
      var c :| c in subs;
      forall d | d in subs
        ensures d == c
      {
      }
      assert StoredStatus(p, ca, serial) == if p.cas[c].Revoked() then RevokedStatus else Good;
    }
  }

  /** A certificate takes the serial under which a sub-CA is imported later, and the
      sub-CA is revoked. */
  function Masking(rev: Revocation): seq<Event> {
    [CreateRoot(1, "a", false, 10, None), IssueLeaf(1, 1, "s", 0),
     Import(2, Some(1), "s", false, false, 10, None), RevokeCa(2, rev)]
  }

  const ROOT := Ca(None, "a", None, true, false, 10, None, false)

  lemma OnlyItself(cas: Forest)
    requires cas.Keys == {1, 2} && cas[1].parent == None && cas[2].parent == Some(1)
    ensures Subtree(cas, 2) == {2}
  {
    assert !Under(cas, 2, 1);
    assert Under(cas, 2, 2);
  }

  lemma MaskingState(rev: Revocation)
    ensures Legal(Masking(rev))
    ensures var p := Play(Masking(rev));
      && p.cas == map[1 := ROOT, 2 := Ca(Some(1), "s", Some(rev), false, false, 10, None, true)]
      && p.leaves == map[1 := Leaf(1, "s", None)]
  {
    var run := Masking(rev);
    var r1, r2, r3 := [run[0]], [run[0], run[1]], [run[0], run[1], run[2]];
    assert r1 == [] + [run[0]] && r2 == r1 + [run[1]] && r3 == r2 + [run[2]] && run == r3 + [run[3]];
    PlayOn([], run[0]);
    assert Play(r1) == Pki(map[1 := ROOT], map[], map[]);
    PlayOn(r1, run[1]);
    assert Play(r2) == Pki(map[1 := ROOT], map[1 := Leaf(1, "s", None)], map[]);
    PlayOn(r2, run[2]);
    OnlyItself(Play(r3).cas);
    PlayOn(r3, run[3]);
  }

  /** Then its serial is on the CRL and OCSP answers GOOD for it. */
  lemma SharedSerialDisagrees(rev: Revocation)
    ensures Legal(Masking(rev)) && UniquePerTable(Play(Masking(rev))) && Masked(Play(Masking(rev)), 1, "s")
    ensures "s" in RevokedSerials(Play(Masking(rev)), 1) && !StoredStatus(Play(Masking(rev)), 1, "s").RevokedStatus?
  {
    MaskingState(rev);
    var p := Play(Masking(rev));
    assert 1 in LeavesWith(p, 1, "s") && 2 in SubCasWith(p, 1, "s");
    WhyListed(p, 1, "s");
    AgreeIffNotMasked(p, 1, "s");
  }

  // ---------------------------------------------------------------------------
  // The certificates of one CA
  // ---------------------------------------------------------------------------

  /** The certificates issued for the key of CA `c`: its own and its alternates. */
  predicate CertificateOf(p: Pki, c: nat, h: Holder) {
    h == OfCa(c) || (h.OfAlternate? && h.id in p.alternates && p.alternates[h.id].ca == c)
  }

  /** Of all certificates for the key of a CA, an issuer lists exactly the current one, and
      only if it is the parent and the CA is revoked: the previous and cross-signed ones
      are on no CRL, and OCSP knows none of them. */
  lemma OnlyTheCurrentIsListed(p: Pki, c: nat, h: Holder, issuer: nat)
    requires SerialsUnique(p) && c in p.cas && CertificateOf(p, c, h)
    ensures SerialOf(p, h) in RevokedSerials(p, issuer) <==>
            h == OfCa(c) && p.cas[c].parent == Some(issuer) && p.cas[c].Revoked()
    ensures StoredStatus(p, issuer, SerialOf(p, h)).RevokedStatus? <==>
            h == OfCa(c) && p.cas[c].parent == Some(issuer) && p.cas[c].Revoked()
    ensures h.OfAlternate? ==> StoredStatus(p, issuer, SerialOf(p, h)).Unknown?
  {
    var serial := SerialOf(p, h);
    assert Holds(p, h);
    forall k | k in p.leaves
      ensures p.leaves[k].serial != serial
    {
      assert Holds(p, OfLeaf(k)) && SerialOf(p, OfLeaf(k)) == p.leaves[k].serial;
    }
    forall d | d in SubCasWith(p, issuer, serial)
      ensures h == OfCa(d)
    {
      assert Holds(p, OfCa(d)) && SerialOf(p, OfCa(d)) == serial;
    }
    assert h == OfCa(c) && p.cas[c].parent == Some(issuer) ==> c in SubCasWith(p, issuer, serial);
    WhyListed(p, issuer, serial);
    CrlAgreesWithOcsp(p, issuer, serial);
  }

  /** So it is on every CRL just generated, in every run. */
  lemma EveryFreshCrlListsTheCurrent(run: seq<Action>, issuer: nat, c: nat, h: Holder)
    requires Feasible(run + [Publish(issuer)]) && CanSignCrl(Perform(run).pki, issuer)
    requires c in Perform(run).pki.cas && CertificateOf(Perform(run).pki, c, h)
    ensures var s := Perform(run + [Publish(issuer)]);
      && s.pki == Perform(run).pki && issuer in s.crls
      && (SerialOf(s.pki, h) in s.crls[issuer].serials <==>
            h == OfCa(c) && s.pki.cas[c].parent == Some(issuer) && s.pki.cas[c].Revoked())
  {
    var full := run + [Publish(issuer)];
    assert full[..|full| - 1] == run;
    RunKeepsPublished(run);
    OnlyTheCurrentIsListed(Perform(run).pki, c, h, issuer);
  }

  // ---------------------------------------------------------------------------
  // A serial that leaves the CRL
  // ---------------------------------------------------------------------------

  /** A re-issue waits for approval, the sub-CA is revoked and listed, and then the
      re-issue is approved. */
  function Waiting(): seq<Action> {
    [Change(CreateRoot(1, "a", false, 10, None)), Change(CreateIntermediate(2, 1, "b", false, 10, None, 0)),
     Change(ReissueCa(7, 2, "c", 20, true, 0))]
  }

  const SUB := Ca(Some(1), "b", None, true, false, 10, None, false)
  const PENDING := Alternate(2, Reissue, Some(1), false, false, "c", 20)

  lemma PerformOn(run: seq<Action>, a: Action)
    requires Feasible(run) && Possible(Perform(run), a)
    ensures Feasible(run + [a]) && Perform(run + [a]) == Act(Perform(run), a)
  {
    assert (run + [a])[..|run + [a]| - 1] == run;
  }

  lemma WaitingState()
    ensures Feasible(Waiting())
    ensures Perform(Waiting()) == Published(Pki(map[1 := ROOT, 2 := SUB], map[], map[7 := PENDING]), map[], {"a", "b", "c"})
  {
    var run := Waiting();
    var r1, r2 := [run[0]], [run[0], run[1]];
    assert r1 == [] + [run[0]] && r2 == r1 + [run[1]] && run == r2 + [run[2]];
    PerformOn([], run[0]);
    assert Perform(r1) == Published(Pki(map[1 := ROOT], map[], map[]), map[], {"a"});
    PerformOn(r1, run[1]);
    assert Perform(r2) == Published(Pki(map[1 := ROOT, 2 := SUB], map[], map[]), map[], {"a", "b"});
    PerformOn(r2, run[2]);
  }

  /** A CRL just generated. */
  lemma PublishOn(run: seq<Action>, ca: nat)
    requires Feasible(run) && CanSignCrl(Perform(run).pki, ca)
    ensures Feasible(run + [Publish(ca)]) && Perform(run + [Publish(ca)]).pki == Perform(run).pki
    ensures var crls := Perform(run + [Publish(ca)]).crls;
      ca in crls && crls[ca].serials == RevokedSerials(Perform(run).pki, ca)
  {
    PerformOn(run, Publish(ca));
  }

  function Listed(rev: Revocation): seq<Action> {
    Waiting() + [Change(RevokeCa(2, rev))] + [Publish(1)]
  }

  function RevokedPki(rev: Revocation): Pki {
    Pki(map[1 := ROOT, 2 := SUB.(revoked := Some(rev))], map[], map[7 := PENDING])
  }

  lemma RevokedState(rev: Revocation)
    ensures var run := Waiting() + [Change(RevokeCa(2, rev))]; Feasible(run) && Perform(run).pki == RevokedPki(rev)
  {
    WaitingState();
    OnlyItself(Perform(Waiting()).pki.cas);
    PerformOn(Waiting(), Change(RevokeCa(2, rev)));
  }

  lemma ListedState(rev: Revocation)
    ensures Feasible(Listed(rev)) && Perform(Listed(rev)).pki == RevokedPki(rev)
    ensures var crls := Perform(Listed(rev)).crls; 1 in crls && "b" in crls[1].serials
  {
    RevokedState(rev);
    PublishOn(Waiting() + [Change(RevokeCa(2, rev))], 1);
    var p := RevokedPki(rev);
    assert p.cas[2].serial in RevokedSerials(p, 1);
  }

  function Approved(rev: Revocation): seq<Action> {
    Listed(rev) + [Change(ApproveAlternate(7))]
  }

  lemma ApprovedState(rev: Revocation)
    ensures Feasible(Approved(rev))
    ensures var p := Perform(Approved(rev)).pki;
      p.cas == map[1 := ROOT, 2 := SUB.(revoked := Some(rev), serial := "c", notAfter := 20)] && p.leaves == map[]
  {
    ListedState(rev);
    PerformOn(Listed(rev), Change(ApproveAlternate(7)));
  }

  /** In this run a revoked sub-CA's listed serial leaves the next CRL of its parent, and
      OCSP no longer knows it. */
  lemma PromotionDropsAListedSerial(rev: Revocation)
    ensures Feasible(Listed(rev)) && Feasible(Approved(rev) + [Publish(1)])
    ensures var s := Perform(Listed(rev));
      && 2 in s.pki.cas && s.pki.cas[2].Revoked() && s.pki.cas[2].serial == "b"
      && 1 in s.crls && "b" in s.crls[1].serials
    ensures var s := Perform(Approved(rev) + [Publish(1)]);
      && 2 in s.pki.cas && s.pki.cas[2].Revoked()
      && 1 in s.crls && "b" !in s.crls[1].serials && StoredStatus(s.pki, 1, "b").Unknown?
  {
    ListedState(rev);
    ApprovedState(rev);
    PublishOn(Approved(rev), 1);
    var p := Perform(Approved(rev)).pki;
    assert SubCasWith(p, 1, "b") == {} && LeavesWith(p, 1, "b") == {};
    WhyListed(p, 1, "b");
  }
}
