/**
 Published revocation: the CRLs of app/services/crl_service.py against the status
 lookup of app/services/ocsp_service.py, over runs of the hierarchy.
 */
module Crls {
  import opened Prelude
  import opened CaTree
  import opened CaRuns

  // ---------------------------------------------------------------------------
  // Serial numbers
  // ---------------------------------------------------------------------------

  /** Whatever carries a serial number. */
  datatype Holder = OfLeaf(id: nat) | OfCa(id: nat) | OfAlternate(id: nat)

  predicate Holds(p: Pki, h: Holder) {
    match h
    case OfLeaf(k) => k in p.leaves
    case OfCa(c) => c in p.cas
    case OfAlternate(a) => a in p.alternates
  }

  function SerialOf(p: Pki, h: Holder): string
    requires Holds(p, h)
  {
    match h
    case OfLeaf(k) => p.leaves[k].serial
    case OfCa(c) => p.cas[c].serial
    case OfAlternate(a) => p.alternates[a].serial
  }

  ghost predicate SerialsUnique(p: Pki) {
    forall g, h :: Holds(p, g) && Holds(p, h) && g != h ==> SerialOf(p, g) != SerialOf(p, h)
  }

  /** `used` has every serial number in the tables. */
  ghost predicate SerialsUsed(p: Pki, used: set<string>) {
    forall h :: Holds(p, h) ==> SerialOf(p, h) in used
  }

  /** The serial number a step introduces. */
  function NewSerial(e: Event): Option<string> {
    match e
    case CreateRoot(_, serial, _, _, _) => Some(serial)
    case CreateIntermediate(_, _, serial, _, _, _, _) => Some(serial)
    case Import(_, _, serial, _, _, _, _) => Some(serial)
    case IssueLeaf(_, _, serial, _) => Some(serial)
    case Renew(_, _, serial, _, _, _, _) => Some(serial)
    case ReissueCa(_, _, serial, _, _, _) => Some(serial)
    case CrossSign(_, _, _, serial, _, _, _) => Some(serial)
    case ImportAlternate(_, _, _, serial, _) => Some(serial)
    case _ => None
  }

  // ---------------------------------------------------------------------------
  // What the two services publish
  // ---------------------------------------------------------------------------

  datatype Crl = Crl(number: nat, serials: set<string>)

  /** `generate_crl`: the revoked certificates and revoked sub-CAs of `ca`. */
  function RevokedSerials(p: Pki, ca: nat): set<string> {
    (set k | k in p.leaves && p.leaves[k].ca == ca && p.leaves[k].Revoked() :: p.leaves[k].serial)
    + (set c | c in p.cas && p.cas[c].parent == Some(ca) && p.cas[c].Revoked() :: p.cas[c].serial)
  }

  predicate CanSignCrl(p: Pki, ca: nat) {
    ca in p.cas && p.cas[ca].keyed && !p.cas[ca].pending
  }

  function LeavesWith(p: Pki, ca: nat, serial: string): set<nat> {
    set k | k in p.leaves && p.leaves[k].ca == ca && p.leaves[k].serial == serial
  }

  function SubCasWith(p: Pki, ca: nat, serial: string): set<nat> {
    set c | c in p.cas && p.cas[c].parent == Some(ca) && p.cas[c].serial == serial
  }

  datatype Status = Unknown | Good | RevokedStatus

  /** The subject lookup of `build_ocsp_response`: a certificate of the CA first, then
      a sub-CA. */
  ghost function StoredStatus(p: Pki, ca: nat, serial: string): Status {
    if LeavesWith(p, ca, serial) != {} then
      var k :| k in LeavesWith(p, ca, serial);
      if p.leaves[k].Revoked() then RevokedStatus else Good
    else if SubCasWith(p, ca, serial) != {} then
      var c :| c in SubCasWith(p, ca, serial);
      if p.cas[c].Revoked() then RevokedStatus else Good
    else Unknown
  }

  /** A certificate of `ca`, or a CA below it, carries the serial and is revoked. */
  ghost predicate CarriedRevoked(p: Pki, ca: nat, serial: string) {
    || (exists k :: k in p.leaves && p.leaves[k].ca == ca && p.leaves[k].serial == serial && p.leaves[k].revoked.Some?)
    || (exists c :: c in p.cas && p.cas[c].parent == Some(ca) && p.cas[c].serial == serial && p.cas[c].revoked.Some?)
  }

  /** One carries it and is not revoked. */
  ghost predicate CarriedLive(p: Pki, ca: nat, serial: string) {
    || (exists k :: k in p.leaves && p.leaves[k].ca == ca && p.leaves[k].serial == serial && p.leaves[k].revoked.None?)
    || (exists c :: c in p.cas && p.cas[c].parent == Some(ca) && p.cas[c].serial == serial && p.cas[c].revoked.None?)
  }

  /** With serials unique the status of a serial is that of the one row that carries it:
      unknown without one, good while it is not revoked, revoked when it is. */
  lemma StatusIsThatOfTheCarrier(p: Pki, ca: nat, serial: string)
    requires SerialsUnique(p)
    ensures StoredStatus(p, ca, serial).RevokedStatus? <==> CarriedRevoked(p, ca, serial)
    ensures StoredStatus(p, ca, serial).Good? <==> CarriedLive(p, ca, serial)
    ensures StoredStatus(p, ca, serial).Unknown? <==> !CarriedRevoked(p, ca, serial) && !CarriedLive(p, ca, serial)
  {
    forall k | k in p.leaves && p.leaves[k].ca == ca && p.leaves[k].serial == serial
      ensures LeavesWith(p, ca, serial) == {k} && SubCasWith(p, ca, serial) == {}
    {
      assert k in LeavesWith(p, ca, serial);
      OnlyLeaf(p, ca, serial, k);
    }
    forall c | c in p.cas && p.cas[c].parent == Some(ca) && p.cas[c].serial == serial
      ensures SubCasWith(p, ca, serial) == {c} && LeavesWith(p, ca, serial) == {}
    {
      assert c in SubCasWith(p, ca, serial);
      OnlySubCa(p, ca, serial, c);
    }
    if LeavesWith(p, ca, serial) != {} {
      var k :| k in LeavesWith(p, ca, serial);
      OnlyLeaf(p, ca, serial, k);
    } else if SubCasWith(p, ca, serial) != {} {
      var c :| c in SubCasWith(p, ca, serial);
      OnlySubCa(p, ca, serial, c);
    }
  }

  /** A serial is on the CRL because of a revoked certificate or a revoked sub-CA. */
  lemma WhyListed(p: Pki, ca: nat, serial: string)
    ensures serial in RevokedSerials(p, ca) <==>
      || (exists k :: k in LeavesWith(p, ca, serial) && p.leaves[k].Revoked())
      || (exists c :: c in SubCasWith(p, ca, serial) && p.cas[c].Revoked())
  {
    forall k | k in LeavesWith(p, ca, serial) && p.leaves[k].Revoked()
      ensures serial in RevokedSerials(p, ca)
    {
      assert p.leaves[k].serial == serial;
    }
    forall c | c in SubCasWith(p, ca, serial) && p.cas[c].Revoked()
      ensures serial in RevokedSerials(p, ca)
    {
      assert p.cas[c].serial == serial;
    }
  }

  /** A fresh CRL lists a serial exactly when OCSP answers REVOKED for it. */
  lemma CrlAgreesWithOcsp(p: Pki, ca: nat, serial: string)
    requires SerialsUnique(p)
    ensures serial in RevokedSerials(p, ca) <==> StoredStatus(p, ca, serial).RevokedStatus?
  {
    WhyListed(p, ca, serial);
    if LeavesWith(p, ca, serial) != {} {
      var k :| k in LeavesWith(p, ca, serial);
      OnlyLeaf(p, ca, serial, k);
    } else if SubCasWith(p, ca, serial) != {} {
      var c :| c in SubCasWith(p, ca, serial);
      OnlySubCa(p, ca, serial, c);
    }
  }

  lemma OnlyLeaf(p: Pki, ca: nat, serial: string, k: nat)
    requires SerialsUnique(p) && k in LeavesWith(p, ca, serial)
    ensures LeavesWith(p, ca, serial) == {k} && SubCasWith(p, ca, serial) == {}
  {
    assert Holds(p, OfLeaf(k)) && SerialOf(p, OfLeaf(k)) == serial;
    forall j | j in LeavesWith(p, ca, serial)
      ensures j == k
    {
      assert Holds(p, OfLeaf(j)) && SerialOf(p, OfLeaf(j)) == serial;
    }
    forall c | c in p.cas
      ensures p.cas[c].serial != serial
    {
      assert Holds(p, OfCa(c)) && SerialOf(p, OfCa(c)) == p.cas[c].serial;
    }
  }

  lemma OnlySubCa(p: Pki, ca: nat, serial: string, c: nat)
    requires SerialsUnique(p) && c in SubCasWith(p, ca, serial)
    ensures SubCasWith(p, ca, serial) == {c} && LeavesWith(p, ca, serial) == {}
  {
    assert Holds(p, OfCa(c)) && SerialOf(p, OfCa(c)) == serial;
    forall d | d in SubCasWith(p, ca, serial)
      ensures d == c
    {
      assert Holds(p, OfCa(d)) && SerialOf(p, OfCa(d)) == serial;
    }
    forall k | k in p.leaves
      ensures p.leaves[k].serial != serial
    {
      assert Holds(p, OfLeaf(k)) && SerialOf(p, OfLeaf(k)) == p.leaves[k].serial;
    }
  }

  // ---------------------------------------------------------------------------
  // Runs
  // ---------------------------------------------------------------------------

  /** The hierarchy with the CRLs on record and the serial numbers ever used. */
  datatype Published = Published(pki: Pki, crls: map<nat, Crl>, used: set<string>)

  datatype Action = Change(event: Event) | Publish(ca: nat)

  ghost function Act(s: Published, a: Action): Published {
    match a
    case Change(e) =>
      Published(Apply(s.pki, e), s.crls, s.used + if NewSerial(e).Some? then {NewSerial(e).value} else {})
    case Publish(ca) =>
      if !CanSignCrl(s.pki, ca) then s
      else
        var number := if ca in s.crls then s.crls[ca].number else 0;
        s.(crls := s.crls[ca := Crl(number + 1, RevokedSerials(s.pki, ca))])
  }

  /** Serial numbers are random: a new one was never used before, in either table. */
  ghost predicate Possible(s: Published, a: Action) {
    a.Change? ==> Enabled(s.pki, a.event) && (NewSerial(a.event).Some? ==> NewSerial(a.event).value !in s.used)
  }

  ghost function Perform(run: seq<Action>): Published {
    if run == [] then Published(EMPTY, map[], {}) else Act(Perform(run[..|run| - 1]), run[|run| - 1])
  }

  ghost predicate Feasible(run: seq<Action>) {
    run == [] || (Feasible(run[..|run| - 1]) && Possible(Perform(run[..|run| - 1]), run[|run| - 1]))
  }

  /** A certificate whose serial its CA's CRL lists is revoked. */
  ghost predicate ListedIsRevoked(s: Published) {
    forall k :: k in s.pki.leaves && Lists(s, k) ==> s.pki.leaves[k].Revoked()
  }

  ghost predicate CrlsUsed(s: Published) {
    forall ca :: ca in s.crls ==> s.crls[ca].serials <= s.used
  }

  ghost predicate PublishedInv(s: Published) {
    SerialsUnique(s.pki) && SerialsUsed(s.pki, s.used) && ListedIsRevoked(s) && CrlsUsed(s)
  }

  /** Which holder of the state before a step holds the serial of `h` after it; a
      promotion swaps the serials of a CA and its alternate. */
  ghost function Source(p: Pki, e: Event, h: Holder): Holder {
    if Apply(p, e) == p then h
    else match e
    case ApproveAlternate(alt) =>
      if alt in p.alternates && !p.alternates[alt].approved && p.alternates[alt].kind.Reissue? && p.alternates[alt].ca in p.cas then
        if h == OfAlternate(alt) then OfCa(p.alternates[alt].ca)
        else if h == OfCa(p.alternates[alt].ca) then OfAlternate(alt) else h
      else h
    case ReissueCa(alt, ca, _, _, pending, _) =>
      if pending then h
      else if h == OfAlternate(alt) then OfCa(ca)
      else if h == OfCa(ca) then OfAlternate(alt) else h
    case _ => h
  }

  lemma SerialAfter(p: Pki, e: Event, h: Holder)
    requires Enabled(p, e) && Holds(Apply(p, e), h)
    ensures if Holds(p, Source(p, e, h)) then SerialOf(Apply(p, e), h) == SerialOf(p, Source(p, e, h))
            else NewSerial(e) == Some(SerialOf(Apply(p, e), h))
  {
  }

  lemma NewHolderIsOne(p: Pki, e: Event, g: Holder, h: Holder)
    requires Enabled(p, e) && Holds(Apply(p, e), g) && Holds(Apply(p, e), h)
    requires !Holds(p, Source(p, e, g)) && !Holds(p, Source(p, e, h))
    ensures g == h
  {
  }

  lemma ChangeKeepsSerials(s: Published, e: Event)
    requires SerialsUnique(s.pki) && SerialsUsed(s.pki, s.used) && Possible(s, Change(e))
    ensures SerialsUnique(Act(s, Change(e)).pki) && SerialsUsed(Act(s, Change(e)).pki, Act(s, Change(e)).used)
  {
    var p, q := s.pki, Apply(s.pki, e);
    forall g, h | Holds(q, g) && Holds(q, h)
      ensures SerialOf(q, g) in Act(s, Change(e)).used
      ensures g != h ==> SerialOf(q, g) != SerialOf(q, h)
    {
      SerialAfter(p, e, g);
      SerialAfter(p, e, h);
      if !Holds(p, Source(p, e, g)) && !Holds(p, Source(p, e, h)) {
        NewHolderIsOne(p, e, g, h);
      }
    }
  }

  lemma ActKeepsInv(s: Published, a: Action)
    requires PublishedInv(s) && Possible(s, a)
    ensures PublishedInv(Act(s, a))
  {
    match a
    case Change(e) =>
      ChangeKeepsSerials(s, e);
      ApplyIsLater(s.pki, e);
      forall k | k in Apply(s.pki, e).leaves && Lists(Act(s, a), k)
        ensures Apply(s.pki, e).leaves[k].Revoked()
      {
        if k in s.pki.leaves {
          assert LeafLater(s.pki.leaves[k], Apply(s.pki, e).leaves[k]);
          assert Lists(s, k);
        } else {
          SerialAfter(s.pki, e, OfLeaf(k));
        }
      }
    case Publish(ca) =>
      if CanSignCrl(s.pki, ca) {
        PublishedSerials(s.pki, ca, s.used);
        forall k | k in s.pki.leaves && Lists(Act(s, a), k)
          ensures s.pki.leaves[k].Revoked()
        {
          assert s.pki.leaves[k].ca != ca ==> Lists(s, k);
        }
      }
  }

  lemma PublishedSerials(p: Pki, ca: nat, used: set<string>)
    requires SerialsUnique(p) && SerialsUsed(p, used)
    ensures RevokedSerials(p, ca) <= used
    ensures forall k :: k in p.leaves && p.leaves[k].ca == ca && p.leaves[k].serial in RevokedSerials(p, ca) ==>
      p.leaves[k].Revoked()
  {
    forall k | k in p.leaves
      ensures p.leaves[k].serial in used
      ensures p.leaves[k].ca == ca && p.leaves[k].serial in RevokedSerials(p, ca) ==> p.leaves[k].Revoked()
    {
      assert Holds(p, OfLeaf(k)) && SerialOf(p, OfLeaf(k)) == p.leaves[k].serial;
      if p.leaves[k].ca == ca {
        OnlyLeaf(p, ca, p.leaves[k].serial, k);
        NotASubCa(p, ca, k);
      }
    }
    forall c | c in p.cas
      ensures p.cas[c].serial in used
    {
      assert Holds(p, OfCa(c)) && SerialOf(p, OfCa(c)) == p.cas[c].serial;
    }
  }

  lemma NotASubCa(p: Pki, ca: nat, k: nat)
    requires SerialsUnique(p) && k in p.leaves && p.leaves[k].ca == ca
    ensures p.leaves[k].serial in RevokedSerials(p, ca) ==> p.leaves[k].Revoked()
  {
    var serial := p.leaves[k].serial;
    OnlyLeaf(p, ca, serial, k);
    forall j | j in p.leaves && p.leaves[j].ca == ca && p.leaves[j].serial == serial
      ensures j == k
    {
      assert j in LeavesWith(p, ca, serial);
    }
    forall c | c in p.cas && p.cas[c].parent == Some(ca)
      ensures p.cas[c].serial != serial
    {
      assert p.cas[c].serial != serial || c in SubCasWith(p, ca, serial);
    }
  }

  lemma {:induction false} RunKeepsPublished(run: seq<Action>)
    requires Feasible(run)
    ensures PublishedInv(Perform(run))
  {
    if run != [] {
      RunKeepsPublished(run[..|run| - 1]);
      ActKeepsInv(Perform(run[..|run| - 1]), run[|run| - 1]);
    }
  }

  /** A CRL is generated for a CA with its key that is not waiting for approval, revoked or
      not; otherwise nothing is published. */
  lemma PublishingACrl(s: Published, ca: nat)
    ensures var t := Act(s, Publish(ca));
      if ca in s.pki.cas && s.pki.cas[ca].keyed && !s.pki.cas[ca].pending then
        && t.pki == s.pki && ca in t.crls && t.crls - {ca} == s.crls - {ca}
        && t.crls[ca] == Crl(if ca in s.crls then s.crls[ca].number + 1 else 1, RevokedSerials(s.pki, ca))
      else t == s
  {
  }

  /** Right after a CRL is generated, it lists exactly the serials for which OCSP
      answers REVOKED, and its number is one higher. */
  lemma {:induction false} EveryFreshCrlAgrees(run: seq<Action>, ca: nat, serial: string)
    requires Feasible(run + [Publish(ca)]) && CanSignCrl(Perform(run).pki, ca)
    ensures var s := Perform(run + [Publish(ca)]);
      && ca in s.crls
      && (serial in s.crls[ca].serials <==> StoredStatus(s.pki, ca, serial).RevokedStatus?)
      && s.crls[ca].number == (if ca in Perform(run).crls then Perform(run).crls[ca].number else 0) + 1
  {
    var full := run + [Publish(ca)];
    assert full[..|full| - 1] == run;
    RunKeepsPublished(run);
    CrlAgreesWithOcsp(Perform(run).pki, ca, serial);
  }

  ghost predicate Lists(s: Published, k: nat) {
    && k in s.pki.leaves && s.pki.leaves[k].ca in s.crls
    && s.pki.leaves[k].serial in s.crls[s.pki.leaves[k].ca].serials
  }

  lemma ActKeepsListing(s: Published, a: Action, k: nat)
    requires PublishedInv(s) && Possible(s, a) && Lists(s, k)
    ensures Lists(Act(s, a), k) && Act(s, a).pki.leaves[k].serial == s.pki.leaves[k].serial
  {
    match a
    case Change(e) =>
      ApplyIsLater(s.pki, e);
      assert LeafLater(s.pki.leaves[k], Apply(s.pki, e).leaves[k]);
    case Publish(ca) =>
      assert s.pki.leaves[k].Revoked();
  }

  /** A certificate once listed stays listed, in every later CRL of its CA, and OCSP
      answers REVOKED for it ever after. */
  lemma {:induction false} ListedForEver(run: seq<Action>, n: nat, k: nat)
    requires Feasible(run) && n <= |run| && Lists(Perform(run[..n]), k)
    ensures Lists(Perform(run), k)
    ensures var leaf := Perform(run).pki.leaves[k];
      StoredStatus(Perform(run).pki, leaf.ca, leaf.serial).RevokedStatus?
  {
    RunKeepsPublished(run);
    if n == |run| {
      assert run[..n] == run;
    } else {
      var init := run[..|run| - 1];
      assert init[..n] == run[..n];
      ListedForEver(init, n, k);
      RunKeepsPublished(init);
      ActKeepsListing(Perform(init), run[|run| - 1], k);
    }
    var p := Perform(run).pki;
    assert p.leaves[k].Revoked();
    assert k in LeavesWith(p, p.leaves[k].ca, p.leaves[k].serial);
    OnlyLeaf(p, p.leaves[k].ca, p.leaves[k].serial, k);
  }

  // ---------------------------------------------------------------------------
  // Revoked sub-CAs
  // ---------------------------------------------------------------------------

  /** The step approves a re-issue that was pending for `c`. */
  predicate PromotesFor(p: Pki, e: Event, c: nat) {
    e.ApproveAlternate? && e.alt in p.alternates && !p.alternates[e.alt].approved
    && p.alternates[e.alt].kind.Reissue? && p.alternates[e.alt].ca == c
  }

  /** A serial number that an alternate carries is on no CRL. */
  lemma OnAnAlternate(q: Pki, serial: string, alt: nat)
    requires SerialsUnique(q) && alt in q.alternates && q.alternates[alt].serial == serial
    ensures forall ca :: serial !in RevokedSerials(q, ca)
  {
    assert Holds(q, OfAlternate(alt)) && SerialOf(q, OfAlternate(alt)) == serial;
    forall k | k in q.leaves
      ensures q.leaves[k].serial != serial
    {
      assert Holds(q, OfLeaf(k)) && SerialOf(q, OfLeaf(k)) == q.leaves[k].serial;
    }
    forall d | d in q.cas
      ensures q.cas[d].serial != serial
    {
      assert Holds(q, OfCa(d)) && SerialOf(q, OfCa(d)) == q.cas[d].serial;
    }
  }

  /** A revoked sub-CA stays on its parent's next CRL, whatever one step comes between,
      unless that step approves a re-issue that was pending for it: the approval does
      not ask whether the CA was revoked meanwhile, and the listed serial is replaced. */
  lemma SubCaStaysListedUnlessPromoted(s: Published, e: Event, parent: nat, c: nat)
    requires PublishedInv(s) && Possible(s, Change(e))
    requires c in s.pki.cas && s.pki.cas[c].parent == Some(parent) && s.pki.cas[c].Revoked()
    ensures s.pki.cas[c].serial in RevokedSerials(Apply(s.pki, e), parent) <==> !PromotesFor(s.pki, e, c)
  {
    var p, q := s.pki, Apply(s.pki, e);
    var serial := p.cas[c].serial;
    ApplyIsLater(p, e);
    ChangeKeepsSerials(s, e);
    assert CaLater(p.cas[c], q.cas[c]);
    if PromotesFor(p, e, c) {
      OnAnAlternate(q, serial, e.alt);
    } else {
      assert q.cas[c].serial == serial;
    }
  }
}
