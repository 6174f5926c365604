/**
 One certificate signing request, signed and rejected by any number of workers at
 once: the single-flight claim of app/services/cert_service.py and the check-then-write
 rejection of app/routes/csr.py. Every SQL statement is one step.
 */
module CsrClaim {
  import opened Prelude

  datatype Status = Pending | Signing | Approved | Rejected

  type Worker = nat

  /** The CSR row, and the certificates issued from it, each with the worker that did. */
  datatype Csr = Csr(status: Status, issued: seq<Worker>)

  /** Where a worker's request stands: past the route's status check, holding the claim,
      or past the status check of a rejection. */
  datatype Phase = Idle | MaySign | Claimed | MayReject

  datatype State = State(csr: Csr, phases: map<Worker, Phase>)

  datatype Event =
    | CheckForSign(w: Worker)
    | Claim(w: Worker)
    | Commit(w: Worker)
    | Release(w: Worker)
    | CheckForReject(w: Worker)
    | WriteReject(w: Worker)
    | Crash(w: Worker)

  const START := State(Csr(Pending, []), map[])

  // ---------------------------------------------------------------------------
  // The statements
  // ---------------------------------------------------------------------------

  /** `_claim_csr`: UPDATE ... WHERE status = 'pending'. */
  function Claiming(c: Csr): Csr {
    if c.status == Pending then c.(status := Signing) else c
  }

  /** `_release_csr`: UPDATE ... WHERE status = 'signing'. */
  function Releasing(c: Csr): Csr {
    if c.status == Signing then c.(status := Pending) else c
  }

  /** `_sign_claimed_csr` writes the row by its id, whatever its status is by then. */
  function Approving(c: Csr, w: Worker): Csr {
    Csr(Approved, c.issued + [w])
  }

  /** So does the rejection. */
  function Rejecting(c: Csr): Csr {
    c.(status := Rejected)
  }

  /** The row as the workers share it. */
  class CsrRow {
    var status: Status
    var issued: seq<Worker>

    ghost function Row(): Csr
      reads this
    {
      Csr(status, issued)
    }

    constructor ()
      ensures Row() == START.csr
    {
      status, issued := Pending, [];
    }

    method ClaimIt() returns (won: bool)
      modifies this
      ensures Row() == Claiming(old(Row())) && won == (old(status) == Pending)
    {
      won := status == Pending;
      if won {
        status := Signing;
      }
    }

    method ReleaseIt()
      modifies this
      ensures Row() == Releasing(old(Row()))
    {
      if status == Signing {
        status := Pending;
      }
    }

    method Approve(w: Worker)
      modifies this
      ensures Row() == Approving(old(Row()), w)
    {
      issued := issued + [w];
      status := Approved;
    }

    /** `sign_csr` when nobody interleaves: it signs a pending CSR once, and a CSR it
        could not sign is as it was. `signed` is whether building and signing went
        through. */
    method SignAlone(w: Worker, signed: bool) returns (r: Result<Status, Status>)
      modifies this
      ensures r.Ok? <==> old(status) == Pending && signed
      ensures r.Ok? ==> status == Approved && issued == old(issued) + [w]
      ensures r.Err? ==> Row() == old(Row())
    {
      var won := ClaimIt();
      if !won {
        return Err(status);
      }
      if !signed {
        ReleaseIt();
        return Err(status);
      }
      Approve(w);
      r := Ok(status);
    }

    /** The rejection route when nobody interleaves: only a pending CSR is rejected. */
    method RejectAlone() returns (ok: bool)
      modifies this
      ensures ok <==> old(status) == Pending
      ensures Row() == if ok then Rejecting(old(Row())) else old(Row())
    {
      ok := status == Pending;
      if ok {
        status := Rejected;
      }
    }
  }

  // ---------------------------------------------------------------------------
  // Workers
  // ---------------------------------------------------------------------------

  function At(s: State, w: Worker): Phase {
    if w in s.phases then s.phases[w] else Idle
  }

  predicate Holds(s: State, w: Worker) {
    At(s, w) == Claimed
  }

  ghost predicate Enabled(s: State, e: Event) {
    match e
    case CheckForSign(w) => At(s, w) == Idle
    case Claim(w) => At(s, w) == MaySign
    case Commit(w) => Holds(s, w)
    case Release(w) => Holds(s, w)
    case CheckForReject(w) => At(s, w) == Idle
    case WriteReject(w) => At(s, w) == MayReject
    case Crash(w) => At(s, w) != Idle
  }

  function Move(s: State, w: Worker, p: Phase): State {
    s.(phases := s.phases[w := p])
  }

  function Step(s: State, e: Event): State {
    match e
    case CheckForSign(w) => if s.csr.status == Pending then Move(s, w, MaySign) else s
    case Claim(w) =>
      Move(s, w, if s.csr.status == Pending then Claimed else Idle).(csr := Claiming(s.csr))
    case Commit(w) => Move(s, w, Idle).(csr := Approving(s.csr, w))
    case Release(w) => Move(s, w, Idle).(csr := Releasing(s.csr))
    case CheckForReject(w) => if s.csr.status == Pending then Move(s, w, MayReject) else s
    case WriteReject(w) => Move(s, w, Idle).(csr := Rejecting(s.csr))
    case Crash(w) => Move(s, w, Idle)
  }

  function Play(s: State, es: seq<Event>): State {
    if es == [] then s else Step(Play(s, es[..|es| - 1]), es[|es| - 1])
  }

  ghost predicate Legal(s: State, es: seq<Event>) {
    es != [] ==>
      var init := es[..|es| - 1];
      Legal(s, init) && Enabled(Play(s, init), es[|es| - 1])
  }

  // ---------------------------------------------------------------------------
  // One worker at a time
  // ---------------------------------------------------------------------------

  /** Undisturbed, a pending CSR is signed once, or left pending by a signing that fails, or
      rejected; one that is not pending is neither claimed nor rejected. */
  lemma UndisturbedOutcomes(s: State, w: Worker)
    requires At(s, w) == Idle
    ensures var checked := Step(s, CheckForSign(w)); var claimed := Step(checked, Claim(w));
      if s.csr.status == Pending then
        && Enabled(checked, Claim(w)) && Enabled(claimed, Commit(w)) && Enabled(claimed, Release(w))
        && claimed.csr == Csr(Signing, s.csr.issued)
        && Step(claimed, Commit(w)).csr == Csr(Approved, s.csr.issued + [w])
        && Step(claimed, Release(w)).csr == s.csr
      else checked == s
    ensures var checked := Step(s, CheckForReject(w));
      if s.csr.status == Pending then
        Enabled(checked, WriteReject(w)) && Step(checked, WriteReject(w)).csr == Csr(Rejected, s.csr.issued)
      else checked == s
  {
  }

  /** A claim on a CSR that is no longer pending is lost and changes nothing. */
  lemma LateClaimIsLost(s: State, w: Worker)
    requires At(s, w) == MaySign && s.csr.status != Pending
    ensures Step(s, Claim(w)).csr == s.csr && At(Step(s, Claim(w)), w) == Idle
  {
  }

  // ---------------------------------------------------------------------------
  // Safety over every run
  // ---------------------------------------------------------------------------

  ghost predicate Inv(s: State) {
    && (forall v, w :: Holds(s, v) && Holds(s, w) ==> v == w)
    && (forall w :: Holds(s, w) ==> s.csr.status != Pending && s.csr.issued == [])
    && |s.csr.issued| <= 1
    && (s.csr.status == Pending || s.csr.status == Signing ==> s.csr.issued == [])
    && (s.csr.status == Approved ==> s.csr.issued != [])
  }

  /** Who holds the claim after a step. */
  lemma HoldersAfter(s: State, e: Event, v: Worker)
    requires Enabled(s, e)
    ensures Holds(Step(s, e), v) <==>
            if v == e.w then e.Claim? && s.csr.status == Pending else Holds(s, v)
  {
  }

  lemma StepKeepsInv(s: State, e: Event)
    requires Inv(s) && Enabled(s, e)
    ensures Inv(Step(s, e))
  {
    forall v
      ensures Holds(Step(s, e), v) <==> if v == e.w then e.Claim? && s.csr.status == Pending else Holds(s, v)
    {
      HoldersAfter(s, e, v);
    }
    assert Holds(s, e.w) <==> e.Commit? || e.Release? || (e.Crash? && Holds(s, e.w));
  }

  /** However the workers interleave: one claim at most is outstanding, a claimed CSR is
      never pending, and one certificate at most is ever issued from it. */
  lemma {:induction false} EveryRunClaimsOnce(es: seq<Event>)
    requires Legal(START, es)
    ensures var s := Play(START, es);
      && (forall v, w :: Holds(s, v) && Holds(s, w) ==> v == w)
      && (forall w :: Holds(s, w) ==> s.csr.status != Pending)
      && |s.csr.issued| <= 1
      && (s.csr.status == Approved ==> |s.csr.issued| == 1)
      && Inv(s)
  {
    if es != [] {
      EveryRunClaimsOnce(es[..|es| - 1]);
      StepKeepsInv(Play(START, es[..|es| - 1]), es[|es| - 1]);
    }
  }

  /** Without a crash a CSR in `signing` has a worker that will sign or release it. */
  lemma {:induction false} SigningHasASigner(es: seq<Event>)
    requires Legal(START, es) && forall i :: 0 <= i < |es| ==> !es[i].Crash?
    ensures var s := Play(START, es); s.csr.status == Signing ==> exists w :: Holds(s, w)
  {
    if es != [] {
      var init, e := es[..|es| - 1], es[|es| - 1];
      SigningHasASigner(init);
      EveryRunClaimsOnce(init);
      var s, s' := Play(START, init), Play(START, es);
      assert s' == Step(s, e) && Enabled(s, e);
      assert !e.Crash?;
      if s'.csr.status == Signing {
        HoldersAfter(s, e, e.w);
        if s.csr.status == Signing {
          var w :| Holds(s, w);
          HoldersAfter(s, e, w);
        }
      }
    }
  }

  // ---------------------------------------------------------------------------
  // The unconditional rejection
  // ---------------------------------------------------------------------------

  /** A rejection written over an approval. */
  ghost predicate RejectsIssued(es: seq<Event>, k: int)
    requires 0 <= k < |es|
  {
    es[k].WriteReject? && Play(START, es[..k]).csr.status == Approved
  }

  ghost predicate Inconsistent(c: Csr) {
    c.status == Rejected && c.issued != []
  }

  /** A CSR ends up rejected with a live certificate exactly when a rejection was
      written while the status was `approved`. */
  lemma {:induction false} RejectedWithACertificate(es: seq<Event>)
    requires Legal(START, es)
    ensures Inconsistent(Play(START, es).csr) <==> exists k :: 0 <= k < |es| && RejectsIssued(es, k)
  {
    if es != [] {
      var init, e := es[..|es| - 1], es[|es| - 1];
      RejectedWithACertificate(init);
      EveryRunClaimsOnce(init);
      var s := Play(START, init);
      assert Play(START, es) == Step(s, e) && Enabled(s, e);
      assert RejectsIssued(es, |init|) <==> e.WriteReject? && s.csr.status == Approved;
      forall k | 0 <= k < |init|
        ensures RejectsIssued(es, k) <==> RejectsIssued(init, k)
      {
        assert es[..k] == init[..k];
      }
      assert Inconsistent(Step(s, e).csr) <==> Inconsistent(s.csr) || (e.WriteReject? && s.csr.status == Approved);
    }
  }

  /** Worker 1 checks for a rejection, worker 2 signs, worker 1 writes. */
  const RACE: seq<Event> := [CheckForReject(1), CheckForSign(2), Claim(2), Commit(2), WriteReject(1)]

  lemma RaceStep(es: seq<Event>, e: Event)
    requires Legal(START, es) && Enabled(Play(START, es), e)
    ensures Legal(START, es + [e]) && Play(START, es + [e]) == Step(Play(START, es), e)
  {
    assert (es + [e])[..|es + [e]| - 1] == es;
  }

  lemma RejectionCanRaceIssuance()
    ensures Legal(START, RACE) && Inconsistent(Play(START, RACE).csr)
  {
    var es1, es2 := [CheckForReject(1)], [CheckForReject(1), CheckForSign(2)];
    var es3, es4 := es2 + [Claim(2)], es2 + [Claim(2)] + [Commit(2)];
    assert es1 == [] + [CheckForReject(1)] && es2 == es1 + [CheckForSign(2)] && RACE == es4 + [WriteReject(1)];
    RaceStep([], CheckForReject(1));
    RaceStep(es1, CheckForSign(2));
    var s2 := Play(START, es2);
    assert At(s2, 1) == MayReject && At(s2, 2) == MaySign && s2.csr == Csr(Pending, []);
    RaceEnds(es2, es3, es4);
  }

  lemma RaceEnds(es2: seq<Event>, es3: seq<Event>, es4: seq<Event>)
    requires Legal(START, es2) && es3 == es2 + [Claim(2)] && es4 == es3 + [Commit(2)]
    requires var s2 := Play(START, es2); At(s2, 1) == MayReject && At(s2, 2) == MaySign && s2.csr == Csr(Pending, [])
    ensures var es := es4 + [WriteReject(1)]; Legal(START, es) && Inconsistent(Play(START, es).csr)
  {
    RaceStep(es2, Claim(2));
    var s3 := Play(START, es3);
    assert At(s3, 1) == MayReject && Holds(s3, 2) && s3.csr.issued == [];
    RaceStep(es3, Commit(2));
    var s4 := Play(START, es4);
    assert At(s4, 1) == MayReject && s4.csr.issued != [];
    RaceStep(es4, WriteReject(1));
  }

  ghost predicate Unchanged(s: State, es: seq<Event>) {
    Play(s, es).csr == s.csr
  }

  /** A rejected CSR stays rejected for ever, and no certificate comes from it any
      more, exactly when no worker holds the claim. */
  lemma RejectionStands(s: State)
    requires Inv(s) && s.csr.status == Rejected
    ensures (forall es :: Legal(s, es) ==> Unchanged(s, es)) <==> forall w :: !Holds(s, w)
  {
    if exists w :: Holds(s, w) {
      var w :| Holds(s, w);
      ClaimantApproves(s, w);
    } else {
      forall es | Legal(s, es)
        ensures Unchanged(s, es)
      {
        StaysRejected(s, es);
      }
    }
  }

  lemma ClaimantApproves(s: State, w: Worker)
    requires Holds(s, w) && s.csr.status == Rejected
    ensures Legal(s, [Commit(w)]) && !Unchanged(s, [Commit(w)])
  {
    var es: seq<Event> := [Commit(w)];
    assert es[..0] == [];
    assert Play(s, es) == Step(s, es[0]);
  }

  lemma {:induction false} StaysRejected(s: State, es: seq<Event>)
    requires s.csr.status == Rejected && (forall w :: !Holds(s, w)) && Legal(s, es)
    ensures var s' := Play(s, es); s'.csr == s.csr && forall w :: !Holds(s', w)
  {
    if es != [] {
      StaysRejected(s, es[..|es| - 1]);
      var t, e := Play(s, es[..|es| - 1]), es[|es| - 1];
      assert !Holds(t, e.w);
      forall v
        ensures !Holds(Step(t, e), v)
      {
        HoldersAfter(t, e, v);
      }
    }
  }
}
