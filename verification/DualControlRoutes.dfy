/**
 The handlers of app/routes/ca.py, csr.py and certificates.py that dual control
 governs, on the tables they write.
 */
module DualControlRoutes {
  import opened Prelude
  import opened DualControl

  /** Flask's per-request object: `is_active` is worked out once. */
  class RequestContext {
    var active: Option<bool>

    constructor ()
      ensures active == None
    {
      active := None;
    }

    method IsActive(cfg: Config, users: map<nat, User>) returns (b: bool)
      modifies this
      ensures b == if old(active).Some? then old(active).value else Active(cfg, users)
      ensures active == Some(b)
    {
      if active.None? {
        active := Some(Active(cfg, users));
      }
      b := active.value;
    }
  }

  class Server {
    const cfg: Config
    var users: map<nat, User>
    var cas: map<nat, Ca>
    var imports: map<nat, Staged>
    var alternates: map<nat, Alternate>
    var csrs: map<nat, Csr>
    var certs: map<nat, Certificate>
    var signatures: seq<Signature>
    ghost const start: State

    /** The four-eyes invariant, of everything made since the start. */
    ghost predicate KeptApart()
      reads this
    {
      Inv(start, Contents())
    }

    function Contents(): State
      reads this
    {
      State(users, cas, imports, alternates, csrs, certs, signatures)
    }

    constructor (cfg: Config, users: map<nat, User>)
      ensures this.cfg == cfg && Contents() == State(users, map[], map[], map[], map[], map[], []) && KeptApart()
    {
      this.cfg, this.users := cfg, users;
      cas, imports, alternates, csrs, certs, signatures := map[], map[], map[], map[], map[], [];
      start := State(users, map[], map[], map[], map[], map[], []);
    }

    /** `create`, generate mode. */
    method Generate(actor: nat, id: nat, parent: Option<nat>, now: int) returns (p: Option<Refusal>)
      requires Possible(Contents(), GenerateCa(actor, id, parent, now))
      modifies this
      ensures Handled(cfg, old(Contents()), Contents(), GenerateCa(actor, id, parent, now), p)
      ensures Guarded(cfg, old(Contents()), GenerateCa(actor, id, parent, now)) && old(KeptApart()) ==> KeptApart()
    {
      KeepsFourEyes(cfg, start, Contents(), GenerateCa(actor, id, parent, now));
      var g := new RequestContext();
      var active := g.IsActive(cfg, users);
      if parent.Some? && !SigningCapable(Contents(), parent.value) {
        return Some(CannotSign);
      }
      var row := if active then Ca(Some(actor), true, false, true, None, None)
                 else Ca(Some(actor), true, false, false, Some(actor), Some(now));
      cas := cas[id := row];
      signatures := signatures + [if parent.Some? then Signature(parent.value, SubCa) else Signature(id, OwnCertificate)];
      p := None;
    }

    /** `create`, upload mode, up to the first commit: the CA is stored with the column
        default `approved`. */
    method Stage(actor: nat, id: nat, keyed: bool) returns (p: Option<Refusal>)
      requires Possible(Contents(), StageImport(actor, id, keyed))
      modifies this
      ensures Handled(cfg, old(Contents()), Contents(), StageImport(actor, id, keyed), p)
      ensures Guarded(cfg, old(Contents()), StageImport(actor, id, keyed)) && old(KeptApart()) ==> KeptApart()
    {
      KeepsFourEyes(cfg, start, Contents(), StageImport(actor, id, keyed));
      var g := new RequestContext();
      var active := g.IsActive(cfg, users);
      cas := cas[id := Ca(None, keyed, false, false, None, None)];
      imports := imports[id := Staged(actor, active)];
      p := None;
    }

    /** `_apply_import_approval`: only a CA that can sign waits for approval. */
    method Stamp(ca: nat, now: int) returns (p: Option<Refusal>)
      requires Possible(Contents(), StampImport(ca, now))
      modifies this
      ensures Handled(cfg, old(Contents()), Contents(), StampImport(ca, now), p)
      ensures Guarded(cfg, old(Contents()), StampImport(ca, now)) && old(KeptApart()) ==> KeptApart()
    {
      KeepsFourEyes(cfg, start, Contents(), StampImport(ca, now));
      if ca !in imports || ca !in cas {
        return Some(NotFound);
      }
      var row, actor := cas[ca].(createdBy := Some(imports[ca].actor)), imports[ca].actor;
      if imports[ca].gated && row.keyed {
        row := row.(pending := true, approvedBy := None, approvedAt := None);
      } else {
        row := row.(pending := false, approvedBy := Some(actor), approvedAt := Some(now));
      }
      cas, imports := cas[ca := row], imports - {ca};
      p := None;
    }

    /** `approve`. */
    method Approve(actor: nat, ca: nat, now: int) returns (p: Option<Refusal>)
      requires Possible(Contents(), ApproveCa(actor, ca, now))
      modifies this
      ensures Handled(cfg, old(Contents()), Contents(), ApproveCa(actor, ca, now), p)
      ensures Guarded(cfg, old(Contents()), ApproveCa(actor, ca, now)) && old(KeptApart()) ==> KeptApart()
    {
      KeepsFourEyes(cfg, start, Contents(), ApproveCa(actor, ca, now));
      if ca !in cas {
        return Some(NotFound);
      }
      if !cas[ca].pending {
        return Some(NotPending);
      }
      var g := new RequestContext();
      var active := g.IsActive(cfg, users);
      if active && !CanApprove(cfg, users, actor, cas[ca].createdBy, now) {
        return Some(FourEyes);
      }
      cas := cas[ca := cas[ca].(pending := false, approvedBy := Some(actor), approvedAt := Some(now))];
      p := None;
    }

    /** The checks on the issuing CA that every leaf certificate passes. */
    method CheckIssuer(ca: nat) returns (p: Option<Refusal>)
      ensures p == IssuerProblem(Contents(), ca)
    {
      if ca !in cas {
        return Some(NotFound);
      }
      if cas[ca].revoked || !cas[ca].keyed || cas[ca].pending {
        return Some(CannotSign);
      }
      p := None;
    }

    /** `sign`. */
    method SignRequest(actor: nat, csr: nat, ca: nat, id: nat) returns (p: Option<Refusal>)
      requires Possible(Contents(), SignCsr(actor, csr, ca, id))
      modifies this
      ensures Handled(cfg, old(Contents()), Contents(), SignCsr(actor, csr, ca, id), p)
      ensures Guarded(cfg, old(Contents()), SignCsr(actor, csr, ca, id)) && old(KeptApart()) ==> KeptApart()
    {
      KeepsFourEyes(cfg, start, Contents(), SignCsr(actor, csr, ca, id));
      if csr !in csrs {
        return Some(NotFound);
      }
      if !csrs[csr].pending {
        return Some(NotPending);
      }
      var g := new RequestContext();
      var active := g.IsActive(cfg, users);
      if active && csrs[csr].createdBy == Some(actor) && !Exempt(cfg, actor) {
        return Some(FourEyes);
      }
      p := CheckIssuer(ca);
      if p.None? {
        signatures := signatures + [Signature(ca, LeafCertificate)];
        certs := certs[id := Certificate(ca, csrs[csr].createdBy, Some(actor), false)];
        csrs := csrs[csr := csrs[csr].(pending := false)];
      }
    }

    /** `create` of a certificate: direct issuance. */
    method CreateDirectly(actor: nat, ca: nat, id: nat) returns (p: Option<Refusal>)
      requires Possible(Contents(), CreateCertificate(actor, ca, id))
      modifies this
      ensures Handled(cfg, old(Contents()), Contents(), CreateCertificate(actor, ca, id), p)
      ensures Guarded(cfg, old(Contents()), CreateCertificate(actor, ca, id)) && old(KeptApart()) ==> KeptApart()
    {
      KeepsFourEyes(cfg, start, Contents(), CreateCertificate(actor, ca, id));
      var g := new RequestContext();
      var active := g.IsActive(cfg, users);
      if active && !Exempt(cfg, actor) {
        return Some(FourEyes);
      }
      p := CheckIssuer(ca);
      if p.None? {
        signatures := signatures + [Signature(ca, LeafCertificate)];
        certs := certs[id := Certificate(ca, None, Some(actor), true)];
      }
    }

    /** `renew`: a certificate from a CSR counts as signing, an escrowed one as direct
        issuance. */
    method RenewCertificate(actor: nat, cert: nat, id: nat) returns (p: Option<Refusal>)
      requires Possible(Contents(), Renew(actor, cert, id))
      modifies this
      ensures Handled(cfg, old(Contents()), Contents(), Renew(actor, cert, id), p)
      ensures Guarded(cfg, old(Contents()), Renew(actor, cert, id)) && old(KeptApart()) ==> KeptApart()
    {
      KeepsFourEyes(cfg, start, Contents(), Renew(actor, cert, id));
      if cert !in certs {
        return Some(NotFound);
      }
      var was := certs[cert];
      var g := new RequestContext();
      var active := g.IsActive(cfg, users);
      if active && !Exempt(cfg, actor) {
        if was.escrowed || was.requestedBy == Some(actor) {
          return Some(FourEyes);
        }
      }
      p := CheckIssuer(was.ca);
      if p.None? {
        signatures := signatures + [Signature(was.ca, LeafCertificate)];
        certs := certs[id := Certificate(was.ca, was.requestedBy, Some(actor), was.escrowed)];
      }
    }
  }

  /** Under the mode a handled request keeps the invariant. */
  lemma KeepsFourEyes(cfg: Config, start: State, s: State, r: Request)
    requires Possible(s, r)
    ensures Guarded(cfg, s, r) && Inv(start, s) ==> Inv(start, Apply(cfg, s, r))
  {
    if Guarded(cfg, s, r) && Inv(start, s) {
      StepKeepsInv(cfg, start, s, r);
    }
  }
}
