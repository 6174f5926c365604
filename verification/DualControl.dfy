/**
 Four-eyes mode: the rules of app/services/dual_control_service.py and the routes that
 apply them (app/routes/ca.py, csr.py and certificates.py). One request is one step; an
 import is two, because app/services/ca_service.py commits the CA before it stamps it.
 */
module DualControl {
  import opened Prelude

  const HOUR := 3600

  datatype Config = Config(enabled: bool, ldap: bool, bootstrap: nat, cooldownHours: int)

  datatype User = User(active: bool, createdBy: Option<nat>, createdAt: Option<int>,
                       resetBy: Option<nat>, resetAt: Option<int>)

  datatype Ca = Ca(createdBy: Option<nat>, keyed: bool, revoked: bool, pending: bool,
                   approvedBy: Option<nat>, approvedAt: Option<int>)

  /** A re-issued or cross-signed certificate of a CA. */
  datatype Alternate = Alternate(ca: nat, createdBy: nat, pending: bool, approvedBy: Option<nat>)

  datatype Csr = Csr(createdBy: Option<nat>, pending: bool)

  /** `escrowed` is whether the server keeps the private key: direct issuance. */
  datatype Certificate = Certificate(ca: nat, requestedBy: Option<nat>, issuedBy: Option<nat>, escrowed: bool)

  /** What a CA key signs. */
  datatype Purpose = OwnCertificate | SubCa | LeafCertificate | AlternateCertificate | Crl | OcspAnswer | OcspResponder

  datatype Signature = Signature(ca: nat, purpose: Purpose)

  /** An import between its two commits: who imports, and whether the CA is to wait. */
  datatype Staged = Staged(actor: nat, gated: bool)

  datatype State = State(users: map<nat, User>, cas: map<nat, Ca>, imports: map<nat, Staged>,
                         alternates: map<nat, Alternate>, csrs: map<nat, Csr>, certs: map<nat, Certificate>,
                         signatures: seq<Signature>)

  datatype Refusal = NotFound | NotPending | FourEyes | CannotSign

  /** `is_active`. */
  predicate Active(cfg: Config, users: map<nat, User>) {
    cfg.enabled && (cfg.ldap || exists u :: u in users && u != cfg.bootstrap && users[u].active)
  }

  predicate Exempt(cfg: Config, user: nat) {
    user == cfg.bootstrap
  }

  predicate Recent(who: Option<nat>, at: Option<int>, creator: nat, cutoff: int) {
    who == Some(creator) && at.Some? && at.value >= cutoff
  }

  /** `can_approve`. */
  predicate CanApprove(cfg: Config, users: map<nat, User>, approver: nat, creator: Option<nat>, now: int)
    requires approver in users
  {
    var u := users[approver];
    var cutoff := now - cfg.cooldownHours * HOUR;
    || Exempt(cfg, approver)
    || creator.None?
    || (&& approver != creator.value
        && (|| cfg.cooldownHours <= 0
            || (!Recent(u.createdBy, u.createdAt, creator.value, cutoff)
                && !Recent(u.resetBy, u.resetAt, creator.value, cutoff))))
  }

  // ---------------------------------------------------------------------------
  // Requests
  // ---------------------------------------------------------------------------

  datatype Request =
    | GenerateCa(actor: nat, id: nat, parent: Option<nat>, now: int)
    | StageImport(actor: nat, id: nat, keyed: bool)
    | StampImport(ca: nat, now: int)
    | AbandonImport(ca: nat)
    | ApproveCa(actor: nat, ca: nat, now: int)
    | MakeAlternate(actor: nat, id: nat, ca: nat, issuer: nat)
    | ApproveAlternate(actor: nat, alternate: nat, now: int)
    | SubmitCsr(actor: nat, id: nat)
    | SignCsr(actor: nat, csr: nat, ca: nat, id: nat)
    | CreateCertificate(actor: nat, ca: nat, id: nat)
    | Renew(actor: nat, cert: nat, id: nat)
    | AcmeIssue(ca: nat, id: nat)
    | UseKey(ca: nat, purpose: Purpose)
    | RevokeCas(targets: set<nat>)
    | AddUser(actor: nat, id: nat, now: int)
    | ResetPassword(actor: nat, user: nat, now: int)
    | SetActive(user: nat, active: bool)

  /** The account that acts; ACME clients and the scheduler have none. */
  function Actor(r: Request): Option<nat> {
    match r
    case GenerateCa(a, _, _, _) => Some(a)
    case StageImport(a, _, _) => Some(a)
    case ApproveCa(a, _, _) => Some(a)
    case MakeAlternate(a, _, _, _) => Some(a)
    case ApproveAlternate(a, _, _) => Some(a)
    case SubmitCsr(a, _) => Some(a)
    case SignCsr(a, _, _, _) => Some(a)
    case CreateCertificate(a, _, _) => Some(a)
    case Renew(a, _, _) => Some(a)
    case AddUser(a, _, _) => Some(a)
    case ResetPassword(a, _, _) => Some(a)
    case _ => None
  }

  /** Fresh ids, and an actor that is logged in. */
  predicate Possible(s: State, r: Request) {
    && (Actor(r).Some? ==> Actor(r).value in s.users)
    && match r
       case GenerateCa(_, id, _, _) => id !in s.cas
       case StageImport(_, id, _) => id !in s.cas && id !in s.imports
       case MakeAlternate(_, id, ca, _) => id !in s.alternates && ca in s.cas
       case SubmitCsr(_, id) => id !in s.csrs
       case SignCsr(_, _, _, id) => id !in s.certs
       case CreateCertificate(_, _, id) => id !in s.certs
       case Renew(_, _, id) => id !in s.certs
       case AcmeIssue(_, id) => id !in s.certs
       case UseKey(_, purpose) => purpose.Crl? || purpose.OcspAnswer? || purpose.OcspResponder?
       case AddUser(_, id, _) => id !in s.users
       case _ => true
  }

  /** The guard every use of a CA key passes through. */
  predicate KeyUsable(s: State, ca: nat) {
    ca in s.cas && s.cas[ca].keyed && !s.cas[ca].pending
  }

  /** `signing_capable`, and the guards of issuance. */
  predicate SigningCapable(s: State, ca: nat) {
    KeyUsable(s, ca) && !s.cas[ca].revoked
  }

  function IssuerProblem(s: State, ca: nat): Option<Refusal> {
    if ca !in s.cas then Some(NotFound) else if !SigningCapable(s, ca) then Some(CannotSign) else None
  }

  /** The requests that use the key of a CA. */
  predicate UsesKey(r: Request) {
    r.GenerateCa? || r.MakeAlternate? || r.SignCsr? || r.CreateCertificate? || r.Renew? || r.AcmeIssue? || r.UseKey?
  }

  /** Why a request is refused. */
  function Problem(cfg: Config, s: State, r: Request): Option<Refusal>
    requires Possible(s, r)
  {
    if UsesKey(r) then KeyProblem(cfg, s, r) else RowProblem(cfg, s, r)
  }

  function KeyProblem(cfg: Config, s: State, r: Request): Option<Refusal>
    requires Possible(s, r) && UsesKey(r)
  {
    var active := Active(cfg, s.users);
    match r
    case GenerateCa(_, _, parent, _) => if parent.Some? && !SigningCapable(s, parent.value) then Some(CannotSign) else None
    case MakeAlternate(_, _, ca, issuer) =>
      if s.cas[ca].revoked || !SigningCapable(s, issuer) then Some(CannotSign) else None
    case SignCsr(actor, csr, ca, _) =>
      if csr !in s.csrs then Some(NotFound)
      else if !s.csrs[csr].pending then Some(NotPending)
      else if active && s.csrs[csr].createdBy == Some(actor) && !Exempt(cfg, actor) then Some(FourEyes)
      else IssuerProblem(s, ca)
    case CreateCertificate(actor, ca, _) =>
      if active && !Exempt(cfg, actor) then Some(FourEyes) else IssuerProblem(s, ca)
    case Renew(actor, cert, _) =>
      if cert !in s.certs then Some(NotFound)
      else if active && !Exempt(cfg, actor) && (s.certs[cert].escrowed || s.certs[cert].requestedBy == Some(actor))
      then Some(FourEyes)
      else IssuerProblem(s, s.certs[cert].ca)
    case AcmeIssue(ca, _) => IssuerProblem(s, ca)
    case UseKey(ca, _) => if KeyUsable(s, ca) then None else Some(CannotSign)
  }

  function RowProblem(cfg: Config, s: State, r: Request): Option<Refusal>
    requires Possible(s, r) && !UsesKey(r)
  {
    var active := Active(cfg, s.users);
    match r
    case StampImport(ca, _) => if ca in s.imports && ca in s.cas then None else Some(NotFound)
    case AbandonImport(ca) => if ca in s.imports then None else Some(NotFound)
    case ApproveCa(actor, ca, now) =>
      if ca !in s.cas then Some(NotFound)
      else if !s.cas[ca].pending then Some(NotPending)
      else if active && !CanApprove(cfg, s.users, actor, s.cas[ca].createdBy, now) then Some(FourEyes)
      else None
    case ApproveAlternate(actor, a, now) =>
      if a !in s.alternates then Some(NotFound)
      else if !s.alternates[a].pending then Some(NotPending)
      else if active && !CanApprove(cfg, s.users, actor, Some(s.alternates[a].createdBy), now) then Some(FourEyes)
      else None
    case ResetPassword(_, user, _) => if user in s.users then None else Some(NotFound)
    case SetActive(user, _) => if user in s.users then None else Some(NotFound)
    case _ => None
  }

  function Sign(s: State, ca: nat, purpose: Purpose): State {
    s.(signatures := s.signatures + [Signature(ca, purpose)])
  }

  function Issue(s: State, id: nat, cert: Certificate): State {
    Sign(s, cert.ca, LeafCertificate).(certs := s.certs[id := cert])
  }

  /** `_apply_import_approval`, and the same rule for a generated CA: it is pending when it
      can sign and the mode was active. */
  function Stamped(ca: Ca, actor: nat, gated: bool, now: int): Ca {
    if gated && ca.keyed then ca.(createdBy := Some(actor), pending := true, approvedBy := None, approvedAt := None)
    else ca.(createdBy := Some(actor), pending := false, approvedBy := Some(actor), approvedAt := Some(now))
  }

  function NewCa(actor: nat, gated: bool, now: int): Ca {
    Stamped(Ca(None, true, false, false, None, None), actor, gated, now)
  }

  /** What a request that is not refused does. */
  function Effect(cfg: Config, s: State, r: Request): State
    requires Possible(s, r) && Problem(cfg, s, r).None?
  {
    if UsesKey(r) then KeyEffect(cfg, s, r) else RowEffect(cfg, s, r)
  }

  function KeyEffect(cfg: Config, s: State, r: Request): State
    requires Possible(s, r) && UsesKey(r) && KeyProblem(cfg, s, r).None?
  {
    var active := Active(cfg, s.users);
    match r
    case GenerateCa(actor, id, parent, now) =>
      var t := s.(cas := s.cas[id := NewCa(actor, active, now)]);
      if parent.Some? then Sign(t, parent.value, SubCa) else Sign(t, id, OwnCertificate)
    case MakeAlternate(actor, id, ca, issuer) =>
      var gated := active && !Exempt(cfg, actor);
      Sign(s, issuer, AlternateCertificate).(
        alternates := s.alternates[id := Alternate(ca, actor, gated, if gated then None else Some(actor))])
    case SignCsr(actor, csr, ca, id) =>
      Issue(s, id, Certificate(ca, s.csrs[csr].createdBy, Some(actor), false)).(
        csrs := s.csrs[csr := s.csrs[csr].(pending := false)])
    case CreateCertificate(actor, ca, id) => Issue(s, id, Certificate(ca, None, Some(actor), true))
    case Renew(actor, cert, id) =>
      var was := s.certs[cert];
      Issue(s, id, Certificate(was.ca, was.requestedBy, Some(actor), was.escrowed))
    case AcmeIssue(ca, id) => Issue(s, id, Certificate(ca, None, None, false))
    case UseKey(ca, purpose) => Sign(s, ca, purpose)
  }

  function RowEffect(cfg: Config, s: State, r: Request): State
    requires Possible(s, r) && !UsesKey(r) && RowProblem(cfg, s, r).None?
  {
    var active := Active(cfg, s.users);
    match r
    case StageImport(actor, id, keyed) =>
      s.(cas := s.cas[id := Ca(None, keyed, false, false, None, None)],
         imports := s.imports[id := Staged(actor, active)])
    case StampImport(ca, now) =>
      s.(cas := s.cas[ca := Stamped(s.cas[ca], s.imports[ca].actor, s.imports[ca].gated, now)],
         imports := s.imports - {ca})
    case AbandonImport(ca) => s.(imports := s.imports - {ca})
    case ApproveCa(actor, ca, now) =>
      s.(cas := s.cas[ca := s.cas[ca].(pending := false, approvedBy := Some(actor), approvedAt := Some(now))])
    case ApproveAlternate(actor, a, _) =>
      s.(alternates := s.alternates[a := s.alternates[a].(pending := false, approvedBy := Some(actor))])
    case SubmitCsr(actor, id) => s.(csrs := s.csrs[id := Csr(Some(actor), true)])
    case RevokeCas(targets) =>
      s.(cas := map c | c in s.cas :: if c in targets then s.cas[c].(revoked := true) else s.cas[c])
    case AddUser(actor, id, now) =>
      var gated := active && !Exempt(cfg, actor);
      s.(users := s.users[id := User(!gated, Some(actor), Some(now), None, None)])
    case ResetPassword(actor, user, now) =>
      s.(users := s.users[user := s.users[user].(resetBy := Some(actor), resetAt := Some(now))])
    case SetActive(user, active) => s.(users := s.users[user := s.users[user].(active := active)])
  }

  function Apply(cfg: Config, s: State, r: Request): State
    requires Possible(s, r)
  {
    if Problem(cfg, s, r).None? then Effect(cfg, s, r) else s
  }

  /** A handler answers `problem` and leaves `t`. */
  predicate Handled(cfg: Config, s: State, t: State, r: Request, problem: Option<Refusal>)
    requires Possible(s, r)
  {
    problem == Problem(cfg, s, r) && t == Apply(cfg, s, r)
  }

  // ---------------------------------------------------------------------------
  // Runs under dual control
  // ---------------------------------------------------------------------------

  /** Dual control is switched on and somebody besides the bootstrap account can log in:
      an active local account, or anyone in the directory. */
  predicate Watched(cfg: Config, users: map<nat, User>) {
    cfg.enabled && (cfg.ldap || exists u :: u in users && u != cfg.bootstrap && users[u].active)
  }

  /** It is so, and the bootstrap account is not the one acting. */
  predicate Guarded(cfg: Config, s: State, r: Request) {
    Watched(cfg, s.users) && Actor(r) != Some(cfg.bootstrap)
  }

  ghost predicate GuardedRun(cfg: Config, s: State, rs: seq<Request>)
    decreases |rs|, 0
  {
    rs != [] ==>
      var init := rs[..|rs| - 1];
      GuardedRun(cfg, s, init)
      && Possible(Play(cfg, s, init), rs[|rs| - 1]) && Guarded(cfg, Play(cfg, s, init), rs[|rs| - 1])
  }

  ghost function Play(cfg: Config, s: State, rs: seq<Request>): State
    requires GuardedRun(cfg, s, rs)
    decreases |rs|, 1
  {
    if rs == [] then s else Apply(cfg, Play(cfg, s, rs[..|rs| - 1]), rs[|rs| - 1])
  }

  /** Somebody else approved it. */
  predicate Independent(ca: Ca) {
    ca.approvedBy.Some? && ca.createdBy.Some? && ca.approvedBy != ca.createdBy
  }

  /** The creator neither opened nor reset the account within the cooldown before. */
  predicate Cleared(cfg: Config, u: User, creator: nat, now: int) {
    cfg.cooldownHours > 0 ==>
      var cutoff := now - cfg.cooldownHours * HOUR;
      !Recent(u.createdBy, u.createdAt, creator, cutoff) && !Recent(u.resetBy, u.resetAt, creator, cutoff)
  }

  /** The request approves CA `c`, by an account other than its creator's, and one that
      the creator did not prepare for it. */
  predicate ApprovesIndependently(cfg: Config, s: State, r: Request, c: nat) {
    && r.ApproveCa? && r.ca == c && c in s.cas && s.cas[c].pending && s.cas[c].createdBy.Some?
    && r.actor in s.users && r.actor != s.cas[c].createdBy.value
    && Cleared(cfg, s.users[r.actor], s.cas[c].createdBy.value, r.now)
  }

  /** A new CA is not stamped yet, cannot sign, waits, or was approved by somebody else. */
  predicate NewCaInv(ca: Ca) {
    ca.createdBy.Some? && ca.keyed && !ca.pending ==> Independent(ca)
  }

  /** An import under way is of a CA that is not stamped yet. */
  predicate OpenImport(s: State, c: nat)
    requires c in s.imports
  {
    c in s.cas && s.cas[c].createdBy.None? && !s.cas[c].pending
  }

  predicate OpenImports(s: State) {
    forall c :: c in s.imports ==> OpenImport(s, c)
  }

  /** A new certificate was issued by somebody other than its requester, and not for a
      key the server made. */
  predicate NewCertificateInv(c: Certificate) {
    !c.escrowed && (c.issuedBy.Some? ==> c.issuedBy != c.requestedBy)
  }

  predicate NewAlternateInv(a: Alternate) {
    a.pending || (a.approvedBy.Some? && a.approvedBy != Some(a.createdBy))
  }

  ghost predicate Extends(s0: State, s: State) {
    && s0.cas.Keys <= s.cas.Keys && s0.certs.Keys <= s.certs.Keys
    && s0.alternates.Keys <= s.alternates.Keys && s0.signatures <= s.signatures
  }

  ghost predicate Inv(s0: State, s: State) {
    && Extends(s0, s)
    && (forall c :: c in s.cas && c !in s0.cas ==> NewCaInv(s.cas[c]))
    && (forall c :: c in s.certs && c !in s0.certs ==> NewCertificateInv(s.certs[c]))
    && (forall a :: a in s.alternates && a !in s0.alternates ==> NewAlternateInv(s.alternates[a]))
    && OpenImports(s)
    && (forall c :: c in s.imports && c !in s0.cas ==> s.imports[c].gated)
  }

  /** What a request that uses no key leaves alone. */
  lemma {:induction false} RowStep(cfg: Config, s: State, r: Request)
    requires Possible(s, r) && !UsesKey(r)
    ensures var t := Apply(cfg, s, r);
      t.signatures == s.signatures && t.certs == s.certs && s.cas.Keys <= t.cas.Keys && s.alternates.Keys <= t.alternates.Keys
  {
  }

  /** Only a generated CA is new where a key is used; the others stay as they are. */
  lemma {:induction false} KeyStep(cfg: Config, s: State, r: Request)
    requires Possible(s, r) && UsesKey(r)
    ensures var t := Apply(cfg, s, r);
      && t.imports == s.imports && t.users == s.users
      && (if r.GenerateCa? && Problem(cfg, s, r).None?
          then t.cas == s.cas[r.id := NewCa(r.actor, Active(cfg, s.users), r.now)] else t.cas == s.cas)
  {
    if Certifies(r) {
      CertifyStep(cfg, s, r);
    }
  }

  lemma {:induction false} CertifyStep(cfg: Config, s: State, r: Request)
    requires Possible(s, r) && Certifies(r)
    ensures var t := Apply(cfg, s, r); t.imports == s.imports && t.users == s.users && t.cas == s.cas
  {
  }

  lemma {:induction false} CertifySigns(cfg: Config, s: State, r: Request)
    requires Possible(s, r) && Certifies(r) && KeyProblem(cfg, s, r).None?
    ensures var t := KeyEffect(cfg, s, r);
      && |t.signatures| == |s.signatures| + 1 && s.signatures <= t.signatures && t.cas == s.cas
      && KeyUsable(s, t.signatures[|s.signatures|].ca)
  {
  }

  predicate Certifies(r: Request) {
    r.SignCsr? || r.CreateCertificate? || r.Renew? || r.AcmeIssue?
  }

  lemma {:induction false} CertsStep(cfg: Config, s: State, r: Request)
    requires Possible(s, r)
    ensures var t := Apply(cfg, s, r);
      if Certifies(r) then s.certs.Keys <= t.certs.Keys else t.certs == s.certs
  {
    if !UsesKey(r) {
      RowStep(cfg, s, r);
    }
  }

  lemma {:induction false} AlternatesStep(cfg: Config, s: State, r: Request)
    requires Possible(s, r) && !r.MakeAlternate? && !r.ApproveAlternate?
    ensures Apply(cfg, s, r).alternates == s.alternates
  {
  }

  lemma {:induction false} MadeAlternate(cfg: Config, s: State, r: Request)
    requires Possible(s, r) && (r.MakeAlternate? || r.ApproveAlternate?)
    ensures s.alternates.Keys <= Apply(cfg, s, r).alternates.Keys
  {
  }

  /** A stamped CA keeps its creator; approved, it stays approved, with its approver. */
  lemma {:induction false} CasLater(cfg: Config, s: State, r: Request, c: nat)
    requires Possible(s, r) && OpenImports(s) && c in s.cas
    ensures var t := Apply(cfg, s, r);
      c in t.cas && t.cas[c].keyed == s.cas[c].keyed
      && (s.cas[c].createdBy.Some? ==> t.cas[c].createdBy == s.cas[c].createdBy)
      && (s.cas[c].createdBy.Some? && !s.cas[c].pending ==>
            !t.cas[c].pending && t.cas[c].approvedBy == s.cas[c].approvedBy && t.cas[c].approvedAt == s.cas[c].approvedAt)
  {
    if UsesKey(r) {
      KeyStep(cfg, s, r);
    } else if r.StampImport? && r.ca in s.imports {
      assert OpenImport(s, r.ca);
    }
  }

  /** A CA gets its creator with the stamp of its import, and then waits if it can sign. */
  lemma {:induction false} StampedWaits(cfg: Config, s: State, r: Request, c: nat)
    requires Possible(s, r) && c in s.cas && s.cas[c].createdBy.None? && Apply(cfg, s, r).cas[c].createdBy.Some?
    requires c in s.imports ==> s.imports[c].gated
    ensures Apply(cfg, s, r).cas[c].keyed ==> Apply(cfg, s, r).cas[c].pending
  {
    if UsesKey(r) {
      KeyStep(cfg, s, r);
    }
  }

  lemma {:induction false} ImportsStep(cfg: Config, s: State, r: Request, c: nat)
    requires Possible(s, r) && OpenImports(s) && c in Apply(cfg, s, r).imports
    ensures OpenImport(Apply(cfg, s, r), c)
    ensures if c in s.imports then Apply(cfg, s, r).imports[c] == s.imports[c]
            else Apply(cfg, s, r).imports[c].gated == Active(cfg, s.users)
  {
    if UsesKey(r) {
      KeyStep(cfg, s, r);
    }
    if c in s.imports {
      assert OpenImport(s, c);
    }
  }

  /** An approval that passes four eyes is independent, of both halves of the cooldown. */
  lemma {:induction false} ApprovalIsIndependent(cfg: Config, s: State, actor: nat, ca: nat, now: int)
    requires actor in s.users && actor != cfg.bootstrap && Watched(cfg, s.users)
    requires Problem(cfg, s, ApproveCa(actor, ca, now)).None? && s.cas[ca].createdBy.Some?
    ensures ApprovesIndependently(cfg, s, ApproveCa(actor, ca, now), ca)
    ensures var t := Apply(cfg, s, ApproveCa(actor, ca, now)); !t.cas[ca].pending && Independent(t.cas[ca])
  {
  }

  /** Nothing but an approval ends the wait of a CA. */
  lemma {:induction false} OnlyApprovalReleases(cfg: Config, s: State, r: Request, c: nat)
    requires Possible(s, r) && Guarded(cfg, s, r) && OpenImports(s)
    requires c in s.cas && s.cas[c].pending && s.cas[c].createdBy.Some?
    requires !Apply(cfg, s, r).cas[c].pending
    ensures ApprovesIndependently(cfg, s, r, c)
  {
    if UsesKey(r) {
      KeyStep(cfg, s, r);
    }
    assert c in s.imports ==> OpenImport(s, c);
    assert r.ApproveCa? && r.ca == c;
    ApprovalIsIndependent(cfg, s, r.actor, c, r.now);
  }

  lemma {:induction false} BornPendingOrKeyless(cfg: Config, s: State, r: Request, c: nat)
    requires Possible(s, r) && Watched(cfg, s.users)
    requires c in Apply(cfg, s, r).cas && c !in s.cas
    ensures var ca := Apply(cfg, s, r).cas[c]; ca.createdBy.Some? && ca.keyed ==> ca.pending
  {
    if UsesKey(r) {
      KeyStep(cfg, s, r);
    }
  }

  lemma {:induction false} NewCasStep(cfg: Config, s0: State, s: State, r: Request, c: nat)
    requires Possible(s, r) && Guarded(cfg, s, r) && Inv(s0, s)
    requires c in Apply(cfg, s, r).cas && c !in s0.cas
    ensures NewCaInv(Apply(cfg, s, r).cas[c])
  {
    var t := Apply(cfg, s, r);
    if c in s.cas {
      CasLater(cfg, s, r, c);
      assert NewCaInv(s.cas[c]);
      if s.cas[c].createdBy.None? && t.cas[c].createdBy.Some? {
        StampedWaits(cfg, s, r, c);
      } else if s.cas[c].createdBy.Some? && s.cas[c].pending && !t.cas[c].pending {
        OnlyApprovalReleases(cfg, s, r, c);
        ApprovalIsIndependent(cfg, s, r.actor, c, r.now);
      }
    } else {
      BornPendingOrKeyless(cfg, s, r, c);
    }
  }

  lemma {:induction false} NewCertificatesStep(cfg: Config, s0: State, s: State, r: Request, c: nat)
    requires Possible(s, r) && Guarded(cfg, s, r) && Inv(s0, s)
    requires c in Apply(cfg, s, r).certs && c !in s0.certs
    ensures NewCertificateInv(Apply(cfg, s, r).certs[c])
  {
    if !Certifies(r) {
      CertsStep(cfg, s, r);
    }
  }

  lemma {:induction false} NewAlternatesStep(cfg: Config, s0: State, s: State, r: Request, a: nat)
    requires Possible(s, r) && Guarded(cfg, s, r) && Inv(s0, s)
    requires a in Apply(cfg, s, r).alternates && a !in s0.alternates
    ensures NewAlternateInv(Apply(cfg, s, r).alternates[a])
  {
    if !r.MakeAlternate? && !r.ApproveAlternate? {
      AlternatesStep(cfg, s, r);
    }
  }

  lemma {:induction false} KeySigns(cfg: Config, s: State, r: Request)
    requires Possible(s, r) && UsesKey(r) && KeyProblem(cfg, s, r).None?
    ensures var t := KeyEffect(cfg, s, r);
      && |t.signatures| == |s.signatures| + 1 && s.signatures <= t.signatures
      && var g := t.signatures[|s.signatures|]; g.ca in t.cas && (g.purpose.OwnCertificate? || KeyUsable(s, g.ca))
  {
    if Certifies(r) {
      CertifySigns(cfg, s, r);
    }
  }

  /** A step adds at most one signature, by a usable key or of a new root on itself. */
  lemma {:induction false} SignaturesStep(cfg: Config, s: State, r: Request)
    requires Possible(s, r)
    ensures var t := Apply(cfg, s, r);
      || t.signatures == s.signatures
      || (|t.signatures| == |s.signatures| + 1 && s.signatures <= t.signatures
          && var g := t.signatures[|s.signatures|];
             g.ca in t.cas && (g.purpose.OwnCertificate? || KeyUsable(s, g.ca)))
  {
    if UsesKey(r) && KeyProblem(cfg, s, r).None? {
      KeySigns(cfg, s, r);
    } else if !UsesKey(r) {
      RowStep(cfg, s, r);
    }
  }

  lemma {:induction false} StepExtends(cfg: Config, s: State, r: Request)
    requires Possible(s, r)
    ensures Extends(s, Apply(cfg, s, r))
  {
    SignaturesStep(cfg, s, r);
    CertsStep(cfg, s, r);
    if r.MakeAlternate? || r.ApproveAlternate? {
      MadeAlternate(cfg, s, r);
    } else {
      AlternatesStep(cfg, s, r);
    }
    if UsesKey(r) {
      KeyStep(cfg, s, r);
    } else {
      RowStep(cfg, s, r);
    }
  }

  lemma {:induction false} StepKeepsInv(cfg: Config, s0: State, s: State, r: Request)
    requires Possible(s, r) && Guarded(cfg, s, r) && Inv(s0, s)
    ensures Inv(s0, Apply(cfg, s, r))
  {
    var t := Apply(cfg, s, r);
    StepExtends(cfg, s, r);
    forall c | c in t.cas && c !in s0.cas
      ensures NewCaInv(t.cas[c])
    {
      NewCasStep(cfg, s0, s, r, c);
    }
    forall c | c in t.certs && c !in s0.certs
      ensures NewCertificateInv(t.certs[c])
    {
      NewCertificatesStep(cfg, s0, s, r, c);
    }
    forall a | a in t.alternates && a !in s0.alternates
      ensures NewAlternateInv(t.alternates[a])
    {
      NewAlternatesStep(cfg, s0, s, r, a);
    }
    forall c | c in t.imports
      ensures OpenImport(t, c) && (c !in s0.cas ==> t.imports[c].gated)
    {
      ImportsStep(cfg, s, r, c);
    }
  }

  lemma {:induction false} RunKeepsInv(cfg: Config, s0: State, rs: seq<Request>)
    requires GuardedRun(cfg, s0, rs) && OpenImports(s0)
    ensures Inv(s0, Play(cfg, s0, rs))
  {
    if rs != [] {
      RunKeepsInv(cfg, s0, rs[..|rs| - 1]);
      StepKeepsInv(cfg, s0, Play(cfg, s0, rs[..|rs| - 1]), rs[|rs| - 1]);
    }
  }

  /** While dual control stays active and the bootstrap account does not act, nobody
      signs or renews a certificate of their own request, and none is issued directly. */
  lemma {:induction false} EveryRunSeparatesIssuers(cfg: Config, s0: State, rs: seq<Request>, cert: nat)
    requires GuardedRun(cfg, s0, rs) && OpenImports(s0)
    requires cert in Play(cfg, s0, rs).certs && cert !in s0.certs
    ensures var c := Play(cfg, s0, rs).certs[cert];
      !c.escrowed && (c.issuedBy.Some? ==> c.issuedBy != c.requestedBy)
  {
    RunKeepsInv(cfg, s0, rs);
    assert NewCertificateInv(Play(cfg, s0, rs).certs[cert]);
  }

  /** Request `k` of the run approves CA `c` independently, before there are more than
      `n` signatures. */
  ghost predicate ApprovedAt(cfg: Config, s0: State, rs: seq<Request>, k: int, c: nat, n: nat) {
    && 0 <= k < |rs| && GuardedRun(cfg, s0, rs[..k])
    && ApprovesIndependently(cfg, Play(cfg, s0, rs[..k]), rs[k], c)
    && |Play(cfg, s0, rs[..k]).signatures| <= n
  }

  lemma {:induction false} ApprovedLater(cfg: Config, s0: State, rs: seq<Request>, k: int, c: nat, n: nat, m: nat)
    requires rs != [] && ApprovedAt(cfg, s0, rs[..|rs| - 1], k, c, n) && n <= m
    ensures ApprovedAt(cfg, s0, rs, k, c, m)
  {
    assert rs[..|rs| - 1][..k] == rs[..k];
  }

  /** A CA created or imported in the run, and stamped, that can sign has been approved
      independently in it. */
  lemma {:induction false} ApprovalOnRecord(cfg: Config, s0: State, rs: seq<Request>, c: nat)
    requires GuardedRun(cfg, s0, rs) && OpenImports(s0) && c !in s0.cas
    requires KeyUsable(Play(cfg, s0, rs), c) && Play(cfg, s0, rs).cas[c].createdBy.Some?
    ensures exists k :: ApprovedAt(cfg, s0, rs, k, c, |Play(cfg, s0, rs).signatures|)
  {
    assert rs != [];
    var init, r := rs[..|rs| - 1], rs[|rs| - 1];
    var s := Play(cfg, s0, init);
    RunKeepsInv(cfg, s0, init);
    StepExtends(cfg, s, r);
    if c !in s.cas {
      BornPendingOrKeyless(cfg, s, r, c);
    } else if s.cas[c].createdBy.None? {
      StampedWaits(cfg, s, r, c);
    } else {
      CasLater(cfg, s, r, c);
      if s.cas[c].pending {
        OnlyApprovalReleases(cfg, s, r, c);
        assert ApprovedAt(cfg, s0, rs, |init|, c, |Play(cfg, s0, rs).signatures|);
      } else {
        ApprovalOnRecord(cfg, s0, init, c);
        var k :| ApprovedAt(cfg, s0, init, k, c, |s.signatures|);
        ApprovedLater(cfg, s0, rs, k, c, |s.signatures|, |Play(cfg, s0, rs).signatures|);
      }
    }
  }

  /** Signature `i` is not by a CA of the run, or a root's own, or an administrator other
      than the CA's creator approved it before, whose account the creator had neither
      opened nor reset within the cooldown. */
  ghost predicate SignedWithApproval(cfg: Config, s0: State, rs: seq<Request>, i: nat)
    requires GuardedRun(cfg, s0, rs) && i < |Play(cfg, s0, rs).signatures|
  {
    var g := Play(cfg, s0, rs).signatures[i];
    g.ca in s0.cas || g.purpose.OwnCertificate? || exists k :: ApprovedAt(cfg, s0, rs, k, g.ca, i)
  }

  /** The step signs with an imported CA that is not stamped: its second commit is still to
      come, or never came. */
  ghost predicate SignsUnstamped(cfg: Config, s0: State, s: State, r: Request)
    requires Possible(s, r)
  {
    var t := Apply(cfg, s, r);
    |t.signatures| > |s.signatures| &&
    var g := t.signatures[|s.signatures|];
    g.ca !in s0.cas && !g.purpose.OwnCertificate? && g.ca in s.cas && s.cas[g.ca].createdBy.None?
  }

  ghost predicate NeverSignsUnstamped(cfg: Config, s0: State, rs: seq<Request>)
    requires GuardedRun(cfg, s0, rs)
  {
    rs != [] ==>
      var init := rs[..|rs| - 1];
      NeverSignsUnstamped(cfg, s0, init) && !SignsUnstamped(cfg, s0, Play(cfg, s0, init), rs[|rs| - 1])
  }

  lemma {:induction false} ApprovedInPrefix(cfg: Config, s0: State, rs: seq<Request>, k: int, c: nat, n: nat)
    requires rs != [] && k < |rs| - 1 && ApprovedAt(cfg, s0, rs, k, c, n)
    ensures ApprovedAt(cfg, s0, rs[..|rs| - 1], k, c, n)
  {
    assert rs[..|rs| - 1][..k] == rs[..k];
  }

  /** An approval in the last request of a run comes too late for the signatures before. */
  lemma {:induction false} ApprovedBefore(cfg: Config, s0: State, rs: seq<Request>, k: int, c: nat, i: nat)
    requires GuardedRun(cfg, s0, rs) && rs != [] && i < |Play(cfg, s0, rs[..|rs| - 1]).signatures|
    requires ApprovedAt(cfg, s0, rs, k, c, i)
    ensures ApprovedAt(cfg, s0, rs[..|rs| - 1], k, c, i)
  {
    ApprovedInPrefix(cfg, s0, rs, k, c, i);
  }

  /** Later steps change nothing about an earlier signature. */
  lemma {:induction false} EarlierSignature(cfg: Config, s0: State, rs: seq<Request>, i: nat)
    requires GuardedRun(cfg, s0, rs) && rs != [] && i < |Play(cfg, s0, rs[..|rs| - 1]).signatures|
    ensures i < |Play(cfg, s0, rs).signatures|
    ensures SignedWithApproval(cfg, s0, rs, i) <==> SignedWithApproval(cfg, s0, rs[..|rs| - 1], i)
  {
    var init := rs[..|rs| - 1];
    SignaturesStep(cfg, Play(cfg, s0, init), rs[|rs| - 1]);
    var g := Play(cfg, s0, init).signatures[i];
    assert Play(cfg, s0, rs).signatures[i] == g;
    if k :| ApprovedAt(cfg, s0, rs, k, g.ca, i) {
      ApprovedBefore(cfg, s0, rs, k, g.ca, i);
    }
    if k :| ApprovedAt(cfg, s0, init, k, g.ca, i) {
      ApprovedLater(cfg, s0, rs, k, g.ca, i, i);
    }
  }

  /** Who has been approved has a creator, ever after. */
  lemma {:induction false} ApprovedIsStamped(cfg: Config, s0: State, rs: seq<Request>, k: nat, c: nat, n: nat)
    requires GuardedRun(cfg, s0, rs) && OpenImports(s0) && ApprovedAt(cfg, s0, rs, k, c, n)
    ensures c in Play(cfg, s0, rs).cas && Play(cfg, s0, rs).cas[c].createdBy.Some?
  {
    var init := rs[..|rs| - 1];
    RunKeepsInv(cfg, s0, init);
    if k < |init| {
      assert init[..k] == rs[..k];
      ApprovedIsStamped(cfg, s0, init, k, c, n);
    } else {
      assert rs[..k] == init;
    }
    CasLater(cfg, Play(cfg, s0, init), rs[|rs| - 1], c);
  }

  /** No approval comes before a CA is stamped. */
  lemma {:induction false} UnstampedIsUnapproved(cfg: Config, s0: State, rs: seq<Request>, c: nat, k: int)
    requires GuardedRun(cfg, s0, rs) && OpenImports(s0) && rs != []
    requires var s := Play(cfg, s0, rs[..|rs| - 1]); c in s.cas && s.cas[c].createdBy.None?
    ensures !ApprovedAt(cfg, s0, rs, k, c, |Play(cfg, s0, rs[..|rs| - 1]).signatures|)
  {
    var init := rs[..|rs| - 1];
    var n := |Play(cfg, s0, init).signatures|;
    if ApprovedAt(cfg, s0, rs, k, c, n) && k < |init| {
      ApprovedInPrefix(cfg, s0, rs, k, c, n);
      ApprovedIsStamped(cfg, s0, init, k, c, n);
    }
  }

  /** The new signature of a step is approved exactly when its CA was stamped. */
  lemma {:induction false} NewSignature(cfg: Config, s0: State, rs: seq<Request>)
    requires GuardedRun(cfg, s0, rs) && OpenImports(s0) && rs != []
    requires |Play(cfg, s0, rs).signatures| > |Play(cfg, s0, rs[..|rs| - 1]).signatures|
    ensures SignedWithApproval(cfg, s0, rs, |Play(cfg, s0, rs[..|rs| - 1]).signatures|) <==>
            !SignsUnstamped(cfg, s0, Play(cfg, s0, rs[..|rs| - 1]), rs[|rs| - 1])
  {
    var init, r := rs[..|rs| - 1], rs[|rs| - 1];
    var s := Play(cfg, s0, init);
    var i := |s.signatures|;
    SignaturesStep(cfg, s, r);
    var g := Play(cfg, s0, rs).signatures[i];
    if g.ca !in s0.cas && !g.purpose.OwnCertificate? {
      if s.cas[g.ca].createdBy.Some? {
        ApprovalOnRecord(cfg, s0, init, g.ca);
        var k :| ApprovedAt(cfg, s0, init, k, g.ca, i);
        ApprovedLater(cfg, s0, rs, k, g.ca, i, i);
      } else {
        forall k
          ensures !ApprovedAt(cfg, s0, rs, k, g.ca, i)
        {
          UnstampedIsUnapproved(cfg, s0, rs, g.ca, k);
        }
      }
    }
  }

  /** Whatever the CAs created or imported in the run sign beyond their own certificates,
      they sign after an independent approval, if and only if none of them is used before
      its import is stamped. */
  lemma {:induction false} SignersAreApprovedIffStamped(cfg: Config, s0: State, rs: seq<Request>)
    requires GuardedRun(cfg, s0, rs) && OpenImports(s0)
    ensures |s0.signatures| <= |Play(cfg, s0, rs).signatures|
    ensures (forall i :: |s0.signatures| <= i < |Play(cfg, s0, rs).signatures| ==> SignedWithApproval(cfg, s0, rs, i))
       <==> NeverSignsUnstamped(cfg, s0, rs)
  {
    if rs != [] {
      var init, r := rs[..|rs| - 1], rs[|rs| - 1];
      var s, n := Play(cfg, s0, init), |Play(cfg, s0, init).signatures|;
      SignersAreApprovedIffStamped(cfg, s0, init);
      SignaturesStep(cfg, s, r);
      forall i: nat | i < n
        ensures SignedWithApproval(cfg, s0, rs, i) <==> SignedWithApproval(cfg, s0, init, i)
      {
        EarlierSignature(cfg, s0, rs, i);
      }
      if |Play(cfg, s0, rs).signatures| > n {
        NewSignature(cfg, s0, rs);
      }
    }
  }

  /** So it is in every run whose imports are all stamped before the key is used. */
  lemma {:induction false} EveryRunApprovesSigners(cfg: Config, s0: State, rs: seq<Request>, i: nat)
    requires GuardedRun(cfg, s0, rs) && OpenImports(s0) && NeverSignsUnstamped(cfg, s0, rs)
    requires |s0.signatures| <= i < |Play(cfg, s0, rs).signatures|
    ensures var g := Play(cfg, s0, rs).signatures[i];
      g.ca !in s0.cas && !g.purpose.OwnCertificate? ==> exists k :: ApprovedAt(cfg, s0, rs, k, g.ca, i)
  {
    SignersAreApprovedIffStamped(cfg, s0, rs);
    assert SignedWithApproval(cfg, s0, rs, i);
  }

  /** A re-issued or cross-signed certificate made in the run waits for, or had, the
      approval of somebody other than its creator. */
  lemma {:induction false} EveryRunApprovesAlternates(cfg: Config, s0: State, rs: seq<Request>, a: nat)
    requires GuardedRun(cfg, s0, rs) && OpenImports(s0)
    requires a in Play(cfg, s0, rs).alternates && a !in s0.alternates
    ensures var x := Play(cfg, s0, rs).alternates[a];
      !x.pending ==> x.approvedBy.Some? && x.approvedBy != Some(x.createdBy)
  {
    RunKeepsInv(cfg, s0, rs);
    assert NewAlternateInv(Play(cfg, s0, rs).alternates[a]);
  }

  // ---------------------------------------------------------------------------
  // A key used between the two commits
  // ---------------------------------------------------------------------------

  lemma {:induction false} PlayOn(cfg: Config, s0: State, rs: seq<Request>, r: Request)
    requires GuardedRun(cfg, s0, rs) && Possible(Play(cfg, s0, rs), r) && Guarded(cfg, Play(cfg, s0, rs), r)
    ensures GuardedRun(cfg, s0, rs + [r]) && Play(cfg, s0, rs + [r]) == Apply(cfg, Play(cfg, s0, rs), r)
  {
    assert (rs + [r])[..|rs + [r]| - 1] == rs;
  }

  /** An administrator imports a CA, and the scheduler signs its CRL before the stamp. */
  function Early(actor: nat, id: nat): seq<Request> {
    [] + [StageImport(actor, id, true)] + [UseKey(id, Crl)]
  }

  /** What the first commit of an import leaves. */
  lemma {:induction false} AfterStaging(cfg: Config, s: State, actor: nat, id: nat)
    requires Possible(s, StageImport(actor, id, true))
    ensures var t := Apply(cfg, s, StageImport(actor, id, true));
      && t.users == s.users && t.signatures == s.signatures
      && id in t.cas && t.cas[id] == Ca(None, true, false, false, None, None)
  {
  }

  /** A key that is not stamped signs. */
  lemma {:induction false} AfterUse(cfg: Config, s0: State, s: State, id: nat)
    requires id !in s0.cas && id in s.cas && s.cas[id] == Ca(None, true, false, false, None, None)
    ensures Apply(cfg, s, UseKey(id, Crl)).signatures == s.signatures + [Signature(id, Crl)]
    ensures SignsUnstamped(cfg, s0, s, UseKey(id, Crl))
  {
  }

  lemma {:induction false} UsedNext(cfg: Config, s0: State, one: seq<Request>, id: nat)
    requires GuardedRun(cfg, s0, one) && OpenImports(s0) && id !in s0.cas
    requires var s := Play(cfg, s0, one);
      Watched(cfg, s.users) && id in s.cas && s.cas[id] == Ca(None, true, false, false, None, None)
    ensures var rs := one + [UseKey(id, Crl)]; var n := |Play(cfg, s0, one).signatures|;
      && GuardedRun(cfg, s0, rs) && Play(cfg, s0, rs).signatures == Play(cfg, s0, one).signatures + [Signature(id, Crl)]
      && !SignedWithApproval(cfg, s0, rs, n)
  {
    var rs := one + [UseKey(id, Crl)];
    PlayOn(cfg, s0, one, UseKey(id, Crl));
    AfterUse(cfg, s0, Play(cfg, s0, one), id);
    assert rs[..|rs| - 1] == one;
    NewSignature(cfg, s0, rs);
  }

  /** Wherever the mode is active that is possible, and needs no approval. */
  lemma {:induction false} ImportedKeySignsEarly(cfg: Config, s0: State, actor: nat, id: nat)
    requires Watched(cfg, s0.users) && OpenImports(s0)
    requires actor in s0.users && actor != cfg.bootstrap && id !in s0.cas && id !in s0.imports
    ensures GuardedRun(cfg, s0, Early(actor, id))
    ensures Play(cfg, s0, Early(actor, id)).signatures == s0.signatures + [Signature(id, Crl)]
    ensures !SignedWithApproval(cfg, s0, Early(actor, id), |s0.signatures|)
  {
    PlayOn(cfg, s0, [], StageImport(actor, id, true));
    AfterStaging(cfg, s0, actor, id);
    UsedNext(cfg, s0, [] + [StageImport(actor, id, true)], id);
  }
}
