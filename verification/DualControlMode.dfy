/**
 When dual control refuses and when it does not, in the stored columns: the mode, the
 accounts and who created what.
 */
module DualControlMode {
  import opened Prelude
  import opened DualControl

  // ---------------------------------------------------------------------------
  // Refusals
  // ---------------------------------------------------------------------------

  /** The account is the creator's own, or one the creator opened or reset within the
      cooldown before. */
  predicate CreatorsAccount(cfg: Config, users: map<nat, User>, actor: nat, creator: nat, now: int)
    requires actor in users
  {
    var u, since := users[actor], now - cfg.cooldownHours * 3600;
    || actor == creator
    || (cfg.cooldownHours > 0 && u.createdBy == Some(creator) && u.createdAt.Some? && u.createdAt.value >= since)
    || (cfg.cooldownHours > 0 && u.resetBy == Some(creator) && u.resetAt.Some? && u.resetAt.value >= since)
  }

  /** The request needs somebody else: to approve what this account, or its maker, set up,
      to sign or renew its own request, or to issue directly at all. */
  predicate NeedsAnother(cfg: Config, s: State, r: Request)
    requires Possible(s, r)
  {
    match r
    case ApproveCa(actor, ca, now) =>
      ca in s.cas && s.cas[ca].pending && s.cas[ca].createdBy.Some?
      && CreatorsAccount(cfg, s.users, actor, s.cas[ca].createdBy.value, now)
    case ApproveAlternate(actor, a, now) =>
      a in s.alternates && s.alternates[a].pending && CreatorsAccount(cfg, s.users, actor, s.alternates[a].createdBy, now)
    case SignCsr(actor, csr, _, _) => csr in s.csrs && s.csrs[csr].pending && s.csrs[csr].createdBy == Some(actor)
    case CreateCertificate(_, _, _) => true
    case Renew(actor, cert, _) =>
      cert in s.certs && (s.certs[cert].escrowed || s.certs[cert].requestedBy == Some(actor))
    case _ => false
  }

  /** Four eyes refuse exactly that, exactly while dual control is switched on, somebody
      besides the bootstrap account can log in, and it is not the bootstrap account that
      asks. */
  lemma FourEyesRefuseExactly(cfg: Config, s: State, r: Request)
    requires Possible(s, r)
    ensures Problem(cfg, s, r) == Some(FourEyes) <==>
      && cfg.enabled && (cfg.ldap || exists u :: u in s.users && u != cfg.bootstrap && s.users[u].active)
      && Actor(r) != Some(cfg.bootstrap) && NeedsAnother(cfg, s, r)
  {
  }

  /** So nobody approves the own CA, signs the own CSR or issues directly while another
      account is active. */
  lemma TwoAccountsSuffice(cfg: Config, s: State, r: Request, other: nat)
    requires Possible(s, r) && cfg.enabled && other in s.users && other != cfg.bootstrap && s.users[other].active
    requires Actor(r) != Some(cfg.bootstrap)
    requires match r
      case ApproveCa(actor, ca, _) => ca in s.cas && s.cas[ca].pending && s.cas[ca].createdBy == Some(actor)
      case SignCsr(actor, csr, _, _) => csr in s.csrs && s.csrs[csr].pending && s.csrs[csr].createdBy == Some(actor)
      case CreateCertificate(_, _, _) => true
      case _ => false
    ensures Problem(cfg, s, r) == Some(FourEyes) && Apply(cfg, s, r) == s
  {
    FourEyesRefuseExactly(cfg, s, r);
  }

  /** With the switch off, or nobody but the bootstrap account to log in, nothing is refused. */
  lemma AloneNothingIsRefused(cfg: Config, s: State, r: Request)
    requires Possible(s, r)
    requires !cfg.enabled || (!cfg.ldap && forall u :: u in s.users && s.users[u].active ==> u == cfg.bootstrap)
    ensures Problem(cfg, s, r) != Some(FourEyes)
  {
    FourEyesRefuseExactly(cfg, s, r);
  }

  // ---------------------------------------------------------------------------
  // What goes through
  // ---------------------------------------------------------------------------

  /** A CA with its key, approved and not revoked. */
  predicate CanSign(s: State, ca: nat) {
    ca in s.cas && s.cas[ca].keyed && !s.cas[ca].pending && !s.cas[ca].revoked
  }

  /** What a request needs besides. */
  predicate InOrder(s: State, r: Request)
    requires Possible(s, r)
  {
    match r
    case GenerateCa(_, _, parent, _) => parent.None? || CanSign(s, parent.value)
    case StampImport(ca, _) => ca in s.imports && ca in s.cas
    case AbandonImport(ca) => ca in s.imports
    case ApproveCa(_, ca, _) => ca in s.cas && s.cas[ca].pending
    case MakeAlternate(_, _, ca, issuer) => !s.cas[ca].revoked && CanSign(s, issuer)
    case ApproveAlternate(_, a, _) => a in s.alternates && s.alternates[a].pending
    case SignCsr(_, csr, ca, _) => csr in s.csrs && s.csrs[csr].pending && CanSign(s, ca)
    case CreateCertificate(_, ca, _) => CanSign(s, ca)
    case Renew(_, cert, _) => cert in s.certs && CanSign(s, s.certs[cert].ca)
    case AcmeIssue(ca, _) => CanSign(s, ca)
    case UseKey(ca, _) => ca in s.cas && s.cas[ca].keyed && !s.cas[ca].pending
    case ResetPassword(_, user, _) => user in s.users
    case SetActive(user, _) => user in s.users
    case _ => true
  }

  /** A request that four eyes do not refuse goes through exactly when it is in order. */
  lemma OthersGoThrough(cfg: Config, s: State, r: Request)
    requires Possible(s, r) && Problem(cfg, s, r) != Some(FourEyes)
    ensures Problem(cfg, s, r).None? <==> InOrder(s, r)
  {
  }

  // ---------------------------------------------------------------------------
  // What waits, and what is recorded
  // ---------------------------------------------------------------------------

  /** A generated CA waits exactly while the mode is on; otherwise its creator approved it. */
  lemma GeneratedCaWaits(cfg: Config, s: State, actor: nat, id: nat, parent: Option<nat>, now: int)
    requires Possible(s, GenerateCa(actor, id, parent, now)) && InOrder(s, GenerateCa(actor, id, parent, now))
    ensures var t := Apply(cfg, s, GenerateCa(actor, id, parent, now));
      && id in t.cas && t.cas[id].createdBy == Some(actor) && t.cas[id].keyed && !t.cas[id].revoked
      && (t.cas[id].pending <==> Watched(cfg, s.users))
      && (t.cas[id].pending ==> t.cas[id].approvedBy.None?) && (!t.cas[id].pending ==> t.cas[id].approvedBy == Some(actor))
  {
  }

  /** An imported one waits exactly if it can sign and the mode was on when it was staged. */
  lemma ImportedCaWaits(cfg: Config, s: State, actor: nat, id: nat, keyed: bool, later: State, now: int)
    requires Possible(s, StageImport(actor, id, keyed))
    requires var t := Apply(cfg, s, StageImport(actor, id, keyed));
      id in t.cas && id in later.cas && id in t.imports && id in later.imports
      && later.cas[id].keyed == t.cas[id].keyed && later.imports[id] == t.imports[id]
    ensures var u := Apply(cfg, later, StampImport(id, now));
      && id in u.cas && id !in u.imports && u.cas[id].createdBy == Some(actor)
      && (u.cas[id].pending <==> keyed && Watched(cfg, s.users))
  {
  }

  /** A re-issued or cross-signed certificate waits, and a new account stays inactive,
      exactly if the mode is on and the bootstrap account did not make it. */
  lemma OthersWait(cfg: Config, s: State, r: Request)
    requires Possible(s, r) && InOrder(s, r) && (r.MakeAlternate? || r.AddUser?)
    ensures var t, waits := Apply(cfg, s, r), Watched(cfg, s.users) && r.actor != cfg.bootstrap;
      if r.MakeAlternate? then
        r.id in t.alternates && t.alternates[r.id] == Alternate(r.ca, r.actor, waits, if waits then None else Some(r.actor))
      else r.id in t.users && t.users[r.id] == User(!waits, Some(r.actor), Some(r.now), None, None)
  {
  }

  /** A signed CSR yields a certificate for its requester, by its signer, and is done. */
  lemma SigningRecordsBoth(cfg: Config, s: State, actor: nat, csr: nat, ca: nat, id: nat)
    requires Possible(s, SignCsr(actor, csr, ca, id)) && Problem(cfg, s, SignCsr(actor, csr, ca, id)).None?
    ensures var t := Apply(cfg, s, SignCsr(actor, csr, ca, id));
      && t.certs == s.certs[id := Certificate(ca, s.csrs[csr].createdBy, Some(actor), false)]
      && csr in t.csrs && !t.csrs[csr].pending && t.csrs[csr].createdBy == s.csrs[csr].createdBy
      && t.signatures == s.signatures + [Signature(ca, LeafCertificate)]
  {
  }
}
