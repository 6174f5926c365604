/**
 ACME orders (RFC 8555) as app/services/acme/service.py keeps them: an order with
 its authorizations and their challenges, and what each request does to one order.

 An authorization belongs to one order and a challenge to one authorization, so
 the rows are nested and addressed by position.
 */
module AcmeOrders {
  import opened Prelude

  datatype ChallengeKind = Http01 | Dns01

  datatype ChallengeStatus = ChPending | ChProcessing | ChValid | ChInvalid

  datatype AuthzStatus = AzPending | AzValid | AzInvalid | AzExpired | AzDeactivated

  datatype OrderStatus = OrPending | OrReady | OrProcessing | OrValid | OrInvalid

  /** One HTTP fetch or DNS lookup: when it was sent and whether it succeeded. */
  datatype Probe = Probe(at: int, ok: bool)

  /** `probes` records every outside check made for the challenge. */
  datatype Challenge = Challenge(kind: ChallengeKind, status: ChallengeStatus, attempts: nat,
                                 nextAttempt: Option<int>, probes: seq<Probe>)

  datatype Authz = Authz(base: string, wildcard: bool, status: AuthzStatus, expires: int, challenges: seq<Challenge>)

  /** The names a certificate carries, as its CSR spelled them: a subject may hold several
      common names, and all of them are issued. */
  datatype Certificate = Certificate(cns: seq<string>, sans: seq<string>)

  datatype Order = Order(account: nat, ca: nat, status: OrderStatus, identifiers: seq<string>, expires: int,
                         authzs: seq<Authz>, certificate: Option<Certificate>)

  /**
   The server's settings. The hostname pattern and the two normalisations (of
   requested identifiers, and of names in a CSR) are left abstract.
   */
  datatype Config = Config(offered: seq<ChallengeKind>, orderLifetime: int, maxIdentifiers: int,
                           dnsLimit: int, dnsRetry: int, nonceLifetime: int,
                           identifierForm: string -> string, nameForm: string -> string, hostname: string -> bool)
  {
    function Limit(): int {
      if dnsLimit < 1 then 1 else dnsLimit
    }

    function Retry(): int {
      if dnsRetry < 1 then 1 else dnsRetry
    }
  }

  datatype Problem =
    | AccountDoesNotExist | Unauthorized | ExternalAccountRequired | UnsupportedContact
    | Malformed | UnsupportedIdentifier | RejectedIdentifier
    | OrderNotReady | BadCsr | ServerInternal

  // ---------------------------------------------------------------------------
  // Identifiers
  // ---------------------------------------------------------------------------

  const WILDCARD := "*."

  predicate IsWildcard(name: string) {
    WILDCARD <= name
  }

  function BaseOf(name: string): string {
    if IsWildcard(name) then name[2..] else name
  }

  /** The identifier an authorization stands for. */
  function Display(a: Authz): string {
    if a.wildcard then WILDCARD + a.base else a.base
  }

  predicate Distinct<T(==)>(xs: seq<T>) {
    forall i, j :: 0 <= i < j < |xs| ==> xs[i] != xs[j]
  }

  function NewChallenge(kind: ChallengeKind): Challenge {
    Challenge(kind, ChPending, 0, None, [])
  }

  /** A wildcard is validated over DNS only. */
  function KindsFor(cfg: Config, name: string): seq<ChallengeKind> {
    if IsWildcard(name) then [Dns01] else cfg.offered
  }

  function NewAuthz(cfg: Config, name: string, expires: int): Authz {
    var kinds := KindsFor(cfg, name);
    Authz(BaseOf(name), IsWildcard(name), AzPending, expires,
          seq(|kinds|, i requires 0 <= i < |kinds| => NewChallenge(kinds[i])))
  }

  function NewOrder(cfg: Config, account: nat, ca: nat, names: seq<string>, now: int): Order {
    var expires := now + cfg.orderLifetime;
    Order(account, ca, OrPending, names, expires,
          seq(|names|, i requires 0 <= i < |names| => NewAuthz(cfg, names[i], expires)), None)
  }

  // ---------------------------------------------------------------------------
  // Authorizations
  // ---------------------------------------------------------------------------

  /** `_refresh_authz` without an attempt. */
  function RefreshAuthz(a: Authz, now: int): Authz {
    if a.status.AzPending? && a.expires <= now then a.(status := AzExpired) else a
  }

  function WithChallenge(a: Authz, j: nat, c: Challenge): Authz
    requires j < |a.challenges|
  {
    a.(challenges := a.challenges[j := c])
  }

  /** The outside check of an http-01 challenge, with its outcome. */
  function Fetch(a: Authz, j: nat, now: int, ok: bool): Authz
    requires j < |a.challenges|
  {
    var c := a.challenges[j];
    Settle(WithChallenge(a, j, c.(probes := c.probes + [Probe(now, ok)])), j, ok)
  }

  /** `_settle`: the outcome is final for the challenge and its authorization. */
  function Settle(a: Authz, j: nat, ok: bool): Authz
    requires j < |a.challenges|
  {
    WithChallenge(a, j, a.challenges[j].(status := if ok then ChValid else ChInvalid))
      .(status := if ok then AzValid else AzInvalid)
  }

  /** `_attempt_dns01`: one lookup; a miss is retried while attempts and time last. */
  function AttemptDns01(cfg: Config, a: Authz, j: nat, now: int, ok: bool): Authz
    requires j < |a.challenges|
  {
    var c := a.challenges[j];
    var c' := c.(attempts := c.attempts + 1, probes := c.probes + [Probe(now, ok)], nextAttempt := None);
    if ok then Settle(WithChallenge(a, j, c'), j, true)
    else if c'.attempts < cfg.Limit() && a.expires > now + cfg.Retry() then
      WithChallenge(a, j, c'.(nextAttempt := Some(now + cfg.Retry())))
    else Settle(WithChallenge(a, j, c'), j, false)
  }

  /** A dns-01 challenge whose next lookup is due. */
  predicate Due(c: Challenge, now: int) {
    c.kind.Dns01? && c.status.ChProcessing? && c.nextAttempt.Some? && c.nextAttempt.value <= now
  }

  /** The position of the first due challenge at or after `j`. */
  function FirstDue(cs: seq<Challenge>, j: nat, now: int): (k: nat)
    requires j <= |cs|
    ensures j <= k <= |cs|
    ensures k < |cs| ==> Due(cs[k], now)
    ensures forall i :: j <= i < k ==> !Due(cs[i], now)
    decreases |cs| - j
  {
    if j == |cs| || Due(cs[j], now) then j else FirstDue(cs, j + 1, now)
  }

  // ---------------------------------------------------------------------------
  // Orders
  // ---------------------------------------------------------------------------

  function WithAuthz(o: Order, i: nat, a: Authz): Order
    requires i < |o.authzs|
  {
    o.(authzs := o.authzs[i := a])
  }

  function RefreshedAuthzs(o: Order, now: int): (r: seq<Authz>)
    ensures |r| == |o.authzs|
    ensures forall i :: 0 <= i < |r| ==> r[i] == RefreshAuthz(o.authzs[i], now)
  {
    seq(|o.authzs|, i requires 0 <= i < |o.authzs| => RefreshAuthz(o.authzs[i], now))
  }

  predicate HasFailed(a: Authz) {
    a.status.AzInvalid? || a.status.AzExpired? || a.status.AzDeactivated?
  }

  predicate AnyFailed(authzs: seq<Authz>) {
    exists i :: 0 <= i < |authzs| && HasFailed(authzs[i])
  }

  predicate AllValid(authzs: seq<Authz>) {
    forall i :: 0 <= i < |authzs| ==> authzs[i].status.AzValid?
  }

  predicate Final(s: OrderStatus) {
    s.OrValid? || s.OrInvalid?
  }

  /** `refresh_order`: the status that follows from the authorizations and expiry. */
  function RefreshOrder(o: Order, now: int): Order {
    if Final(o.status) then o
    else if o.expires <= now then o.(status := OrInvalid)
    else
      var o' := o.(authzs := RefreshedAuthzs(o, now));
      if AnyFailed(o'.authzs) then o'.(status := OrInvalid)
      else if o'.authzs != [] && AllValid(o'.authzs) && o.status.OrPending? then o'.(status := OrReady)
      else o'
  }

  /** A poll of an authorization or a challenge: `_refresh_authz` with an attempt. */
  function PollAuthz(cfg: Config, o: Order, i: nat, now: int, ok: bool): Order
    requires i < |o.authzs|
  {
    var a := o.authzs[i];
    var j := FirstDue(a.challenges, 0, now);
    if !a.status.AzPending? then o
    else if a.expires <= now then WithAuthz(o, i, a.(status := AzExpired))
    else if j == |a.challenges| then o
    else RefreshOrder(WithAuthz(o, i, AttemptDns01(cfg, a, j, now, ok)), now)
  }

  /** `deactivate_authz`. */
  function DeactivateAuthz(o: Order, i: nat, now: int): Order
    requires i < |o.authzs|
  {
    if o.authzs[i].status.AzPending?
    then RefreshOrder(WithAuthz(o, i, o.authzs[i].(status := AzDeactivated)), now)
    else o
  }

  /** `respond_challenge`: the client asks for validation now. */
  function Respond(cfg: Config, o: Order, i: nat, j: nat, now: int, ok: bool): Order
    requires i < |o.authzs| && j < |o.authzs[i].challenges|
  {
    var a := RefreshAuthz(o.authzs[i], now);
    var o1 := WithAuthz(o, i, a);
    if !a.challenges[j].status.ChPending? || !a.status.AzPending? then o1
    else if o.expires <= now then RefreshOrder(o1, now)
    else
      var started := WithChallenge(a, j, a.challenges[j].(status := ChProcessing));
      var a' := if a.challenges[j].kind.Dns01? then AttemptDns01(cfg, started, j, now, ok) else Fetch(started, j, now, ok);
      RefreshOrder(WithAuthz(o1, i, a'), now)
  }

  // ---------------------------------------------------------------------------
  // Finalization
  // ---------------------------------------------------------------------------

  datatype CsrInput =
    | Missing
    | NotDer
    | BadSignature
    | Csr(cns: seq<string>, dns: seq<string>, otherNames: bool)

  /** What `sign_csr` and the profile lookup did: issue, refuse with a ValueError,
      or fail otherwise after the order was committed as processing. */
  datatype Issuance = NoProfile | Refused | Crashed | Issued

  function Forms(cfg: Config, names: seq<string>): set<string> {
    set i | 0 <= i < |names| :: cfg.nameForm(names[i])
  }

  /** The normalised names of a certificate: its SANs, or every CN when it has none. */
  function NamesOf(cfg: Config, c: Certificate): set<string> {
    if c.sans != [] then Forms(cfg, c.sans) else Forms(cfg, c.cns)
  }

  function Wanted(o: Order): set<string> {
    set i | 0 <= i < |o.identifiers| :: o.identifiers[i]
  }

  /** The checks on the names of a CSR. They read the first CN only. */
  predicate Passes(cfg: Config, o: Order, cns: seq<string>, sans: seq<string>) {
    var cn := if cns != [] then cfg.nameForm(cns[0]) else "";
    var dns := Forms(cfg, sans);
    && (cn != "" ==> cn in Wanted(o))
    && (if dns == {} && cn != "" then {cn} else dns) == Wanted(o)
  }

  /** The checks `finalize` makes on the CSR, in its order. */
  predicate CsrMatches(cfg: Config, o: Order, csr: CsrInput) {
    csr.Csr? && !csr.otherNames && Passes(cfg, o, csr.cns, csr.dns)
  }

  /** `finalize` on a loaded order. */
  function Finalize(cfg: Config, o: Order, csr: CsrInput, outcome: Issuance, now: int): (Order, Option<Problem>) {
    var o1 := RefreshOrder(o, now);
    if o1.status.OrValid? then (o1, None)
    else if !o1.status.OrReady? then (o1, Some(OrderNotReady))
    else if !CsrMatches(cfg, o1, csr) then (o1, Some(BadCsr))
    else match outcome
      case NoProfile => (o1, Some(ServerInternal))
      case Refused => (o1.(status := OrInvalid), Some(BadCsr))
      case Crashed => (o1.(status := OrProcessing), Some(ServerInternal))
      case Issued => (o1.(status := OrValid, certificate := Some(Certificate(csr.cns, csr.dns))), None)
  }

  /** The finalize request: the route loads the order, then finalizes it. A missing
      profile answers 500, and the session is rolled back to where it started. */
  function FinalizeRequest(cfg: Config, o: Order, csr: CsrInput, outcome: Issuance, t1: int, t2: int):
    (Order, Option<Problem>)
  {
    var (r, p) := Finalize(cfg, RefreshOrder(o, t1), csr, outcome, t2);
    if p == Some(ServerInternal) && outcome.NoProfile? then (o, p) else (r, p)
  }
}
