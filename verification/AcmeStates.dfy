/**
 The ACME server's tables, what each request does to them, and what holds in every
 state a run of requests and maintenance passes can reach.

 One request, or one maintenance pass, is one step.
 */
module AcmeStates {
  import opened Prelude
  import opened AcmeOrders
  import opened AcmeInvariants

  datatype Account = Account(ca: nat, thumbprint: string, active: bool, eab: Option<string>)

  datatype EabKey = EabKey(ca: nat, used: Option<int>, revoked: bool)

  /** `issued` and `accepted` record the nonces ever handed out and ever accepted. */
  datatype State = State(accounts: map<nat, Account>, eabKeys: map<string, EabKey>, orders: map<nat, Order>,
                         nonces: map<string, int>, issued: set<string>, accepted: seq<string>)

  const EMPTY := State(map[], map[], map[], map[], {}, [])

  datatype EabInput = NoEab | MalformedEab | Eab(kid: string, macOk: bool)

  datatype RawItem = NotAnObject | Item(isDns: bool, value: Option<string>)

  /** Clock readings, fresh keys and outcomes of outside calls are inputs. `t1`, `ok1`
      belong to loading the resource, `t2`, `ok2` to acting on it. */
  datatype Request =
    | NewAccount(ca: nat, requireEab: bool, thumbprint: string, onlyExisting: bool, contactsOk: bool,
                 eab: EabInput, id: nat, now: int)
    | DeactivateAccount(ca: nat, account: nat)
    | ChangeKey(ca: nat, account: nat, named: nat, oldKey: string, thumbprint: string)
    | CreateEab(ca: nat, kid: string)
    | RevokeEab(kid: string)
    | PlaceOrder(ca: nat, account: nat, raw: Option<seq<RawItem>>, allowWildcards: bool, permitted: bool,
                 id: nat, now: int)
    | PollOrder(ca: nat, account: nat, order: nat, now: int)
    | PollAuthorization(ca: nat, account: nat, order: nat, i: nat, deactivate: bool, t1: int, ok1: bool, t2: int)
    | PollChallenge(ca: nat, account: nat, order: nat, i: nat, j: nat, respond: bool,
                    t1: int, ok1: bool, t2: int, ok2: bool)
    | FinalizeOrder(ca: nat, account: nat, order: nat, csr: CsrInput, outcome: Issuance, t1: int, t2: int)
    | IssueNonce(nonce: string, now: int)
    | ConsumeNonce(nonce: string, now: int)
    | Maintain(now: int)

  // ---------------------------------------------------------------------------
  // Requests
  // ---------------------------------------------------------------------------

  /** `account_for_kid`. */
  function AccountProblem(s: State, ca: nat, account: nat): Option<Problem> {
    if account !in s.accounts || s.accounts[account].ca != ca then Some(AccountDoesNotExist)
    else if !s.accounts[account].active then Some(Unauthorized)
    else None
  }

  /** The signing account's own order. */
  predicate OwnsOrder(s: State, ca: nat, account: nat, order: nat) {
    order in s.orders && s.orders[order].ca == ca && s.orders[order].account == account
  }

  /** One identifier, normalised and checked. */
  function CheckItem(cfg: Config, allowWildcards: bool, item: RawItem): Result<string, Problem> {
    if item.NotAnObject? then Err(Malformed)
    else if !item.isDns then Err(UnsupportedIdentifier)
    else if item.value.None? then Err(Malformed)
    else
      var name := cfg.identifierForm(item.value.value);
      if IsWildcard(name) && (!allowWildcards || Dns01 !in cfg.offered) then Err(RejectedIdentifier)
      else if '*' in BaseOf(name) || !cfg.hostname(BaseOf(name)) then Err(RejectedIdentifier)
      else Ok(name)
  }

  /** The identifiers of the first `n` items, without repetition, or the first error. */
  function ParsePrefix(cfg: Config, allowWildcards: bool, raw: seq<RawItem>, n: nat): Result<seq<string>, Problem>
    requires n <= |raw|
  {
    if n == 0 then Ok([])
    else match ParsePrefix(cfg, allowWildcards, raw, n - 1)
      case Err(e) => Err(e)
      case Ok(names) =>
        match CheckItem(cfg, allowWildcards, raw[n - 1])
        case Err(e) => Err(e)
        case Ok(name) => Ok(if name in names then names else names + [name])
  }

  /** `_parse_identifiers`. */
  function ParseIdentifiers(cfg: Config, allowWildcards: bool, permitted: bool, raw: Option<seq<RawItem>>):
    Result<seq<string>, Problem>
  {
    if raw.None? || raw.value == [] then Err(Malformed)
    else match ParsePrefix(cfg, allowWildcards, raw.value, |raw.value|)
      case Err(e) => Err(e)
      case Ok(names) => if !permitted || |names| > cfg.maxIdentifiers then Err(RejectedIdentifier) else Ok(names)
  }

  predicate HasKey(s: State, ca: nat, thumbprint: string, a: nat) {
    a in s.accounts && s.accounts[a].ca == ca && s.accounts[a].thumbprint == thumbprint
  }

  /** Why a new account's external account binding is refused. */
  function EabProblem(s: State, ca: nat, requireEab: bool, eab: EabInput): Option<Problem> {
    match eab
    case NoEab => if requireEab then Some(ExternalAccountRequired) else None
    case MalformedEab => Some(Malformed)
    case Eab(kid, macOk) =>
      if kid !in s.eabKeys || s.eabKeys[kid].ca != ca || s.eabKeys[kid].revoked then Some(Unauthorized)
      else if s.eabKeys[kid].used.Some? || !macOk then Some(Unauthorized)
      else None
  }

  function DoNewAccount(s: State, r: Request): (State, Option<Problem>)
    requires r.NewAccount?
  {
    if exists a :: a in s.accounts && HasKey(s, r.ca, r.thumbprint, a) then
      (s, if exists a :: a in s.accounts && HasKey(s, r.ca, r.thumbprint, a) && s.accounts[a].active then None else Some(Unauthorized))
    else if r.onlyExisting then (s, Some(AccountDoesNotExist))
    else if !r.contactsOk then (s, Some(UnsupportedContact))
    else if EabProblem(s, r.ca, r.requireEab, r.eab).Some? then (s, EabProblem(s, r.ca, r.requireEab, r.eab))
    else
      var kid := if r.eab.Eab? then Some(r.eab.kid) else None;
      var s1 := s.(accounts := s.accounts[r.id := Account(r.ca, r.thumbprint, true, kid)]);
      (if kid.None? then s1
       else s1.(eabKeys := s.eabKeys[kid.value := s.eabKeys[kid.value].(used := Some(r.now))]), None)
  }

  function DoDeactivateAccount(s: State, r: Request): State
    requires r.DeactivateAccount? && r.account in s.accounts
  {
    s.(accounts := s.accounts[r.account := s.accounts[r.account].(active := false)],
       orders := map o | o in s.orders ::
         if s.orders[o].account == r.account then AbandonOrder(s.orders[o]) else s.orders[o])
  }

  /** `change_key`: refused when another account of the CA has the new key. */
  predicate KeyTaken(s: State, ca: nat, thumbprint: string, account: nat) {
    exists a :: a in s.accounts && HasKey(s, ca, thumbprint, a) && a != account
  }

  function WithOrder(s: State, id: nat, o: Order): State {
    s.(orders := s.orders[id := o])
  }

  /** What a request on an existing order does to that order. */
  function ActOn(cfg: Config, o: Order, r: Request): (Order, Option<Problem>) {
    match r
    case PollOrder(_, _, _, now) => (RefreshOrder(o, now), None)
    case PollAuthorization(_, _, _, i, deactivate, t1, ok1, t2) =>
      if i >= |o.authzs| then (o, Some(Malformed))
      else
        var o1 := PollAuthz(cfg, o, i, t1, ok1);
        (if deactivate && i < |o1.authzs| then DeactivateAuthz(o1, i, t2) else o1, None)
    case PollChallenge(_, _, _, i, j, respond, t1, ok1, t2, ok2) =>
      if i >= |o.authzs| || j >= |o.authzs[i].challenges| then (o, Some(Malformed))
      else
        var o1 := PollAuthz(cfg, o, i, t1, ok1);
        (if respond && i < |o1.authzs| && j < |o1.authzs[i].challenges| then Respond(cfg, o1, i, j, t2, ok2) else o1,
         None)
    case FinalizeOrder(_, _, _, csr, outcome, t1, t2) => FinalizeRequest(cfg, o, csr, outcome, t1, t2)
    case _ => (o, None)
  }

  predicate OnOrder(r: Request) {
    r.PollOrder? || r.PollAuthorization? || r.PollChallenge? || r.FinalizeOrder?
  }

  function Next(cfg: Config, s: State, r: Request): (State, Option<Problem>) {
    if OnOrder(r) then
      if AccountProblem(s, r.ca, r.account).Some? then (s, AccountProblem(s, r.ca, r.account))
      else if !OwnsOrder(s, r.ca, r.account, r.order) then (s, Some(Malformed))
      else
        var (o, p) := ActOn(cfg, s.orders[r.order], r);
        (WithOrder(s, r.order, o), p)
    else match r
      case NewAccount(_, _, _, _, _, _, _, _) => DoNewAccount(s, r)
      case DeactivateAccount(ca, account) =>
        if AccountProblem(s, ca, account).Some? then (s, AccountProblem(s, ca, account))
        else (DoDeactivateAccount(s, r), None)
      case ChangeKey(ca, account, named, oldKey, thumbprint) =>
        if AccountProblem(s, ca, account).Some? then (s, AccountProblem(s, ca, account))
        else if named != account || oldKey != s.accounts[account].thumbprint then (s, Some(Malformed))
        else if KeyTaken(s, ca, thumbprint, account) then (s, Some(Malformed))
        else (s.(accounts := s.accounts[account := s.accounts[account].(thumbprint := thumbprint)]), None)
      case CreateEab(ca, kid) => (s.(eabKeys := s.eabKeys[kid := EabKey(ca, None, false)]), None)
      case RevokeEab(kid) =>
        if kid !in s.eabKeys then (s, None)
        else (s.(eabKeys := s.eabKeys[kid := s.eabKeys[kid].(revoked := true)]), None)
      case PlaceOrder(ca, account, raw, allowWildcards, permitted, id, now) =>
        if AccountProblem(s, ca, account).Some? then (s, AccountProblem(s, ca, account))
        else (match ParseIdentifiers(cfg, allowWildcards, permitted, raw)
          case Err(e) => (s, Some(e))
          case Ok(names) => (WithOrder(s, id, NewOrder(cfg, account, ca, names, now)), None))
      case IssueNonce(nonce, now) => (s.(nonces := s.nonces[nonce := now], issued := s.issued + {nonce}), None)
      case ConsumeNonce(nonce, now) =>
        if |nonce| > 64 || nonce !in s.nonces then (s, Some(Malformed))
        else
          var timely := s.nonces[nonce] >= now - cfg.nonceLifetime;
          (s.(nonces := s.nonces - {nonce}, accepted := if timely then s.accepted + [nonce] else s.accepted),
           if timely then None else Some(Malformed))
      case Maintain(now) =>
        (s.(orders := map o | o in s.orders :: MaintainOrder(s.orders[o], now),
            nonces := map n | n in s.nonces && s.nonces[n] >= now - cfg.nonceLifetime :: s.nonces[n]), None)
      case _ => (s, None)
  }

  /** Fresh primary keys and random values are new; the database and the random
      generator see to that. */
  predicate Enabled(s: State, r: Request) {
    match r
    case NewAccount(_, _, _, _, _, _, id, _) => id !in s.accounts
    case CreateEab(_, kid) => kid !in s.eabKeys
    case PlaceOrder(_, _, _, _, _, id, _) => id !in s.orders
    case IssueNonce(nonce, _) => nonce !in s.issued
    case _ => true
  }

  function Play(cfg: Config, run: seq<Request>): State {
    if run == [] then EMPTY else Next(cfg, Play(cfg, run[..|run| - 1]), run[|run| - 1]).0
  }

  predicate Legal(cfg: Config, run: seq<Request>) {
    run == [] || (Legal(cfg, run[..|run| - 1]) && Enabled(Play(cfg, run[..|run| - 1]), run[|run| - 1]))
  }

  // ---------------------------------------------------------------------------
  // Invariants
  // ---------------------------------------------------------------------------

  ghost predicate OrdersInv(cfg: Config, s: State) {
    forall o :: o in s.orders ==> OrderInv(cfg, s.orders[o])
  }

  ghost predicate KeysDiffer(s: State, a: nat, b: nat)
    requires a in s.accounts && b in s.accounts
  {
    s.accounts[a].ca != s.accounts[b].ca || s.accounts[a].thumbprint != s.accounts[b].thumbprint
  }

  /** No two accounts of a CA share a key. */
  ghost predicate KeysUnique(s: State) {
    forall a, b :: a in s.accounts && b in s.accounts && a != b ==> KeysDiffer(s, a, b)
  }

  ghost predicate BoundTo(s: State, a: nat, kid: string) {
    a in s.accounts && s.accounts[a].eab == Some(kid)
  }

  /** Each external account binding key registered at most one account, and is
      marked as used when it did. */
  ghost predicate EabOnce(s: State) {
    && (forall a, kid :: BoundTo(s, a, kid) ==> kid in s.eabKeys && s.eabKeys[kid].used.Some?)
    && (forall a, b, kid :: BoundTo(s, a, kid) && BoundTo(s, b, kid) ==> a == b)
  }

  /** Accepted nonces are gone from the table, and no nonce was accepted twice. */
  ghost predicate NonceOnce(s: State) {
    && Distinct(s.accepted)
    && (forall n :: n in s.accepted ==> n !in s.nonces && n in s.issued)
    && s.nonces.Keys <= s.issued
  }

  ghost predicate StateInv(cfg: Config, s: State) {
    OrdersInv(cfg, s) && KeysUnique(s) && EabOnce(s) && NonceOnce(s)
  }

  // --- identifiers -------------------------------------------------------------

  /** The parsed identifiers are distinct, and each one passed the checks. */
  lemma {:induction false} ParsedAreDistinct(cfg: Config, allowWildcards: bool, raw: seq<RawItem>, n: nat)
    requires n <= |raw| && ParsePrefix(cfg, allowWildcards, raw, n).Ok?
    ensures var names := ParsePrefix(cfg, allowWildcards, raw, n).value;
      && Distinct(names) && (n > 0 ==> names != [])
      && (forall k :: 0 <= k < n ==> CheckItem(cfg, allowWildcards, raw[k]).Ok?
                                     && CheckItem(cfg, allowWildcards, raw[k]).value in names)
      && (forall name :: name in names ==>
            exists k :: 0 <= k < n && CheckItem(cfg, allowWildcards, raw[k]) == Ok(name))
  {
    if n > 0 {
      ParsedAreDistinct(cfg, allowWildcards, raw, n - 1);
      var before := ParsePrefix(cfg, allowWildcards, raw, n - 1).value;
      var names := ParsePrefix(cfg, allowWildcards, raw, n).value;
      var last := CheckItem(cfg, allowWildcards, raw[n - 1]).value;
      assert names == if last in before then before else before + [last];
    }
  }

  // --- orders ------------------------------------------------------------------

  lemma {:induction false} ActOnStep(cfg: Config, o: Order, r: Request)
    requires OrderInv(cfg, o)
    ensures OrderStep(cfg, o, ActOn(cfg, o, r).0)
  {
    OrderStays(o);
    match r
    case PollOrder(_, _, _, now) => RefreshOrderStep(cfg, o, now);
    case PollAuthorization(_, _, _, i, deactivate, t1, ok1, t2) =>
      if i < |o.authzs| {
        PollAuthzStep(cfg, o, i, t1, ok1);
        var o1 := PollAuthz(cfg, o, i, t1, ok1);
        if deactivate {
          DeactivateAuthzStep(cfg, o1, i, t2);
          AdvancesTrans(o, o1, DeactivateAuthz(o1, i, t2));
        }
      }
    case PollChallenge(_, _, _, i, j, respond, t1, ok1, t2, ok2) =>
      if i < |o.authzs| && j < |o.authzs[i].challenges| {
        PollAuthzStep(cfg, o, i, t1, ok1);
        var o1 := PollAuthz(cfg, o, i, t1, ok1);
        if respond {
          assert AuthzAdvances(o.authzs[i], o1.authzs[i]);
          RespondStep(cfg, o1, i, j, t2, ok2);
          AdvancesTrans(o, o1, Respond(cfg, o1, i, j, t2, ok2));
        }
      }
    case FinalizeOrder(_, _, _, csr, outcome, t1, t2) => FinalizeRequestStep(cfg, o, csr, outcome, t1, t2);
    case _ =>
  }

  /** No order disappears, and every order moves only forward. */
  ghost predicate OrdersAdvance(s: State, t: State) {
    forall o :: o in s.orders ==> o in t.orders && Advances(s.orders[o], t.orders[o])
  }

  lemma OrdersStay(s: State)
    ensures OrdersAdvance(s, s)
  {
    forall o | o in s.orders
      ensures Advances(s.orders[o], s.orders[o])
    {
      OrderStays(s.orders[o]);
    }
  }

  lemma {:induction false} NextKeepsOrders(cfg: Config, s: State, r: Request)
    requires OrdersInv(cfg, s) && Enabled(s, r)
    ensures OrdersInv(cfg, Next(cfg, s, r).0) && OrdersAdvance(s, Next(cfg, s, r).0)
  {
    OrdersStay(s);
    if OnOrder(r) {
      if OwnsOrder(s, r.ca, r.account, r.order) {
        ActOnStep(cfg, s.orders[r.order], r);
      }
    } else if r.PlaceOrder? {
      PlaceStep(cfg, s, r);
    } else {
      BulkStep(cfg, s, r);
    }
  }

  lemma {:induction false} PlaceStep(cfg: Config, s: State, r: Request)
    requires OrdersInv(cfg, s) && Enabled(s, r) && r.PlaceOrder?
    ensures OrdersInv(cfg, Next(cfg, s, r).0) && OrdersAdvance(s, Next(cfg, s, r).0)
  {
    OrdersStay(s);
    var names := ParseIdentifiers(cfg, r.allowWildcards, r.permitted, r.raw);
    if names.Ok? {
      ParsedAreDistinct(cfg, r.allowWildcards, r.raw.value, |r.raw.value|);
      NewOrderInv(cfg, r.account, r.ca, names.value, r.now);
    }
  }

  lemma {:induction false} BulkStep(cfg: Config, s: State, r: Request)
    requires OrdersInv(cfg, s) && !OnOrder(r) && !r.PlaceOrder?
    ensures OrdersInv(cfg, Next(cfg, s, r).0) && OrdersAdvance(s, Next(cfg, s, r).0)
  {
    forall o | o in s.orders
      ensures o in Next(cfg, s, r).0.orders && OrderStep(cfg, s.orders[o], Next(cfg, s, r).0.orders[o])
    {
      OrderStays(s.orders[o]);
      if r.Maintain? {
        MaintainOrderStep(cfg, s.orders[o], r.now);
      } else if r.DeactivateAccount? {
        AbandonOrderStep(cfg, s.orders[o]);
      }
    }
  }

  // --- accounts and nonces -----------------------------------------------------

  lemma NextKeepsKeys(cfg: Config, s: State, r: Request)
    requires KeysUnique(s) && Enabled(s, r)
    ensures KeysUnique(Next(cfg, s, r).0)
  {
    var t := Next(cfg, s, r).0;
    forall a, b | a in t.accounts && b in t.accounts && a != b
      ensures KeysDiffer(t, a, b)
    {
      if a in s.accounts && b in s.accounts {
        assert KeysDiffer(s, a, b);
        if r.ChangeKey? {
          assert !KeyTaken(s, r.ca, r.thumbprint, r.account) ==>
            !HasKey(s, r.ca, r.thumbprint, a) || a == r.account;
          assert !KeyTaken(s, r.ca, r.thumbprint, r.account) ==>
            !HasKey(s, r.ca, r.thumbprint, b) || b == r.account;
        }
      } else {
        assert !HasKey(s, r.ca, r.thumbprint, a) && !HasKey(s, r.ca, r.thumbprint, b);
      }
    }
  }

  lemma NextKeepsEab(cfg: Config, s: State, r: Request)
    requires EabOnce(s) && Enabled(s, r)
    ensures EabOnce(Next(cfg, s, r).0)
  {
    var t := Next(cfg, s, r).0;
    forall a, kid | BoundTo(t, a, kid)
      ensures kid in t.eabKeys && t.eabKeys[kid].used.Some?
      ensures BoundTo(s, a, kid) || (a !in s.accounts && kid in s.eabKeys && s.eabKeys[kid].used.None?)
    {
      if a in s.accounts {
        assert BoundTo(s, a, kid);
      }
    }
    forall a, b, kid | BoundTo(t, a, kid) && BoundTo(t, b, kid)
      ensures a == b
    {
      if BoundTo(s, a, kid) && BoundTo(s, b, kid) {
      } else if r.NewAccount? {
        assert a !in s.accounts ==> a == r.id;
        assert b !in s.accounts ==> b == r.id;
      }
    }
  }

  lemma NextKeepsNonces(cfg: Config, s: State, r: Request)
    requires NonceOnce(s) && Enabled(s, r)
    ensures NonceOnce(Next(cfg, s, r).0)
  {
  }

  // --- runs --------------------------------------------------------------------

  /** Every reachable state satisfies the invariant. */
  lemma {:induction false} RunKeepsInv(cfg: Config, run: seq<Request>)
    requires Legal(cfg, run)
    ensures StateInv(cfg, Play(cfg, run))
  {
    if run != [] {
      var s, r := Play(cfg, run[..|run| - 1]), run[|run| - 1];
      RunKeepsInv(cfg, run[..|run| - 1]);
      NextKeepsOrders(cfg, s, r);
      NextKeepsKeys(cfg, s, r);
      NextKeepsEab(cfg, s, r);
      NextKeepsNonces(cfg, s, r);
    }
  }

  /** Authorization `i` was proved by one challenge of its own, whose last check
      succeeded: over DNS if the identifier is a wildcard. */
  ghost predicate Proved(o: Order, i: int)
    requires 0 <= i < |o.authzs| && |o.authzs| == |o.identifiers|
  {
    && Display(o.authzs[i]) == o.identifiers[i]
    && o.authzs[i].status.AzValid?
    && exists k :: OnlyAt(o.authzs[i].challenges, k, ChValid) && LastOk(o.authzs[i].challenges[k])
                   && (IsWildcard(o.identifiers[i]) ==> o.authzs[i].challenges[k].kind.Dns01?)
  }

  /** An order that is ready, processing or valid was proved identifier by identifier. An
      issued certificate carries exactly those names if and only if it has SANs or all its
      CNs are one name; counting SANs and CNs together, if and only if the CNs that no
      check reads are among them. */
  lemma {:induction false} EveryRunAuthorizes(cfg: Config, run: seq<Request>, id: nat)
    requires Legal(cfg, run) && id in Play(cfg, run).orders && Authorized(Play(cfg, run).orders[id].status)
    ensures var o := Play(cfg, run).orders[id];
      && Distinct(o.identifiers) && o.identifiers != [] && |o.authzs| == |o.identifiers|
      && (forall i :: 0 <= i < |o.authzs| ==> Proved(o, i))
      && (o.status.OrValid? ==> o.certificate.Some?)
      && (o.status.OrValid? ==>
            var c := o.certificate.value;
            && (NamesOf(cfg, c) == Wanted(o) <==> OneName(cfg, c))
            && (Forms(cfg, c.sans) + Forms(cfg, c.cns) == Wanted(o) <==> UnreadAreOrdered(cfg, o, c)))
  {
    RunKeepsInv(cfg, run);
    var o := Play(cfg, run).orders[id];
    forall i | 0 <= i < |o.authzs|
      ensures Proved(o, i)
    {
      assert Paired(o, i) && AuthzInv(cfg, o.authzs[i]);
      var k :| OnlyAt(o.authzs[i].challenges, k, ChValid);
      assert Disciplined(cfg, o.authzs[i].expires, o.authzs[i].challenges[k]);
    }
    if o.status.OrValid? {
      NamesMatchIffOneName(cfg, o, o.certificate.value);
      AllNamesMatchIffUnreadOrdered(cfg, o, o.certificate.value);
    }
  }

  /** Whatever follows a reachable state, its orders only move forward; final
      statuses never change again. */
  lemma {:induction false} EveryRunMovesForward(cfg: Config, run: seq<Request>, n: nat)
    requires Legal(cfg, run) && n <= |run|
    ensures Legal(cfg, run[..n]) && OrdersAdvance(Play(cfg, run[..n]), Play(cfg, run))
  {
    if n == |run| {
      assert run[..n] == run;
      OrdersStay(Play(cfg, run));
    } else {
      var init := run[..|run| - 1];
      EveryRunMovesForward(cfg, init, n);
      assert init[..n] == run[..n];
      RunKeepsInv(cfg, init);
      NextKeepsOrders(cfg, Play(cfg, init), run[|run| - 1]);
      forall o | o in Play(cfg, run[..n]).orders
        ensures o in Play(cfg, run).orders && Advances(Play(cfg, run[..n]).orders[o], Play(cfg, run).orders[o])
      {
        AdvancesTrans(Play(cfg, run[..n]).orders[o], Play(cfg, init).orders[o], Play(cfg, run).orders[o]);
      }
    }
  }

  /** The retry bounds hold for every dns-01 challenge of every reachable state. */
  lemma {:induction false} EveryRunRetriesWithinBounds(cfg: Config, run: seq<Request>, id: nat, i: nat, j: nat)
    requires Legal(cfg, run) && id in Play(cfg, run).orders
    requires i < |Play(cfg, run).orders[id].authzs| && j < |Play(cfg, run).orders[id].authzs[i].challenges|
    requires Play(cfg, run).orders[id].authzs[i].challenges[j].kind.Dns01?
    ensures var a := Play(cfg, run).orders[id].authzs[i];
      var c := a.challenges[j];
      && |c.probes| == c.attempts <= cfg.Limit()
      && (forall k, l :: 0 <= k < l < |c.probes| ==> c.probes[k].at + cfg.Retry() <= c.probes[l].at)
      && (forall k :: 0 <= k < |c.probes| - 1 ==> !c.probes[k].ok)
      && (c.status.ChValid? <==> LastOk(c))
      && (c.status.ChInvalid? ==> GaveUp(cfg, a.expires, c))
      && (c.status.ChProcessing? ==>
            && 1 <= c.attempts < cfg.Limit()
            && c.nextAttempt.Some? && c.nextAttempt.value < a.expires)
  {
    RunKeepsInv(cfg, run);
    var a := Play(cfg, run).orders[id].authzs[i];
    assert AuthzInv(cfg, a);
    var c := a.challenges[j];
    forall k, l | 0 <= k < l < |c.probes|
      ensures c.probes[k].at + cfg.Retry() <= c.probes[l].at
    {
      SpacedFar(c.probes, cfg.Retry(), k, l);
    }
  }

  lemma {:induction false} SpacedFar(probes: seq<Probe>, gap: int, k: int, l: int)
    requires SpacedBy(probes, gap) && 0 <= k < l < |probes| && gap >= 0
    ensures probes[k].at + gap <= probes[l].at
    decreases l
  {
    assert Spaced(probes, l, gap);
    if k < l - 1 {
      SpacedFar(probes, gap, k, l - 1);
    }
  }

  /** Only the account that owns an order changes it, while it is active; otherwise
      only expiry does. */
  lemma OnlyTheOwnerActs(cfg: Config, s: State, r: Request, o: nat)
    requires o in s.orders && Enabled(s, r) && Next(cfg, s, r).0.orders[o] != s.orders[o]
    ensures r.Maintain? ||
      ((OnOrder(r) || r.DeactivateAccount?)
       && r.account == s.orders[o].account && (OnOrder(r) ==> r.ca == s.orders[o].ca)
       && r.account in s.accounts && s.accounts[r.account].ca == r.ca && s.accounts[r.account].active)
  {
  }

  /** Over a whole run, no nonce is accepted twice and no external account binding
      key registers two accounts, and an account's key is its alone within the CA. */
  lemma {:induction false} EveryRunSpendsOnce(cfg: Config, run: seq<Request>)
    requires Legal(cfg, run)
    ensures Distinct(Play(cfg, run).accepted)
    ensures EabOnce(Play(cfg, run)) && KeysUnique(Play(cfg, run))
  {
    RunKeepsInv(cfg, run);
  }
}
