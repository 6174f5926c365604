/**
 What each ACME request achieves, in the stored columns: the lookup an answer makes and
 what follows from it, who gets an account, which identifiers are accepted, what expires.
 */
module AcmeProgress {
  import opened Prelude
  import opened AcmeOrders
  import opened AcmeInvariants
  import opened AcmeStates

  // ---------------------------------------------------------------------------
  // Lookups
  // ---------------------------------------------------------------------------

  /** A dns-01 miss is tried again while attempts are left and the next one comes before
      the authorization expires. */
  predicate TriedAgain(cfg: Config, a: Authz, c: Challenge, now: int) {
    && c.kind.Dns01?
    && c.attempts + 1 < (if cfg.dnsLimit < 1 then 1 else cfg.dnsLimit)
    && now + (if cfg.dnsRetry < 1 then 1 else cfg.dnsRetry) < a.expires
  }

  /** The challenge after one lookup: a probe more, and the outcome. */
  ghost predicate ProbedOnce(cfg: Config, a: Authz, c: Challenge, d: Challenge, now: int, ok: bool) {
    && d.kind == c.kind && d.probes == c.probes + [Probe(now, ok)]
    && d.attempts == c.attempts + (if c.kind.Dns01? then 1 else 0)
    && (ok ==> d.status.ChValid?)
    && (!ok && TriedAgain(cfg, a, c, now) ==>
          d.status.ChProcessing? && d.nextAttempt == Some(now + if cfg.dnsRetry < 1 then 1 else cfg.dnsRetry))
    && (!ok && !TriedAgain(cfg, a, c, now) ==> d.status.ChInvalid?)
  }

  /** The authorization with it. Its other challenges are not touched. */
  ghost predicate SettledWith(cfg: Config, a: Authz, b: Authz, j: nat, now: int, ok: bool)
    requires j < |a.challenges|
  {
    && |b.challenges| == |a.challenges| && ProbedOnce(cfg, a, a.challenges[j], b.challenges[j], now, ok)
    && (forall m :: 0 <= m < |a.challenges| && m != j ==> b.challenges[m] == a.challenges[m])
    && b.base == a.base && b.wildcard == a.wildcard && b.expires == a.expires
    && b.status == (if ok then AzValid else if TriedAgain(cfg, a, a.challenges[j], now) then AzPending else AzInvalid)
  }

  predicate Failed(s: AuthzStatus) {
    s.AzInvalid? || s.AzExpired? || s.AzDeactivated?
  }

  /** The order with it: ready once every authorization is valid, invalid once one failed,
      and pending until then. The other authorizations are not touched. */
  ghost predicate LookedUp(cfg: Config, o: Order, p: Order, i: nat, j: nat, now: int, ok: bool)
    requires i < |o.authzs| && j < |o.authzs[i].challenges|
  {
    && p == o.(status := p.status, authzs := p.authzs) && |p.authzs| == |o.authzs|
    && SettledWith(cfg, o.authzs[i], p.authzs[i], j, now, ok)
    && (forall m :: 0 <= m < |o.authzs| && m != i ==> p.authzs[m] == o.authzs[m])
    && p.status ==
         (if exists m :: 0 <= m < |p.authzs| && Failed(p.authzs[m].status) then OrInvalid
          else if forall m :: 0 <= m < |p.authzs| ==> p.authzs[m].status.AzValid? then OrReady
          else OrPending)
  }

  /** A pending order that has not expired, and with it its authorizations. */
  ghost predicate Open(o: Order, now: int) {
    o.status.OrPending? && now < o.expires && forall i :: 0 <= i < |o.authzs| ==> o.authzs[i].expires == o.expires
  }

  lemma RefreshOpen(o: Order, now: int)
    requires Open(o, now) && o.authzs != []
    ensures var r := RefreshOrder(o, now);
      && r == o.(status := r.status)
      && r.status == (if exists m :: 0 <= m < |o.authzs| && Failed(o.authzs[m].status) then OrInvalid
                      else if forall m :: 0 <= m < |o.authzs| ==> o.authzs[m].status.AzValid? then OrReady
                      else OrPending)
  {
    assert RefreshedAuthzs(o, now) == o.authzs;
  }

  lemma AttemptSettles(cfg: Config, a: Authz, j: nat, now: int, ok: bool)
    requires j < |a.challenges| && a.challenges[j].kind.Dns01? && a.challenges[j].status.ChProcessing? && a.status.AzPending?
    ensures SettledWith(cfg, a, AttemptDns01(cfg, a, j, now, ok), j, now, ok)
  {
  }

  lemma FetchSettles(cfg: Config, a: Authz, j: nat, now: int, ok: bool)
    requires j < |a.challenges| && !a.challenges[j].kind.Dns01? && a.status.AzPending?
    ensures SettledWith(cfg, a, Fetch(a, j, now, ok), j, now, ok)
  {
  }

  /** Putting the settled authorization in place and refreshing the order. */
  lemma SettledOrder(cfg: Config, o: Order, i: nat, j: nat, b: Authz, now: int, ok: bool)
    requires Open(o, now) && i < |o.authzs| && j < |o.authzs[i].challenges|
    requires SettledWith(cfg, o.authzs[i], b, j, now, ok)
    ensures LookedUp(cfg, o, RefreshOrder(WithAuthz(o, i, b), now), i, j, now, ok)
  {
    RefreshOpen(WithAuthz(o, i, b), now);
  }

  /** Answering a pending challenge of a pending authorization makes one lookup, with all
      that follows from it. */
  lemma AnsweringLooksUp(cfg: Config, o: Order, i: nat, j: nat, now: int, ok: bool)
    requires Open(o, now) && i < |o.authzs| && j < |o.authzs[i].challenges|
    requires o.authzs[i].status.AzPending? && o.authzs[i].challenges[j].status.ChPending?
    ensures LookedUp(cfg, o, Respond(cfg, o, i, j, now, ok), i, j, now, ok)
  {
    var a := o.authzs[i];
    var started := WithChallenge(a, j, a.challenges[j].(status := ChProcessing));
    assert WithAuthz(o, i, a) == o;
    if a.challenges[j].kind.Dns01? {
      AttemptSettles(cfg, started, j, now, ok);
      SettledOrder(cfg, o, i, j, AttemptDns01(cfg, started, j, now, ok), now, ok);
    } else {
      FetchSettles(cfg, started, j, now, ok);
      SettledOrder(cfg, o, i, j, Fetch(started, j, now, ok), now, ok);
    }
  }

  /** Answering any other challenge looks nothing up: every challenge is as it was. */
  lemma OtherAnswersDoNothing(cfg: Config, o: Order, i: nat, j: nat, now: int, ok: bool)
    requires i < |o.authzs| && j < |o.authzs[i].challenges|
    requires !o.authzs[i].status.AzPending? || o.authzs[i].expires <= now || !o.authzs[i].challenges[j].status.ChPending?
    ensures var p := Respond(cfg, o, i, j, now, ok);
      |p.authzs| == |o.authzs| && forall m :: 0 <= m < |o.authzs| ==> p.authzs[m].challenges == o.authzs[m].challenges
  {
  }

  /** The first challenge of an authorization whose next lookup has come. */
  ghost predicate IsFirstDue(a: Authz, j: nat, now: int) {
    && j < |a.challenges| && LookupDue(a.challenges[j], now)
    && forall m :: 0 <= m < j ==> !LookupDue(a.challenges[m], now)
  }

  predicate LookupDue(c: Challenge, now: int) {
    match c.nextAttempt
    case Some(at) => c.kind.Dns01? && c.status.ChProcessing? && at <= now
    case None => false
  }

  /** A poll makes the first lookup that is due, with all that follows from it. */
  lemma PollingLooksUp(cfg: Config, o: Order, i: nat, j: nat, now: int, ok: bool)
    requires Open(o, now) && i < |o.authzs| && o.authzs[i].status.AzPending? && IsFirstDue(o.authzs[i], j, now)
    ensures LookedUp(cfg, o, PollAuthz(cfg, o, i, now, ok), i, j, now, ok)
  {
    var a := o.authzs[i];
    var k := FirstDue(a.challenges, 0, now);
    assert LookupDue(a.challenges[j], now);
    assert k <= j;
    assert k < j ==> !LookupDue(a.challenges[k], now);
    AttemptSettles(cfg, a, j, now, ok);
    SettledOrder(cfg, o, i, j, AttemptDns01(cfg, a, j, now, ok), now, ok);
  }

  /** Without one a poll looks nothing up; it expires the authorization when that is due. */
  lemma OtherPollsLookNothingUp(cfg: Config, o: Order, i: nat, now: int, ok: bool)
    requires i < |o.authzs|
    requires !o.authzs[i].status.AzPending? || o.authzs[i].expires <= now
      || forall j :: 0 <= j < |o.authzs[i].challenges| ==> !LookupDue(o.authzs[i].challenges[j], now)
    ensures var a := o.authzs[i]; var p := PollAuthz(cfg, o, i, now, ok);
      p == o.(authzs := o.authzs[i := if a.status.AzPending? && a.expires <= now then a.(status := AzExpired) else a])
  {
    var a := o.authzs[i];
    var k := FirstDue(a.challenges, 0, now);
    assert o.authzs[i := a] == o.authzs;
    assert k < |a.challenges| ==> LookupDue(a.challenges[k], now);
  }

  /** In a run, what an owner's answer to an open challenge does to the order. */
  lemma {:induction false} EveryAnswerCounts(cfg: Config, run: seq<Request>, id: nat, i: nat, j: nat, now: int, ok: bool, ok1: bool)
    requires Legal(cfg, run) && id in Play(cfg, run).orders
    requires var s := Play(cfg, run); var o := s.orders[id];
      && o.status.OrPending? && now < o.expires && i < |o.authzs| && j < |o.authzs[i].challenges|
      && o.authzs[i].status.AzPending? && o.authzs[i].challenges[j].status.ChPending?
      && (forall m :: 0 <= m < |o.authzs[i].challenges| ==> !LookupDue(o.authzs[i].challenges[m], now))
      && o.account in s.accounts && s.accounts[o.account].ca == o.ca && s.accounts[o.account].active
    ensures var s := Play(cfg, run); var o := s.orders[id];
      var (t, p) := Next(cfg, s, PollChallenge(o.ca, o.account, id, i, j, true, now, ok1, now, ok));
      p.None? && id in t.orders && LookedUp(cfg, o, t.orders[id], i, j, now, ok)
  {
    RunKeepsInv(cfg, run);
    var o := Play(cfg, run).orders[id];
    IsOpen(cfg, o, now);
    OwnersAnswerReaches(cfg, Play(cfg, run), id, i, j, now, ok, ok1);
    AnsweringLooksUp(cfg, o, i, j, now, ok);
  }

  lemma OwnersAnswerReaches(cfg: Config, s: State, id: nat, i: nat, j: nat, now: int, ok: bool, ok1: bool)
    requires id in s.orders && i < |s.orders[id].authzs| && j < |s.orders[id].authzs[i].challenges|
    requires var o := s.orders[id]; var a := o.authzs[i];
      && o.account in s.accounts && s.accounts[o.account].ca == o.ca && s.accounts[o.account].active
      && (a.status.AzPending? ==> now < a.expires)
      && (forall m :: 0 <= m < |a.challenges| ==> !LookupDue(a.challenges[m], now))
    ensures var o := s.orders[id];
      Next(cfg, s, PollChallenge(o.ca, o.account, id, i, j, true, now, ok1, now, ok)) ==
      (s.(orders := s.orders[id := Respond(cfg, o, i, j, now, ok)]), None)
  {
    var o := s.orders[id];
    OtherPollsLookNothingUp(cfg, o, i, now, ok1);
    assert o.authzs[i := o.authzs[i]] == o.authzs;
  }

  lemma IsOpen(cfg: Config, o: Order, now: int)
    requires OrderInv(cfg, o) && o.status.OrPending? && now < o.expires
    ensures Open(o, now)
  {
    forall i | 0 <= i < |o.authzs|
      ensures o.authzs[i].expires == o.expires
    {
      assert Paired(o, i);
    }
  }

  // ---------------------------------------------------------------------------
  // Orders
  // ---------------------------------------------------------------------------

  /** Only what has run out expires: an unfinished order becomes invalid, a pending
      authorization expired. */
  lemma MaintenanceExpires(o: Order, now: int)
    ensures var p := MaintainOrder(o, now);
      && p == o.(status := p.status, authzs := p.authzs) && |p.authzs| == |o.authzs|
      && p.status == (if o.expires <= now && (o.status.OrPending? || o.status.OrReady? || o.status.OrProcessing?)
                      then OrInvalid else o.status)
      && forall i :: 0 <= i < |o.authzs| ==> p.authzs[i] == MaintainedAuthz(o.authzs[i], now)
  {
  }

  function MaintainedAuthz(a: Authz, now: int): Authz {
    match a.status
    case AzPending => if now < a.expires then a else a.(status := AzExpired)
    case _ => a
  }

  /** Deactivating an account ends its unfinished orders and changes no others. */
  lemma AbandoningEnds(o: Order)
    ensures AbandonOrder(o) ==
      if o.status.OrPending? || o.status.OrReady? || o.status.OrProcessing? then o.(status := OrInvalid) else o
  {
  }

  /** Deactivating a pending authorization of an open order ends the order. */
  lemma DeactivatingEnds(o: Order, i: nat, now: int)
    requires Open(o, now) && i < |o.authzs| && o.authzs[i].status.AzPending?
    ensures DeactivateAuthz(o, i, now) ==
      o.(status := OrInvalid, authzs := o.authzs[i := o.authzs[i].(status := AzDeactivated)])
  {
    var p := WithAuthz(o, i, o.authzs[i].(status := AzDeactivated));
    RefreshOpen(p, now);
    assert Failed(p.authzs[i].status);
  }

  /** How a finalize request of a ready order ends: a CSR that does not pass, or a missing
      profile, changes nothing; a refused issuance ends the order; a crash leaves it
      processing; otherwise it is valid, with the names of the CSR. */
  lemma FinalizingEnds(cfg: Config, o: Order, csr: CsrInput, outcome: Issuance, t1: int, t2: int)
    requires o.status.OrReady? && t1 < o.expires && t2 < o.expires && o.authzs != []
    requires forall i :: 0 <= i < |o.authzs| ==> o.authzs[i].status.AzValid?
    ensures var (p, problem) := FinalizeRequest(cfg, o, csr, outcome, t1, t2);
      if !CsrMatches(cfg, o, csr) then p == o && problem == Some(BadCsr)
      else match outcome
        case NoProfile => p == o && problem == Some(ServerInternal)
        case Refused => p == o.(status := OrInvalid) && problem == Some(BadCsr)
        case Crashed => p == o.(status := OrProcessing) && problem == Some(ServerInternal)
        case Issued => p == o.(status := OrValid, certificate := Some(Certificate(csr.cns, csr.dns))) && problem == None
  {
    assert RefreshedAuthzs(o, t1) == o.authzs && RefreshedAuthzs(o, t2) == o.authzs;
    assert RefreshOrder(o, t1) == o && RefreshOrder(o, t2) == o;
  }

  // ---------------------------------------------------------------------------
  // Identifiers
  // ---------------------------------------------------------------------------

  /** An identifier is accepted in its normal form if its base is a hostname without a
      star, and a wildcard only where the CA allows them and dns-01 is offered. */
  lemma AcceptedIdentifiers(cfg: Config, allowWildcards: bool, item: RawItem, name: string)
    ensures CheckItem(cfg, allowWildcards, item) == Ok(name) <==>
      && item.Item? && item.isDns && item.value.Some? && name == cfg.identifierForm(item.value.value)
      && (var wild := |name| >= 2 && name[0] == '*' && name[1] == '.';
          var base := if wild then name[2..] else name;
          (wild ==> allowWildcards && Dns01 in cfg.offered) && '*' !in base && cfg.hostname(base))
  {
    assert IsWildcard(name) <==> |name| >= 2 && name[0] == '*' && name[1] == '.' by {
      if |name| >= 2 {
        assert name[..2] == [name[0], name[1]];
      }
    }
  }

  /** Every item has its name among the accepted ones, and every name comes from an item. */
  lemma {:induction false} NamesOfItems(cfg: Config, allowWildcards: bool, raw: seq<RawItem>, n: nat)
    requires n <= |raw|
    ensures ParsePrefix(cfg, allowWildcards, raw, n).Ok? <==> forall k :: 0 <= k < n ==> CheckItem(cfg, allowWildcards, raw[k]).Ok?
    ensures var names := ParsePrefix(cfg, allowWildcards, raw, n);
      names.Ok? ==> forall name :: name in names.value <==> exists k :: 0 <= k < n && CheckItem(cfg, allowWildcards, raw[k]) == Ok(name)
  {
    if n > 0 {
      NamesOfItems(cfg, allowWildcards, raw, n - 1);
    }
  }

  // ---------------------------------------------------------------------------
  // Accounts and nonces
  // ---------------------------------------------------------------------------

  /** An account needs no binding where the CA does not ask for one; a binding counts with
      a key of the CA that is neither revoked nor used, and a MAC that verifies. */
  lemma BindingIsChecked(s: State, ca: nat, requireEab: bool, eab: EabInput)
    ensures EabProblem(s, ca, requireEab, eab).None? <==>
      || (eab.NoEab? && !requireEab)
      || (eab.Eab? && eab.macOk && eab.kid in s.eabKeys && s.eabKeys[eab.kid] == EabKey(ca, None, false))
  {
  }

  /** Who asks with a key that is registered gets that account if it is active; who asks
      with a new key gets a new account, unless only an existing one is wanted, the
      contacts are bad or the binding fails. */
  lemma RegisteringAnAccount(cfg: Config, s: State, r: Request)
    requires r.NewAccount? && r.id !in s.accounts
    ensures var (t, p) := Next(cfg, s, r);
      var known := exists a :: a in s.accounts && s.accounts[a].ca == r.ca && s.accounts[a].thumbprint == r.thumbprint;
      var created := !known && !r.onlyExisting && r.contactsOk && EabProblem(s, r.ca, r.requireEab, r.eab).None?;
      && (created ==>
            && p.None? && t.accounts == s.accounts[r.id := Account(r.ca, r.thumbprint, true, if r.eab.Eab? then Some(r.eab.kid) else None)]
            && (r.eab.Eab? ==> t.eabKeys == s.eabKeys[r.eab.kid := EabKey(r.ca, Some(r.now), false)]))
      && (!created ==> t == s)
      && (!created && !known ==> p.Some?)
  {
    if exists a :: a in s.accounts && s.accounts[a].ca == r.ca && s.accounts[a].thumbprint == r.thumbprint {
      var a :| a in s.accounts && s.accounts[a].ca == r.ca && s.accounts[a].thumbprint == r.thumbprint;
      assert HasKey(s, r.ca, r.thumbprint, a);
    }
    BindingIsChecked(s, r.ca, r.requireEab, r.eab);
  }

  /** A nonce is accepted exactly once, within its lifetime; presented, it is gone. */
  lemma PresentingANonce(cfg: Config, s: State, nonce: string, now: int)
    ensures var (t, p) := Next(cfg, s, ConsumeNonce(nonce, now));
      && (p.None? <==> |nonce| <= 64 && nonce in s.nonces && now <= s.nonces[nonce] + cfg.nonceLifetime)
      && (|nonce| <= 64 ==> nonce !in t.nonces)
      && t.accepted == (if p.None? then s.accepted + [nonce] else s.accepted)
  {
  }

  /** Deactivating an account ends its unfinished orders and leaves the others alone. */
  lemma DeactivatingAnAccount(cfg: Config, s: State, ca: nat, account: nat)
    requires account in s.accounts && s.accounts[account].ca == ca && s.accounts[account].active
    ensures var (t, p) := Next(cfg, s, DeactivateAccount(ca, account));
      && p.None? && t.accounts == s.accounts[account := s.accounts[account].(active := false)]
      && t.orders.Keys == s.orders.Keys
      && (forall o :: o in s.orders && s.orders[o].account != account ==> t.orders[o] == s.orders[o])
      && (forall o :: o in s.orders && s.orders[o].account == account ==>
            t.orders[o] == if s.orders[o].status.OrValid? || s.orders[o].status.OrInvalid? then s.orders[o]
                           else s.orders[o].(status := OrInvalid))
  {
    forall o | o in s.orders
      ensures AbandonOrder(s.orders[o]) ==
        if s.orders[o].status.OrValid? || s.orders[o].status.OrInvalid? then s.orders[o] else s.orders[o].(status := OrInvalid)
    {
      AbandoningEnds(s.orders[o]);
    }
  }

  /** A key change that names the account and its old key succeeds unless another account
      of the CA has the new key. */
  lemma ChangingAKey(cfg: Config, s: State, ca: nat, account: nat, named: nat, oldKey: string, thumbprint: string)
    requires account in s.accounts && s.accounts[account].ca == ca && s.accounts[account].active
    ensures var (t, p) := Next(cfg, s, ChangeKey(ca, account, named, oldKey, thumbprint));
      var taken := exists a :: a in s.accounts && a != account && s.accounts[a].ca == ca && s.accounts[a].thumbprint == thumbprint;
      if named == account && oldKey == s.accounts[account].thumbprint && !taken
      then p.None? && t == s.(accounts := s.accounts[account := s.accounts[account].(thumbprint := thumbprint)])
      else p.Some? && t == s
  {
    if a :| a in s.accounts && a != account && s.accounts[a].ca == ca && s.accounts[a].thumbprint == thumbprint {
      assert HasKey(s, ca, thumbprint, a);
    }
  }

  /** A new binding key is unused and not revoked; a revoked one stays as it is otherwise. */
  lemma BindingKeys(cfg: Config, s: State, ca: nat, kid: string)
    ensures Next(cfg, s, CreateEab(ca, kid)).0 == s.(eabKeys := s.eabKeys[kid := EabKey(ca, None, false)])
    ensures kid in s.eabKeys ==>
      Next(cfg, s, RevokeEab(kid)).0 == s.(eabKeys := s.eabKeys[kid := EabKey(s.eabKeys[kid].ca, s.eabKeys[kid].used, true)])
  {
  }

  ghost predicate NamedBy(cfg: Config, allowWildcards: bool, raw: seq<RawItem>, name: string) {
    exists k :: 0 <= k < |raw| && CheckItem(cfg, allowWildcards, raw[k]) == Ok(name)
  }

  ghost predicate AllPass(cfg: Config, allowWildcards: bool, raw: seq<RawItem>) {
    forall k :: 0 <= k < |raw| ==> CheckItem(cfg, allowWildcards, raw[k]).Ok?
  }

  /** A list of identifiers is accepted if there are some, each passes, the CA's name
      constraints permit them, and together they are not too many. */
  lemma AcceptedLists(cfg: Config, allowWildcards: bool, permitted: bool, raw: Option<seq<RawItem>>)
    ensures var names := ParseIdentifiers(cfg, allowWildcards, permitted, raw);
      && (names.Ok? ==> raw.Some? && permitted && |names.value| <= cfg.maxIdentifiers)
      && (names.Ok? ==> forall name :: name in names.value <==> NamedBy(cfg, allowWildcards, raw.value, name))
    ensures raw.Some? && raw.value != [] && permitted && |raw.value| <= cfg.maxIdentifiers && AllPass(cfg, allowWildcards, raw.value) ==>
      ParseIdentifiers(cfg, allowWildcards, permitted, raw).Ok?
  {
    if raw.Some? {
      NamesOfItems(cfg, allowWildcards, raw.value, |raw.value|);
      PrefixIsShort(cfg, allowWildcards, raw.value, |raw.value|);
    }
  }

  lemma {:induction false} PrefixIsShort(cfg: Config, allowWildcards: bool, raw: seq<RawItem>, n: nat)
    requires n <= |raw|
    ensures ParsePrefix(cfg, allowWildcards, raw, n).Ok? ==> |ParsePrefix(cfg, allowWildcards, raw, n).value| <= n
  {
    if n > 0 {
      PrefixIsShort(cfg, allowWildcards, raw, n - 1);
    }
  }

  /** An active account's order is placed exactly when its identifiers are accepted. */
  lemma PlacingAnOrder(cfg: Config, s: State, ca: nat, account: nat, raw: Option<seq<RawItem>>, allowWildcards: bool,
                       permitted: bool, id: nat, now: int)
    requires account in s.accounts && s.accounts[account].ca == ca && s.accounts[account].active
    ensures var (t, p) := Next(cfg, s, PlaceOrder(ca, account, raw, allowWildcards, permitted, id, now));
      match ParseIdentifiers(cfg, allowWildcards, permitted, raw)
      case Ok(names) => p == None && t == s.(orders := s.orders[id := NewOrder(cfg, account, ca, names, now)])
      case Err(e) => p == Some(e) && t == s
  {
  }

  /** Maintenance drops exactly the nonces past their lifetime. */
  lemma MaintenanceDropsStaleNonces(cfg: Config, s: State, now: int)
    ensures var t := Next(cfg, s, Maintain(now)).0;
      && (forall n :: n in t.nonces <==> n in s.nonces && now <= s.nonces[n] + cfg.nonceLifetime)
      && (forall n :: n in t.nonces ==> t.nonces[n] == s.nonces[n])
      && t.orders.Keys == s.orders.Keys && t.accounts == s.accounts && t.eabKeys == s.eabKeys
  {
  }
}
