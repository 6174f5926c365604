/**
 The ACME server as its request functions change the tables. Each method is tied
 to the step function of `AcmeStates`, whose reachable states are the subject of
 the theorems there.
 */
module AcmeServers {
  import opened Prelude
  import opened AcmeOrders
  import opened AcmeInvariants
  import opened AcmeStates

  class AcmeServer {
    const cfg: Config
    var accounts: map<nat, Account>
    var eabKeys: map<string, EabKey>
    var orders: map<nat, Order>
    var nonces: map<string, int>
    ghost var issued: set<string>
    ghost var accepted: seq<string>

    ghost function View(): State
      reads this
    {
      State(accounts, eabKeys, orders, nonces, issued, accepted)
    }

    constructor (cfg: Config)
      ensures this.cfg == cfg && View() == EMPTY
    {
      this.cfg := cfg;
      accounts, eabKeys, orders, nonces := map[], map[], map[], map[];
      issued, accepted := {}, [];
    }

    method AccountForKid(ca: nat, account: nat) returns (p: Option<Problem>)
      ensures p == AccountProblem(View(), ca, account)
    {
      if account !in accounts || accounts[account].ca != ca {
        return Some(AccountDoesNotExist);
      }
      p := if accounts[account].active then None else Some(Unauthorized);
    }

    /** `AcmeAccount.query.filter_by(ca_id, thumbprint)`. */
    method AccountsWithKey(ca: nat, thumbprint: string) returns (found: set<nat>)
      ensures found == set a | a in accounts && HasKey(View(), ca, thumbprint, a)
    {
      found := set a | a in accounts && accounts[a].ca == ca && accounts[a].thumbprint == thumbprint;
    }

    method Register(ca: nat, requireEab: bool, thumbprint: string, onlyExisting: bool, contactsOk: bool,
                    eab: EabInput, id: nat, now: int) returns (p: Option<Problem>)
      requires Enabled(View(), NewAccount(ca, requireEab, thumbprint, onlyExisting, contactsOk, eab, id, now))
      modifies this
      ensures (View(), p) ==
        Next(cfg, old(View()), NewAccount(ca, requireEab, thumbprint, onlyExisting, contactsOk, eab, id, now))
    {
      var existing := AccountsWithKey(ca, thumbprint);
      if existing != {} {
        var active := set a | a in existing && accounts[a].active;
        assert (exists a :: a in accounts && HasKey(View(), ca, thumbprint, a)) by {
          var a :| a in existing;
        }
        if active != {} {
          var a :| a in active;
          assert HasKey(View(), ca, thumbprint, a);
          return None;
        }
        assert forall a :: a in accounts && HasKey(View(), ca, thumbprint, a) ==> a in existing && a !in active;
        return Some(Unauthorized);
      }
      assert forall a :: a in accounts && HasKey(View(), ca, thumbprint, a) ==> a in existing;
      if onlyExisting {
        return Some(AccountDoesNotExist);
      }
      if !contactsOk {
        return Some(UnsupportedContact);
      }
      var kid: Option<string> := None;
      match eab {
        case NoEab =>
          if requireEab {
            return Some(ExternalAccountRequired);
          }
        case MalformedEab =>
          return Some(Malformed);
        case Eab(k, macOk) =>
          if k !in eabKeys || eabKeys[k].ca != ca || eabKeys[k].revoked {
            return Some(Unauthorized);
          }
          if eabKeys[k].used.Some? || !macOk {
            return Some(Unauthorized);
          }
          kid := Some(k);
      }
      accounts := accounts[id := Account(ca, thumbprint, true, kid)];
      if kid.Some? {
        eabKeys := eabKeys[kid.value := eabKeys[kid.value].(used := Some(now))];
      }
      p := None;
    }

    /** Deactivates the account and gives up its unfinished orders. */
    method Deactivate(ca: nat, account: nat) returns (p: Option<Problem>)
      modifies this
      ensures (View(), p) == Next(cfg, old(View()), DeactivateAccount(ca, account))
    {
      p := AccountForKid(ca, account);
      if p.Some? {
        return;
      }
      accounts := accounts[account := accounts[account].(active := false)];
      orders := AbandonOrders(orders, account);
      assert orders == DoDeactivateAccount(old(View()), DeactivateAccount(ca, account)).orders;
    }

    method ReplaceKey(ca: nat, account: nat, named: nat, oldKey: string, thumbprint: string) returns (p: Option<Problem>)
      modifies this
      ensures (View(), p) == Next(cfg, old(View()), ChangeKey(ca, account, named, oldKey, thumbprint))
    {
      p := AccountForKid(ca, account);
      if p.Some? {
        return;
      }
      if named != account || oldKey != accounts[account].thumbprint {
        return Some(Malformed);
      }
      var clash := AccountsWithKey(ca, thumbprint);
      if clash - {account} != {} {
        assert KeyTaken(View(), ca, thumbprint, account) by {
          var a :| a in clash - {account};
          assert HasKey(View(), ca, thumbprint, a);
        }
        return Some(Malformed);
      }
      assert forall a :: a in accounts && HasKey(View(), ca, thumbprint, a) ==> a in clash && a !in clash - {account};
      accounts := accounts[account := accounts[account].(thumbprint := thumbprint)];
    }

    method AddEabKey(ca: nat, kid: string)
      requires Enabled(View(), CreateEab(ca, kid))
      modifies this
      ensures View() == Next(cfg, old(View()), CreateEab(ca, kid)).0
    {
      eabKeys := eabKeys[kid := EabKey(ca, None, false)];
    }

    method WithdrawEabKey(kid: string)
      modifies this
      ensures View() == Next(cfg, old(View()), RevokeEab(kid)).0
    {
      if kid in eabKeys {
        eabKeys := eabKeys[kid := eabKeys[kid].(revoked := true)];
      }
    }

    /** The loop of `_parse_identifiers` over the submitted list. */
    method ReadIdentifiers(allowWildcards: bool, raw: seq<RawItem>) returns (r: Result<seq<string>, Problem>)
      ensures r == ParsePrefix(cfg, allowWildcards, raw, |raw|)
    {
      var seen, names: seq<string>, k := {}, [], 0;
      while k < |raw|
        invariant 0 <= k <= |raw|
        invariant ParsePrefix(cfg, allowWildcards, raw, k) == Ok(names)
        invariant forall n :: n in seen <==> n in names
      {
        var checked := CheckItem(cfg, allowWildcards, raw[k]);
        if checked.Err? {
          ErrorsStick(cfg, allowWildcards, raw, k + 1, |raw|);
          return Err(checked.error);
        }
        if checked.value !in seen {
          seen, names := seen + {checked.value}, names + [checked.value];
        }
        k := k + 1;
      }
      r := Ok(names);
    }

    method Place(ca: nat, account: nat, raw: Option<seq<RawItem>>, allowWildcards: bool, permitted: bool,
                 id: nat, now: int) returns (p: Option<Problem>)
      requires Enabled(View(), PlaceOrder(ca, account, raw, allowWildcards, permitted, id, now))
      modifies this
      ensures (View(), p) ==
        Next(cfg, old(View()), PlaceOrder(ca, account, raw, allowWildcards, permitted, id, now))
    {
      p := AccountForKid(ca, account);
      if p.Some? {
        return;
      }
      if raw.None? || raw.value == [] {
        return Some(Malformed);
      }
      var parsed := ReadIdentifiers(allowWildcards, raw.value);
      if parsed.Err? {
        return Some(parsed.error);
      }
      if !permitted || |parsed.value| > cfg.maxIdentifiers {
        return Some(RejectedIdentifier);
      }
      orders := orders[id := NewOrder(cfg, account, ca, parsed.value, now)];
    }

    /** Loads one of the account's orders, or says why not. */
    method LoadOrder(ca: nat, account: nat, order: nat) returns (p: Option<Problem>)
      ensures p == if AccountProblem(View(), ca, account).Some? then AccountProblem(View(), ca, account)
                   else if !OwnsOrder(View(), ca, account, order) then Some(Malformed) else None
    {
      p := AccountForKid(ca, account);
      if p.None? && (order !in orders || orders[order].ca != ca || orders[order].account != account) {
        p := Some(Malformed);
      }
    }

    method ShowOrder(ca: nat, account: nat, order: nat, now: int) returns (p: Option<Problem>)
      modifies this
      ensures (View(), p) == Next(cfg, old(View()), PollOrder(ca, account, order, now))
    {
      p := LoadOrder(ca, account, order);
      if p.None? {
        var o := DeriveStatus(orders[order], now);
        orders := orders[order := o];
      }
    }

    method ShowAuthorization(ca: nat, account: nat, order: nat, i: nat, deactivate: bool, t1: int, ok1: bool, t2: int)
      returns (p: Option<Problem>)
      modifies this
      ensures (View(), p) ==
        Next(cfg, old(View()), PollAuthorization(ca, account, order, i, deactivate, t1, ok1, t2))
    {
      p := LoadOrder(ca, account, order);
      if p.Some? {
        return;
      }
      var o := orders[order];
      if i >= |o.authzs| {
        p := Some(Malformed);
      } else {
        o := RunDueLookup(cfg, o, i, t1, ok1);
        if deactivate && i < |o.authzs| && o.authzs[i].status.AzPending? {
          o := DeriveStatus(WithAuthz(o, i, o.authzs[i].(status := AzDeactivated)), t2);
        }
      }
      orders := orders[order := o];
    }

    method ShowChallenge(ca: nat, account: nat, order: nat, i: nat, j: nat, respond: bool,
                         t1: int, ok1: bool, t2: int, ok2: bool) returns (p: Option<Problem>)
      modifies this
      ensures (View(), p) ==
        Next(cfg, old(View()), PollChallenge(ca, account, order, i, j, respond, t1, ok1, t2, ok2))
    {
      p := LoadOrder(ca, account, order);
      if p.Some? {
        return;
      }
      var o := orders[order];
      if i >= |o.authzs| || j >= |o.authzs[i].challenges| {
        p := Some(Malformed);
      } else {
        o := RunDueLookup(cfg, o, i, t1, ok1);
        if respond && i < |o.authzs| && j < |o.authzs[i].challenges| {
          o := RespondToChallenge(cfg, o, i, j, t2, ok2);
        }
      }
      orders := orders[order := o];
    }

    method Issue(ca: nat, account: nat, order: nat, csr: CsrInput, outcome: Issuance, t1: int, t2: int)
      returns (p: Option<Problem>)
      modifies this
      ensures (View(), p) == Next(cfg, old(View()), FinalizeOrder(ca, account, order, csr, outcome, t1, t2))
    {
      p := LoadOrder(ca, account, order);
      if p.Some? {
        return;
      }
      var before := orders[order];
      var o := DeriveStatus(before, t1);
      o := DeriveStatus(o, t2);
      if o.status.OrValid? {
      } else if !o.status.OrReady? {
        p := Some(OrderNotReady);
      } else if !CsrMatches(cfg, o, csr) {
        p := Some(BadCsr);
      } else {
        match outcome {
          case NoProfile =>
            o, p := before, Some(ServerInternal);
          case Refused =>
            o, p := o.(status := OrInvalid), Some(BadCsr);
          case Crashed =>
            o, p := o.(status := OrProcessing), Some(ServerInternal);
          case Issued =>
            o := o.(status := OrValid, certificate := Some(Certificate(csr.cns, csr.dns)));
        }
      }
      orders := orders[order := o];
    }

    method HandOutNonce(nonce: string, now: int)
      requires Enabled(View(), IssueNonce(nonce, now))
      modifies this
      ensures View() == Next(cfg, old(View()), IssueNonce(nonce, now)).0
    {
      nonces, issued := nonces[nonce := now], issued + {nonce};
    }

    /** True when the nonce existed and was not stale; it is spent either way. */
    method TakeNonce(nonce: string, now: int) returns (ok: bool)
      modifies this
      ensures View() == Next(cfg, old(View()), ConsumeNonce(nonce, now)).0
      ensures ok <==> Next(cfg, old(View()), ConsumeNonce(nonce, now)).1.None?
      ensures ok ==> nonce in old(nonces) && accepted == old(accepted) + [nonce]
    {
      if |nonce| > 64 || nonce !in nonces {
        return false;
      }
      ok := nonces[nonce] >= now - cfg.nonceLifetime;
      nonces := nonces - {nonce};
      if ok {
        accepted := accepted + [nonce];
      }
    }

    /** The hourly pass: stale orders, stale authorizations, stale nonces. */
    method Expire(now: int)
      modifies this
      ensures View() == Next(cfg, old(View()), Maintain(now)).0
    {
      orders := ExpireOrders(orders, now);
      assert orders == Next(cfg, old(View()), Maintain(now)).0.orders;
      nonces := map n | n in nonces && nonces[n] >= now - cfg.nonceLifetime :: nonces[n];
    }
  }

  /** Overdue orders and authorizations expire, one order after the other. */
  method ExpireOrders(orders: map<nat, Order>, now: int) returns (r: map<nat, Order>)
    ensures r.Keys == orders.Keys && forall o :: o in orders ==> r[o] == MaintainOrder(orders[o], now)
  {
    r := orders;
    var todo := orders.Keys;
    while todo != {}
      invariant r.Keys == orders.Keys && todo <= orders.Keys
      invariant forall o :: o in orders ==> r[o] == if o in todo then orders[o] else MaintainOrder(orders[o], now)
    {
      var id :| id in todo;
      var o := r[id];
      if !Final(o.status) && o.expires <= now {
        o := o.(status := OrInvalid);
      }
      r := r[id := o.(authzs := RefreshedAuthzs(o, now))];
      todo := todo - {id};
    }
  }

  /** The unfinished orders of an account become invalid. */
  method AbandonOrders(orders: map<nat, Order>, account: nat) returns (r: map<nat, Order>)
    ensures r.Keys == orders.Keys
    ensures forall o :: o in orders ==> r[o] == if orders[o].account == account then AbandonOrder(orders[o]) else orders[o]
  {
    r := orders;
    var todo := set o | o in orders && orders[o].account == account && !Final(orders[o].status);
    while todo != {}
      invariant r.Keys == orders.Keys && todo <= orders.Keys
      invariant forall o :: o in orders ==>
        r[o] == if o in todo || orders[o].account != account then orders[o] else AbandonOrder(orders[o])
    {
      var o :| o in todo;
      r := r[o := r[o].(status := OrInvalid)];
      todo := todo - {o};
    }
  }

  /** The first bad item decides the answer. */
  lemma {:induction false} ErrorsStick(cfg: Config, allowWildcards: bool, raw: seq<RawItem>, k: nat, n: nat)
    requires k <= n <= |raw| && ParsePrefix(cfg, allowWildcards, raw, k).Err?
    ensures ParsePrefix(cfg, allowWildcards, raw, n) == ParsePrefix(cfg, allowWildcards, raw, k)
  {
    if k < n {
      ErrorsStick(cfg, allowWildcards, raw, k, n - 1);
    }
  }

  /** `refresh_order`: refreshes each authorization and derives the order's status. */
  method DeriveStatus(o: Order, now: int) returns (r: Order)
    ensures r == RefreshOrder(o, now)
  {
    r := o;
    if Final(o.status) {
      return;
    }
    if o.expires <= now {
      return o.(status := OrInvalid);
    }
    var failed, valid, k := false, true, 0;
    while k < |o.authzs|
      invariant 0 <= k <= |o.authzs|
      invariant r == o.(authzs := r.authzs) && |r.authzs| == |o.authzs|
      invariant forall i :: 0 <= i < |o.authzs| ==>
        r.authzs[i] == if i < k then RefreshAuthz(o.authzs[i], now) else o.authzs[i]
      invariant failed <==> exists i :: 0 <= i < k && HasFailed(RefreshAuthz(o.authzs[i], now))
      invariant valid <==> forall i :: 0 <= i < k ==> RefreshAuthz(o.authzs[i], now).status.AzValid?
    {
      var a := o.authzs[k];
      if a.status.AzPending? && a.expires <= now {
        a := a.(status := AzExpired);
      }
      r := r.(authzs := r.authzs[k := a]);
      failed, valid := failed || HasFailed(a), valid && a.status.AzValid?;
      k := k + 1;
    }
    assert r.authzs == RefreshedAuthzs(o, now);
    assert failed <==> AnyFailed(r.authzs);
    assert valid <==> AllValid(r.authzs);
    if failed {
      r := r.(status := OrInvalid);
    } else if |r.authzs| > 0 && valid && o.status.OrPending? {
      r := r.(status := OrReady);
    }
  }

  /** `_refresh_authz` with an attempt: at most one due lookup runs. */
  method RunDueLookup(cfg: Config, o: Order, i: nat, now: int, ok: bool) returns (r: Order)
    requires i < |o.authzs|
    ensures r == PollAuthz(cfg, o, i, now, ok)
  {
    r := o;
    var a := o.authzs[i];
    if a.status.AzPending? && a.expires <= now {
      return WithAuthz(o, i, a.(status := AzExpired));
    }
    if a.status.AzPending? {
      for j := 0 to |a.challenges|
        invariant r == o && FirstDue(a.challenges, 0, now) == FirstDue(a.challenges, j, now)
      {
        var c := a.challenges[j];
        if c.kind.Dns01? && c.status.ChProcessing? && c.nextAttempt.Some? && c.nextAttempt.value <= now {
          r := DeriveStatus(WithAuthz(o, i, AttemptDns01(cfg, a, j, now, ok)), now);
          return;
        }
      }
    }
  }

  /** `respond_challenge`. */
  method RespondToChallenge(cfg: Config, o: Order, i: nat, j: nat, now: int, ok: bool) returns (r: Order)
    requires i < |o.authzs| && j < |o.authzs[i].challenges|
    ensures r == Respond(cfg, o, i, j, now, ok)
  {
    var a := RefreshAuthz(o.authzs[i], now);
    r := WithAuthz(o, i, a);
    var c := a.challenges[j];
    if !c.status.ChPending? || !a.status.AzPending? {
      return;
    }
    if o.expires <= now {
      r := DeriveStatus(r, now);
      return;
    }
    a := WithChallenge(a, j, c.(status := ChProcessing));
    if c.kind.Dns01? {
      a := AttemptDns01(cfg, a, j, now, ok);
    } else {
      a := Fetch(a, j, now, ok);
    }
    r := DeriveStatus(WithAuthz(r, i, a), now);
  }
}
