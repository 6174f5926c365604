/**
 What every request and maintenance step keeps of one ACME order, and the order
 in which its statuses move.
 */
module AcmeInvariants {
  import opened Prelude
  import opened AcmeOrders

  // ---------------------------------------------------------------------------
  // The invariant of an order
  // ---------------------------------------------------------------------------

  ghost predicate Spaced(probes: seq<Probe>, i: int, gap: int)
    requires 0 < i < |probes|
  {
    probes[i - 1].at + gap <= probes[i].at
  }

  /** Each lookup comes at least the retry gap after the one before. */
  ghost predicate SpacedBy(probes: seq<Probe>, gap: int) {
    forall i :: 0 < i < |probes| ==> Spaced(probes, i, gap)
  }

  /** Every check but the last failed. */
  ghost predicate FailedBefore(probes: seq<Probe>) {
    forall i :: 0 <= i < |probes| - 1 ==> !probes[i].ok
  }

  function LastOk(c: Challenge): bool {
    c.probes != [] && c.probes[|c.probes| - 1].ok
  }

  /** The status says what the checks found: valid after a success, invalid after a
      failure, and until then no check succeeded. */
  ghost predicate Truthful(c: Challenge) {
    && FailedBefore(c.probes)
    && (c.status.ChValid? <==> LastOk(c))
    && (c.status.ChPending? ==> c.probes == [])
    && (c.status.ChInvalid? ==> c.probes != [])
  }

  /** No time or no attempt was left for another lookup after the last one. */
  ghost predicate GaveUp(cfg: Config, expires: int, c: Challenge) {
    c.probes != [] &&
    (c.attempts == cfg.Limit() || expires <= c.probes[|c.probes| - 1].at + cfg.Retry())
  }

  /** The retry discipline of a challenge of an authorization that ends at `expires`. */
  ghost predicate Disciplined(cfg: Config, expires: int, c: Challenge) {
    && Truthful(c)
    && (c.kind.Http01? ==> c.attempts == 0 && |c.probes| <= 1 && !c.status.ChProcessing?)
    && (c.kind.Dns01? ==> c.attempts == |c.probes| <= cfg.Limit() && SpacedBy(c.probes, cfg.Retry()))
    && (c.kind.Dns01? && c.status.ChInvalid? ==> GaveUp(cfg, expires, c))
    && (!c.status.ChProcessing? ==> c.nextAttempt.None?)
    && (c.status.ChProcessing? ==>
          && 1 <= c.attempts < cfg.Limit()
          && c.nextAttempt == Some(c.probes[|c.probes| - 1].at + cfg.Retry())
          && c.nextAttempt.value < expires)
  }

  /** Exactly the challenge at `k` has the status `s`. */
  ghost predicate OnlyAt(cs: seq<Challenge>, k: int, s: ChallengeStatus) {
    0 <= k < |cs| && forall j :: 0 <= j < |cs| ==> (cs[j].status == s <==> j == k)
  }

  ghost predicate NoneHas(cs: seq<Challenge>, s: ChallengeStatus) {
    forall j :: 0 <= j < |cs| ==> cs[j].status != s
  }

  /** A settled authorization has exactly one challenge of its own outcome and none
      of the other; any other authorization has no settled challenge. */
  ghost predicate Settled(a: Authz) {
    match a.status
    case AzValid => NoneHas(a.challenges, ChInvalid) && exists k :: OnlyAt(a.challenges, k, ChValid)
    case AzInvalid => NoneHas(a.challenges, ChValid) && exists k :: OnlyAt(a.challenges, k, ChInvalid)
    case _ => NoneHas(a.challenges, ChValid) && NoneHas(a.challenges, ChInvalid)
  }

  ghost predicate AuthzInv(cfg: Config, a: Authz) {
    && (a.wildcard ==> forall j :: 0 <= j < |a.challenges| ==> a.challenges[j].kind.Dns01?)
    && (forall j :: 0 <= j < |a.challenges| ==> Disciplined(cfg, a.expires, a.challenges[j]))
    && Settled(a)
  }

  /** Authorization `i` stands for identifier `i` and shares the order's expiry. */
  ghost predicate Paired(o: Order, i: int)
    requires 0 <= i < |o.authzs| && i < |o.identifiers|
  {
    && Display(o.authzs[i]) == o.identifiers[i]
    && o.authzs[i].base == BaseOf(o.identifiers[i])
    && o.authzs[i].wildcard == IsWildcard(o.identifiers[i])
    && o.authzs[i].expires == o.expires
  }

  /** The authorizations match the identifiers one to one. */
  ghost predicate Matched(o: Order) {
    && o.identifiers != [] && Distinct(o.identifiers)
    && |o.authzs| == |o.identifiers|
    && forall i :: 0 <= i < |o.authzs| ==> Paired(o, i)
  }

  predicate Authorized(s: OrderStatus) {
    s.OrReady? || s.OrProcessing? || s.OrValid?
  }

  ghost predicate OrderInv(cfg: Config, o: Order) {
    && Matched(o)
    && (forall i :: 0 <= i < |o.authzs| ==> AuthzInv(cfg, o.authzs[i]))
    && (Authorized(o.status) ==> AllValid(o.authzs))
    && (o.status.OrValid? ==> o.certificate.Some? && Passes(cfg, o, o.certificate.value.cns, o.certificate.value.sans))
  }

  // ---------------------------------------------------------------------------
  // Forward motion
  // ---------------------------------------------------------------------------

  function OrderRank(s: OrderStatus): nat {
    match s
    case OrPending => 0
    case OrReady => 1
    case OrProcessing => 2
    case OrValid => 3
    case OrInvalid => 3
  }

  function AuthzRank(s: AuthzStatus): nat {
    if s.AzPending? then 0 else 1
  }

  function ChallengeRank(s: ChallengeStatus): nat {
    match s
    case ChPending => 0
    case ChProcessing => 1
    case ChValid => 2
    case ChInvalid => 2
  }

  /** Checks are only added, and the status only rises. */
  ghost predicate ChallengeAdvances(c: Challenge, d: Challenge) {
    && d.kind == c.kind
    && (d.status == c.status || ChallengeRank(c.status) < ChallengeRank(d.status))
    && |c.probes| <= |d.probes| && d.probes[..|c.probes|] == c.probes
  }

  ghost predicate AuthzAdvances(a: Authz, b: Authz) {
    && b.base == a.base && b.wildcard == a.wildcard && b.expires == a.expires
    && (b.status == a.status || AuthzRank(a.status) < AuthzRank(b.status))
    && |b.challenges| == |a.challenges|
    && forall j :: 0 <= j < |a.challenges| ==> ChallengeAdvances(a.challenges[j], b.challenges[j])
  }

  /** Every status of the order moved forward or stayed, and what identifies the
      order did not change. A final status has the highest rank, so it stays. */
  ghost predicate Advances(o: Order, p: Order) {
    && p.account == o.account && p.ca == o.ca && p.identifiers == o.identifiers && p.expires == o.expires
    && (p.status == o.status || OrderRank(o.status) < OrderRank(p.status))
    && (Final(o.status) ==> p.certificate == o.certificate)
    && |p.authzs| == |o.authzs|
    && forall i :: 0 <= i < |o.authzs| ==> AuthzAdvances(o.authzs[i], p.authzs[i])
  }

  lemma ChallengeAdvancesTrans(a: Challenge, b: Challenge, c: Challenge)
    requires ChallengeAdvances(a, b) && ChallengeAdvances(b, c)
    ensures ChallengeAdvances(a, c)
  {
    assert c.probes[..|a.probes|] == c.probes[..|b.probes|][..|a.probes|];
  }

  lemma AuthzAdvancesTrans(a: Authz, b: Authz, c: Authz)
    requires AuthzAdvances(a, b) && AuthzAdvances(b, c)
    ensures AuthzAdvances(a, c)
  {
    forall j | 0 <= j < |a.challenges|
      ensures ChallengeAdvances(a.challenges[j], c.challenges[j])
    {
      ChallengeAdvancesTrans(a.challenges[j], b.challenges[j], c.challenges[j]);
    }
  }

  lemma AdvancesTrans(a: Order, b: Order, c: Order)
    requires Advances(a, b) && Advances(b, c)
    ensures Advances(a, c)
  {
    forall i | 0 <= i < |a.authzs|
      ensures AuthzAdvances(a.authzs[i], c.authzs[i])
    {
      AuthzAdvancesTrans(a.authzs[i], b.authzs[i], c.authzs[i]);
    }
  }

  lemma ChallengeStays(c: Challenge)
    ensures ChallengeAdvances(c, c)
  {
    assert c.probes[..|c.probes|] == c.probes;
  }

  lemma AuthzStays(a: Authz)
    ensures AuthzAdvances(a, a)
  {
    forall j | 0 <= j < |a.challenges|
      ensures ChallengeAdvances(a.challenges[j], a.challenges[j])
    {
      ChallengeStays(a.challenges[j]);
    }
  }

  lemma OrderStays(o: Order)
    ensures Advances(o, o)
  {
    forall i | 0 <= i < |o.authzs|
      ensures AuthzAdvances(o.authzs[i], o.authzs[i])
    {
      AuthzStays(o.authzs[i]);
    }
  }

  // ---------------------------------------------------------------------------
  // Steps of an authorization
  // ---------------------------------------------------------------------------

  /** `b` is a legitimate successor of `a`. */
  ghost predicate AuthzStep(cfg: Config, a: Authz, b: Authz) {
    AuthzInv(cfg, a) ==> AuthzInv(cfg, b) && AuthzAdvances(a, b)
  }

  /** Leaving `pending` without a settlement: expiry and deactivation. */
  lemma LeavePending(cfg: Config, a: Authz, s: AuthzStatus)
    requires a.status.AzPending? && (s.AzExpired? || s.AzDeactivated?)
    ensures AuthzStep(cfg, a, a.(status := s))
  {
    AuthzStays(a);
  }

  lemma RefreshAuthzStep(cfg: Config, a: Authz, now: int)
    ensures AuthzStep(cfg, a, RefreshAuthz(a, now))
  {
    AuthzStays(a);
  }

  /** A new version of one challenge that keeps its discipline and settles nothing. */
  lemma ChallengeStep(cfg: Config, a: Authz, j: nat, c: Challenge)
    requires AuthzInv(cfg, a) && j < |a.challenges| && a.status.AzPending?
    requires ChallengeAdvances(a.challenges[j], c) && Disciplined(cfg, a.expires, c)
    requires !c.status.ChValid? && !c.status.ChInvalid?
    ensures AuthzInv(cfg, WithChallenge(a, j, c)) && AuthzAdvances(a, WithChallenge(a, j, c))
  {
    AuthzStays(a);
  }

  /** A new version of one challenge that settles the authorization. */
  lemma SettleStep(cfg: Config, a: Authz, j: nat, c: Challenge, ok: bool)
    requires AuthzInv(cfg, a) && j < |a.challenges| && a.status.AzPending?
    requires c.status == if ok then ChValid else ChInvalid
    requires ChallengeAdvances(a.challenges[j], c) && Disciplined(cfg, a.expires, c)
    ensures var b := WithChallenge(a, j, c).(status := if ok then AzValid else AzInvalid);
      AuthzInv(cfg, b) && AuthzAdvances(a, b)
  {
    AuthzStays(a);
    var b := WithChallenge(a, j, c).(status := if ok then AzValid else AzInvalid);
    assert OnlyAt(b.challenges, j, c.status);
  }

  /** The gap holds for a lookup made when the challenge was pending or due. */
  lemma ProbeSpaced(probes: seq<Probe>, p: Probe, gap: int)
    requires SpacedBy(probes, gap) && (probes != [] ==> probes[|probes| - 1].at + gap <= p.at)
    ensures SpacedBy(probes + [p], gap)
  {
    forall i | 0 < i < |probes| + 1
      ensures Spaced(probes + [p], i, gap)
    {
      assert i < |probes| ==> Spaced(probes, i, gap);
    }
  }

  /** A challenge on which a lookup may be made now: pending, or due. */
  ghost predicate Lookable(c: Challenge, now: int) {
    c.kind.Dns01? && (c.status.ChPending? || Due(c, now))
  }

  /** The challenge after one more lookup, before its status is decided. */
  function Probed(c: Challenge, now: int, ok: bool): Challenge {
    c.(attempts := c.attempts + 1, probes := c.probes + [Probe(now, ok)], nextAttempt := None)
  }

  /** The challenge as `_attempt_dns01` leaves it. */
  function Outcome(cfg: Config, expires: int, c: Challenge, now: int, ok: bool): Challenge {
    var d := Probed(c, now, ok);
    if ok then d.(status := ChValid)
    else if d.attempts < cfg.Limit() && expires > now + cfg.Retry() then
      d.(status := ChProcessing, nextAttempt := Some(now + cfg.Retry()))
    else d.(status := ChInvalid)
  }

  lemma OutcomeDisciplined(cfg: Config, expires: int, c: Challenge, now: int, ok: bool)
    requires Disciplined(cfg, expires, c) && Lookable(c, now)
    ensures Disciplined(cfg, expires, Outcome(cfg, expires, c, now, ok))
    ensures ChallengeAdvances(c, Outcome(cfg, expires, c, now, ok))
  {
    ProbeSpaced(c.probes, Probe(now, ok), cfg.Retry());
    var d := Outcome(cfg, expires, c, now, ok);
    assert d.probes[..|c.probes|] == c.probes;
  }

  /** One dns-01 attempt on a pending authorization, marked as processing first. */
  lemma AttemptStep(cfg: Config, a: Authz, j: nat, now: int, ok: bool)
    requires AuthzInv(cfg, a) && j < |a.challenges| && a.status.AzPending? && Lookable(a.challenges[j], now)
    ensures var marked := WithChallenge(a, j, a.challenges[j].(status := ChProcessing));
      var b := AttemptDns01(cfg, marked, j, now, ok);
      AuthzInv(cfg, b) && AuthzAdvances(a, b)
  {
    var c, d := a.challenges[j], Outcome(cfg, a.expires, a.challenges[j], now, ok);
    OutcomeDisciplined(cfg, a.expires, c, now, ok);
    if d.status.ChProcessing? {
      ChallengeStep(cfg, a, j, d);
    } else {
      SettleStep(cfg, a, j, d, ok);
    }
    AttemptIsOutcome(cfg, a, j, now, ok);
  }

  lemma AttemptIsOutcome(cfg: Config, a: Authz, j: nat, now: int, ok: bool)
    requires j < |a.challenges|
    ensures var d := Outcome(cfg, a.expires, a.challenges[j], now, ok);
      AttemptDns01(cfg, WithChallenge(a, j, a.challenges[j].(status := ChProcessing)), j, now, ok)
      == if d.status.ChProcessing? then WithChallenge(a, j, d)
         else WithChallenge(a, j, d).(status := if ok then AzValid else AzInvalid)
  {
  }

  /** A due challenge is already processing, so marking it changes nothing. */
  lemma DueAttemptStep(cfg: Config, a: Authz, j: nat, now: int, ok: bool)
    requires AuthzInv(cfg, a) && j < |a.challenges| && a.status.AzPending? && Due(a.challenges[j], now)
    ensures AuthzInv(cfg, AttemptDns01(cfg, a, j, now, ok))
    ensures AuthzAdvances(a, AttemptDns01(cfg, a, j, now, ok))
  {
    AttemptStep(cfg, a, j, now, ok);
    assert a.challenges[j := a.challenges[j].(status := ChProcessing)] == a.challenges;
  }

  lemma FetchStep(cfg: Config, a: Authz, j: nat, now: int, ok: bool)
    requires AuthzInv(cfg, a) && j < |a.challenges| && a.status.AzPending?
    requires a.challenges[j].kind.Http01? && a.challenges[j].status.ChPending?
    ensures var marked := WithChallenge(a, j, a.challenges[j].(status := ChProcessing));
      AuthzInv(cfg, Fetch(marked, j, now, ok)) && AuthzAdvances(a, Fetch(marked, j, now, ok))
  {
    var c := a.challenges[j];
    c := c.(status := if ok then ChValid else ChInvalid, probes := c.probes + [Probe(now, ok)]);
    SettleStep(cfg, a, j, c, ok);
    var marked := WithChallenge(a, j, a.challenges[j].(status := ChProcessing));
    assert Fetch(marked, j, now, ok) == WithChallenge(a, j, c).(status := if ok then AzValid else AzInvalid);
  }

  // ---------------------------------------------------------------------------
  // Steps of an order
  // ---------------------------------------------------------------------------

  ghost predicate OrderStep(cfg: Config, o: Order, p: Order) {
    OrderInv(cfg, p) && Advances(o, p)
  }

  /** Replacing an authorization that was not yet valid by a successor. */
  lemma WithAuthzStep(cfg: Config, o: Order, i: nat, a: Authz)
    requires OrderInv(cfg, o) && i < |o.authzs| && AuthzInv(cfg, a) && AuthzAdvances(o.authzs[i], a)
    ensures OrderStep(cfg, o, WithAuthz(o, i, a))
  {
    OrderStays(o);
    var p := WithAuthz(o, i, a);
    forall k | 0 <= k < |p.authzs|
      ensures Paired(p, k)
    {
      assert Paired(o, k);
    }
  }

  /** An order may move to `invalid` until it is final. */
  lemma InvalidateStep(cfg: Config, o: Order)
    requires OrderInv(cfg, o) && !Final(o.status)
    ensures OrderStep(cfg, o, o.(status := OrInvalid))
  {
    OrderStays(o);
    var p := o.(status := OrInvalid);
    forall k | 0 <= k < |p.authzs|
      ensures Paired(p, k)
    {
      assert Paired(o, k);
    }
  }

  lemma RefreshedStep(cfg: Config, o: Order, now: int)
    requires OrderInv(cfg, o)
    ensures OrderStep(cfg, o, o.(authzs := RefreshedAuthzs(o, now)))
  {
    var p := o.(authzs := RefreshedAuthzs(o, now));
    forall i | 0 <= i < |o.authzs|
      ensures AuthzInv(cfg, p.authzs[i]) && AuthzAdvances(o.authzs[i], p.authzs[i]) && Paired(p, i)
    {
      RefreshAuthzStep(cfg, o.authzs[i], now);
      assert Paired(o, i);
    }
  }

  lemma ReadyStep(cfg: Config, o: Order)
    requires OrderInv(cfg, o) && o.status.OrPending? && AllValid(o.authzs)
    ensures OrderStep(cfg, o, o.(status := OrReady))
  {
    OrderStays(o);
    var p := o.(status := OrReady);
    forall k | 0 <= k < |p.authzs|
      ensures Paired(p, k)
    {
      assert Paired(o, k);
    }
  }

  lemma {:induction false} RefreshOrderStep(cfg: Config, o: Order, now: int)
    requires OrderInv(cfg, o)
    ensures OrderStep(cfg, o, RefreshOrder(o, now))
  {
    OrderStays(o);
    if Final(o.status) {
    } else if o.expires <= now {
      InvalidateStep(cfg, o);
    } else {
      var p := o.(authzs := RefreshedAuthzs(o, now));
      RefreshedStep(cfg, o, now);
      if AnyFailed(p.authzs) {
        InvalidateStep(cfg, p);
        AdvancesTrans(o, p, p.(status := OrInvalid));
      } else if p.authzs != [] && AllValid(p.authzs) && o.status.OrPending? {
        ReadyStep(cfg, p);
        AdvancesTrans(o, p, p.(status := OrReady));
      }
    }
  }

  lemma ChangeThenRefresh(cfg: Config, o: Order, i: nat, a: Authz, now: int)
    requires OrderInv(cfg, o) && i < |o.authzs| && AuthzInv(cfg, a) && AuthzAdvances(o.authzs[i], a)
    ensures OrderStep(cfg, o, RefreshOrder(WithAuthz(o, i, a), now))
  {
    var p := WithAuthz(o, i, a);
    WithAuthzStep(cfg, o, i, a);
    RefreshOrderStep(cfg, p, now);
    AdvancesTrans(o, p, RefreshOrder(p, now));
  }

  lemma {:induction false} PollAuthzStep(cfg: Config, o: Order, i: nat, now: int, ok: bool)
    requires OrderInv(cfg, o) && i < |o.authzs|
    ensures OrderStep(cfg, o, PollAuthz(cfg, o, i, now, ok))
  {
    OrderStays(o);
    var a := o.authzs[i];
    var j := FirstDue(a.challenges, 0, now);
    if a.status.AzPending? {
      if a.expires <= now {
        LeavePending(cfg, a, AzExpired);
        WithAuthzStep(cfg, o, i, a.(status := AzExpired));
      } else if j < |a.challenges| {
        DueAttemptStep(cfg, a, j, now, ok);
        ChangeThenRefresh(cfg, o, i, AttemptDns01(cfg, a, j, now, ok), now);
      }
    }
  }

  lemma DeactivateAuthzStep(cfg: Config, o: Order, i: nat, now: int)
    requires OrderInv(cfg, o) && i < |o.authzs|
    ensures OrderStep(cfg, o, DeactivateAuthz(o, i, now))
  {
    OrderStays(o);
    if o.authzs[i].status.AzPending? {
      LeavePending(cfg, o.authzs[i], AzDeactivated);
      ChangeThenRefresh(cfg, o, i, o.authzs[i].(status := AzDeactivated), now);
    }
  }

  lemma {:induction false} RespondStep(cfg: Config, o: Order, i: nat, j: nat, now: int, ok: bool)
    requires OrderInv(cfg, o) && i < |o.authzs| && j < |o.authzs[i].challenges|
    ensures OrderStep(cfg, o, Respond(cfg, o, i, j, now, ok))
  {
    var a := RefreshAuthz(o.authzs[i], now);
    var o1 := WithAuthz(o, i, a);
    RefreshAuthzStep(cfg, o.authzs[i], now);
    WithAuthzStep(cfg, o, i, a);
    if a.challenges[j].status.ChPending? && a.status.AzPending? {
      if o.expires <= now {
        RefreshOrderStep(cfg, o1, now);
        AdvancesTrans(o, o1, RefreshOrder(o1, now));
      } else {
        var started := WithChallenge(a, j, a.challenges[j].(status := ChProcessing));
        var a' := if a.challenges[j].kind.Dns01? then AttemptDns01(cfg, started, j, now, ok) else Fetch(started, j, now, ok);
        if a.challenges[j].kind.Dns01? {
          AttemptStep(cfg, a, j, now, ok);
        } else {
          FetchStep(cfg, a, j, now, ok);
        }
        ChangeThenRefresh(cfg, o1, i, a', now);
        AdvancesTrans(o, o1, RefreshOrder(WithAuthz(o1, i, a'), now));
      }
    }
  }

  /** The expiry test in `respond_challenge` never fires: by then an expired order's
      authorization has expired with it. */
  lemma RespondNeverSeesAnExpiredOrder(cfg: Config, o: Order, i: nat, now: int)
    requires OrderInv(cfg, o) && i < |o.authzs| && RefreshAuthz(o.authzs[i], now).status.AzPending?
    ensures now < o.expires
  {
    assert Paired(o, i);
  }

  lemma FormsOfOne(cfg: Config, name: string)
    ensures Forms(cfg, [name]) == {cfg.nameForm(name)}
  {
    assert [name][0] == name;
    assert cfg.nameForm([name][0]) in Forms(cfg, [name]);
  }

  /** A CSR passes the checks exactly when a certificate with its SANs and its first CN
      alone would carry the order's identifiers, it asks for no other kind of name, and
      that CN is one of them. */
  lemma CsrMatchesExactly(cfg: Config, o: Order, csr: CsrInput)
    requires csr.Csr? && o.identifiers != [] && "" !in Wanted(o)
    ensures CsrMatches(cfg, o, csr) <==>
      && !csr.otherNames
      && NamesOf(cfg, Certificate(if csr.cns == [] then [] else [csr.cns[0]], csr.dns)) == Wanted(o)
      && (csr.cns != [] && cfg.nameForm(csr.cns[0]) != "" ==> cfg.nameForm(csr.cns[0]) in Wanted(o))
  {
    assert o.identifiers[0] in Wanted(o);
    if csr.dns != [] {
      assert cfg.nameForm(csr.dns[0]) in Forms(cfg, csr.dns);
    } else if csr.cns != [] {
      FormsOfOne(cfg, csr.cns[0]);
    }
  }

  /** The certificate has SANs, or all its CNs are one name. */
  predicate OneName(cfg: Config, c: Certificate) {
    c.sans != [] || forall i :: 0 <= i < |c.cns| ==> cfg.nameForm(c.cns[i]) == cfg.nameForm(c.cns[0])
  }

  /** The CNs that no check reads: all but the first, and a first one that is blank. */
  predicate Unread(cfg: Config, c: Certificate, i: int)
    requires 0 <= i < |c.cns|
  {
    i > 0 || cfg.nameForm(c.cns[i]) == ""
  }

  predicate UnreadAreOrdered(cfg: Config, o: Order, c: Certificate) {
    forall i :: 0 <= i < |c.cns| && Unread(cfg, c, i) ==> cfg.nameForm(c.cns[i]) in Wanted(o)
  }

  /** A certificate from an accepted CSR carries exactly the ordered names if and only if
      it has SANs or all its CNs are one name. */
  lemma NamesMatchIffOneName(cfg: Config, o: Order, c: Certificate)
    requires o.identifiers != [] && Passes(cfg, o, c.cns, c.sans)
    ensures NamesOf(cfg, c) == Wanted(o) <==> OneName(cfg, c)
  {
    assert o.identifiers[0] in Wanted(o);
    if c.sans != [] {
      assert cfg.nameForm(c.sans[0]) in Forms(cfg, c.sans);
    } else {
      var first := cfg.nameForm(c.cns[0]);
      assert Wanted(o) == {first} && first in Forms(cfg, c.cns);
      if Forms(cfg, c.cns) == {first} {
        forall i | 0 <= i < |c.cns|
          ensures cfg.nameForm(c.cns[i]) == first
        {
          assert cfg.nameForm(c.cns[i]) in Forms(cfg, c.cns);
        }
      }
    }
  }

  /** SANs and CNs together are exactly the ordered names if and only if the CNs that no
      check reads happen to be among them. */
  lemma AllNamesMatchIffUnreadOrdered(cfg: Config, o: Order, c: Certificate)
    requires o.identifiers != [] && Passes(cfg, o, c.cns, c.sans)
    ensures Forms(cfg, c.sans) + Forms(cfg, c.cns) == Wanted(o) <==> UnreadAreOrdered(cfg, o, c)
  {
    assert o.identifiers[0] in Wanted(o);
    if c.sans != [] {
      assert cfg.nameForm(c.sans[0]) in Forms(cfg, c.sans);
    } else {
      assert cfg.nameForm(c.cns[0]) in Forms(cfg, c.cns);
    }
    forall i | 0 <= i < |c.cns|
      ensures cfg.nameForm(c.cns[i]) in Forms(cfg, c.cns)
    {
    }
  }

  /** A refreshed order is current: still usable means unexpired and without a failed
      authorization, and ready is decided by the authorizations alone. */
  lemma RefreshedIsCurrent(cfg: Config, o: Order, now: int)
    requires OrderInv(cfg, o)
    ensures var r := RefreshOrder(o, now);
      && (!Final(r.status) ==> now < o.expires && !AnyFailed(r.authzs))
      && (o.status.OrPending? && now < o.expires && !AnyFailed(r.authzs) ==> (r.status.OrReady? <==> AllValid(r.authzs)))
      && (Final(o.status) ==> r == o)
      && (forall i :: 0 <= i < |o.authzs| && !Final(r.status) && r.authzs[i].status.AzPending? ==> now < o.expires)
  {
  }

  /** An order becomes valid only by a finalize request that found it ready and
      unexpired and whose CSR matched; the certificate carries the names of that CSR. */
  lemma IssuedOnlyWhenReady(cfg: Config, o: Order, csr: CsrInput, outcome: Issuance, t1: int, t2: int)
    requires OrderInv(cfg, o) && !o.status.OrValid?
    ensures FinalizeRequest(cfg, o, csr, outcome, t1, t2).0.status.OrValid? <==>
      && outcome.Issued? && CsrMatches(cfg, o, csr)
      && RefreshOrder(RefreshOrder(o, t1), t2).status.OrReady?
    ensures FinalizeRequest(cfg, o, csr, outcome, t1, t2).0.status.OrValid? ==>
      t1 < o.expires && t2 < o.expires && AllValid(o.authzs) && csr.Csr?
      && FinalizeRequest(cfg, o, csr, outcome, t1, t2).0.certificate == Some(Certificate(csr.cns, csr.dns))
  {
    var o1, o2 := RefreshOrder(o, t1), RefreshOrder(RefreshOrder(o, t1), t2);
    assert Wanted(o2) == Wanted(o);
    RefreshOrderStep(cfg, o, t1);
    RefreshOrderStep(cfg, o1, t2);
    if o2.status.OrReady? {
      forall i | 0 <= i < |o.authzs|
        ensures o.authzs[i].status.AzValid?
      {
        assert o2.authzs[i].status.AzValid?;
        assert o1.authzs[i].status.AzValid?;
      }
    }
  }

  lemma FinishStep(cfg: Config, o: Order, s: OrderStatus, cert: Option<Certificate>)
    requires OrderInv(cfg, o) && o.status.OrReady? && !s.OrPending? && !s.OrReady?
    requires s.OrValid? ==> cert.Some? && Passes(cfg, o, cert.value.cns, cert.value.sans)
    ensures OrderStep(cfg, o, o.(status := s, certificate := cert))
  {
    OrderStays(o);
    var p := o.(status := s, certificate := cert);
    assert Wanted(p) == Wanted(o);
    forall k | 0 <= k < |p.authzs|
      ensures Paired(p, k)
    {
      assert Paired(o, k);
    }
  }

  lemma FinalizeStep(cfg: Config, o: Order, csr: CsrInput, outcome: Issuance, now: int)
    requires OrderInv(cfg, o)
    ensures OrderStep(cfg, o, Finalize(cfg, o, csr, outcome, now).0)
  {
    var o1 := RefreshOrder(o, now);
    RefreshOrderStep(cfg, o, now);
    if o1.status.OrReady? && CsrMatches(cfg, o1, csr) {
      var p := Finalize(cfg, o, csr, outcome, now).0;
      if p.status != OrReady {
        FinishStep(cfg, o1, p.status, p.certificate);
        AdvancesTrans(o, o1, p);
      }
    }
  }

  lemma {:induction false} FinalizeRequestStep(cfg: Config, o: Order, csr: CsrInput, outcome: Issuance, t1: int, t2: int)
    requires OrderInv(cfg, o)
    ensures OrderStep(cfg, o, FinalizeRequest(cfg, o, csr, outcome, t1, t2).0)
  {
    OrderStays(o);
    RefreshOrderStep(cfg, o, t1);
    FinalizeStep(cfg, RefreshOrder(o, t1), csr, outcome, t2);
    AdvancesTrans(o, RefreshOrder(o, t1), Finalize(cfg, RefreshOrder(o, t1), csr, outcome, t2).0);
  }

  ghost predicate Offers(a: Authz, kind: ChallengeKind) {
    exists j :: 0 <= j < |a.challenges| && a.challenges[j].kind == kind
  }

  /** An authorization nobody has answered yet: for its identifier, with every challenge
      offered for it, only dns-01 for a wildcard. */
  ghost predicate Unanswered(cfg: Config, a: Authz, name: string) {
    && Display(a) == name && a.status.AzPending?
    && (forall kind :: Offers(a, kind) <==> if IsWildcard(name) then kind.Dns01? else kind in cfg.offered)
    && (forall c :: c in a.challenges ==> c.status.ChPending? && c.attempts == 0 && c.probes == [])
  }

  lemma NewAuthzUnanswered(cfg: Config, name: string, expires: int)
    ensures Unanswered(cfg, NewAuthz(cfg, name, expires), name)
  {
    var a, kinds := NewAuthz(cfg, name, expires), KindsFor(cfg, name);
    assert IsWildcard(name) ==> WILDCARD + name[2..] == name;
    assert |a.challenges| == |kinds| && forall j :: 0 <= j < |kinds| ==> a.challenges[j].kind == kinds[j];
    forall kind
      ensures Offers(a, kind) <==> kind in kinds
    {
      if kind in kinds {
        var j :| 0 <= j < |kinds| && kinds[j] == kind;
        assert a.challenges[j].kind == kind;
      }
    }
  }

  /** A new order is pending, with one unanswered authorization per identifier. */
  lemma NewOrderIsUnanswered(cfg: Config, account: nat, ca: nat, names: seq<string>, now: int)
    ensures var o := NewOrder(cfg, account, ca, names, now);
      && o.account == account && o.ca == ca && o.expires == now + cfg.orderLifetime && o.certificate.None?
      && o.status.OrPending? && o.identifiers == names && |o.authzs| == |names|
      && (forall i :: 0 <= i < |names| ==> o.authzs[i].expires == o.expires)
      && forall i :: 0 <= i < |names| ==> Unanswered(cfg, o.authzs[i], names[i])
  {
    forall i | 0 <= i < |names|
      ensures Unanswered(cfg, NewOrder(cfg, account, ca, names, now).authzs[i], names[i])
    {
      NewAuthzUnanswered(cfg, names[i], NewOrder(cfg, account, ca, names, now).expires);
    }
  }

  /** A new order satisfies the invariant. */
  lemma NewOrderInv(cfg: Config, account: nat, ca: nat, names: seq<string>, now: int)
    requires names != [] && Distinct(names)
    ensures OrderInv(cfg, NewOrder(cfg, account, ca, names, now))
  {
    var o := NewOrder(cfg, account, ca, names, now);
    forall i | 0 <= i < |names|
      ensures AuthzInv(cfg, o.authzs[i]) && Paired(o, i)
    {
      assert o.authzs[i] == NewAuthz(cfg, names[i], o.expires);
      assert IsWildcard(names[i]) ==> WILDCARD + names[i][2..] == names[i];
    }
  }

  // ---------------------------------------------------------------------------
  // Maintenance and deactivation
  // ---------------------------------------------------------------------------

  /** What `maintain` does to one order: the two bulk updates. */
  function MaintainOrder(o: Order, now: int): Order {
    var o1 := if !Final(o.status) && o.expires <= now then o.(status := OrInvalid) else o;
    o1.(authzs := RefreshedAuthzs(o1, now))
  }

  /** What deactivating the account does to one of its orders. */
  function AbandonOrder(o: Order): Order {
    if Final(o.status) then o else o.(status := OrInvalid)
  }

  lemma MaintainOrderStep(cfg: Config, o: Order, now: int)
    requires OrderInv(cfg, o)
    ensures OrderStep(cfg, o, MaintainOrder(o, now))
  {
    var o1 := if !Final(o.status) && o.expires <= now then o.(status := OrInvalid) else o;
    OrderStays(o);
    if !Final(o.status) && o.expires <= now {
      InvalidateStep(cfg, o);
    }
    RefreshedStep(cfg, o1, now);
    AdvancesTrans(o, o1, MaintainOrder(o, now));
  }

  lemma AbandonOrderStep(cfg: Config, o: Order)
    requires OrderInv(cfg, o)
    ensures OrderStep(cfg, o, AbandonOrder(o))
  {
    OrderStays(o);
    if !Final(o.status) {
      InvalidateStep(cfg, o);
    }
  }
}
