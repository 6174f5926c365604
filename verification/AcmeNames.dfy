/**
 A common name that nobody checks: `finalize` of app/services/acme/service.py reads the
 first CN of a CSR, and app/services/cert_service.py issues its whole subject.
 */
module AcmeNames {
  import opened Prelude
  import opened AcmeOrders
  import opened AcmeInvariants
  import opened AcmeStates

  /** Settings under which every name is its own normal form. */
  const CFG := Config([Http01], 100, 10, 10, 10, 100, (s: string) => s, (s: string) => s, (s: string) => true)

  const REGISTER := NewAccount(1, false, "key", false, true, NoEab, 1, 0)
  const PLACE := PlaceOrder(1, 1, Some([Item(true, Some("a"))]), false, true, 1, 0)
  const ANSWER := PollChallenge(1, 1, 1, 0, 0, true, 1, false, 1, true)

  function FinalizeWith(cns: seq<string>, sans: seq<string>): Request {
    FinalizeOrder(1, 1, 1, Csr(cns, sans, false), Issued, 2, 2)
  }

  function RunWith(cns: seq<string>, sans: seq<string>): seq<Request> {
    [REGISTER] + [PLACE] + [ANSWER] + [FinalizeWith(cns, sans)]
  }

  lemma PlayOn(cfg: Config, run: seq<Request>, r: Request)
    requires Legal(cfg, run) && Enabled(Play(cfg, run), r)
    ensures Legal(cfg, run + [r]) && Play(cfg, run + [r]) == Next(cfg, Play(cfg, run), r).0
  {
    assert (run + [r])[..|run + [r]| - 1] == run;
  }

  const NEW := Order(1, 1, OrPending, ["a"], 100, [Authz("a", false, AzPending, 100, [NewChallenge(Http01)])], None)
  const READY := Order(1, 1, OrReady, ["a"], 100,
                       [Authz("a", false, AzValid, 100, [Challenge(Http01, ChValid, 0, None, [Probe(1, true)])])], None)

  lemma Placed()
    ensures Legal(CFG, [REGISTER] + [PLACE])
    ensures var s := Play(CFG, [REGISTER] + [PLACE]);
      s.accounts == map[1 := Account(1, "key", true, None)] && s.orders == map[1 := NEW]
  {
    assert [] + [REGISTER] == [REGISTER];
    PlayOn(CFG, [], REGISTER);
    assert Play(CFG, [REGISTER]) == EMPTY.(accounts := map[1 := Account(1, "key", true, None)]);
    PlayOn(CFG, [REGISTER], PLACE);
    ParsesToA();
    assert NewOrder(CFG, 1, 1, ["a"], 0) == NEW by {
      assert NewAuthz(CFG, "a", 100) == NEW.authzs[0];
    }
  }

  lemma ParsesToA()
    ensures ParseIdentifiers(CFG, false, true, PLACE.raw) == Ok(["a"])
  {
    var raw := PLACE.raw.value;
    assert CheckItem(CFG, false, raw[0]) == Ok("a");
    assert ParsePrefix(CFG, false, raw, 0) == Ok([]);
    assert [] + ["a"] == ["a"];
    assert ParsePrefix(CFG, false, raw, 1) == Ok(["a"]);
  }

  /** Nothing is left to refresh in an order for "a" with a valid authorization. */
  lemma RefreshValid(o: Order, now: int)
    requires o.expires > now && |o.authzs| == 1 && o.authzs[0].status.AzValid?
    ensures RefreshOrder(o, now) == if o.status.OrPending? then o.(status := OrReady) else o
  {
    assert RefreshedAuthzs(o, now) == o.authzs;
    assert !AnyFailed(o.authzs) && AllValid(o.authzs);
  }

  lemma Fetched()
    ensures Respond(CFG, NEW, 0, 0, 1, true) == READY
  {
    var a := NEW.authzs[0];
    var c := a.challenges[0];
    var started := WithChallenge(a, 0, c.(status := ChProcessing));
    var a' := Fetch(started, 0, 1, true);
    assert c.probes + [Probe(1, true)] == [Probe(1, true)];
    assert a' == READY.authzs[0];
    assert RefreshAuthz(a, 1) == a && WithAuthz(NEW, 0, a) == NEW;
    var o := WithAuthz(NEW, 0, a');
    assert o == READY.(status := OrPending);
    RefreshValid(o, 1);
  }

  lemma Answered()
    ensures Legal(CFG, [REGISTER] + [PLACE] + [ANSWER])
    ensures var s := Play(CFG, [REGISTER] + [PLACE] + [ANSWER]);
      s.accounts == map[1 := Account(1, "key", true, None)] && s.orders == map[1 := READY]
  {
    Placed();
    Fetched();
    PlayOn(CFG, [REGISTER] + [PLACE], ANSWER);
    assert PollAuthz(CFG, NEW, 0, 1, false) == NEW;
    assert ActOn(CFG, NEW, ANSWER).0 == READY;
  }

  lemma Finishes(o: Order, cns: seq<string>, sans: seq<string>)
    requires o == READY && Passes(CFG, o, cns, sans)
    ensures FinalizeRequest(CFG, o, Csr(cns, sans, false), Issued, 2, 2).0 ==
            o.(status := OrValid, certificate := Some(Certificate(cns, sans)))
  {
    RefreshValid(o, 2);
  }

  lemma FinalizeOn(run: seq<Request>, cns: seq<string>, sans: seq<string>)
    requires Legal(CFG, run) && Play(CFG, run).accounts == map[1 := Account(1, "key", true, None)]
    requires Play(CFG, run).orders == map[1 := READY] && Passes(CFG, READY, cns, sans)
    ensures var next := run + [FinalizeWith(cns, sans)];
      && Legal(CFG, next) && 1 in Play(CFG, next).orders
      && Play(CFG, next).orders[1] == READY.(status := OrValid, certificate := Some(Certificate(cns, sans)))
  {
    PlayOn(CFG, run, FinalizeWith(cns, sans));
    Finishes(READY, cns, sans);
  }

  /** The order is for "a" alone, whatever CNs follow the first. */
  lemma Finalized(cns: seq<string>, sans: seq<string>)
    requires Passes(CFG, READY, cns, sans)
    ensures Legal(CFG, RunWith(cns, sans)) && 1 in Play(CFG, RunWith(cns, sans)).orders
    ensures Play(CFG, RunWith(cns, sans)).orders[1] ==
            READY.(status := OrValid, certificate := Some(Certificate(cns, sans)))
  {
    Answered();
    FinalizeOn([REGISTER] + [PLACE] + [ANSWER], cns, sans);
  }

  lemma OrderedAlone()
    ensures Wanted(READY) == {"a"}
  {
    assert READY.identifiers[0] == "a";
  }

  /** An order for "a" yields a certificate without SANs for "a" and for "b". */
  lemma SecondCnBecomesAName(cns: seq<string>)
    requires cns == ["a", "b"]
    ensures Legal(CFG, RunWith(cns, [])) && 1 in Play(CFG, RunWith(cns, [])).orders
    ensures var o := Play(CFG, RunWith(cns, [])).orders[1];
      && o.status.OrValid? && o.certificate == Some(Certificate(cns, []))
      && Wanted(o) == {"a"} && "b" in NamesOf(CFG, o.certificate.value)
  {
    OrderedAlone();
    Finalized(cns, []);
    assert CFG.nameForm(cns[1]) in Forms(CFG, cns);
  }

  /** With SANs the second CN is issued as well, beside them. */
  lemma SecondCnBesideSans(cns: seq<string>, sans: seq<string>)
    requires cns == ["a", "b"] && sans == ["a"]
    ensures Legal(CFG, RunWith(cns, sans)) && 1 in Play(CFG, RunWith(cns, sans)).orders
    ensures var o := Play(CFG, RunWith(cns, sans)).orders[1];
      && o.status.OrValid? && o.certificate == Some(Certificate(cns, sans))
      && NamesOf(CFG, o.certificate.value) == Wanted(o) == {"a"} && "b" in Forms(CFG, o.certificate.value.cns)
  {
    OrderedAlone();
    FormsOfOne(CFG, "a");
    Finalized(cns, sans);
    assert CFG.nameForm(cns[1]) in Forms(CFG, cns);
  }
}
