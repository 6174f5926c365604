/**
 Walks up the hierarchy in app/services/ca_service.py: the loop guard of
 cross-signing and the chain a certificate is exported with.
 */
module CaChains {
  import opened Prelude
  import opened CaTree
  import opened CaRuns

  /** The CAs from `c` up to its top. */
  ghost function PathUp(cas: Forest, c: nat): seq<nat>
    requires Acyclic(cas) && c in cas
    decreases c
  {
    assert Rooted(cas, c);
    if cas[c].parent.None? then [c] else [c] + PathUp(cas, cas[c].parent.value)
  }

  ghost function PathFrom(cas: Forest, c: Option<nat>): seq<nat>
    requires Acyclic(cas) && (c.Some? ==> c.value in cas)
  {
    if c.None? then [] else PathUp(cas, c.value)
  }

  /** The path lists exactly the CAs that `c` lies under. */
  lemma {:induction false} PathUpIsUnder(cas: Forest, c: nat, x: nat)
    requires Acyclic(cas) && c in cas
    ensures x in PathUp(cas, c) <==> Under(cas, x, c)
    decreases c
  {
    assert Rooted(cas, c);
    if cas[c].parent.Some? {
      PathUpIsUnder(cas, cas[c].parent.value, x);
    }
  }

  /** No CA is listed twice, and each is older than the one before. */
  lemma {:induction false} PathUpListsOnce(cas: Forest, c: nat, i: nat, j: nat)
    requires Acyclic(cas) && c in cas && i < j < |PathUp(cas, c)|
    ensures PathUp(cas, c)[i] > PathUp(cas, c)[j]
    decreases c
  {
    assert Rooted(cas, c);
    var up := cas[c].parent.value;
    if i > 0 {
      PathUpListsOnce(cas, up, i - 1, j - 1);
    } else {
      assert PathUp(cas, c)[j] in PathUp(cas, up);
      PathUpIsUnder(cas, up, PathUp(cas, c)[j]);
      UnderIsLarger(cas, PathUp(cas, c)[j], up);
    }
  }

  /** The walk of `cross_sign_ca`: is `issuer` the CA itself or below it? It needs no
      seen-set, because parent links cannot loop. */
  method IsBelow(cas: Forest, ca: nat, issuer: nat) returns (below: bool)
    requires Acyclic(cas) && issuer in cas
    ensures below <==> Under(cas, ca, issuer)
  {
    var current := Some(issuer);
    while current.Some?
      invariant current.Some? ==> current.value in cas
      invariant Under(cas, ca, issuer) <==> current.Some? && Under(cas, ca, current.value)
      decreases if current.Some? then current.value + 1 else 0
    {
      assert Rooted(cas, current.value);
      if current.value == ca {
        return true;
      }
      current := cas[current.value].parent;
    }
    below := false;
  }

  /** The path length is no larger than the CA's own. */
  predicate NoMoreThan(pathLen: Option<int>, own: Option<int>) {
    own.Some? ==> pathLen.Some? && pathLen.value <= own.value
  }

  /** `cross_sign_ca`: the guards, the row it adds, and the path length it certifies: the
      largest that fits under the issuer and is no larger than the CA's own. `namesOk` is
      the verdict of the issuer chain's name constraints on the CA's subject. */
  method CrossSignCa(p: Pki, alt: nat, c: nat, issuer: nat, serial: string, notAfter: int, pending: bool, now: int,
                     namesOk: bool) returns (r: Result<(Pki, Option<int>), string>)
    requires Wellformed(p) && c in p.cas && issuer in p.cas && alt !in p.alternates
    ensures r.Ok? <==> namesOk && CanCrossSign(p, c, issuer, now)
    ensures r.Ok? ==> r.value.0 == Apply(p, CrossSign(alt, c, issuer, serial, notAfter, pending, now))
    ensures r.Ok? ==> Fits(p.cas[issuer].pathLen, r.value.1) && NoMoreThan(r.value.1, p.cas[c].pathLen)
    ensures r.Ok? ==> forall n :: Fits(p.cas[issuer].pathLen, n) && NoMoreThan(n, p.cas[c].pathLen) ==> NoMoreThan(n, r.value.1)
  {
    if issuer == c {
      return Err("A CA cannot cross-sign itself; use re-issue.");
    }
    if p.cas[c].Revoked() {
      return Err("A revoked CA cannot be cross-signed.");
    }
    var signer := p.cas[issuer];
    if !signer.keyed || signer.pending || signer.Revoked() {
      return Err("The issuing CA cannot sign.");
    }
    if signer.notAfter <= now {
      return Err("The issuing CA has expired.");
    }
    var below := IsBelow(p.cas, c, issuer);
    if below {
      return Err("The issuing CA is a descendant of this CA.");
    }
    if !namesOk {
      return Err("The CA's name is outside the issuer's name constraints.");
    }
    var pathLen := p.cas[c].pathLen;
    if signer.pathLen.Some? {
      if signer.pathLen.value <= 0 {
        return Err("The issuing CA's path length is 0.");
      }
      var allowed := signer.pathLen.value - 1;
      if pathLen.None? || pathLen.value > allowed {
        pathLen := Some(allowed);
      }
    }
    var q := p.(alternates := p.alternates[alt := Alternate(c, Cross, Some(issuer), !pending, false, serial, notAfter)]);
    r := Ok((q, pathLen));
  }

  // ---------------------------------------------------------------------------
  // Chains
  // ---------------------------------------------------------------------------

  /** A certificate of the chain: a CA's primary, or the alternate routed through. */
  datatype Pem = Primary(ca: nat) | Routed(alt: nat)

  ghost function Primaries(path: seq<nat>): (r: seq<Pem>)
    ensures |r| == |path| && forall i :: 0 <= i < |path| ==> r[i] == Primary(path[i])
  {
    seq(|path|, i requires 0 <= i < |path| => Primary(path[i]))
  }

  predicate Usable(p: Pki, via: nat) {
    via in p.alternates && p.alternates[via].approved &&
    !(p.alternates[via].kind.Cross? && p.alternates[via].issuer.Some?
      && p.alternates[via].issuer.value in p.cas && p.cas[p.alternates[via].issuer.value].Revoked())
  }

  /** Where the walk goes on above the alternate. */
  function Continuation(p: Pki, via: nat): Option<nat>
    requires via in p.alternates && p.alternates[via].ca in p.cas
  {
    var a := p.alternates[via];
    if a.kind.Cross? then a.issuer else p.cas[a.ca].parent
  }

  /** The chain a reader expects: the primaries from `c` up to the alternate's CA,
      the alternate, and then the whole path of what certifies it. */
  ghost function Route(p: Pki, c: nat, via: nat): seq<Pem>
    requires Acyclic(p.cas) && c in p.cas && via in p.alternates
    requires p.alternates[via].ca in p.cas
    requires Continuation(p, via).Some? ==> Continuation(p, via).value in p.cas
    decreases c
  {
    assert Rooted(p.cas, c);
    if c == p.alternates[via].ca then [Routed(via)] + Primaries(PathFrom(p.cas, Continuation(p, via)))
    else [Primary(c)] + if p.cas[c].parent.None? then [] else Route(p, p.cas[c].parent.value, via)
  }

  /** The route, part by part: the path from `c` to the alternate's CA, the alternate,
      then everything that certifies it. A CA elsewhere has its ordinary path. */
  lemma {:induction false} RouteShape(p: Pki, c: nat, via: nat) returns (below: seq<nat>)
    requires Acyclic(p.cas) && c in p.cas && via in p.alternates && p.alternates[via].ca in p.cas
    requires Continuation(p, via).Some? ==> Continuation(p, via).value in p.cas
    ensures Under(p.cas, p.alternates[via].ca, c) ==>
      && PathUp(p.cas, c) == below + PathUp(p.cas, p.alternates[via].ca)
      && Route(p, c, via) == Primaries(below) + ([Routed(via)] + Primaries(PathFrom(p.cas,
           if p.alternates[via].kind.Cross? then p.alternates[via].issuer else p.cas[p.alternates[via].ca].parent)))
    ensures !Under(p.cas, p.alternates[via].ca, c) ==> Route(p, c, via) == Primaries(PathUp(p.cas, c))
    decreases c
  {
    assert Rooted(p.cas, c);
    below := [];
    if c != p.alternates[via].ca {
      if p.cas[c].parent.Some? {
        var q := p.cas[c].parent.value;
        var rest := RouteShape(p, q, via);
        below := [c] + rest;
        PrimariesCons(c, rest);
        PrimariesCons(c, PathUp(p.cas, q));
        Associate([c], rest, PathUp(p.cas, p.alternates[via].ca));
        Associate([Primary(c)], Primaries(rest), [Routed(via)] + Primaries(PathFrom(p.cas, Continuation(p, via))));
      }
    }
  }

  lemma PrimariesCons(c: nat, path: seq<nat>)
    ensures Primaries([c] + path) == [Primary(c)] + Primaries(path)
  {
  }

  lemma Associate<T>(a: seq<T>, b: seq<T>, c: seq<T>)
    ensures (a + b) + c == a + (b + c)
  {
  }

  ghost function RouteFrom(p: Pki, c: Option<nat>, via: nat, jumped: bool): seq<Pem>
    requires Acyclic(p.cas) && (c.Some? ==> c.value in p.cas) && via in p.alternates
    requires p.alternates[via].ca in p.cas
    requires Continuation(p, via).Some? ==> Continuation(p, via).value in p.cas
  {
    if c.None? then [] else if jumped then Primaries(PathUp(p.cas, c.value)) else Route(p, c.value, via)
  }

  /** What the walk has seen lies below where it is now, or below the alternate's CA
      once it took the alternate. */
  ghost predicate Behind(p: Pki, via: nat, seen: set<nat>, current: Option<nat>, jumped: bool)
    requires via in p.alternates
  {
    current.Some? ==>
      forall x :: x in seen ==>
        if jumped then x > current.value || (x in p.cas && Under(p.cas, p.alternates[via].ca, x))
        else x > current.value && x in p.cas && Under(p.cas, current.value, x)
  }

  /** The certifier of an alternate is not the alternate's CA nor below it. */
  ghost predicate NoLoop(p: Pki, via: nat) {
    via in p.alternates && p.alternates[via].ca in p.cas &&
    (Continuation(p, via).Some? ==>
       Continuation(p, via).value in p.cas && !Under(p.cas, p.alternates[via].ca, Continuation(p, via).value))
  }

  lemma StepUp(p: Pki, via: nat, seen: set<nat>, c: nat, jumped: bool)
    requires Acyclic(p.cas) && NoLoop(p, via) && c in p.cas && Behind(p, via, seen, Some(c), jumped)
    requires jumped ==> !Under(p.cas, p.alternates[via].ca, c)
    ensures c !in seen
    ensures Behind(p, via, seen + {c}, p.cas[c].parent, jumped)
    ensures jumped && p.cas[c].parent.Some? ==> !Under(p.cas, p.alternates[via].ca, p.cas[c].parent.value)
  {
    assert Rooted(p.cas, c);
    if p.cas[c].parent.Some? {
      var q := p.cas[c].parent.value;
      assert Under(p.cas, q, q) && Under(p.cas, q, c);
      forall x | x in seen && !jumped
        ensures Under(p.cas, q, x)
      {
        UnderTrans(p.cas, q, c, x);
      }
    }
  }

  lemma Jump(p: Pki, via: nat, seen: set<nat>, c: nat)
    requires Acyclic(p.cas) && NoLoop(p, via) && c in p.cas && c == p.alternates[via].ca
    requires Behind(p, via, seen, Some(c), false)
    ensures c !in seen && Behind(p, via, seen + {c}, Continuation(p, via), true)
  {
  }

  /** The state of the walk: what it listed and what is still to come make up the route. */
  ghost predicate Walk(p: Pki, c: nat, via: nat, chain: seq<Pem>, current: Option<nat>, seen: set<nat>, jumped: bool)
    requires Wellformed(p) && c in p.cas && NoLoop(p, via)
  {
    && (current.Some? ==> current.value in p.cas)
    && Behind(p, via, seen, current, jumped)
    && (jumped && current.Some? ==> !Under(p.cas, p.alternates[via].ca, current.value))
    && Route(p, c, via) == chain + RouteFrom(p, current, via, jumped)
  }

  lemma WalkOn(p: Pki, c: nat, via: nat, chain: seq<Pem>, x: nat, seen: set<nat>, jumped: bool)
    requires Wellformed(p) && c in p.cas && NoLoop(p, via) && Walk(p, c, via, chain, Some(x), seen, jumped)
    ensures x !in seen
    ensures if x == p.alternates[via].ca
      then Walk(p, c, via, chain + [Routed(via)], Continuation(p, via), seen + {x}, true)
      else Walk(p, c, via, chain + [Primary(x)], p.cas[x].parent, seen + {x}, jumped)
  {
    assert Rooted(p.cas, x);
    if x == p.alternates[via].ca {
      assert Under(p.cas, x, x);
      Jump(p, via, seen, x);
      Regroup(Route(p, c, via), chain, Routed(via), RouteFrom(p, Continuation(p, via), via, true));
    } else {
      StepUp(p, via, seen, x, jumped);
      var rest := RouteFrom(p, p.cas[x].parent, via, jumped);
      assert RouteFrom(p, Some(x), via, jumped) == [Primary(x)] + rest;
      Regroup(Route(p, c, via), chain, Primary(x), rest);
    }
  }

  lemma Regroup<T>(whole: seq<T>, front: seq<T>, x: T, back: seq<T>)
    requires whole == front + ([x] + back)
    ensures whole == front + [x] + back
  {
  }

  lemma NeverSeen(p: Pki, c: nat, via: nat, chain: seq<Pem>, current: Option<nat>, seen: set<nat>, jumped: bool)
    requires Wellformed(p) && c in p.cas && NoLoop(p, via) && Walk(p, c, via, chain, current, seen, jumped)
    ensures current.Some? ==> current.value !in seen
  {
    match current
    case None =>
    case Some(x) => WalkOn(p, c, via, chain, x, seen, jumped);
  }

  /** `chain_pems` through an alternate: the loop keeps a seen-set, and never stops
      on it. */
  method ChainVia(p: Pki, c: nat, via: nat) returns (r: Result<seq<Pem>, string>)
    requires Wellformed(p) && c in p.cas && NoLoop(p, via)
    ensures r.Ok? <==>
      && via in p.alternates && p.alternates[via].approved
      && match p.alternates[via]
         case Alternate(_, Cross, Some(x), _, _, _, _) => x !in p.cas || p.cas[x].revoked.None?
         case _ => true
    ensures r.Ok? ==> r.value == Route(p, c, via)
  {
    if !Usable(p, via) {
      return Err("That alternate certificate is not usable.");
    }
    var chain, current, seen := [], Some(c), {};
    ghost var jumped := false;
    while current.Some? && current.value !in seen
      invariant Walk(p, c, via, chain, current, seen, jumped)
      decreases p.cas.Keys - seen
    {
      var x := current.value;
      WalkOn(p, c, via, chain, x, seen, jumped);
      if x == p.alternates[via].ca {
        chain := chain + [Routed(via)];
        current := Continuation(p, via);
        jumped := true;
      } else {
        chain := chain + [Primary(x)];
        current := p.cas[x].parent;
      }
      seen := seen + {x};
    }
    NeverSeen(p, c, via, chain, current, seen, jumped);
    r := Ok(chain);
  }

  // ---------------------------------------------------------------------------
  // Runs
  // ---------------------------------------------------------------------------

  /** Every cross-certificate this server made avoids a loop, in every later state. */
  ghost predicate CrossesSafe(p: Pki) {
    forall via :: via in p.alternates ==> AlternateSafe(p, via)
  }

  ghost predicate AlternateSafe(p: Pki, via: nat)
    requires via in p.alternates
  {
    p.alternates[via].ca in p.cas && (!p.alternates[via].imported ==> NoLoop(p, via))
  }

  /** New rows and changed certificates do not move a CA under another. */
  lemma {:induction false} UnderLater(p: Pki, q: Pki, top: nat, x: nat)
    requires Later(p, q) && x in p.cas && Acyclic(p.cas) && top in p.cas
    ensures Under(p.cas, top, x) <==> Under(q.cas, top, x)
    decreases x
  {
    assert Rooted(p.cas, x) && CaLater(p.cas[x], q.cas[x]);
    if x != top && p.cas[x].parent.Some? {
      UnderLater(p, q, top, p.cas[x].parent.value);
    }
  }

  lemma ParentIsAbove(cas: Forest, c: nat)
    requires Acyclic(cas) && c in cas && cas[c].parent.Some?
    ensures cas[c].parent.value in cas && !Under(cas, c, cas[c].parent.value)
  {
    assert Rooted(cas, c);
    if Under(cas, c, cas[c].parent.value) {
      UnderIsLarger(cas, c, cas[c].parent.value);
    }
  }

  /** A step keeps an alternate's CA, and its certifier unless it stops being a
      cross-certificate. */
  ghost predicate AlternateLater(a: Alternate, b: Alternate) {
    b.ca == a.ca && b.imported == a.imported && (b.kind.Cross? ==> a.kind.Cross? && b.issuer == a.issuer)
  }

  /** A new alternate is for an existing CA, and a new cross-certificate passed the guard. */
  ghost predicate AlternateBorn(p: Pki, b: Alternate) {
    b.ca in p.cas &&
    (b.kind.Cross? && !b.imported ==> b.issuer.Some? && b.issuer.value in p.cas && !Under(p.cas, b.ca, b.issuer.value))
  }

  lemma AlternatesAfter(p: Pki, e: Event, via: nat)
    requires Enabled(p, e) && via in Apply(p, e).alternates
    ensures var b := Apply(p, e).alternates[via];
      if via in p.alternates then AlternateLater(p.alternates[via], b) else AlternateBorn(p, b)
  {
  }

  lemma ApplyKeepsCrossesSafe(p: Pki, e: Event)
    requires Wellformed(p) && CrossesSafe(p) && Enabled(p, e)
    ensures CrossesSafe(Apply(p, e))
  {
    ApplyIsLater(p, e);
    ApplyKeepsWellformed(p, e);
    forall via | via in Apply(p, e).alternates
      ensures AlternateSafe(Apply(p, e), via)
    {
      AlternatesAfter(p, e, via);
      assert via in p.alternates ==> AlternateSafe(p, via);
      StaysSafe(p, Apply(p, e), via);
    }
  }

  lemma StaysSafe(p: Pki, q: Pki, via: nat)
    requires Wellformed(p) && Wellformed(q) && Later(p, q) && via in q.alternates
    requires if via in p.alternates then AlternateSafe(p, via) && AlternateLater(p.alternates[via], q.alternates[via])
             else AlternateBorn(p, q.alternates[via])
    ensures AlternateSafe(q, via)
  {
    var a := q.alternates[via];
    assert a.ca in p.cas && CaLater(p.cas[a.ca], q.cas[a.ca]);
    if a.kind.Cross? && a.issuer.Some? && !a.imported {
      UnderLater(p, q, a.ca, a.issuer.value);
    } else if !a.kind.Cross? && q.cas[a.ca].parent.Some? {
      ParentIsAbove(q.cas, a.ca);
    }
  }

  lemma {:induction false} RunKeepsCrossesSafe(run: seq<Event>)
    requires Legal(run)
    ensures CrossesSafe(Play(run)) && Wellformed(Play(run))
  {
    RunKeepsWellformed(run);
    if run != [] {
      RunKeepsCrossesSafe(run[..|run| - 1]);
      ApplyKeepsCrossesSafe(Play(run[..|run| - 1]), run[|run| - 1]);
    }
  }

  /** In every reachable state, a chain through a certificate this server made is
      free of repetition: below it only CAs of the certified subtree, above it only
      CAs outside. */
  lemma {:induction false} EveryRunRoutesWithoutLoops(run: seq<Event>, via: nat)
    requires Legal(run) && via in Play(run).alternates && !Play(run).alternates[via].imported
    ensures Acyclic(Play(run).cas) && NoLoop(Play(run), via)
    ensures Continuation(Play(run), via).Some? ==>
      forall x :: x in PathUp(Play(run).cas, Continuation(Play(run), via).value) ==>
        !Under(Play(run).cas, Play(run).alternates[via].ca, x)
  {
    RunKeepsCrossesSafe(run);
    var p := Play(run);
    assert AlternateSafe(p, via);
    if Continuation(p, via).Some? {
      var top, start := p.alternates[via].ca, Continuation(p, via).value;
      forall x | x in PathUp(p.cas, start)
        ensures !Under(p.cas, top, x)
      {
        PathUpIsUnder(p.cas, start, x);
        if Under(p.cas, top, x) {
          UnderTrans(p.cas, top, x, start);
        }
      }
    }
  }
}
