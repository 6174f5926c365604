/**
 Ordering an uploaded bundle of CA certificates: `_order_chain` of
 app/services/ca_service.py. It succeeds exactly on the bundles that form one
 chain, and the chain does not depend on the order of the bundle.
 */
module BundleOrder {
  import opened Prelude

  /** `body` is everything beside the names and the serial number. */
  datatype Cert = Cert(serial: int, subject: string, issuer: string, body: string)

  /** `verify_directly_issued_by`. */
  type Verifier = (Cert, Cert) -> bool

  datatype Failure = NotOneChain | Loop | DoesNotVerify | Extras

  predicate SelfIssued(c: Cert) {
    c.issuer == c.subject
  }

  ghost function Elems(cs: seq<Cert>): set<Cert> {
    set i | 0 <= i < |cs| :: cs[i]
  }

  ghost predicate NoRepeats(cs: seq<Cert>) {
    forall i, j :: 0 <= i < j < |cs| ==> cs[i] != cs[j]
  }

  // ---------------------------------------------------------------------------
  // The specification
  // ---------------------------------------------------------------------------

  /** `o[i]` was issued by `o[i + 1]`. */
  ghost predicate Link(verify: Verifier, o: seq<Cert>, i: int)
    requires 0 <= i < |o| - 1
  {
    !SelfIssued(o[i]) && o[i].issuer == o[i + 1].subject && verify(o[i], o[i + 1])
  }

  ghost predicate SubjectsDiffer(o: seq<Cert>) {
    forall i, j :: 0 <= i < j < |o| ==> o[i].subject != o[j].subject
  }

  /** `top` is self-issued or its issuer is not in the bundle. */
  ghost predicate IsTop(bundle: set<Cert>, top: Cert) {
    SelfIssued(top) || forall c :: c in bundle ==> c.subject != top.issuer
  }

  /** `o` lists the bundle, each certificate once, leaf first, each one issued by the
      next; a bundle of one certificate is a chain as it is. */
  ghost predicate IsChain(verify: Verifier, bundle: set<Cert>, o: seq<Cert>) {
    && o != [] && NoRepeats(o) && Elems(o) == bundle
    && (|o| > 1 ==>
          && SubjectsDiffer(o)
          && (forall i :: 0 <= i < |o| - 1 ==> Link(verify, o, i))
          && IsTop(bundle, o[|o| - 1]))
  }

  lemma {:induction false} SizeOfElems(cs: seq<Cert>)
    requires NoRepeats(cs)
    ensures |Elems(cs)| == |cs|
  {
    if cs != [] {
      var init, last := cs[..|cs| - 1], cs[|cs| - 1];
      SizeOfElems(init);
      assert Elems(cs) == Elems(init) + {last};
    }
  }

  /** A bundle has at most one order. */
  lemma ChainIsUnique(verify: Verifier, bundle: set<Cert>, o: seq<Cert>, o': seq<Cert>)
    requires IsChain(verify, bundle, o) && IsChain(verify, bundle, o')
    ensures o == o'
  {
    SizeOfElems(o);
    SizeOfElems(o');
    forall i | 0 <= i < |o|
      ensures o[i] == o'[i]
    {
      SamePlace(verify, bundle, o, o', i);
    }
  }

  lemma {:induction false} SamePlace(verify: Verifier, bundle: set<Cert>, o: seq<Cert>, o': seq<Cert>, i: int)
    requires IsChain(verify, bundle, o) && IsChain(verify, bundle, o') && |o| == |o'| && 0 <= i < |o|
    ensures o[i] == o'[i]
    decreases i
  {
    if |o| == 1 {
      assert o[0] in Elems(o');
    } else if i == 0 {
      LeafOfChain(verify, bundle, o, o'[0]);
      LeafOfChain(verify, bundle, o', o'[0]);
    } else {
      SamePlace(verify, bundle, o, o', i - 1);
      assert Link(verify, o, i - 1) && Link(verify, o', i - 1);
      assert o[i] in Elems(o');
      BySubjectUnique(o', o[i], o'[i]);
    }
  }

  lemma BySubjectUnique(o: seq<Cert>, c: Cert, d: Cert)
    requires SubjectsDiffer(o) && c in Elems(o) && d in Elems(o) && c.subject == d.subject
    ensures c == d
  {
  }

  /** Some certificate of the bundle, not self-issued, names `subject` as its issuer. */
  ghost predicate Issues(bundle: set<Cert>, subject: string) {
    exists c :: c in bundle && !SelfIssued(c) && c.issuer == subject
  }

  /** The first certificate of a chain is the only one that issued none of the others. */
  lemma LeafOfChain(verify: Verifier, bundle: set<Cert>, o: seq<Cert>, c: Cert)
    requires IsChain(verify, bundle, o) && |o| > 1 && c in bundle
    ensures Issues(bundle, c.subject) <==> c != o[0]
  {
    FirstIssuedNone(verify, bundle, o);
    var k :| 0 <= k < |o| && o[k] == c;
    if k > 0 {
      assert Link(verify, o, k - 1) && o[k - 1] in bundle;
      assert c.subject != o[0].subject;
    }
  }

  lemma FirstIssuedNone(verify: Verifier, bundle: set<Cert>, o: seq<Cert>)
    requires IsChain(verify, bundle, o) && |o| > 1
    ensures !Issues(bundle, o[0].subject)
  {
    forall j | 0 <= j < |o|
      ensures SelfIssued(o[j]) || o[j].issuer != o[0].subject
    {
      if j < |o| - 1 {
        assert Link(verify, o, j);
      } else {
        assert o[0] in bundle;
      }
    }
  }

  // ---------------------------------------------------------------------------
  // The algorithm
  // ---------------------------------------------------------------------------

  predicate SameKey(a: Cert, b: Cert) {
    a.serial == b.serial && a.subject == b.subject
  }

  /** Serial number and subject identify a certificate of the bundle. */
  ghost predicate KeysIdentify(certs: seq<Cert>) {
    forall c, d :: c in certs && d in certs && c.serial == d.serial && c.subject == d.subject ==> c == d
  }

  ghost predicate LastOfItsKey(certs: seq<Cert>, i: int)
    requires 0 <= i < |certs|
  {
    forall j :: i < j < |certs| ==> certs[i].serial != certs[j].serial || certs[i].subject != certs[j].subject
  }

  /** The distinct certificates: of those that share serial number and subject, the last. */
  ghost function Distinct(certs: seq<Cert>): set<Cert> {
    set i | 0 <= i < |certs| && LastOfItsKey(certs, i) :: certs[i]
  }

  lemma DistinctSnoc(certs: seq<Cert>, c: Cert)
    ensures forall d :: d in Distinct(certs + [c]) <==> d == c || (d in Distinct(certs) && !SameKey(d, c))
  {
    var more := certs + [c];
    forall d | d == c || (d in Distinct(certs) && !SameKey(d, c))
      ensures d in Distinct(more)
    {
      if d == c {
        assert LastOfItsKey(more, |certs|);
      } else {
        var i :| 0 <= i < |certs| && LastOfItsKey(certs, i) && certs[i] == d;
        assert LastOfItsKey(more, i);
      }
    }
    forall d | d in Distinct(more)
      ensures d == c || (d in Distinct(certs) && !SameKey(d, c))
    {
      var i :| 0 <= i < |more| && LastOfItsKey(more, i) && more[i] == d;
      if i < |certs| {
        forall j | i < j < |certs|
          ensures !SameKey(certs[i], certs[j])
        {
          assert certs[j] == more[j];
        }
        assert LastOfItsKey(certs, i) && more[|certs|] == c;
      }
    }
  }

  lemma {:induction false} DistinctIsAll(certs: seq<Cert>)
    requires KeysIdentify(certs)
    ensures Distinct(certs) == Elems(certs)
  {
    if certs != [] {
      var init, c := certs[..|certs| - 1], certs[|certs| - 1];
      assert certs == init + [c];
      DistinctIsAll(init);
      DistinctSnoc(init, c);
      ElemsSnoc(init, c);
      assert forall d :: d in Elems(init) ==> d in certs;
    }
  }

  ghost predicate KeysDiffer(cs: seq<Cert>) {
    forall i, j :: 0 <= i < |cs| && 0 <= j < |cs| && SameKey(cs[i], cs[j]) ==> i == j
  }

  ghost predicate Collected(certs: seq<Cert>, i: int, unique: seq<Cert>)
    requires 0 <= i <= |certs|
  {
    KeysDiffer(unique) && Elems(unique) == Distinct(certs[..i])
  }

  /** `k` is the place of the entry that `c` replaces, `|unique|` when there is none. */
  lemma CollectNext(certs: seq<Cert>, i: int, unique: seq<Cert>, k: nat, unique': seq<Cert>)
    requires 0 <= i < |certs| && Collected(certs, i, unique) && k <= |unique|
    requires if k < |unique| then SameKey(unique[k], certs[i])
             else forall j :: 0 <= j < |unique| ==> !SameKey(unique[j], certs[i])
    requires unique' == if k < |unique| then unique[k := certs[i]] else unique + [certs[i]]
    ensures Collected(certs, i + 1, unique')
  {
    var c := certs[i];
    assert certs[..i + 1] == certs[..i] + [c];
    DistinctSnoc(certs[..i], c);
    assert forall j :: 0 <= j < |unique'| && j != k ==> unique'[j] == unique[j];
    assert unique'[k] == c;
    assert forall j :: 0 <= j < |unique| && j != k ==> !SameKey(unique[j], c);
    forall d
      ensures d in Elems(unique') <==> d in Distinct(certs[..i + 1])
    {
      if d != c && d in Elems(unique) && !SameKey(d, c) {
        var j :| 0 <= j < |unique| && unique[j] == d;
        assert unique'[j] == d;
      }
    }
  }

  /** The dictionary keyed by serial number and subject, in insertion order; a later
      certificate replaces an earlier one. */
  method Deduplicate(certs: seq<Cert>) returns (unique: seq<Cert>)
    ensures KeysDiffer(unique) && Elems(unique) == Distinct(certs)
  {
    unique := [];
    for i := 0 to |certs|
      invariant Collected(certs, i, unique)
    {
      var c := certs[i];
      ghost var was := unique;
      if exists k :: 0 <= k < |unique| && SameKey(unique[k], c) {
        var k :| 0 <= k < |unique| && SameKey(unique[k], c);
        unique := unique[k := c];
        CollectNext(certs, i, was, k, unique);
      } else {
        unique := unique + [c];
        CollectNext(certs, i, was, |was|, unique);
      }
    }
    assert certs[..|certs|] == certs;
  }

  lemma ElemsSnoc(cs: seq<Cert>, c: Cert)
    ensures Elems(cs + [c]) == Elems(cs) + {c}
  {
    var all := cs + [c];
    assert all[|cs|] == c;
    forall i | 0 <= i < |cs|
      ensures cs[i] in Elems(all)
    {
      assert all[i] == cs[i];
    }
  }

  /** The subject dictionary: some certificate for every subject of the bundle. */
  ghost predicate IndexOf(bundle: set<Cert>, index: map<string, Cert>) {
    && (forall c :: c in bundle ==> c.subject in index)
    && (forall s :: s in index ==> index[s] in bundle && index[s].subject == s)
  }

  method BySubject(certs: seq<Cert>) returns (index: map<string, Cert>)
    ensures IndexOf(Elems(certs), index)
  {
    index := map[];
    for i := 0 to |certs|
      invariant forall k :: 0 <= k < i ==> certs[k].subject in index
      invariant forall s :: s in index ==> index[s] in Elems(certs) && index[s].subject == s
    {
      index := index[certs[i].subject := certs[i]];
    }
  }

  /** The names that appear as the issuer of a certificate that is not self-issued. */
  function IssuerNames(certs: seq<Cert>): (names: set<string>)
    ensures forall s :: s in names <==> Issues(Elems(certs), s)
  {
    var names := set i | 0 <= i < |certs| && !SelfIssued(certs[i]) :: certs[i].issuer;
    assert forall i :: 0 <= i < |certs| ==> certs[i] in Elems(certs);
    names
  }

  /** `leaves` holds just those of the first `i` certificates that issued no other. */
  ghost predicate Kept(certs: seq<Cert>, issuers: set<string>, i: int, leaves: seq<Cert>)
    requires 0 <= i <= |certs|
  {
    && NoRepeats(leaves)
    && (forall c :: c in Elems(leaves) <==> c in Elems(certs[..i]) && c.subject !in issuers)
  }

  lemma KeepNext(certs: seq<Cert>, issuers: set<string>, i: int, leaves: seq<Cert>)
    requires NoRepeats(certs) && 0 <= i < |certs| && Kept(certs, issuers, i, leaves)
    ensures Kept(certs, issuers, i + 1, if certs[i].subject in issuers then leaves else leaves + [certs[i]])
  {
    assert certs[..i + 1] == certs[..i] + [certs[i]];
    ElemsSnoc(certs[..i], certs[i]);
    if certs[i].subject !in issuers {
      assert certs[i] !in Elems(certs[..i]);
      assert forall k :: 0 <= k < |leaves| ==> leaves[k] in Elems(leaves);
      ElemsSnoc(leaves, certs[i]);
    }
  }

  /** The certificates whose subject issued no other certificate of the bundle. */
  method Leaves(certs: seq<Cert>) returns (leaves: seq<Cert>)
    requires NoRepeats(certs)
    ensures NoRepeats(leaves) && Elems(leaves) <= Elems(certs)
    ensures forall c :: c in Elems(certs) ==> (c in Elems(leaves) <==> !Issues(Elems(certs), c.subject))
  {
    var issuers := IssuerNames(certs);
    leaves := [];
    for i := 0 to |certs|
      invariant Kept(certs, issuers, i, leaves)
    {
      KeepNext(certs, issuers, i, leaves);
      if certs[i].subject !in issuers {
        leaves := leaves + [certs[i]];
      }
    }
    assert certs[..|certs|] == certs;
  }

  /** The walk so far: every chain of the bundle starts with it. */
  ghost predicate Forced(verify: Verifier, bundle: set<Cert>, ordered: seq<Cert>) {
    forall o :: IsChain(verify, bundle, o) ==> ordered <= o
  }

  ghost predicate NoChain(verify: Verifier, bundle: set<Cert>) {
    forall o :: !IsChain(verify, bundle, o)
  }

  /** The walk is itself linked, and starts at a leaf. */
  ghost predicate Climbing(verify: Verifier, bundle: set<Cert>, index: map<string, Cert>, ordered: seq<Cert>) {
    && ordered != [] && NoRepeats(ordered) && Elems(ordered) <= bundle
    && !Issues(bundle, ordered[0].subject)
    && (forall i :: 0 <= i < |ordered| - 1 ==> Link(verify, ordered, i))
    && (forall i :: 0 < i < |ordered| ==> ordered[i].subject in index && index[ordered[i].subject] == ordered[i])
  }

  lemma ClimbHasDistinctSubjects(verify: Verifier, bundle: set<Cert>, index: map<string, Cert>, ordered: seq<Cert>)
    requires Climbing(verify, bundle, index, ordered)
    ensures SubjectsDiffer(ordered)
  {
    forall i, j | 0 <= i < j < |ordered|
      ensures ordered[i].subject != ordered[j].subject
    {
      if i == 0 {
        assert Link(verify, ordered, j - 1) && ordered[j - 1] in Elems(ordered);
      }
    }
  }

  /** Where a chain goes on from the last certificate of the walk. */
  lemma NextOfChain(verify: Verifier, bundle: set<Cert>, index: map<string, Cert>, ordered: seq<Cert>, o: seq<Cert>)
    requires IsChain(verify, bundle, o) && |bundle| > 1 && IndexOf(bundle, index)
    requires ordered != [] && ordered <= o
    ensures var current := ordered[|ordered| - 1];
      if SelfIssued(current) || current.issuer !in index then |ordered| == |o|
      else |ordered| < |o| && index[current.issuer] == o[|ordered|]
           && index[current.issuer] !in Elems(ordered) && verify(current, index[current.issuer])
  {
    SizeOfElems(o);
    var k := |ordered| - 1;
    assert ordered[k] == o[k];
    if k < |o| - 1 {
      assert Link(verify, o, k) && o[k + 1] in bundle;
      BySubjectUnique(o, o[k + 1], index[o[k].issuer]);
      assert forall i :: 0 <= i <= k ==> ordered[i] == o[i];
    }
  }

  lemma Extends(verify: Verifier, bundle: set<Cert>, index: map<string, Cert>, ordered: seq<Cert>)
    requires Climbing(verify, bundle, index, ordered) && IndexOf(bundle, index) && |bundle| > 1
    requires Forced(verify, bundle, ordered)
    requires !SelfIssued(ordered[|ordered| - 1])
    requires ordered[|ordered| - 1].issuer in index
    ensures var parent := index[ordered[|ordered| - 1].issuer];
      if parent in Elems(ordered) || !verify(ordered[|ordered| - 1], parent) then NoChain(verify, bundle)
      else Climbing(verify, bundle, index, ordered + [parent]) && Forced(verify, bundle, ordered + [parent])
  {
    var parent := index[ordered[|ordered| - 1].issuer];
    forall o | IsChain(verify, bundle, o)
      ensures parent !in Elems(ordered) && verify(ordered[|ordered| - 1], parent) && ordered + [parent] <= o
    {
      NextOfChain(verify, bundle, index, ordered, o);
    }
    if parent !in Elems(ordered) && verify(ordered[|ordered| - 1], parent) {
      ClimbOn(verify, bundle, index, ordered, parent);
    }
  }

  lemma ClimbOn(verify: Verifier, bundle: set<Cert>, index: map<string, Cert>, ordered: seq<Cert>, parent: Cert)
    requires Climbing(verify, bundle, index, ordered) && parent in bundle && parent !in Elems(ordered)
    requires !SelfIssued(ordered[|ordered| - 1]) && ordered[|ordered| - 1].issuer == parent.subject
    requires parent.subject in index && index[parent.subject] == parent && verify(ordered[|ordered| - 1], parent)
    ensures Climbing(verify, bundle, index, ordered + [parent])
  {
    var more := ordered + [parent];
    ElemsSnoc(ordered, parent);
    assert forall i :: 0 <= i < |ordered| ==> ordered[i] in Elems(ordered);
    forall i | 0 <= i < |more| - 1
      ensures Link(verify, more, i)
    {
      if i < |ordered| - 1 {
        assert Link(verify, ordered, i);
      }
    }
  }

  /** `_order_chain`. */
  method OrderChain(verify: Verifier, certs: seq<Cert>) returns (r: Result<seq<Cert>, Failure>)
    ensures r.Ok? ==> IsChain(verify, Distinct(certs), r.value)
    ensures r.Err? ==> NoChain(verify, Distinct(certs))
  {
    var unique := Deduplicate(certs);
    ghost var bundle := Distinct(certs);
    SizeOfElems(unique);
    if |unique| == 1 {
      return Ok(unique);
    }
    var leaves := Leaves(unique);
    LeavesDecide(verify, bundle, leaves);
    if |leaves| != 1 {
      return Err(NotOneChain);
    }
    assert leaves[0] in Elems(leaves);
    LeavesNeedTwo(unique, leaves);
    var index := BySubject(unique);
    var ordered, current := [leaves[0]], leaves[0];
    while !SelfIssued(current) && current.issuer in index
      invariant Climbing(verify, bundle, index, ordered) && Forced(verify, bundle, ordered)
      invariant current == ordered[|ordered| - 1]
      decreases bundle - Elems(ordered)
    {
      var parent := index[current.issuer];
      Extends(verify, bundle, index, ordered);
      if exists k :: 0 <= k < |ordered| && ordered[k] == parent {
        return Err(Loop);
      }
      if !verify(current, parent) {
        return Err(DoesNotVerify);
      }
      ElemsSnoc(ordered, parent);
      ordered, current := ordered + [parent], parent;
    }
    Arrived(verify, bundle, index, ordered);
    if |ordered| != |unique| {
      return Err(Extras);
    }
    r := Ok(ordered);
  }

  /** A chain has exactly one leaf, its first certificate. */
  lemma LeavesDecide(verify: Verifier, bundle: set<Cert>, leaves: seq<Cert>)
    requires |bundle| != 1 && NoRepeats(leaves) && Elems(leaves) <= bundle
    requires forall c :: c in bundle ==> (c in Elems(leaves) <==> !Issues(bundle, c.subject))
    ensures |leaves| != 1 ==> NoChain(verify, bundle)
    ensures |leaves| == 1 ==> Forced(verify, bundle, leaves)
  {
    forall o | IsChain(verify, bundle, o)
      ensures |leaves| == 1 && leaves <= o
    {
      SizeOfElems(o);
      SizeOfElems(leaves);
      assert o[0] in bundle;
      LeafOfChain(verify, bundle, o, o[0]);
      forall c | c in Elems(leaves)
        ensures c == o[0]
      {
        LeafOfChain(verify, bundle, o, c);
      }
      assert Elems(leaves) == {o[0]};
      assert leaves[0] in Elems(leaves);
    }
  }

  lemma LeavesNeedTwo(unique: seq<Cert>, leaves: seq<Cert>)
    requires NoRepeats(unique) && |unique| != 1 && leaves != [] && Elems(leaves) <= Elems(unique)
    ensures |Elems(unique)| > 1
  {
    SizeOfElems(unique);
    assert leaves[0] in Elems(leaves);
  }

  /** At the top of the walk, the walk is the chain or there is none. */
  lemma Arrived(verify: Verifier, bundle: set<Cert>, index: map<string, Cert>, ordered: seq<Cert>)
    requires Climbing(verify, bundle, index, ordered) && Forced(verify, bundle, ordered)
    requires IndexOf(bundle, index) && |bundle| > 1
    requires var current := ordered[|ordered| - 1]; SelfIssued(current) || current.issuer !in index
    ensures if |ordered| == |bundle| then IsChain(verify, bundle, ordered) else NoChain(verify, bundle)
  {
    SizeOfElems(ordered);
    if |ordered| == |bundle| {
      SubsetOfSameSize(Elems(ordered), bundle);
      ClimbHasDistinctSubjects(verify, bundle, index, ordered);
    } else {
      forall o
        ensures !IsChain(verify, bundle, o)
      {
        ArrivedShort(verify, bundle, index, ordered, o);
      }
    }
  }

  lemma ArrivedShort(verify: Verifier, bundle: set<Cert>, index: map<string, Cert>, ordered: seq<Cert>, o: seq<Cert>)
    requires ordered != [] && Forced(verify, bundle, ordered) && IndexOf(bundle, index) && |bundle| > 1
    requires var current := ordered[|ordered| - 1]; SelfIssued(current) || current.issuer !in index
    ensures IsChain(verify, bundle, o) ==> |ordered| == |bundle|
  {
    if IsChain(verify, bundle, o) {
      NextOfChain(verify, bundle, index, ordered, o);
      SizeOfElems(o);
    }
  }

  lemma SubsetOfSameSize<T>(a: set<T>, b: set<T>)
    requires a <= b && |a| == |b|
    ensures a == b
  {
    forall x | x in b
      ensures x in a
    {
      SubsetSize(a + {x}, b);
    }
  }

  lemma {:induction false} SubsetSize<T>(a: set<T>, b: set<T>)
    requires a <= b
    ensures |a| <= |b|
    decreases a
  {
    if a != {} {
      var x :| x in a;
      SubsetSize(a - {x}, b - {x});
    }
  }

  /** Two listings of one bundle are both refused or give the same chain. */
  method OrderTwice(verify: Verifier, certs: seq<Cert>, certs': seq<Cert>)
    returns (r: Result<seq<Cert>, Failure>, r': Result<seq<Cert>, Failure>)
    requires KeysIdentify(certs) && KeysIdentify(certs') && Elems(certs) == Elems(certs')
    ensures r.Ok? <==> r'.Ok?
    ensures r.Ok? ==> r.value == r'.value && Elems(r.value) == Elems(certs)
  {
    DistinctIsAll(certs);
    DistinctIsAll(certs');
    r := OrderChain(verify, certs);
    r' := OrderChain(verify, certs');
    if r.Ok? && r'.Ok? {
      ChainIsUnique(verify, Distinct(certs), r.value, r'.value);
    }
  }
}
