/**
 How far the hashes of the audit log depend on the order of commits and seal passes:
 two histories that share a beginning and prune nothing after it.
 */
module AuditHashes {
  import opened Prelude
  import opened AuditChain
  import opened AuditRuns

  ghost predicate FirstSealedAt(rows: seq<Row>, a: int) {
    0 <= a < |rows| && IsSealed(rows[a]) && forall i :: 0 <= i < a ==> !IsSealed(rows[i])
  }

  /** The chain of the table starts at `a`, and row `i` is in it. */
  ghost predicate InChain(rows: seq<Row>, a: int, i: int) {
    FirstSealedAt(rows, a) && a <= i < |rows| && IsSealed(rows[i])
  }

  ghost predicate HasSealed(rows: seq<Row>) {
    exists i :: 0 <= i < |rows| && IsSealed(rows[i])
  }

  /** If the two rows have one id, they have the same contents. */
  ghost predicate SameIfOneId(xs: seq<Row>, p: int, ys: seq<Row>, q: int)
    requires 0 <= p < |xs| && 0 <= q < |ys|
  {
    xs[p].content.id == ys[q].content.id ==> xs[p].content == ys[q].content
  }

  /** `xs[i]` and `ys[j]` have one id, and the two chains hold the same contents up to them
      under every id that both hold. */
  ghost predicate SameRows(xs: seq<Row>, a: int, i: int, ys: seq<Row>, c: int, j: int)
    requires 0 <= a <= i < |xs| && 0 <= c <= j < |ys|
  {
    && xs[i].content.id == ys[j].content.id
    && (forall p, q :: a <= p <= i && c <= q <= j ==> SameIfOneId(xs, p, ys, q))
  }

  /** Both chains begin at one row, with one predecessor. */
  ghost predicate SameStart(xs: seq<Row>, a: int, ys: seq<Row>, c: int)
    requires FirstSealedAt(xs, a) && FirstSealedAt(ys, c)
  {
    xs[a].content.id == ys[c].content.id && xs[a].link.value.prev == ys[c].link.value.prev
  }

  lemma {:induction false} ChainIds(h: Hasher, xs: seq<Row>, a: int, b: int, i: int)
    requires Chain(h, xs, a, b) && a <= i < b
    ensures xs[i].content.id == xs[a].content.id + i - a
    decreases i
  {
    if a < i {
      ChainIds(h, xs, a, b, i - 1);
      assert Linked(xs, i);
    }
  }

  /** Chains that begin alike and hold the same contents carry the same hashes, wherever
      in its table each begins. */
  lemma {:induction false} ContentsFixHashes(h: Hasher, xs: seq<Row>, a: int, b: int, i: int,
                                             ys: seq<Row>, c: int, d: int, j: int)
    requires Chain(h, xs, a, b) && Chain(h, ys, c, d) && a <= i < b && c <= j < d && i - a == j - c
    requires xs[a].link.value.prev == ys[c].link.value.prev && SameRows(xs, a, i, ys, c, j)
    ensures xs[i] == ys[j]
    decreases i
  {
    assert SameIfOneId(xs, i, ys, j);
    assert Hashed(h, xs[i]) && Hashed(h, ys[j]);
    if a < i {
      assert Linked(xs, i) && Linked(ys, j);
      ContentsFixHashes(h, xs, a, b, i - 1, ys, c, d, j - 1);
    }
  }

  lemma {:induction false} ChainsFixHashes(h: Hasher, xs: seq<Row>, a: int, b: int, i: int, ys: seq<Row>, c: int, d: int, j: int)
    requires Chain(h, xs, a, b) && Chain(h, ys, c, d) && a <= i < b && c <= j < d
    requires FirstSealedAt(xs, a) && FirstSealedAt(ys, c)
    requires SameStart(xs, a, ys, c) && SameRows(xs, a, i, ys, c, j)
    ensures xs[i] == ys[j]
  {
    ChainIds(h, xs, a, b, i);
    ChainIds(h, ys, c, d, j);
    ContentsFixHashes(h, xs, a, b, i, ys, c, d, j);
  }

  // ---------------------------------------------------------------------------
  // Histories
  // ---------------------------------------------------------------------------

  ghost predicate PruneFreeFrom(run: seq<Event>, n: nat) {
    forall i :: n <= i < |run| ==> !run[i].PrunePass?
  }

  /** The chain at `a..b` of `base` still begins the one at `c..d` of `rows`; a chain that
      began since then began at genesis. */
  ghost predicate StartKept(base: seq<Row>, a: int, b: int, rows: seq<Row>, c: int, d: int) {
    && 0 <= a <= b <= |base| && 0 <= c <= d <= |rows|
    && (if a < b then c < d && rows[c] == base[a] else FromGenesis(rows, c, d))
  }

  /** What the later, prune-free part of a run keeps of the chain it found. */
  lemma {:induction false} ContinueChain(h: Hasher, run: seq<Event>, n: nat) returns (a: int, b: int, c: int, d: int)
    requires Legal(h, run) && n <= |run| && PruneFreeFrom(run, n)
    ensures RootedChain(h, Play(h, run[..n]), a, b) && RootedChain(h, Play(h, run), c, d)
    ensures StartKept(Play(h, run[..n]), a, b, Play(h, run), c, d)
  {
    if n == |run| {
      assert run[..n] == run;
      a, b := RunKeepsChain(h, run);
      c, d := a, b;
    } else {
      var init := run[..|run| - 1];
      assert init[..n] == run[..n];
      a, b, c, d := ContinueChain(h, init, n);
      var rows := Play(h, init);
      match run[|run| - 1]
      case Commit(x) => c, d := InsertKeepsChain(h, rows, c, d, x);
      case SealPass(cutoff) => c, d := SealKeepsChain(h, rows, c, d, cutoff);
      case AnchorPass(id, at, actor) =>
        c, d := InsertKeepsChain(h, rows, c, d, Content(id, Some(at), actor, AnchorOf(rows)));
    }
  }

  lemma {:induction false} FirstOfChain(h: Hasher, rows: seq<Row>, a: int, b: int, first: int)
    requires Chain(h, rows, a, b) && FirstSealedAt(rows, first)
    ensures first == a && a < b
  {
    assert a <= first < b;
    assert IsSealed(rows[a]);
  }

  /** Two histories with the first `n` events in common and no prune after them. */
  ghost predicate Siblings(h: Hasher, run: seq<Event>, run': seq<Event>, n: nat) {
    && Legal(h, run) && Legal(h, run') && n <= |run| && n <= |run'| && run[..n] == run'[..n]
    && PruneFreeFrom(run, n) && PruneFreeFrom(run', n)
  }

  /** However two sibling histories interleaved their commits and batched their seal
      passes, a row that both sealed carries the same hash if their chains begin alike
      and hold the same rows up to it. */
  lemma {:induction false} HashesIgnoreBatching(h: Hasher, run: seq<Event>, run': seq<Event>, n: nat,
                                                a: int, i: int, c: int, j: int)
    requires Siblings(h, run, run', n)
    requires InChain(Play(h, run), a, i) && InChain(Play(h, run'), c, j)
    requires SameRows(Play(h, run), a, i, Play(h, run'), c, j)
    requires SameStart(Play(h, run), a, Play(h, run'), c)
    ensures Play(h, run)[i] == Play(h, run')[j]
  {
    var xs, ys := Play(h, run), Play(h, run');
    var a1, b1 := ChainOf(h, run, a);
    var c1, d1 := ChainOf(h, run', c);
    ChainsFixHashes(h, xs, a, b1, i, ys, c, d1, j);
  }

  /** Once the common part has a sealed row, the chains do begin alike: between prunes
      the hashes never depend on the batching. */
  lemma {:induction false} BetweenPrunesHashesIgnoreBatching(h: Hasher, run: seq<Event>, run': seq<Event>, n: nat,
                                          a: int, i: int, c: int, j: int)
    requires Siblings(h, run, run', n) && HasSealed(Play(h, run[..n]))
    requires InChain(Play(h, run), a, i) && InChain(Play(h, run'), c, j)
    requires SameRows(Play(h, run), a, i, Play(h, run'), c, j)
    ensures Play(h, run)[i] == Play(h, run')[j]
  {
    StartsAlike(h, run, run', n, a, c);
    HashesIgnoreBatching(h, run, run', n, a, i, c, j);
  }

  /** Sibling chains begin alike, or both began after the common part, at genesis. */
  lemma {:induction false} StartsAlike(h: Hasher, run: seq<Event>, run': seq<Event>, n: nat, a: int, c: int)
    requires Siblings(h, run, run', n)
    requires FirstSealedAt(Play(h, run), a) && FirstSealedAt(Play(h, run'), c)
    ensures if HasSealed(Play(h, run[..n])) then SameStart(Play(h, run), a, Play(h, run'), c)
            else Play(h, run)[a].link.value.prev == GENESIS && Play(h, run')[c].link.value.prev == GENESIS
  {
    var a0, b0, a1, b1 := ContinueChain(h, run, n);
    var c0, d0, c1, d1 := ContinueChain(h, run', n);
    FirstOfChain(h, Play(h, run), a1, b1, a);
    FirstOfChain(h, Play(h, run'), c1, d1, c);
    HeadOfChain(h, Play(h, run[..n]), a0, b0);
    HeadOfChain(h, Play(h, run[..n]), c0, d0);
  }

  // ---------------------------------------------------------------------------
  // Exactly when hashes agree
  // ---------------------------------------------------------------------------

  lemma {:induction false} EqualHere(h: Hasher, xs: seq<Row>, ys: seq<Row>, x: Row, y: Row)
    requires CollisionFree(h, xs, ys) && x in xs && y in ys && IsSealed(x) && IsSealed(y)
    requires Hashed(h, x) && Hashed(h, y) && x.link.value.entry == y.link.value.entry
    ensures x.link == y.link
  {
  }

  /** Equal hashes stay equal down both chains. */
  lemma {:induction false} EqualDown(h: Hasher, xs: seq<Row>, a: int, b: int, i: int,
                                     ys: seq<Row>, c: int, d: int, j: int, k: nat)
    requires Chain(h, xs, a, b) && Chain(h, ys, c, d) && CollisionFree(h, xs, ys)
    requires a <= i - k && i < b && c <= j - k && j < d
    requires xs[i].link.value.entry == ys[j].link.value.entry
    ensures xs[i - k].link == ys[j - k].link
  {
    if k > 0 {
      EqualDown(h, xs, a, b, i, ys, c, d, j, k - 1);
      assert Linked(xs, i - k + 1) && Linked(ys, j - k + 1);
    }
    var x, y := xs[i - k], ys[j - k];
    assert Hashed(h, x) && Hashed(h, y);
    EqualHere(h, xs, ys, x, y);
  }

  /** A chain from genesis does not share a hash with one that reaches further back. */
  lemma {:induction false} NoLongerChain(h: Hasher, xs: seq<Row>, a: int, b: int, i: int, ys: seq<Row>, c: int, d: int, j: int)
    requires Chain(h, xs, a, b) && Chain(h, ys, c, d) && CollisionFree(h, xs, ys) && NeverGenesis(ys)
    requires a <= i < b && c <= j < d && i - a < j - c && xs[a].link.value.prev == GENESIS
    ensures xs[i].link.value.entry != ys[j].link.value.entry
  {
    if xs[i].link.value.entry == ys[j].link.value.entry {
      var k := i - a;
      EqualDown(h, xs, a, b, i, ys, c, d, j, k);
      assert Linked(ys, j - k);
      EntryIsNotGenesis(ys, j - k - 1);
    }
  }

  /** Two chains that both begin at genesis share a hash only if they begin at one row. */
  lemma {:induction false} GenesisChainsBeginAlike(h: Hasher, xs: seq<Row>, a: int, b: int, i: int, ys: seq<Row>, c: int, d: int, j: int)
    requires Chain(h, xs, a, b) && Chain(h, ys, c, d) && a <= i < b && c <= j < d
    requires CollisionFree(h, xs, ys) && NeverGenesis(xs) && NeverGenesis(ys)
    requires xs[a].link.value.prev == GENESIS && ys[c].link.value.prev == GENESIS
    requires xs[i].content.id == ys[j].content.id && xs[i].link.value.entry == ys[j].link.value.entry
    ensures xs[a].content.id == ys[c].content.id
  {
    ChainIds(h, xs, a, b, i);
    ChainIds(h, ys, c, d, j);
    if i - a < j - c {
      NoLongerChain(h, xs, a, b, i, ys, c, d, j);
    } else if j - c < i - a {
      CollisionFreeBack(h, xs, ys);
      NoLongerChain(h, ys, c, d, j, xs, a, b, i);
    }
  }

  /** With a digest that has no collisions and never gives the genesis value, a row that
      two sibling histories sealed carries the same hash in both if and only if their
      chains begin at the same row with the same predecessor. */
  lemma {:induction false} HashesAgreeIffChainsBeginAlike(h: Hasher, run: seq<Event>, run': seq<Event>, n: nat,
                                       a: int, i: int, c: int, j: int)
    requires Siblings(h, run, run', n)
    requires InChain(Play(h, run), a, i) && InChain(Play(h, run'), c, j)
    requires SameRows(Play(h, run), a, i, Play(h, run'), c, j)
    requires CollisionFree(h, Play(h, run), Play(h, run'))
    requires NeverGenesis(Play(h, run)) && NeverGenesis(Play(h, run'))
    ensures Play(h, run)[i].link.value.entry == Play(h, run')[j].link.value.entry
       <==> SameStart(Play(h, run), a, Play(h, run'), c)
  {
    var xs, ys := Play(h, run), Play(h, run');
    if SameStart(xs, a, ys, c) {
      HashesIgnoreBatching(h, run, run', n, a, i, c, j);
    } else if xs[i].link.value.entry == ys[j].link.value.entry {
      StartsAlike(h, run, run', n, a, c);
      var a1, b1 := ChainOf(h, run, a);
      var c1, d1 := ChainOf(h, run', c);
      GenesisChainsBeginAlike(h, xs, a, b1, i, ys, c, d1, j);
    }
  }

  lemma {:induction false} ChainOf(h: Hasher, run: seq<Event>, first: int) returns (a: int, b: int)
    requires Legal(h, run) && FirstSealedAt(Play(h, run), first)
    ensures a == first && a < b && Chain(h, Play(h, run), a, b)
  {
    a, b := RunKeepsChain(h, run);
    FirstOfChain(h, Play(h, run), a, b, first);
  }

  // ---------------------------------------------------------------------------
  // A row that commits late, before any chain
  // ---------------------------------------------------------------------------

  lemma {:induction false} PlayOn(h: Hasher, run: seq<Event>, e: Event)
    requires Legal(h, run) && Enabled(Play(h, run), e)
    ensures Legal(h, run + [e]) && Play(h, run + [e]) == Apply(h, Play(h, run), e)
  {
    assert (run + [e])[..|run + [e]| - 1] == run;
  }

  function Note(id: int): Content {
    Content(id, None, "", Plain(""))
  }

  /** The first seal pass has no gap guard: it may seal row 2 before row 1 commits. */
  const SEALED_FIRST: seq<Event> := [Commit(Note(2)), SealPass(0), Commit(Note(1))]
  const COMMITTED_FIRST: seq<Event> := [Commit(Note(2)), Commit(Note(1)), SealPass(0)]

  lemma {:induction false} SealedFirst(h: Hasher)
    ensures Legal(h, SEALED_FIRST)
    ensures Play(h, SEALED_FIRST) == [Row(Note(1), None), SealOne(h, Note(2), GENESIS)]
  {
    var two: Row := Row(Note(2), None);
    var s1: seq<Event> := [Commit(Note(2))];
    assert s1 == [] + s1;
    PlayOn(h, [], Commit(Note(2)));
    assert Play(h, s1) == [two];
    PlayOn(h, s1, SealPass(0));
    SealLone(h, two);
    PlayOn(h, s1 + [SealPass(0)], Commit(Note(1)));
    InsertBefore(SealOne(h, Note(2), GENESIS), Note(1));
    assert s1 + [SealPass(0)] + [Commit(Note(1))] == SEALED_FIRST;
  }

  lemma {:induction false} SealLone(h: Hasher, r: Row)
    requires !IsSealed(r) && r.content.timestamp.None?
    ensures SealRows(h, [r], 0) == [SealOne(h, r.content, GENESIS)]
  {
    HeadLenIs([r], 0);
    var t := SealNext(h, [r]);
    assert t == [SealOne(h, r.content, GENESIS)];
    assert SealRows(h, t, 0) == t;
  }

  lemma {:induction false} InsertBefore(r: Row, c: Content)
    requires c.id < r.content.id
    ensures Insert([r], c) == [Row(c, None), r]
  {
    assert [r][..0] == [];
    assert Insert([], c) == [Row(c, None)];
  }

  lemma {:induction false} CommittedFirst(h: Hasher)
    ensures Legal(h, COMMITTED_FIRST)
    ensures var one := SealOne(h, Note(1), GENESIS);
      Play(h, COMMITTED_FIRST) == [one, SealOne(h, Note(2), one.link.value.entry)]
  {
    var s1: seq<Event> := [Commit(Note(2))];
    assert s1 == [] + s1;
    PlayOn(h, [], Commit(Note(2)));
    assert Play(h, s1) == [Row(Note(2), None)];
    PlayOn(h, s1, Commit(Note(1)));
    InsertBefore(Row(Note(2), None), Note(1));
    PlayOn(h, s1 + [Commit(Note(1))], SealPass(0));
    SealPair(h);
    assert s1 + [Commit(Note(1))] + [SealPass(0)] == COMMITTED_FIRST;
  }

  lemma {:induction false} SealPair(h: Hasher)
    ensures var one := SealOne(h, Note(1), GENESIS);
      SealRows(h, [Row(Note(1), None), Row(Note(2), None)], 0) == [one, SealOne(h, Note(2), one.link.value.entry)]
  {
    var rows := [Row(Note(1), None), Row(Note(2), None)];
    var one := SealOne(h, Note(1), GENESIS);
    var two := SealOne(h, Note(2), one.link.value.entry);
    HeadLenIs(rows, 0);
    assert SealNext(h, rows) == [one, rows[1]];
    HeadLenIs([one, rows[1]], 1);
    assert SealNext(h, [one, rows[1]]) == [one, two];
    HeadLenIs([one, two], 2);
    assert SealRows(h, [one, two], 0) == [one, two];
    assert SealRows(h, [one, rows[1]], 0) == [one, two];
  }

  lemma {:induction false} FromTheStart(h: Hasher, run: seq<Event>, run': seq<Event>)
    requires Legal(h, run) && Legal(h, run') && PruneFreeFrom(run, 0) && PruneFreeFrom(run', 0)
    ensures Siblings(h, run, run', 0)
  {
    assert run[..0] == run'[..0];
  }

  /** A digest without collisions that never gives the genesis value. */
  ghost predicate Strong(h: Hasher) {
    && (forall x, y, c, d :: h(x, c) == h(y, d) ==> x == y && c == d)
    && (forall x, c :: h(x, c) != GENESIS)
  }

  /** Two tables with the same two rows, the second sealed with different hashes. */
  ghost predicate SecondDiffers(xs: seq<Row>, ys: seq<Row>) {
    && |xs| == |ys| == 2 && xs[0].content == ys[0].content && xs[1].content == ys[1].content
    && IsSealed(xs[1]) && IsSealed(ys[1])
    && xs[1].link.value.entry != ys[1].link.value.entry
  }

  lemma {:induction false} SealsDiffer(h: Hasher, xs: seq<Row>, ys: seq<Row>)
    requires Strong(h)
    requires xs == [Row(Note(1), None), SealOne(h, Note(2), GENESIS)]
    requires ys == [SealOne(h, Note(1), GENESIS), SealOne(h, Note(2), SealOne(h, Note(1), GENESIS).link.value.entry)]
    ensures SecondDiffers(xs, ys)
  {
    var one := h(GENESIS, Note(1));
    assert one != GENESIS;
    assert h(one, Note(2)) != h(GENESIS, Note(2));
  }

  lemma {:induction false} NoPrunes()
    ensures PruneFreeFrom(SEALED_FIRST, 0) && PruneFreeFrom(COMMITTED_FIRST, 0)
  {
  }

  /** Two prune-free histories with the same rows, both of which sealed row 2, give it
      different hashes. */
  lemma {:induction false} LateCommitChangesHashes(h: Hasher)
    requires Strong(h)
    ensures Siblings(h, SEALED_FIRST, COMMITTED_FIRST, 0)
    ensures SecondDiffers(Play(h, SEALED_FIRST), Play(h, COMMITTED_FIRST))
  {
    SealedFirst(h);
    CommittedFirst(h);
    NoPrunes();
    FromTheStart(h, SEALED_FIRST, COMMITTED_FIRST);
    SealsDiffer(h, Play(h, SEALED_FIRST), Play(h, COMMITTED_FIRST));
  }
}
