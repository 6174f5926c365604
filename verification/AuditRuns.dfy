/**
 What every run of commits, seals, anchors and prunes keeps: the log stays
 verifiable, and its hashes depend on the rows alone.
 */
module AuditRuns {
  import opened Prelude
  import opened AuditChain

  /** One committed transaction against the audit table. */
  datatype Event =
    | Commit(content: Content)
    | SealPass(cutoff: int)
    | AnchorPass(id: int, at: int, actor: string)
    | PrunePass(cutoff: int, id: int, at: int, actor: string)

  predicate HasId(rows: seq<Row>, id: int) {
    exists i :: 0 <= i < |rows| && rows[i].content.id == id
  }

  /** Inserts an unsealed row at its place in id order. */
  function Insert(rows: seq<Row>, c: Content): seq<Row> {
    if rows == [] || c.id > rows[|rows| - 1].content.id then rows + [Row(c, None)]
    else Insert(rows[..|rows| - 1], c) + [rows[|rows| - 1]]
  }

  function AnchorOf(rows: seq<Row>): Detail {
    AnchorNote(HeadId(rows), if HeadHash(rows) == GENESIS then None else Some(HeadHash(rows)), SealedCount(rows))
  }

  /**
   An insert takes an id that is free: it may fill a gap left by a slower
   transaction, or reuse the id of a pruned row. Only `prune` writes checkpoint
   rows, and its transaction allocates the newest id.
   */
  ghost predicate Enabled(rows: seq<Row>, e: Event) {
    match e
    case Commit(c) => !HasId(rows, c.id) && c.detail.Plain?
    case SealPass(_) => true
    case AnchorPass(id, _, _) => !HasId(rows, id)
    case PrunePass(cutoff, id, _, _) =>
      forall i :: PrunableLen(rows, cutoff) <= i < |rows| ==> rows[i].content.id < id
  }

  function Apply(h: Hasher, rows: seq<Row>, e: Event): seq<Row> {
    match e
    case Commit(c) => Insert(rows, c)
    case SealPass(cutoff) => SealRows(h, rows, cutoff)
    case AnchorPass(id, at, actor) => Insert(rows, Content(id, Some(at), actor, AnchorOf(rows)))
    case PrunePass(cutoff, id, at, actor) => PruneRows(rows, cutoff, id, at, actor)
  }

  /** The table after a run that starts empty. */
  function Play(h: Hasher, run: seq<Event>): seq<Row> {
    if run == [] then [] else Apply(h, Play(h, run[..|run| - 1]), run[|run| - 1])
  }

  ghost predicate Legal(h: Hasher, run: seq<Event>) {
    run == [] || (Legal(h, run[..|run| - 1]) && Enabled(Play(h, run[..|run| - 1]), run[|run| - 1]))
  }

  // ---------------------------------------------------------------------------
  // The invariant
  // ---------------------------------------------------------------------------

  /** Row `i` continues row `i - 1`. */
  ghost predicate Linked(rows: seq<Row>, i: int)
    requires 0 < i < |rows|
  {
    && IsSealed(rows[i]) && IsSealed(rows[i - 1])
    && Adjacent(rows, i)
    && rows[i].link.value.prev == rows[i - 1].link.value.entry
  }

  ghost predicate Hashed(h: Hasher, r: Row) {
    IsSealed(r) ==> r.link.value.entry == h(r.link.value.prev, r.content)
  }

  /** The chain starts at genesis, or the newest checkpoint for the row before it
      carries that row's hash. */
  ghost predicate Rooted(rows: seq<Row>, a: int)
    requires 0 <= a < |rows| && IsSealed(rows[a])
  {
    var prev := rows[a].link.value.prev;
    prev == GENESIS || CheckpointFor(rows, rows[a].content.id - 1) == Some(prev)
  }

  /** Exactly the rows at `a..b` are sealed, and they form one gap-free chain.
      Rows before `a` were committed too late to join it. */
  ghost predicate Chain(h: Hasher, rows: seq<Row>, a: int, b: int) {
    && 0 <= a <= b <= |rows|
    && (forall i :: 0 <= i < |rows| ==> (IsSealed(rows[i]) <==> a <= i < b))
    && (forall i :: a < i < b ==> Linked(rows, i))
    && (forall i :: 0 <= i < |rows| ==> Hashed(h, rows[i]))
  }

  ghost predicate RootedChain(h: Hasher, rows: seq<Row>, a: int, b: int) {
    Chain(h, rows, a, b) && (a < b ==> Rooted(rows, a))
  }

  /** The chain started at the genesis value, as it does while nothing is pruned. */
  ghost predicate FromGenesis(rows: seq<Row>, a: int, b: int) {
    0 <= a < b <= |rows| ==> IsSealed(rows[a]) && rows[a].link.value.prev == GENESIS
  }

  // --- commits -----------------------------------------------------------------

  /** `r` is `rows` with an unsealed row for `c` put in at `k`. */
  ghost predicate InsertedAt(r: seq<Row>, rows: seq<Row>, c: Content, k: int) {
    && 0 <= k <= |rows|
    && |r| == |rows| + 1
    && r[k] == Row(c, None)
    && (forall i :: 0 <= i < k ==> r[i] == rows[i])
    && (forall i :: k < i < |r| ==> r[i] == rows[i - 1])
    && (k < |rows| ==> c.id < rows[k].content.id)
    && (0 < k ==> rows[k - 1].content.id < c.id)
  }

  /** Where `Insert` puts the row. */
  lemma {:induction false} InsertAt(rows: seq<Row>, c: Content) returns (k: int)
    requires !HasId(rows, c.id)
    ensures InsertedAt(Insert(rows, c), rows, c, k)
  {
    if rows == [] || c.id > rows[|rows| - 1].content.id {
      k := |rows|;
    } else {
      k := InsertAt(rows[..|rows| - 1], c);
    }
  }

  lemma InsertedSorted(r: seq<Row>, rows: seq<Row>, c: Content, k: int)
    requires Sorted(rows) && InsertedAt(r, rows, c, k)
    ensures Sorted(r)
  {
    forall i | 0 < i < |r|
      ensures Ascends(r, i)
    {
      if i < k {
        assert Ascends(rows, i);
      } else if k + 1 < i {
        assert Ascends(rows, i - 1);
      }
    }
  }

  /** An inserted row that is not a checkpoint changes no vouching. */
  lemma {:induction false} InsertKeepsCheckpoints(rows: seq<Row>, c: Content, through: int)
    requires !c.detail.Checkpoint?
    ensures CheckpointFor(Insert(rows, c), through) == CheckpointFor(rows, through)
  {
    if rows == [] || c.id > rows[|rows| - 1].content.id {
      assert Insert(rows, c)[..|rows|] == rows;
    } else {
      var init := rows[..|rows| - 1];
      InsertKeepsCheckpoints(init, c, through);
      var r := Insert(rows, c);
      assert r[..|r| - 1] == Insert(init, c);
    }
  }

  /** A free id lies before the sealed range or after it, never inside, so a commit
      only shifts the chain. */
  lemma InsertedKeepsChain(h: Hasher, r: seq<Row>, rows: seq<Row>, a: int, b: int, c: Content, k: int)
    requires Chain(h, rows, a, b) && InsertedAt(r, rows, c, k)
    ensures var s := if a < b && k <= a then 1 else 0;
      Chain(h, r, a + s, b + s) && (a < b ==> r[a + s] == rows[a])
  {
    assert a < k < b ==> Linked(rows, k);
    var s := if a < b && k <= a then 1 else 0;
    forall i | a + s < i < b + s
      ensures Linked(r, i)
    {
      assert Linked(rows, i - s);
    }
    assert Chain(h, r, a + s, b + s);
  }

  lemma InsertKeepsChain(h: Hasher, rows: seq<Row>, a: int, b: int, c: Content) returns (a': int, b': int)
    requires RootedChain(h, rows, a, b) && !HasId(rows, c.id) && !c.detail.Checkpoint?
    ensures RootedChain(h, Insert(rows, c), a', b')
    ensures FromGenesis(rows, a, b) ==> FromGenesis(Insert(rows, c), a', b')
    ensures a < b ==> a' < b' && Insert(rows, c)[a'] == rows[a]
  {
    var k := InsertAt(rows, c);
    InsertedKeepsChain(h, Insert(rows, c), rows, a, b, c, k);
    var s := if a < b && k <= a then 1 else 0;
    a', b' := a + s, b + s;
    if a < b {
      InsertKeepsCheckpoints(rows, c, rows[a].content.id - 1);
    }
  }

  // --- seals -------------------------------------------------------------------

  /** A checkpoint row counts whether or not it is sealed. */
  lemma {:induction false} SealNextKeepsCheckpoints(rows: seq<Row>, n: nat, x: Row, through: int)
    requires n < |rows| && x.content == rows[n].content
    ensures CheckpointFor(rows[n := x], through) == CheckpointFor(rows, through)
  {
    var r, init := rows[n := x], rows[..|rows| - 1];
    if n < |rows| - 1 {
      SealNextKeepsCheckpoints(init, n, x, through);
      assert r[..|r| - 1] == init[n := x];
    } else {
      assert r[..|r| - 1] == init;
    }
  }

  lemma HeadOfChain(h: Hasher, rows: seq<Row>, a: int, b: int)
    requires Chain(h, rows, a, b)
    ensures HeadLen(rows) == if a < b then b else 0
  {
    HeadLenIs(rows, if a < b then b else 0);
  }

  lemma SealNextKeepsChain(h: Hasher, rows: seq<Row>, a: int, b: int, cutoff: int)
    requires RootedChain(h, rows, a, b) && Ready(rows, cutoff)
    ensures var a', b' := if a < b then a else 0, HeadLen(rows) + 1;
      && RootedChain(h, SealNext(h, rows), a', b')
      && (FromGenesis(rows, a, b) ==> FromGenesis(SealNext(h, rows), a', b'))
      && (a < b ==> SealNext(h, rows)[a'] == rows[a])
  {
    HeadOfChain(h, rows, a, b);
    var n := HeadLen(rows);
    var r := SealNext(h, rows);
    var a' := if a < b then a else 0;
    forall i | a' < i < n + 1
      ensures Linked(r, i)
    {
      assert i < n ==> Linked(rows, i);
    }
    assert Chain(h, r, a', n + 1);
    if a < b {
      SealNextKeepsCheckpoints(rows, n, r[n], rows[a].content.id - 1);
    }
  }

  lemma {:induction false} SealKeepsChain(h: Hasher, rows: seq<Row>, a: int, b: int, cutoff: int)
    returns (a': int, b': int)
    requires RootedChain(h, rows, a, b)
    ensures RootedChain(h, SealRows(h, rows, cutoff), a', b')
    ensures FromGenesis(rows, a, b) ==> FromGenesis(SealRows(h, rows, cutoff), a', b')
    ensures a < b ==> a' < b' && |SealRows(h, rows, cutoff)| == |rows| && SealRows(h, rows, cutoff)[a'] == rows[a]
    decreases |rows| - HeadLen(rows)
  {
    a', b' := a, b;
    if Ready(rows, cutoff) {
      SealNextKeepsChain(h, rows, a, b, cutoff);
      a', b' := SealKeepsChain(h, SealNext(h, rows), if a < b then a else 0, HeadLen(rows) + 1, cutoff);
    }
  }

  /** Sealing rewrites the links of rows and nothing else. */
  lemma {:induction false} SealKeepsContents(h: Hasher, rows: seq<Row>, cutoff: int)
    ensures var r := SealRows(h, rows, cutoff);
      |r| == |rows| && forall i :: 0 <= i < |rows| ==> r[i].content == rows[i].content
    decreases |rows| - HeadLen(rows)
  {
    if Ready(rows, cutoff) {
      SealKeepsContents(h, SealNext(h, rows), cutoff);
    }
  }

  lemma SameContentsSorted(rows: seq<Row>, rows': seq<Row>)
    requires Sorted(rows) && |rows| == |rows'|
    requires forall i :: 0 <= i < |rows| ==> rows'[i].content == rows[i].content
    ensures Sorted(rows')
  {
    forall i | 0 < i < |rows|
      ensures Ascends(rows', i)
    {
      assert Ascends(rows, i);
    }
  }

  // --- prunes ------------------------------------------------------------------

  /** Only rows of the chain are pruned, and only when no row precedes it. */
  lemma PrunableInChain(h: Hasher, rows: seq<Row>, a: int, b: int, cutoff: int)
    requires Chain(h, rows, a, b) && PrunableLen(rows, cutoff) > 0
    ensures a == 0 && PrunableLen(rows, cutoff) <= b
  {
    assert Prunable(rows[0], cutoff) && Prunable(rows[PrunableLen(rows, cutoff) - 1], cutoff);
  }

  /** What a prune leaves, row by row. */
  ghost predicate Dropped(r: seq<Row>, rows: seq<Row>, n: nat, note: Row) {
    && n <= |rows| && |r| == |rows| - n + 1
    && (forall i :: 0 <= i < |r| - 1 ==> r[i] == rows[i + n])
    && r[|r| - 1] == note
  }

  lemma DroppedKeepsChain(h: Hasher, r: seq<Row>, rows: seq<Row>, b: int, n: nat, note: Row)
    requires Chain(h, rows, 0, b) && 0 < n <= b && Dropped(r, rows, n, note) && !IsSealed(note)
    ensures Chain(h, r, 0, b - n)
    ensures n < b ==> r[0] == rows[n] && Linked(rows, n)
  {
    forall i | 0 < i < b - n
      ensures Linked(r, i)
    {
      assert Linked(rows, i + n);
    }
    assert Chain(h, r, 0, b - n);
  }

  lemma PruneKeepsChain(h: Hasher, rows: seq<Row>, a: int, b: int, e: Event) returns (a': int, b': int)
    requires RootedChain(h, rows, a, b) && e.PrunePass?
    ensures RootedChain(h, Apply(h, rows, e), a', b')
    ensures 0 < PrunableLen(rows, e.cutoff) ==> a' == 0 && b' == b - PrunableLen(rows, e.cutoff)
  {
    var n := PrunableLen(rows, e.cutoff);
    a', b' := a, b;
    if n > 0 {
      var r := Apply(h, rows, e);
      PrunableInChain(h, rows, a, b, e.cutoff);
      DroppedKeepsChain(h, r, rows, b, n, r[|r| - 1]);
      a', b' := 0, b - n;
      assert rows[..n][n - 1] == rows[n - 1];
    }
  }

  lemma DroppedSorted(r: seq<Row>, rows: seq<Row>, n: nat, note: Row)
    requires Sorted(rows) && Dropped(r, rows, n, note)
    requires forall i :: n <= i < |rows| ==> rows[i].content.id < note.content.id
    ensures Sorted(r)
  {
    forall i | 0 < i < |r|
      ensures Ascends(r, i)
    {
      if i < |r| - 1 {
        assert Ascends(rows, i + n);
      }
    }
  }

  // --- runs --------------------------------------------------------------------

  ghost predicate PruneFree(run: seq<Event>) {
    forall i :: 0 <= i < |run| ==> !run[i].PrunePass?
  }

  /** The table stays in id order. */
  lemma {:induction false} RunKeepsSorted(h: Hasher, run: seq<Event>)
    requires Legal(h, run)
    ensures Sorted(Play(h, run))
  {
    if run != [] {
      var rows, e := Play(h, run[..|run| - 1]), run[|run| - 1];
      RunKeepsSorted(h, run[..|run| - 1]);
      ApplyKeepsSorted(h, rows, e);
    }
  }

  lemma ApplyKeepsSorted(h: Hasher, rows: seq<Row>, e: Event)
    requires Sorted(rows) && Enabled(rows, e)
    ensures Sorted(Apply(h, rows, e))
  {
    match e
    case Commit(c) =>
      var k := InsertAt(rows, c);
      InsertedSorted(Insert(rows, c), rows, c, k);
    case SealPass(cutoff) =>
      SealKeepsContents(h, rows, cutoff);
      SameContentsSorted(rows, SealRows(h, rows, cutoff));
    case AnchorPass(id, at, actor) =>
      var c := Content(id, Some(at), actor, AnchorOf(rows));
      var k := InsertAt(rows, c);
      InsertedSorted(Insert(rows, c), rows, c, k);
    case PrunePass(cutoff, id, at, actor) =>
      var r := Apply(h, rows, e);
      if 0 < PrunableLen(rows, cutoff) {
        DroppedSorted(r, rows, PrunableLen(rows, cutoff), r[|r| - 1]);
      }
  }

  /** Every reachable table holds one rooted chain; it starts at genesis while
      the run prunes nothing. */
  lemma {:induction false} RunKeepsChain(h: Hasher, run: seq<Event>) returns (a: int, b: int)
    requires Legal(h, run)
    ensures RootedChain(h, Play(h, run), a, b)
    ensures PruneFree(run) ==> FromGenesis(Play(h, run), a, b)
  {
    a, b := 0, 0;
    if run != [] {
      var rows := Play(h, run[..|run| - 1]);
      a, b := RunKeepsChain(h, run[..|run| - 1]);
      match run[|run| - 1]
      case Commit(c) => a, b := InsertKeepsChain(h, rows, a, b, c);
      case SealPass(cutoff) => a, b := SealKeepsChain(h, rows, a, b, cutoff);
      case AnchorPass(id, at, actor) =>
        a, b := InsertKeepsChain(h, rows, a, b, Content(id, Some(at), actor, AnchorOf(rows)));
      case PrunePass(_, _, _, _) => a, b := PruneKeepsChain(h, rows, a, b, run[|run| - 1]);
    }
  }

  lemma ChainIsAccepted(h: Hasher, rows: seq<Row>, a: int, b: int)
    requires RootedChain(h, rows, a, b)
    ensures Accepted(h, rows, false)
  {
    if rows != [] && IsSealed(rows[0]) {
      forall i | 0 <= i < |rows|
        ensures Sound(h, rows, false, i)
      {
        assert Hashed(h, rows[i]);
        assert 0 < i < b ==> Linked(rows, i);
      }
    }
  }

  /** A walk whose first row is sealed is accepted exactly when it is one rooted chain,
      followed only by unsealed rows. */
  lemma AcceptedIsOneChain(h: Hasher, rows: seq<Row>)
    requires rows != [] && IsSealed(rows[0])
    ensures Accepted(h, rows, false) <==> exists b :: 0 < b && RootedChain(h, rows, 0, b)
  {
    if Accepted(h, rows, false) {
      AcceptedIsRooted(h, rows);
    } else if b :| 0 < b && RootedChain(h, rows, 0, b) {
      ChainIsAccepted(h, rows, 0, b);
    }
  }

  lemma AcceptedIsRooted(h: Hasher, rows: seq<Row>)
    requires rows != [] && IsSealed(rows[0]) && Accepted(h, rows, false)
    ensures 0 < HeadLen(rows) && RootedChain(h, rows, 0, HeadLen(rows))
  {
    var b := HeadLen(rows);
    AcceptedPrefix(h, rows, false, b - 1);
    forall i | 0 <= i < b
      ensures IsSealed(rows[i]) && Hashed(h, rows[i]) && (0 < i ==> Linked(rows, i))
    {
      AcceptedPrefix(h, rows, false, i);
    }
    assert Chain(h, rows, 0, b);
    assert !Offends(h, rows, false, 0, NoCheckpoint) by {
      assert Sound(h, rows, false, 0);
    }
  }

  /** `verify` accepts the log after any run whatever. */
  lemma {:induction false} EveryRunVerifies(h: Hasher, run: seq<Event>)
    requires Legal(h, run)
    ensures Accepted(h, Play(h, run), false)
  {
    var a, b := RunKeepsChain(h, run);
    ChainIsAccepted(h, Play(h, run), a, b);
  }

  /** The first row a prune leaves continues the last one it removed. */
  lemma {:induction false} PruneStart(h: Hasher, rows: seq<Row>, a: int, b: int, cutoff: int, r: seq<Row>, note: Row)
    requires Chain(h, rows, a, b) && 0 < PrunableLen(rows, cutoff)
    requires Dropped(r, rows, PrunableLen(rows, cutoff), note) && !IsSealed(note)
    ensures var last := rows[PrunableLen(rows, cutoff) - 1];
      IsSealed(last) &&
      if IsSealed(r[0]) then
        r[0].link.value.prev == last.link.value.entry && r[0].content.id - 1 == last.content.id
      else
        HeadHash(r) == GENESIS
  {
    var n := PrunableLen(rows, cutoff);
    PrunableInChain(h, rows, a, b, cutoff);
    DroppedKeepsChain(h, r, rows, b, n, note);
    HeadOfChain(h, r, 0, b - n);
    assert Prunable(rows[n - 1], cutoff);
  }

  /** The newest row is the checkpoint of the removed rows, and it vouches for the
      first row left; or no chain is left and the next pass starts one at genesis. */
  ghost predicate VouchedStart(rows: seq<Row>, r: seq<Row>, n: nat)
    requires 0 < n <= |rows| && IsSealed(rows[n - 1]) && r != []
  {
    var last := rows[n - 1].link.value.entry;
    && r[|r| - 1].content.detail == Checkpoint(rows[0].content.id, rows[n - 1].content.id, last, n)
    && (if IsSealed(r[0]) then
          r[0].link.value.prev == last && CheckpointFor(r, r[0].content.id - 1) == Some(last)
        else
          HeadHash(r) == GENESIS)
  }

  lemma {:induction false} PruneVouches(h: Hasher, rows: seq<Row>, a: int, b: int, e: Event)
    requires Chain(h, rows, a, b) && e.PrunePass? && 0 < PrunableLen(rows, e.cutoff)
    ensures IsSealed(rows[PrunableLen(rows, e.cutoff) - 1])
    ensures VouchedStart(rows, Apply(h, rows, e), PrunableLen(rows, e.cutoff))
  {
    var r := Apply(h, rows, e);
    PruneStart(h, rows, a, b, e.cutoff, r, r[|r| - 1]);
  }

  /** Every prune that removes rows leaves a vouched start. */
  lemma {:induction false} PruneLeavesAVouchedStart(h: Hasher, run: seq<Event>, e: Event)
    requires Legal(h, run) && e.PrunePass? && 0 < PrunableLen(Play(h, run), e.cutoff)
    ensures IsSealed(Play(h, run)[PrunableLen(Play(h, run), e.cutoff) - 1])
    ensures VouchedStart(Play(h, run), Apply(h, Play(h, run), e), PrunableLen(Play(h, run), e.cutoff))
  {
    var a, b := RunKeepsChain(h, run);
    PruneVouches(h, Play(h, run), a, b, e);
  }

  // ---------------------------------------------------------------------------
  // Batching
  // ---------------------------------------------------------------------------

  /** A seal pass followed by a later one equals the later one alone. */
  lemma {:induction false} SealTwiceIsSealOnce(h: Hasher, rows: seq<Row>, c1: int, c2: int)
    requires c1 <= c2
    ensures SealRows(h, SealRows(h, rows, c1), c2) == SealRows(h, rows, c2)
    decreases |rows| - HeadLen(rows)
  {
    if Ready(rows, c1) {
      SealTwiceIsSealOnce(h, SealNext(h, rows), c1, c2);
    }
  }

  // ---------------------------------------------------------------------------
  // Tamper evidence
  // ---------------------------------------------------------------------------

  /** The digest separates the inputs that occur in the two logs. */
  ghost predicate CollisionFree(h: Hasher, xs: seq<Row>, ys: seq<Row>) {
    forall x, y | x in xs && y in ys && IsSealed(x) && IsSealed(y) ::
      h(x.link.value.prev, x.content) == h(y.link.value.prev, y.content)
      ==> x.link.value.prev == y.link.value.prev && x.content == y.content
  }

  /** No sealed row hashes to the genesis value. */
  ghost predicate NeverGenesis(rows: seq<Row>) {
    forall r | r in rows && IsSealed(r) :: r.link.value.entry != GENESIS
  }

  lemma EntryIsNotGenesis(rows: seq<Row>, i: int)
    requires NeverGenesis(rows) && 0 <= i < |rows| && IsSealed(rows[i])
    ensures rows[i].link.value.entry != GENESIS
  {
    assert rows[i] in rows;
  }

  /** In an accepted walk the rows up to a sealed one are sealed. */
  lemma AcceptedPrefix(h: Hasher, rows: seq<Row>, anyStart: bool, i: int)
    requires rows != [] && IsSealed(rows[0]) && Accepted(h, rows, anyStart)
    requires 0 <= i < |rows| && IsSealed(rows[i])
    ensures forall k :: 0 <= k <= i ==> IsSealed(rows[k])
    ensures Hashed(h, rows[i])
    ensures 0 < i ==> Linked(rows, i)
  {
    forall k | 0 <= k < i
      ensures IsSealed(rows[k])
    {
      assert Sound(h, rows, anyStart, k);
      assert !Offends(h, rows, anyStart, k, UnsealedInside);
    }
    assert Sound(h, rows, anyStart, i);
    assert !Offends(h, rows, anyStart, i, HashMismatch);
    assert !Offends(h, rows, anyStart, i, RowsMissing) && !Offends(h, rows, anyStart, i, PrevMismatch);
  }

  /** Two verified logs that share one hash agree on every row below it that both
      still hold, whichever checkpoint each walk started from. */
  lemma {:induction false} SharedHashSharesHistory(h: Hasher, xs: seq<Row>, ys: seq<Row>, i: int, j: int, d: int)
    requires Accepted(h, xs, false) && Accepted(h, ys, false) && CollisionFree(h, xs, ys)
    requires 0 <= d <= i < |xs| && d <= j < |ys|
    requires IsSealed(xs[0]) && IsSealed(ys[0]) && IsSealed(xs[i]) && IsSealed(ys[j])
    requires xs[i].link.value.entry == ys[j].link.value.entry
    ensures xs[i - d] == ys[j - d]
    decreases d
  {
    AcceptedPrefix(h, xs, false, i);
    AcceptedPrefix(h, ys, false, j);
    assert xs[i] in xs && ys[j] in ys;
    if d > 0 {
      SharedHashSharesHistory(h, xs, ys, i - 1, j - 1, d - 1);
    }
  }

  /** A chain from genesis does not share a hash with a longer one. */
  lemma SharedHashNotFurther(h: Hasher, xs: seq<Row>, ys: seq<Row>, i: int, j: int)
    requires Accepted(h, xs, false) && Accepted(h, ys, false) && CollisionFree(h, xs, ys) && NeverGenesis(ys)
    requires 0 <= i < |xs| && i < j < |ys| && IsSealed(xs[i]) && IsSealed(ys[j])
    requires IsSealed(xs[0]) && xs[0].link.value.prev == GENESIS && IsSealed(ys[0])
    ensures xs[i].link.value.entry != ys[j].link.value.entry
  {
    if xs[i].link.value.entry == ys[j].link.value.entry {
      SharedHashSharesHistory(h, xs, ys, i, j, i);
      AcceptedPrefix(h, ys, false, j);
      AcceptedPrefix(h, ys, false, j - i);
      EntryIsNotGenesis(ys, j - i - 1);
    }
  }

  lemma CollisionFreeBack(h: Hasher, xs: seq<Row>, ys: seq<Row>)
    requires CollisionFree(h, xs, ys)
    ensures CollisionFree(h, ys, xs)
  {
  }

  /** Two verified logs that both start at genesis and share a head hash, or the
      hash an anchor recorded, have the same rows up to it. */
  lemma SharedHashMeansSameLog(h: Hasher, xs: seq<Row>, ys: seq<Row>, i: int, j: int)
    requires Accepted(h, xs, false) && Accepted(h, ys, false) && CollisionFree(h, xs, ys)
    requires NeverGenesis(xs) && NeverGenesis(ys)
    requires 0 <= i < |xs| && 0 <= j < |ys| && IsSealed(xs[i]) && IsSealed(ys[j])
    requires IsSealed(xs[0]) && xs[0].link.value.prev == GENESIS
    requires IsSealed(ys[0]) && ys[0].link.value.prev == GENESIS
    requires xs[i].link.value.entry == ys[j].link.value.entry
    ensures i == j && xs[..i + 1] == ys[..j + 1]
  {
    if i < j {
      SharedHashNotFurther(h, xs, ys, i, j);
    } else if j < i {
      CollisionFreeBack(h, xs, ys);
      SharedHashNotFurther(h, ys, xs, j, i);
    }
    forall k | 0 <= k <= i
      ensures xs[k] == ys[k]
    {
      SharedHashSharesHistory(h, xs, ys, i, j, i - k);
    }
  }

  /** The walk gives up on a log whose first row is unsealed: damage behind it is
      reported as fine, although every other damaged log is refused. */
  lemma UnsealedFirstRowHidesDamage(h: Hasher, good: Content, bad: Row)
    requires good.id + 1 < bad.content.id && IsSealed(bad)
    requires bad.link.value.entry != h(bad.link.value.prev, bad.content)
    ensures var rows := [Row(good, None), bad];
      Sorted(rows) && !Clean(h, rows, false) && Accepted(h, rows, false)
  {
    var rows := [Row(good, None), bad];
    assert Offends(h, rows, false, 1, HashMismatch);
    assert !Sound(h, rows, false, 1);
  }

  /** Exactly when acceptance means a clean chain. */
  lemma AcceptanceIsCleanliness(h: Hasher, rows: seq<Row>, anyStart: bool)
    ensures (Accepted(h, rows, anyStart) <==> Clean(h, rows, anyStart))
      <==> (rows == [] || IsSealed(rows[0]) || HeadLen(rows) == 0)
  {
    if rows != [] && !IsSealed(rows[0]) {
      if HeadLen(rows) == 0 {
        forall i, why | 0 <= i < |rows|
          ensures !Offends(h, rows, anyStart, i, why)
        {
        }
      } else {
        assert IsSealed(rows[HeadLen(rows) - 1]);
        assert Offends(h, rows, anyStart, 0, UnsealedInside);
        assert !Sound(h, rows, anyStart, 0);
      }
    }
  }
}
