/**
 What sealing, pruning and checkpoints come down to, in the stored columns alone: which
 rows a pass seals, which rows retention removes, and what a checkpoint vouches for.
 */
module AuditPolicy {
  import opened Prelude
  import opened AuditChain
  import opened AuditRuns

  // ---------------------------------------------------------------------------
  // Retention
  // ---------------------------------------------------------------------------

  /** Sealed and dated before the moment. */
  predicate Outdated(r: Row, moment: int) {
    match r
    case Row(Content(_, Some(at), _, _), Some(_)) => at < moment
    case _ => false
  }

  /** Of the old table the first `n` rows are gone, all of them outdated. The others are
      left in their order, and the first of them is not outdated or its id does not follow
      that of the last one removed. A checkpoint is added if any row is gone. */
  ghost predicate Retained(was: seq<Row>, left: seq<Row>, moment: int, n: nat) {
    && n <= |was| && |left| == |was| - n + (if n > 0 then 1 else 0)
    && (forall i :: 0 <= i < n ==> Outdated(was[i], moment))
    && (forall i :: n <= i < |was| ==> left[i - n] == was[i])
    && (n < |was| ==> !Outdated(was[n], moment) || (n > 0 && was[n].content.id != was[n - 1].content.id + 1))
  }

  lemma PruneRetains(rows: seq<Row>, moment: int, id: int, at: int, actor: string)
    ensures Retained(rows, PruneRows(rows, moment, id, at, actor), moment, PrunableLen(rows, moment))
  {
    var n := PrunableLen(rows, moment);
    forall i | 0 <= i < n
      ensures Outdated(rows[i], moment)
    {
      assert Prunable(rows[i], moment);
    }
  }

  /** A row is gone only if it was outdated, and every other row is still there. */
  lemma RetainedRows(was: seq<Row>, left: seq<Row>, moment: int, n: nat, r: Row)
    requires Retained(was, left, moment, n) && r in was
    ensures r !in left ==> Outdated(r, moment)
    ensures !Outdated(r, moment) ==> r in left
  {
    var i :| 0 <= i < |was| && was[i] == r;
    if n <= i {
      assert left[i - n] == r;
    }
  }

  // ---------------------------------------------------------------------------
  // Sealing
  // ---------------------------------------------------------------------------

  /** A pass leaves contents and earlier seals alone; it seals the rows after the head
      without leaving one out, none of them dated after the moment; and it goes on until
      the rows end, one is dated after the moment, or an id is missing. */
  ghost predicate SealsTheRipe(was: seq<Row>, left: seq<Row>, moment: int) {
    var m, n := HeadLen(was), HeadLen(left);
    SealedTo(was, left, moment, m, n)
    && (n < |left| ==> DatedAfter(was[n], moment) || (n > 0 && was[n].content.id != was[n - 1].content.id + 1))
  }

  predicate DatedAfter(r: Row, moment: int) {
    match r.content.timestamp
    case Some(at) => at > moment
    case None => false
  }

  ghost predicate SealedTo(was: seq<Row>, left: seq<Row>, moment: int, m: nat, n: nat) {
    && |left| == |was| && m <= n <= |left|
    && (forall i :: 0 <= i < |was| ==> left[i].content == was[i].content)
    && (forall i :: 0 <= i < m ==> left[i] == was[i])
    && (forall i :: m <= i < n ==> left[i].link.Some? && !DatedAfter(was[i], moment))
  }

  lemma SealedOneMore(h: Hasher, was: seq<Row>, rows: seq<Row>, moment: int, m: nat)
    requires m == HeadLen(was) && SealedTo(was, rows, moment, m, HeadLen(rows)) && Ready(rows, moment)
    ensures SealedTo(was, SealNext(h, rows), moment, m, HeadLen(rows) + 1)
  {
  }

  lemma StopsThere(was: seq<Row>, rows: seq<Row>, moment: int, m: nat)
    requires m == HeadLen(was) && SealedTo(was, rows, moment, m, HeadLen(rows)) && !Ready(rows, moment)
    ensures SealsTheRipe(was, rows, moment)
  {
    var n := HeadLen(rows);
    assert n < |rows| ==> was[n].content == rows[n].content && (n > 0 ==> was[n - 1].content == rows[n - 1].content);
  }

  lemma {:induction false} SealFrom(h: Hasher, was: seq<Row>, rows: seq<Row>, moment: int, m: nat)
    requires m == HeadLen(was) && SealedTo(was, rows, moment, m, HeadLen(rows))
    ensures SealsTheRipe(was, SealRows(h, rows, moment), moment)
    decreases |rows| - HeadLen(rows)
  {
    if Ready(rows, moment) {
      SealedOneMore(h, was, rows, moment, m);
      SealFrom(h, was, SealNext(h, rows), moment, m);
    } else {
      StopsThere(was, rows, moment, m);
    }
  }

  lemma SealIsRipe(h: Hasher, rows: seq<Row>, moment: int)
    ensures SealsTheRipe(rows, SealRows(h, rows, moment), moment)
  {
    SealFrom(h, rows, rows, moment, HeadLen(rows));
  }

  // ---------------------------------------------------------------------------
  // Counts, suffixes and checkpoints
  // ---------------------------------------------------------------------------

  lemma {:induction false} SealedCountIs(rows: seq<Row>)
    ensures SealedCount(rows) == |set i | 0 <= i < |rows| && rows[i].link.Some?|
  {
    if rows != [] {
      var init := rows[..|rows| - 1];
      SealedCountIs(init);
      var before := set i | 0 <= i < |init| && init[i].link.Some?;
      var all := set i | 0 <= i < |rows| && rows[i].link.Some?;
      assert all == before + if rows[|rows| - 1].link.Some? then {|rows| - 1} else {};
    }
  }

  /** A walk from an id covers exactly the rows with that id or a later one. */
  lemma {:induction false} FromCovers(rows: seq<Row>, fromId: int)
    requires Sorted(rows)
    ensures forall r :: r in From(rows, fromId) <==> r in rows && r.content.id >= fromId
  {
    if rows != [] && rows[0].content.id < fromId {
      forall i | 0 < i < |rows| - 1
        ensures Ascends(rows[1..], i)
      {
        assert Ascends(rows, i + 1);
      }
      FromCovers(rows[1..], fromId);
      assert forall r :: r in rows <==> r == rows[0] || r in rows[1..];
    } else {
      forall i | 0 <= i < |rows|
        ensures rows[i].content.id >= fromId
      {
        IdsGrow(rows, 0, i);
      }
    }
  }

  /** Row `i` is a checkpoint for everything through an id, with a hash. */
  ghost predicate Vouches(rows: seq<Row>, i: int, through: int)
    requires 0 <= i < |rows|
  {
    rows[i].content.detail.Checkpoint? && rows[i].content.detail.throughId == through
  }

  ghost predicate NewestFor(rows: seq<Row>, i: int, through: int, hash: Digest) {
    && 0 <= i < |rows| && Vouches(rows, i, through) && rows[i].content.detail.throughHash == hash
    && forall k :: i < k < |rows| ==> !Vouches(rows, k, through)
  }

  /** The hash vouched for is that of the newest checkpoint for the id. */
  lemma {:induction false} CheckpointForIs(rows: seq<Row>, through: int)
    ensures var found := CheckpointFor(rows, through);
      if found.Some? then exists i :: NewestFor(rows, i, through, found.value)
      else forall i :: 0 <= i < |rows| ==> !Vouches(rows, i, through)
  {
    if rows != [] {
      var init := rows[..|rows| - 1];
      CheckpointForIs(init, through);
      assert forall i :: 0 <= i < |init| ==> (Vouches(rows, i, through) <==> Vouches(init, i, through));
      if Vouches(rows, |init|, through) {
        var hash := rows[|init|].content.detail.throughHash;
        assert CheckpointFor(rows, through) == Some(hash) && NewestFor(rows, |init|, through, hash);
      } else if CheckpointFor(init, through).Some? {
        var i :| NewestFor(init, i, through, CheckpointFor(init, through).value);
        assert NewestFor(rows, i, through, CheckpointFor(init, through).value);
      }
    }
  }
}
