/** The audit table as the service functions of app/services/audit_chain.py change it. */
module AuditLogs {
  import opened Prelude
  import opened AuditChain
  import opened AuditRuns
  import opened AuditPolicy

  const DAY := 24 * 3600

  class AuditLog {
    const h: Hasher
    var rows: seq<Row>

    ghost predicate Valid()
      reads this
    {
      Sorted(rows)
    }

    constructor (h: Hasher)
      ensures Valid() && rows == [] && this.h == h
    {
      this.h := h;
      rows := [];
    }

    /** Commits one unsealed row. */
    method LogAction(c: Content)
      requires Valid() && Enabled(rows, Commit(c))
      modifies this
      ensures Valid() && rows == Apply(h, old(rows), Commit(c))
    {
      ApplyKeepsSorted(h, rows, Commit(c));
      rows := Insert(rows, c);
    }

    /** Seals pending rows in id order. */
    method Seal(now: int, graceSeconds: int) returns (s: Summary)
      requires Valid()
      modifies this
      ensures Valid()
      ensures Seals(h, old(rows), rows, now - graceSeconds, s)
    {
      var left;
      s, left := SealTable(h, rows, now - graceSeconds);
      rows := left;
    }

    /** Walks the chain; `fromId` 0 starts at the first row. */
    method Verify(fromId: int) returns (r: Report)
      requires Valid()
      ensures Reports(h, if fromId == 0 then rows else From(rows, fromId), fromId != 0, r)
    {
      var walk := if fromId == 0 then rows else From(rows, fromId);
      SuffixSorted(rows, walk);
      r := VerifyWalk(h, walk, fromId != 0);
    }

    /** Appends a row with the head of the chain. */
    method Anchor(id: int, at: int, actor: string) returns (note: Detail)
      requires Valid() && Enabled(rows, AnchorPass(id, at, actor))
      modifies this
      ensures Valid()
      ensures rows == Apply(h, old(rows), AnchorPass(id, at, actor))
      ensures rows == Insert(old(rows), Content(id, Some(at), actor, note))
      ensures var n := HeadLen(old(rows));
        note == if n == 0 then AnchorNote(None, None, SealedCount(old(rows)))
                else var head := old(rows)[n - 1];
                     AnchorNote(Some(head.content.id), if head.link.value.entry == "" then None else Some(head.link.value.entry),
                                SealedCount(old(rows)))
    {
      ApplyKeepsSorted(h, rows, AnchorPass(id, at, actor));
      var headHash := HeadHash(rows);
      note := AnchorNote(HeadId(rows), if headHash == GENESIS then None else Some(headHash), SealedCount(rows));
      rows := Insert(rows, Content(id, Some(at), actor, note));
    }

    /** Archives and deletes old sealed rows behind a checkpoint row, whose id is
        newer than that of every row it leaves. */
    method Prune(retentionDays: int, now: int, dryRun: bool, id: int, actor: string) returns (r: PruneResult)
      requires Valid() && NewestId(rows, now - retentionDays * DAY, id)
      modifies this
      ensures Valid()
      ensures r.Disabled? <==> retentionDays <= 0
      ensures retentionDays <= 0 ==> rows == old(rows)
      ensures retentionDays > 0 ==> Prunes(old(rows), rows, now - retentionDays * DAY, dryRun, id, now, actor, r)
    {
      if retentionDays <= 0 {
        return Disabled;
      }
      var left;
      r, left := PruneTable(rows, now - retentionDays * DAY, dryRun, id, now, actor);
      rows := left;
    }
  }

  /** A prune reports what it found; a dry run changes nothing, and otherwise the old prefix
      gives way to one checkpoint row. */
  ghost predicate Prunes(was: seq<Row>, left: seq<Row>, cutoff: int, dryRun: bool, id: int, now: int, actor: string,
                         r: PruneResult) {
    && Removes(was, cutoff, r)
    && (if dryRun then left == was
        else left == PruneRows(was, cutoff, id, now, actor) && Retained(was, left, cutoff, if r.Pruned? then r.count else 0))
  }

  /** The checkpoint's id is newer than that of every row a prune leaves. */
  ghost predicate NewestId(rows: seq<Row>, cutoff: int, id: int) {
    Enabled(rows, PrunePass(cutoff, id, 0, ""))
  }

  lemma PruneKeepsSorted(rows: seq<Row>, cutoff: int, id: int, now: int, actor: string)
    requires Sorted(rows) && NewestId(rows, cutoff, id)
    ensures Sorted(PruneRows(rows, cutoff, id, now, actor))
  {
    ApplyKeepsSorted((prev, c) => prev, rows, PrunePass(cutoff, id, now, actor));
  }

  /** The archive step: selects, deletes and leaves a checkpoint. */
  method PruneTable(rows: seq<Row>, cutoff: int, dryRun: bool, id: int, now: int, actor: string)
    returns (r: PruneResult, table: seq<Row>)
    requires Sorted(rows) && NewestId(rows, cutoff, id)
    ensures !r.Disabled? && Sorted(table) && Prunes(rows, table, cutoff, dryRun, id, now, actor, r)
  {
    var pruned;
    r, pruned := SelectRows(rows, cutoff);
    table := rows;
    PruneRetains(rows, cutoff, id, now, actor);
    PruneKeepsSorted(rows, cutoff, id, now, actor);
    if !r.Pruned? || dryRun {
      return;
    }
    var kept := DeleteRows(rows, pruned);
    table := kept + [Row(Content(id, Some(now), actor,
                                 Checkpoint(r.fromId, r.throughId, r.throughHash, r.count)), None)];
  }

  /** A pass seals what is ripe, as often as one row can follow the head, and says how far
      it came and why it stopped. */
  ghost predicate Seals(h: Hasher, was: seq<Row>, left: seq<Row>, moment: int, s: Summary) {
    && left == SealRows(h, was, moment) && SealsTheRipe(was, left, moment)
    && s.sealed == HeadLen(left) - HeadLen(was) && s.unsealed == |left| - SealedCount(left)
    && s.headId == HeadId(left) && s.headHash == (if HeadLen(left) == 0 then None else Some(HeadHash(left)))
    && StoppedRightly(left, s.stopped, moment)
  }

  method SealTable(h: Hasher, rows: seq<Row>, moment: int) returns (s: Summary, table: seq<Row>)
    requires Sorted(rows)
    ensures Sorted(table) && Seals(h, rows, table, moment, s)
  {
    SealIsRipe(h, rows, moment);
    SealKeepsSorted(h, rows, moment);
    var sealed, stopped;
    table, sealed, stopped := ExtendChain(h, rows, moment);
    var unsealed := CountUnsealed(table);
    var headId := HeadId(table);
    s := Summary(sealed, headId, if headId.Some? then Some(HeadHash(table)) else None, unsealed, stopped);
  }

  /** What a report says: the walk is accepted, or where it is broken first and why; and
      its head and its counts. */
  ghost predicate Reports(h: Hasher, walk: seq<Row>, any: bool, r: Report) {
    && (r.ok <==> Accepted(h, walk, any))
    && (!r.ok ==> Blames(h, walk, any, r))
    && (r.ok && walk != [] && IsSealed(walk[0]) ==> Describes(walk, r))
    && (walk == [] || !IsSealed(walk[0]) ==>
          r == Report(true, 0, None, None, None, None, |walk| - SealedCount(walk)))
  }

  method VerifyWalk(h: Hasher, walk: seq<Row>, any: bool) returns (r: Report)
    requires Sorted(walk)
    ensures Reports(h, walk, any, r)
  {
    r := Report(true, 0, None, None, None, None, 0);
    if walk == [] {
      return;
    }
    if !IsSealed(walk[0]) {
      var unsealed := CountUnsealed(walk);
      r := r.(unsealed := unsealed);
      return;
    }
    if Unvouched(walk, any) {
      ReportAt(h, walk, any, 0, NoCheckpoint, r);
      r := r.(ok := false, firstBad := Some(walk[0].content.id), reason := Some(NoCheckpoint));
      return;
    }
    r := WalkChain(h, walk, any);
  }

  /** The result of a prune accounts for the prefix that goes. */
  ghost predicate Removes(rows: seq<Row>, cutoff: int, r: PruneResult) {
    var n := PrunableLen(rows, cutoff);
    && !r.Disabled?
    && (r.Pruned? <==> n > 0)
    && (n > 0 ==> Checkpoint(r.fromId, r.throughId, r.throughHash, r.count) == CheckpointOf(rows[..n]))
  }

  /** Selects the rows to archive: of the sealed old rows, those whose ids run on
      from the first row of the table. */
  method SelectRows(rows: seq<Row>, cutoff: int) returns (r: PruneResult, pruned: seq<Row>)
    requires Sorted(rows)
    ensures Removes(rows, cutoff, r) && pruned == rows[..PrunableLen(rows, cutoff)]
  {
    var eligible := EligibleRows(rows, cutoff);
    ghost var m := EligibleAt(rows, cutoff, 0);
    if eligible == [] {
      PrunableLenIs(rows, cutoff, 0);
      return NothingOld, [];
    }
    if eligible[0].content.id != rows[0].content.id {
      PrunableLenIs(rows, cutoff, 0);
      return Skipped(eligible[0].content.id), [];
    }
    var count := ContiguousRows(rows, cutoff, eligible);
    pruned := eligible[..count];
    var last := pruned[count - 1];
    r := Pruned(count, pruned[0].content.id, last.content.id, last.link.value.entry);
  }

  /** A pass stops at the end, at a gap or at a young row. */
  ghost predicate StoppedRightly(rows: seq<Row>, stopped: Stop, cutoff: int) {
    var n := HeadLen(rows);
    match stopped
    case Finished => n == |rows|
    case Gap(at) => n < |rows| && rows[n].content.id == at && HeadId(rows).Some? && at != HeadId(rows).value + 1
    case TooYoung(at) => n < |rows| && rows[n].content.id == at && Young(rows[n].content, cutoff)
  }

  /** The loop of `seal`. */
  method ExtendChain(h: Hasher, rows: seq<Row>, cutoff: int) returns (table: seq<Row>, sealed: nat, stopped: Stop)
    ensures table == SealRows(h, rows, cutoff)
    ensures sealed == HeadLen(table) - HeadLen(rows)
    ensures StoppedRightly(table, stopped, cutoff)
  {
    var prev, expected, k := HeadHash(rows), ExpectedAfter(HeadId(rows)), HeadLen(rows);
    table, sealed, stopped := rows, 0, Finished;
    while k < |table|
      invariant k == HeadLen(table) && sealed == k - HeadLen(rows)
      invariant prev == HeadHash(table) && expected == ExpectedAfter(HeadId(table))
      invariant SealRows(h, table, cutoff) == SealRows(h, rows, cutoff)
    {
      var c := table[k].content;
      if expected.Some? && c.id != expected.value {
        stopped := Gap(c.id);
        return;
      }
      if Young(c, cutoff) {
        stopped := TooYoung(c.id);
        return;
      }
      assert SealNext(h, table) == table[k := SealOne(h, c, prev)];
      var entry := h(prev, c);
      table := table[k := Row(c, Some(Link(prev, entry)))];
      prev, expected := entry, Some(c.id + 1);
      sealed, k := sealed + 1, k + 1;
    }
  }

  lemma SealKeepsSorted(h: Hasher, rows: seq<Row>, cutoff: int)
    requires Sorted(rows)
    ensures Sorted(SealRows(h, rows, cutoff))
  {
    SealKeepsContents(h, rows, cutoff);
    SameContentsSorted(rows, SealRows(h, rows, cutoff));
  }

  method CountUnsealed(rows: seq<Row>) returns (n: nat)
    ensures n == |rows| - SealedCount(rows)
  {
    n := 0;
    for i := 0 to |rows|
      invariant n == i - SealedCount(rows[..i])
    {
      assert rows[..i + 1][..i] == rows[..i];
      if !IsSealed(rows[i]) {
        n := n + 1;
      }
    }
    assert rows[..|rows|] == rows;
  }

  lemma SuffixSorted(rows: seq<Row>, walk: seq<Row>)
    requires Sorted(rows) && |walk| <= |rows| && walk == rows[|rows| - |walk|..]
    ensures Sorted(walk)
  {
    forall i | 0 < i < |walk|
      ensures Ascends(walk, i)
    {
      assert Ascends(rows, |rows| - |walk| + i);
    }
  }

  /** A report names the least row that offends, and why. */
  ghost predicate Blames(h: Hasher, walk: seq<Row>, any: bool, r: Report) {
    r.reason.Some? &&
    exists i :: 0 <= i < |walk| && r.firstBad == Some(walk[i].content.id)
      && Offends(h, walk, any, i, r.reason.value)
      && forall k :: 0 <= k < i ==> Sound(h, walk, any, k)
  }

  /** A report on an accepted walk counts its rows and names its head. */
  ghost predicate Describes(walk: seq<Row>, r: Report) {
    && r.checked == HeadLen(walk) && r.unsealed == |walk| - HeadLen(walk)
    && r.headId == HeadId(walk) && r.headHash == Some(HeadHash(walk))
  }

  /** The test the walk makes at row `i`. */
  predicate Fault(h: Hasher, walk: seq<Row>, i: nat, prev: Digest, expected: int, why: Reason)
    requires i < |walk|
  {
    match why
    case UnsealedInside =>
      !IsSealed(walk[i]) && exists j :: 0 <= j < |walk| && IsSealed(walk[j]) && walk[j].content.id > walk[i].content.id
    case RowsMissing => IsSealed(walk[i]) && walk[i].content.id != expected
    case PrevMismatch => IsSealed(walk[i]) && walk[i].link.value.prev != prev
    case HashMismatch => IsSealed(walk[i]) && h(prev, walk[i].content) != walk[i].link.value.entry
    case NoCheckpoint => false
  }

  function FirstFault(h: Hasher, walk: seq<Row>, i: nat, prev: Digest, expected: int): Option<Reason>
    requires i < |walk|
  {
    if Fault(h, walk, i, prev, expected, UnsealedInside) then Some(UnsealedInside)
    else if Fault(h, walk, i, prev, expected, RowsMissing) then Some(RowsMissing)
    else if Fault(h, walk, i, prev, expected, PrevMismatch) then Some(PrevMismatch)
    else if Fault(h, walk, i, prev, expected, HashMismatch) then Some(HashMismatch)
    else None
  }

  /** What the walk remembers of the row before `i`, while no row was unsealed. */
  ghost predicate Remembers(walk: seq<Row>, i: nat, prev: Digest, expected: int)
    requires i <= |walk| && walk != [] && IsSealed(walk[0])
  {
    if i == 0 then prev == walk[0].link.value.prev && expected == walk[0].content.id
    else IsSealed(walk[i - 1]) && prev == walk[i - 1].link.value.entry && expected == walk[i - 1].content.id + 1
  }

  /** The running tests of the walk find exactly the rows that offend. */
  lemma FaultIsOffence(h: Hasher, walk: seq<Row>, any: bool, i: nat, prev: Digest, expected: int)
    requires i < |walk| && Sorted(walk) && IsSealed(walk[0]) && !Unvouched(walk, any)
    requires IsSealed(walk[i]) ==> Remembers(walk, i, prev, expected)
    ensures var f := FirstFault(h, walk, i, prev, expected);
      if f.None? then Sound(h, walk, any, i) else Offends(h, walk, any, i, f.value)
  {
    forall j | 0 <= j < |walk|
      ensures walk[j].content.id > walk[i].content.id <==> i < j
    {
      IdsGrow(walk, if i < j then i else j, if i < j then j else i);
    }
    if FirstFault(h, walk, i, prev, expected).None? {
      forall why
        ensures !Offends(h, walk, any, i, why)
      {
        assert !Fault(h, walk, i, prev, expected, why);
      }
    }
  }

  /** The loop of `verify`. */
  method WalkChain(h: Hasher, walk: seq<Row>, any: bool) returns (r: Report)
    requires Sorted(walk) && walk != [] && IsSealed(walk[0]) && !Unvouched(walk, any)
    ensures r.ok <==> Accepted(h, walk, any)
    ensures !r.ok ==> Blames(h, walk, any, r)
    ensures r.ok ==> Describes(walk, r)
  {
    r := Report(true, 0, None, None, None, None, 0);
    var prev, expected, i := walk[0].link.value.prev, walk[0].content.id, 0;
    while i < |walk|
      invariant 0 <= i <= |walk|
      invariant r.ok && r.checked + r.unsealed == i && (i > 0 ==> r.checked > 0)
      invariant forall k :: 0 <= k < i ==> Sound(h, walk, any, k)
      invariant r.unsealed > 0 ==> forall k :: r.checked <= k < |walk| ==> !IsSealed(walk[k])
      invariant r.unsealed == 0 ==> Remembers(walk, i, prev, expected)
      invariant r.checked > 0 ==> IsSealed(walk[r.checked - 1])
      invariant r.checked > 0 ==> r.headId == Some(walk[r.checked - 1].content.id)
      invariant r.checked > 0 ==> r.headHash == Some(walk[r.checked - 1].link.value.entry)
    {
      var row, bad := walk[i], FirstFault(h, walk, i, prev, expected);
      FaultIsOffence(h, walk, any, i, prev, expected);
      if bad.Some? {
        ReportAt(h, walk, any, i, bad.value, r);
        r := r.(ok := false, firstBad := Some(row.content.id), reason := bad);
        return;
      }
      if !IsSealed(row) {
        NoneSealedAfter(h, walk, any, i);
        r := r.(unsealed := r.unsealed + 1);
      } else {
        prev, expected := row.link.value.entry, row.content.id + 1;
        r := r.(checked := r.checked + 1, headId := Some(row.content.id), headHash := Some(row.link.value.entry));
      }
      i := i + 1;
    }
    HeadLenIs(walk, r.checked);
    assert Clean(h, walk, any);
  }

  lemma NoneSealedAfter(h: Hasher, walk: seq<Row>, any: bool, i: nat)
    requires i < |walk| && !IsSealed(walk[i]) && Sound(h, walk, any, i)
    ensures forall k :: i <= k < |walk| ==> !IsSealed(walk[k])
  {
    assert !Offends(h, walk, any, i, UnsealedInside);
  }

  lemma ReportAt(h: Hasher, walk: seq<Row>, any: bool, i: int, why: Reason, r: Report)
    requires 0 <= i < |walk| && Offends(h, walk, any, i, why) && IsSealed(walk[0])
    requires forall k :: 0 <= k < i ==> Sound(h, walk, any, k)
    ensures !Accepted(h, walk, any)
    ensures Blames(h, walk, any, r.(ok := false, firstBad := Some(walk[i].content.id), reason := Some(why)))
  {
    assert !Sound(h, walk, any, i);
  }

  /** The sealed rows older than the window, as the query returns them. */
  function Eligible(rows: seq<Row>, cutoff: int): (r: seq<Row>)
    ensures |r| <= |rows|
  {
    if rows == [] then []
    else Eligible(rows[..|rows| - 1], cutoff) + if Prunable(rows[|rows| - 1], cutoff) then [rows[|rows| - 1]] else []
  }

  /** Behind a prunable prefix, the next eligible row is the next row when that one
      is prunable, and a later row otherwise. */
  lemma {:induction false} EligibleAt(rows: seq<Row>, cutoff: int, n: nat) returns (m: nat)
    requires n <= |rows| && forall k :: 0 <= k < n ==> Prunable(rows[k], cutoff)
    ensures |Eligible(rows, cutoff)| >= n && forall k :: 0 <= k < n ==> Eligible(rows, cutoff)[k] == rows[k]
    ensures |Eligible(rows, cutoff)| > n ==>
      n <= m < |rows| && Eligible(rows, cutoff)[n] == rows[m] && Prunable(rows[m], cutoff)
    ensures n < |rows| && Prunable(rows[n], cutoff) ==> |Eligible(rows, cutoff)| > n && m == n
  {
    m := 0;
    if rows != [] {
      var init := rows[..|rows| - 1];
      if n < |rows| {
        m := EligibleAt(init, cutoff, n);
        if |Eligible(init, cutoff)| == n {
          m := |init|;
        }
      } else {
        var _ := EligibleAt(init, cutoff, n - 1);
      }
    }
  }

  method EligibleRows(rows: seq<Row>, cutoff: int) returns (eligible: seq<Row>)
    ensures eligible == Eligible(rows, cutoff)
  {
    eligible := [];
    for i := 0 to |rows|
      invariant eligible == Eligible(rows[..i], cutoff)
    {
      assert rows[..i + 1][..i] == rows[..i];
      if Prunable(rows[i], cutoff) {
        eligible := eligible + [rows[i]];
      }
    }
    assert rows[..|rows|] == rows;
  }

  /** The eligible rows whose ids run on without a gap are the prunable prefix. */
  method ContiguousRows(rows: seq<Row>, cutoff: int, eligible: seq<Row>) returns (n: nat)
    requires Sorted(rows) && eligible == Eligible(rows, cutoff)
    requires eligible != [] && eligible[0].content.id == rows[0].content.id
    ensures 0 < n <= |eligible| && n == PrunableLen(rows, cutoff)
    ensures eligible[..n] == rows[..n]
  {
    n := 0;
    var expected := rows[0].content.id;
    ghost var m := EligibleAt(rows, cutoff, n);
    while n < |eligible| && eligible[n].content.id == expected
      invariant 0 <= n <= |eligible|
      invariant forall k :: 0 <= k < n ==> Prunable(rows[k], cutoff)
      invariant forall k :: 0 < k < n ==> Adjacent(rows, k)
      invariant n < |eligible| ==> n <= m < |rows| && eligible[n] == rows[m] && Prunable(rows[m], cutoff)
      invariant n < |rows| && Prunable(rows[n], cutoff) ==> n < |eligible| && m == n
      invariant expected == if n == 0 then rows[0].content.id else rows[n - 1].content.id + 1
    {
      IdsGrow(rows, if n == 0 then 0 else n - 1, m);
      expected := eligible[n].content.id + 1;
      n := n + 1;
      m := EligibleAt(rows, cutoff, n);
    }
    PrunableLenIs(rows, cutoff, n);
    m := EligibleAt(rows, cutoff, n);
  }

  lemma PrunableLenIs(rows: seq<Row>, cutoff: int, n: nat)
    requires n <= |rows|
    requires forall i :: 0 <= i < n ==> Prunable(rows[i], cutoff)
    requires forall i :: 0 < i < n ==> Adjacent(rows, i)
    requires n < |rows| ==> !Prunable(rows[n], cutoff) || (n > 0 && !Adjacent(rows, n))
    ensures PrunableLen(rows, cutoff) == n
  {
  }

  /** Deletes by id, as the archive step does. */
  method DeleteRows(rows: seq<Row>, gone: seq<Row>) returns (kept: seq<Row>)
    requires Sorted(rows) && |gone| <= |rows| && gone == rows[..|gone|]
    ensures kept == rows[|gone|..]
  {
    kept := [];
    for i := 0 to |rows|
      invariant kept == if i <= |gone| then [] else rows[|gone|..i]
    {
      if !exists k :: 0 <= k < |gone| && gone[k].content.id == rows[i].content.id {
        assert i < |gone| ==> gone[i].content.id == rows[i].content.id;
        kept := kept + [rows[i]];
      } else {
        var k :| 0 <= k < |gone| && gone[k].content.id == rows[i].content.id;
        assert gone[k] == rows[k];
        IdsGrow(rows, if k < i then k else i, if k < i then i else k);
      }
    }
  }
}
