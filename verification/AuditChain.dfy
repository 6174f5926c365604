/**
 The tamper-evident audit log of app/services/audit_chain.py: rows are committed
 unsealed, sealed in id order into a hash chain, anchored, pruned behind a
 checkpoint row, and verified by walking the chain.

 SHA-256 stays abstract: every definition takes the digest function `h`.
 */
module AuditChain {
  import opened Prelude

  type Digest = string

  /** The predecessor of the first row of a chain. */
  const GENESIS: Digest := ""

  datatype Detail =
    | Plain(text: string)
    | AnchorNote(headId: Option<int>, headHash: Option<Digest>, sealedRows: nat)
    | Checkpoint(fromId: int, throughId: int, throughHash: Digest, count: nat)

  /** The stored fields that `canonical` serialises. */
  datatype Content = Content(id: int, timestamp: Option<int>, actor: string, detail: Detail)

  /** The two hash columns; both are NULL until the row is sealed. */
  datatype Link = Link(prev: Digest, entry: Digest)

  datatype Row = Row(content: Content, link: Option<Link>)

  type Hasher = (Digest, Content) -> Digest

  predicate IsSealed(r: Row) {
    r.link.Some?
  }

  ghost predicate Ascends(rows: seq<Row>, i: int)
    requires 0 < i < |rows|
  {
    rows[i - 1].content.id < rows[i].content.id
  }

  /** The table in primary-key order. */
  ghost predicate Sorted(rows: seq<Row>) {
    forall i :: 0 < i < |rows| ==> Ascends(rows, i)
  }

  lemma IdsGrow(rows: seq<Row>, i: int, j: int)
    requires Sorted(rows) && 0 <= i <= j < |rows|
    ensures rows[i].content.id + j - i <= rows[j].content.id
    decreases j
  {
    if i < j {
      IdsGrow(rows, i, j - 1);
      assert Ascends(rows, j);
    }
  }

  function SealedCount(rows: seq<Row>): (n: nat)
    ensures n <= |rows|
  {
    if rows == [] then 0
    else SealedCount(rows[..|rows| - 1]) + if IsSealed(rows[|rows| - 1]) then 1 else 0
  }

  /** The number of rows up to and including the last sealed one. */
  function HeadLen(rows: seq<Row>): (n: nat)
    ensures n <= |rows|
    ensures n > 0 ==> IsSealed(rows[n - 1])
    ensures forall i :: n <= i < |rows| ==> !IsSealed(rows[i])
  {
    if rows == [] then 0
    else if IsSealed(rows[|rows| - 1]) then |rows|
    else HeadLen(rows[..|rows| - 1])
  }

  lemma HeadLenIs(rows: seq<Row>, n: nat)
    requires n <= |rows| && (n > 0 ==> IsSealed(rows[n - 1]))
    requires forall i :: n <= i < |rows| ==> !IsSealed(rows[i])
    ensures HeadLen(rows) == n
  {
  }

  function HeadId(rows: seq<Row>): Option<int> {
    var n := HeadLen(rows);
    if n == 0 then None else Some(rows[n - 1].content.id)
  }

  function HeadHash(rows: seq<Row>): Digest {
    var n := HeadLen(rows);
    if n == 0 then GENESIS else rows[n - 1].link.value.entry
  }

  // ---------------------------------------------------------------------------
  // Sealing
  // ---------------------------------------------------------------------------

  /** Younger than the grace period; a row without a timestamp never is. */
  predicate Young(c: Content, cutoff: int) {
    c.timestamp.Some? && c.timestamp.value > cutoff
  }

  predicate Sealable(c: Content, expected: Option<int>, cutoff: int) {
    (expected.None? || c.id == expected.value) && !Young(c, cutoff)
  }

  function SealOne(h: Hasher, c: Content, prev: Digest): Row {
    Row(c, Some(Link(prev, h(prev, c))))
  }

  function ExpectedAfter(head: Option<int>): Option<int> {
    if head.None? then None else Some(head.value + 1)
  }

  /** The next pending row may join the chain. */
  predicate Ready(rows: seq<Row>, cutoff: int) {
    var n := HeadLen(rows);
    n < |rows| && Sealable(rows[n].content, ExpectedAfter(HeadId(rows)), cutoff)
  }

  /** The table after the next pending row joined the chain. */
  function SealNext(h: Hasher, rows: seq<Row>): (r: seq<Row>)
    requires HeadLen(rows) < |rows|
    ensures HeadLen(r) == HeadLen(rows) + 1
  {
    var n := HeadLen(rows);
    var r := rows[n := SealOne(h, rows[n].content, HeadHash(rows))];
    HeadLenIs(r, n + 1);
    r
  }

  /** The table after `seal`: rows join until the next is missing or too young. */
  function SealRows(h: Hasher, rows: seq<Row>, cutoff: int): seq<Row>
    decreases |rows| - HeadLen(rows)
  {
    if Ready(rows, cutoff) then SealRows(h, SealNext(h, rows), cutoff) else rows
  }

  // ---------------------------------------------------------------------------
  // Retention
  // ---------------------------------------------------------------------------

  /** Row `i` has the id after its predecessor's. */
  predicate Adjacent(rows: seq<Row>, i: int)
    requires 0 < i < |rows|
  {
    rows[i].content.id == rows[i - 1].content.id + 1
  }

  predicate Prunable(r: Row, cutoff: int) {
    IsSealed(r) && r.content.timestamp.Some? && r.content.timestamp.value < cutoff
  }

  /** The length of the longest sealed, old, gap-free prefix of the table. */
  function PrunableLen(rows: seq<Row>, cutoff: int): (n: nat)
    ensures n <= |rows|
    ensures forall i :: 0 <= i < n ==> Prunable(rows[i], cutoff)
    ensures forall i :: 0 < i < n ==> Adjacent(rows, i)
    ensures n < |rows| ==> !Prunable(rows[n], cutoff) || (n > 0 && !Adjacent(rows, n))
  {
    if rows == [] then 0
    else
      var init := rows[..|rows| - 1];
      var m := PrunableLen(init, cutoff);
      assert forall i :: 0 < i < m ==> Adjacent(init, i) == Adjacent(rows, i);
      if m == |init| && Prunable(rows[m], cutoff) && (m == 0 || Adjacent(rows, m)) then |rows| else m
  }

  function CheckpointOf(pruned: seq<Row>): Detail
    requires pruned != [] && IsSealed(pruned[|pruned| - 1])
  {
    var last := pruned[|pruned| - 1];
    Checkpoint(pruned[0].content.id, last.content.id, last.link.value.entry, |pruned|)
  }

  /** The table after `prune`: nothing happens when no prefix may go. */
  function PruneRows(rows: seq<Row>, cutoff: int, id: int, at: int, actor: string): seq<Row> {
    var n := PrunableLen(rows, cutoff);
    if n == 0 then rows
    else rows[n..] + [Row(Content(id, Some(at), actor, CheckpointOf(rows[..n])), None)]
  }

  // ---------------------------------------------------------------------------
  // Verification
  // ---------------------------------------------------------------------------

  /** `_checkpoint_for`: the hash in the newest checkpoint that names `through`. */
  function CheckpointFor(rows: seq<Row>, through: int): Option<Digest> {
    if rows == [] then None
    else
      var d := rows[|rows| - 1].content.detail;
      if d.Checkpoint? && d.throughId == through then Some(d.throughHash)
      else CheckpointFor(rows[..|rows| - 1], through)
  }

  /** The first walked row has a predecessor nobody accounts for. */
  predicate Unvouched(rows: seq<Row>, anyStart: bool)
    requires rows != [] && IsSealed(rows[0])
  {
    var prev := rows[0].link.value.prev;
    !anyStart && prev != GENESIS && CheckpointFor(rows, rows[0].content.id - 1) != Some(prev)
  }

  datatype Reason = NoCheckpoint | UnsealedInside | RowsMissing | PrevMismatch | HashMismatch

  /** What is wrong with row `i`, looking only at it, its predecessor and, for an
      unsealed row, at whether a sealed one follows. */
  ghost predicate Offends(h: Hasher, rows: seq<Row>, anyStart: bool, i: int, why: Reason)
    requires 0 <= i < |rows|
  {
    match why
    case UnsealedInside =>
      !IsSealed(rows[i]) && exists j :: i < j < |rows| && IsSealed(rows[j])
    case NoCheckpoint =>
      i == 0 && IsSealed(rows[0]) && Unvouched(rows, anyStart)
    case RowsMissing =>
      IsSealed(rows[i]) && i > 0 && !Adjacent(rows, i)
    case PrevMismatch =>
      IsSealed(rows[i]) && i > 0 && IsSealed(rows[i - 1])
      && rows[i].link.value.prev != rows[i - 1].link.value.entry
    case HashMismatch =>
      IsSealed(rows[i]) && rows[i].link.value.entry != h(rows[i].link.value.prev, rows[i].content)
  }

  ghost predicate Sound(h: Hasher, rows: seq<Row>, anyStart: bool, i: int)
    requires 0 <= i < |rows|
  {
    forall why :: !Offends(h, rows, anyStart, i, why)
  }

  /** No row of the walk offends. */
  ghost predicate Clean(h: Hasher, rows: seq<Row>, anyStart: bool) {
    forall i :: 0 <= i < |rows| ==> Sound(h, rows, anyStart, i)
  }

  /** What `verify` accepts: a clean walk, or one whose first row is unsealed. */
  ghost predicate Accepted(h: Hasher, rows: seq<Row>, anyStart: bool) {
    rows == [] || !IsSealed(rows[0]) || Clean(h, rows, anyStart)
  }

  /** `q.filter(AuditLog.id >= from_id)` on the ordered table. */
  function From(rows: seq<Row>, fromId: int): (r: seq<Row>)
    ensures |r| <= |rows| && r == rows[|rows| - |r|..]
  {
    if rows == [] || rows[0].content.id >= fromId then rows else From(rows[1..], fromId)
  }

  datatype Report = Report(ok: bool, checked: nat, firstBad: Option<int>, reason: Option<Reason>,
                           headId: Option<int>, headHash: Option<Digest>, unsealed: nat)

  datatype Stop = Finished | Gap(at: int) | TooYoung(at: int)

  datatype Summary = Summary(sealed: nat, headId: Option<int>, headHash: Option<Digest>, unsealed: nat, stopped: Stop)

  datatype PruneResult =
    | Disabled
    | NothingOld
    | Skipped(before: int)
    | Pruned(count: nat, fromId: int, throughId: int, throughHash: Digest)
}
