/**
 The expiry reminders of app/services/scheduler_service.py: one timestamp per
 certificate or CA says which of the two events of its validity window were sent.
 */
module ExpiryEvents {
  import opened Prelude

  const DAY := 24 * 3600

  /** A certificate or CA row. `renewed` is whether a renewal supersedes it; CAs are
      reissued in place instead. */
  datatype Entry = Entry(authority: bool, notAfter: int, notified: Option<int>, revoked: bool, renewed: bool)

  datatype Stage = Expiring | Expired

  /** One audit event; `window` counts the validity periods of the row. */
  datatype Notice = Notice(id: nat, window: nat, stage: Stage, at: int)

  /** The rows by id, the validity period each is in, and the events sent so far. */
  datatype Book = Book(rows: seq<Entry>, windows: seq<nat>, log: seq<Notice>)

  predicate Wellformed(s: Book) {
    |s.windows| == |s.rows|
  }

  /** `_due_for_expiry_event`. */
  predicate Due(e: Entry, now: int, warningDays: int) {
    && !e.revoked
    && (e.authority || !e.renewed)
    && (|| (e.notAfter <= now && (e.notified.None? || e.notified.value < e.notAfter))
        || (e.notAfter > now && e.notAfter <= now + warningDays * DAY && e.notified.None?))
  }

  function StageAt(e: Entry, now: int): Stage {
    if e.notAfter <= now then Expired else Expiring
  }

  // ---------------------------------------------------------------------------
  // One worker's pass
  // ---------------------------------------------------------------------------

  function Mark(e: Entry, now: int): Entry {
    e.(notified := Some(now))
  }

  /** One row is reported, marked and committed; nothing is checked again. */
  function Send(s: Book, id: nat, now: int): (t: Book)
    requires Wellformed(s)
    ensures Wellformed(t) && |t.rows| == |s.rows| && t.windows == s.windows
  {
    if id < |s.rows| then
      s.(rows := s.rows[id := Mark(s.rows[id], now)],
         log := s.log + [Notice(id, s.windows[id], StageAt(s.rows[id], now), now)])
    else s
  }

  /** The selected rows in turn; reporting the ones in `fails` does not go through. */
  function SendAll(s: Book, due: seq<nat>, now: int, fails: set<nat>): (t: Book)
    requires Wellformed(s)
    ensures Wellformed(t) && |t.rows| == |s.rows| && t.windows == s.windows
  {
    if due == [] then s
    else
      var before, id := SendAll(s, due[..|due| - 1], now, fails), due[|due| - 1];
      if id in fails then before else Send(before, id, now)
  }

  /** `due` lists exactly the rows of one table that are due, by expiry. */
  ghost predicate DueList(s: Book, authority: bool, now: int, warningDays: int, due: seq<nat>) {
    && NoRepeats(due) && ByExpiry(s.rows, due)
    && (forall id: nat :: id in due <==>
          id < |s.rows| && s.rows[id].authority == authority && Due(s.rows[id], now, warningDays))
  }

  ghost predicate NoRepeats(ids: seq<nat>) {
    forall i, k :: 0 <= i < k < |ids| ==> ids[i] != ids[k]
  }

  ghost predicate ByExpiry(rows: seq<Entry>, ids: seq<nat>) {
    && (forall k :: 0 <= k < |ids| ==> ids[k] < |rows|)
    && (forall i, k :: 0 <= i < k < |ids| ==> rows[ids[i]].notAfter <= rows[ids[k]].notAfter)
  }

  class ExpiryJob {
    var rows: seq<Entry>
    var windows: seq<nat>
    var log: seq<Notice>

    ghost function Contents(): Book
      reads this
    {
      Book(rows, windows, log)
    }

    constructor (rows: seq<Entry>, windows: seq<nat>)
      ensures Contents() == Book(rows, windows, [])
    {
      this.rows, this.windows, log := rows, windows, [];
    }

    /** The ids of one table that are due, by expiry. */
    method DueRows(authority: bool, now: int, warningDays: int) returns (due: seq<nat>)
      ensures DueList(Contents(), authority, now, warningDays, due)
    {
      due := [];
      for i := 0 to |rows|
        invariant NoRepeats(due) && ByExpiry(rows, due)
        invariant forall id: nat :: id in due <==>
          id < i && rows[id].authority == authority && Due(rows[id], now, warningDays)
      {
        if rows[i].authority == authority && Due(rows[i], now, warningDays) {
          due := InsertByExpiry(rows, due, i);
        }
      }
    }

    /** The audit row and the timestamp of one object, committed together. */
    method SendOne(id: nat, now: int)
      requires Wellformed(Contents()) && id < |rows|
      modifies this
      ensures Contents() == Send(old(Contents()), id, now)
    {
      log := log + [Notice(id, windows[id], StageAt(rows[id], now), now)];
      rows := rows[id := Mark(rows[id], now)];
    }

    /** One table: each due row is reported and marked on its own. */
    method Sweep(authority: bool, now: int, warningDays: int, fails: set<nat>) returns (due: seq<nat>, failed: seq<nat>)
      requires Wellformed(Contents())
      modifies this
      ensures DueList(old(Contents()), authority, now, warningDays, due)
      ensures Contents() == SendAll(old(Contents()), due, now, fails)
      ensures failed == FailedOf(due, |due|, fails)
    {
      due := DueRows(authority, now, warningDays);
      failed := [];
      ghost var s := Contents();
      for k := 0 to |due|
        invariant Contents() == SendAll(s, due[..k], now, fails)
        invariant failed == FailedOf(due, k, fails)
      {
        SendAllNext(s, due, k, now, fails);
        if due[k] in fails {
          failed := failed + [due[k]];
        } else {
          SendOne(due[k], now);
        }
      }
      assert due[..|due|] == due;
    }

    /** `job_expiry_events`: certificates first, then CAs. */
    method Pass(now: int, warningDays: int, fails: set<nat>) returns (certs: seq<nat>, cas: seq<nat>)
      requires Wellformed(Contents())
      modifies this
      ensures DueList(old(Contents()), false, now, warningDays, certs)
      ensures DueList(SendAll(old(Contents()), certs, now, fails), true, now, warningDays, cas)
      ensures Contents() == SendAll(SendAll(old(Contents()), certs, now, fails), cas, now, fails)
    {
      var failed;
      certs, failed := Sweep(false, now, warningDays, fails);
      cas, failed := Sweep(true, now, warningDays, fails);
    }
  }

  /** The rows among the first `k` whose report did not go through. */
  function FailedOf(due: seq<nat>, k: nat, fails: set<nat>): seq<nat>
    requires k <= |due|
  {
    if k == 0 then [] else FailedOf(due, k - 1, fails) + if due[k - 1] in fails then [due[k - 1]] else []
  }

  lemma SendAllNext(s: Book, due: seq<nat>, k: nat, now: int, fails: set<nat>)
    requires Wellformed(s) && k < |due|
    ensures var t := SendAll(s, due[..k], now, fails);
      SendAll(s, due[..k + 1], now, fails) == if due[k] in fails then t else Send(t, due[k], now)
  {
    assert due[..k + 1][..k] == due[..k];
  }

  /** Puts a row behind the last one that expires no later. */
  method InsertByExpiry(rows: seq<Entry>, due: seq<nat>, id: nat) returns (r: seq<nat>)
    requires NoRepeats(due) && ByExpiry(rows, due) && id < |rows| && id !in due
    ensures NoRepeats(r) && ByExpiry(rows, r)
    ensures forall x :: x in r <==> x == id || x in due
  {
    var p := |due|;
    while p > 0 && rows[due[p - 1]].notAfter > rows[id].notAfter
      invariant 0 <= p <= |due|
      invariant forall k :: p <= k < |due| ==> rows[due[k]].notAfter > rows[id].notAfter
    {
      p := p - 1;
    }
    r := due[..p] + [id] + due[p..];
    InsertedInOrder(rows, due, id, p, r);
    InsertedMembers(due, id, p, r);
  }

  /** `r` is `due` with `id` put in at `p`. */
  ghost predicate InsertedAt(due: seq<nat>, id: nat, p: nat, r: seq<nat>) {
    && p <= |due| && |r| == |due| + 1 && r[p] == id
    && (forall k :: 0 <= k < p ==> r[k] == due[k])
    && (forall k :: p < k < |r| ==> r[k] == due[k - 1])
  }

  lemma InsertedMembers(due: seq<nat>, id: nat, p: nat, r: seq<nat>)
    requires InsertedAt(due, id, p, r)
    ensures forall x :: x in r <==> x == id || x in due
  {
    assert r[p] == id;
    forall k | 0 <= k < |due|
      ensures due[k] in r
    {
      assert due[k] == r[if k < p then k else k + 1];
    }
  }

  lemma InsertedInOrder(rows: seq<Entry>, due: seq<nat>, id: nat, p: nat, r: seq<nat>)
    requires NoRepeats(due) && ByExpiry(rows, due) && id < |rows| && id !in due && InsertedAt(due, id, p, r)
    requires forall k :: p <= k < |due| ==> rows[due[k]].notAfter > rows[id].notAfter
    requires p > 0 ==> rows[due[p - 1]].notAfter <= rows[id].notAfter
    ensures NoRepeats(r) && ByExpiry(rows, r)
  {
    forall i, k | 0 <= i < k < |r|
      ensures r[i] != r[k] && r[i] < |rows| && r[k] < |rows| && rows[r[i]].notAfter <= rows[r[k]].notAfter
    {
      var i', k' := if i < p then i else i - 1, if k < p then k else k - 1;
      if i != p {
        assert r[i] == due[i'];
      }
      if k != p {
        assert r[k] == due[k'];
      }
      if i != p && k != p {
        assert i' < k';
      }
    }
  }

  // ---------------------------------------------------------------------------
  // The events of one validity window
  // ---------------------------------------------------------------------------

  /** What was sent about one validity period of a row, oldest first. */
  function Stages(log: seq<Notice>, id: nat, window: nat): seq<Stage> {
    if log == [] then []
    else
      var before, last := Stages(log[..|log| - 1], id, window), log[|log| - 1];
      if last.id == id && last.window == window then before + [last.stage] else before
  }

  /** Each stage at most once, never "expiring" after "expired". */
  predicate OnceEach(sent: seq<Stage>) {
    sent == [] || sent == [Expiring] || sent == [Expired] || sent == [Expiring, Expired]
  }

  /** The timestamp tells which stages were sent. */
  predicate Encodes(e: Entry, sent: seq<Stage>) {
    match e.notified
    case None => sent == []
    case Some(t) =>
      if t < e.notAfter then sent == [Expiring]
      else sent == [Expired] || sent == [Expiring, Expired]
  }

  lemma {:induction false} StagesConcat(a: seq<Notice>, b: seq<Notice>, id: nat, window: nat)
    ensures Stages(a + b, id, window) == Stages(a, id, window) + Stages(b, id, window)
  {
    if b == [] {
      assert a + b == a;
    } else {
      var init, last := b[..|b| - 1], b[|b| - 1];
      assert (a + b)[..|a + b| - 1] == a + init;
      StagesConcat(a, init, id, window);
    }
  }

  lemma StagesSplit(log: seq<Notice>, n: nat, id: nat, window: nat)
    requires n <= |log|
    ensures Stages(log, id, window) == Stages(log[..n], id, window) + Stages(log[n..], id, window)
  {
    assert log == log[..n] + log[n..];
    StagesConcat(log[..n], log[n..], id, window);
  }

  /** Reporting a row adds one stage to its current period and nothing elsewhere. */
  lemma SendStages(s: Book, x: nat, now: int, id: nat, window: nat)
    requires Wellformed(s)
    ensures Stages(Send(s, x, now).log, id, window) ==
            Stages(s.log, id, window)
            + if x < |s.rows| && x == id && window == s.windows[x] then [StageAt(s.rows[x], now)] else []
  {
    if x < |s.rows| {
      var note := Notice(x, s.windows[x], StageAt(s.rows[x], now), now);
      assert (s.log + [note])[..|s.log|] == s.log;
    }
  }

  lemma {:induction false} SendAllAt(s: Book, due: seq<nat>, now: int, fails: set<nat>, id: nat)
    requires Wellformed(s) && NoRepeats(due) && id < |s.rows|
    ensures var t, hit := SendAll(s, due, now, fails), id in due && id !in fails;
      && t.rows[id] == (if hit then Mark(s.rows[id], now) else s.rows[id])
      && Stages(t.log, id, s.windows[id]) ==
           Stages(s.log, id, s.windows[id]) + (if hit then [StageAt(s.rows[id], now)] else [])
  {
    if due != [] {
      var init, x := due[..|due| - 1], due[|due| - 1];
      assert due == init + [x] && x !in init;
      SendAllAt(s, init, now, fails, id);
      SendStages(SendAll(s, init, now, fails), x, now, id, s.windows[id]);
    }
  }
}
