/**
 Expiry passes of any number of workers. A pass selects its rows in one query and
 reports each of them in a transaction of its own; others act in between.
 */
module ExpiryRuns {
  import opened Prelude
  import opened ExpiryEvents

  type Worker = nat

  /** A pass under way: its clock reading, the selected rows still to report, and how
      many events had been sent when they were selected. */
  datatype Batch = Batch(now: int, ids: set<nat>, since: nat)

  datatype World = World(book: Book, batches: map<Worker, Batch>)

  const START := World(Book([], [], []), map[])

  datatype Event =
    | Issue(authority: bool, notAfter: int)
    | Revoke(id: nat)
    | Renew(id: nat)
    | Reissue(id: nat, notAfter: int)
    | Select(w: Worker, authority: bool, now: int, warningDays: int)
    | Report(w: Worker, id: nat, ok: bool)
    | Abandon(w: Worker)

  function DueIds(s: Book, authority: bool, now: int, warningDays: int): set<nat> {
    set id: nat | id < |s.rows| && s.rows[id].authority == authority && Due(s.rows[id], now, warningDays)
  }

  ghost predicate Enabled(x: World, e: Event) {
    e.Report? ==> e.w in x.batches && e.id in x.batches[e.w].ids
  }

  /** Issuance, revocation, renewal, and the re-issue of a CA, which starts a new period. */
  function Change(s: Book, e: Event): (t: Book)
    requires Wellformed(s)
    ensures Wellformed(t) && t.log == s.log && |s.rows| <= |t.rows|
  {
    match e
    case Issue(authority, notAfter) =>
      s.(rows := s.rows + [Entry(authority, notAfter, None, false, false)], windows := s.windows + [0])
    case Revoke(id) => if id < |s.rows| then s.(rows := s.rows[id := s.rows[id].(revoked := true)]) else s
    case Renew(id) =>
      if id < |s.rows| && !s.rows[id].authority then s.(rows := s.rows[id := s.rows[id].(renewed := true)]) else s
    case Reissue(id, notAfter) =>
      if id < |s.rows| && s.rows[id].authority
      then s.(rows := s.rows[id := s.rows[id].(notAfter := notAfter, notified := None)],
              windows := s.windows[id := s.windows[id] + 1])
      else s
    case _ => s
  }

  function Step(x: World, e: Event): (y: World)
    requires Wellformed(x.book) && Enabled(x, e)
    ensures Wellformed(y.book)
  {
    match e
    case Select(w, authority, now, warningDays) =>
      x.(batches := x.batches[w := Batch(now, DueIds(x.book, authority, now, warningDays), |x.book.log|)])
    case Report(w, id, ok) =>
      var b := x.batches[w];
      World(if ok then Send(x.book, id, b.now) else x.book, x.batches[w := b.(ids := b.ids - {id})])
    case Abandon(w) => x.(batches := x.batches - {w})
    case _ => x.(book := Change(x.book, e))
  }

  ghost predicate Legal(es: seq<Event>)
    decreases |es|, 0
  {
    es != [] ==>
      var init := es[..|es| - 1];
      Legal(init) && Enabled(Play(init), es[|es| - 1])
  }

  ghost function Play(es: seq<Event>): (x: World)
    requires Legal(es)
    ensures Wellformed(x.book)
    decreases |es|, 1
  {
    if es == [] then START else Step(Play(es[..|es| - 1]), es[|es| - 1])
  }

  // ---------------------------------------------------------------------------
  // Once only
  // ---------------------------------------------------------------------------

  ghost predicate OnceAt(s: Book, id: nat, window: nat) {
    OnceEach(Stages(s.log, id, window))
  }

  /** Every period of every row had each event at most once, in order. */
  ghost predicate AllOnce(s: Book) {
    forall id: nat, window: nat :: OnceAt(s, id, window)
  }

  /** What was sent about the present period of a row since event number `n`. */
  function SentSince(s: Book, n: nat, id: nat): seq<Stage>
    requires Wellformed(s) && n <= |s.log| && id < |s.rows|
  {
    Stages(s.log[n..], id, s.windows[id])
  }

  /** Since this worker selected the row, nobody reported its present period, or only
      as expiring while it is to be reported as expired. */
  ghost predicate Undisturbed(x: World, w: Worker, id: nat)
    requires Wellformed(x.book)
  {
    w in x.batches && id < |x.book.rows| && x.batches[w].since <= |x.book.log| &&
    var since := SentSince(x.book, x.batches[w].since, id);
    since == [] || (since == [Expiring] && StageAt(x.book.rows[id], x.batches[w].now).Expired?)
  }

  ghost predicate UndisturbedRun(es: seq<Event>)
    requires Legal(es)
  {
    es != [] ==>
      var init, e := es[..|es| - 1], es[|es| - 1];
      UndisturbedRun(init) && (e.Report? && e.ok ==> Undisturbed(Play(init), e.w, e.id))
  }

  /** What the log says about one period of one row. */
  ghost predicate PeriodInv(s: Book, id: nat, window: nat)
    requires Wellformed(s)
  {
    var sent := Stages(s.log, id, window);
    if id >= |s.rows| || window > s.windows[id] then sent == []
    else window == s.windows[id] ==> Encodes(s.rows[id], sent)
  }

  ghost predicate BookInv(s: Book)
    requires Wellformed(s)
  {
    forall id: nat, window: nat :: PeriodInv(s, id, window)
  }

  /** When a row was selected, what it is to be reported as was still to be sent. */
  ghost predicate SelectedInv(s: Book, b: Batch, id: nat)
    requires Wellformed(s)
  {
    && id < |s.rows| && b.since <= |s.log|
    && (var before := Stages(s.log[..b.since], id, s.windows[id]);
        before == [] || (before == [Expiring] && StageAt(s.rows[id], b.now).Expired?))
  }

  ghost predicate BatchesInv(x: World)
    requires Wellformed(x.book)
  {
    forall w, id :: w in x.batches && id in x.batches[w].ids ==> SelectedInv(x.book, x.batches[w], id)
  }

  lemma OnceEachExtended(before: seq<Stage>, since: seq<Stage>, stage: Stage)
    requires OnceEach(before + since)
    requires before == [] || (before == [Expiring] && stage.Expired?)
    ensures OnceEach(before + since + [stage]) <==> since == [] || (since == [Expiring] && stage.Expired?)
  {
    var sent := before + since + [stage];
    assert sent[|sent| - 1] == stage;
    assert forall i :: 0 <= i < |since| ==> sent[|before| + i] == since[i];
    if since == [Expiring] {
      assert [Expiring] + since == [Expiring, Expiring];
      assert before == [] ==> sent == [Expiring, stage];
    }
    if since == [] {
      assert before + since == before;
    }
    assert before == [] ==> before + since == since;
  }

  lemma OncePrefix(a: seq<Stage>, b: seq<Stage>)
    requires OnceEach(a + b)
    ensures OnceEach(a)
  {
    assert a == (a + b)[..|a|];
  }

  /** A report keeps the once-only log exactly when it is undisturbed. */
  lemma ReportOnceIffUndisturbed(x: World, w: Worker, id: nat)
    requires Wellformed(x.book) && AllOnce(x.book)
    requires w in x.batches && SelectedInv(x.book, x.batches[w], id)
    ensures AllOnce(Send(x.book, id, x.batches[w].now)) <==> Undisturbed(x, w, id)
  {
    var s, b := x.book, x.batches[w];
    var t, window := Send(s, id, b.now), s.windows[id];
    StagesSplit(s.log, b.since, id, window);
    SendStages(s, id, b.now, id, window);
    assert OnceAt(s, id, window);
    OnceEachExtended(Stages(s.log[..b.since], id, window), SentSince(s, b.since, id), StageAt(s.rows[id], b.now));
    assert OnceAt(t, id, window) <==> Undisturbed(x, w, id);
    forall i: nat, v: nat | i != id || v != window
      ensures OnceAt(t, i, v)
    {
      SendStages(s, id, b.now, i, v);
      assert OnceAt(s, i, v);
    }
  }

  lemma MarkEncodes(e: Entry, sent: seq<Stage>, now: int)
    requires OnceEach(sent + [StageAt(e, now)])
    ensures Encodes(Mark(e, now), sent + [StageAt(e, now)])
  {
    assert (sent + [StageAt(e, now)])[|sent|] == StageAt(e, now);
  }

  /** The timestamp goes on telling what was sent. */
  lemma SendKeepsBook(s: Book, id: nat, now: int)
    requires Wellformed(s) && BookInv(s) && AllOnce(Send(s, id, now))
    ensures BookInv(Send(s, id, now))
  {
    var t := Send(s, id, now);
    forall i: nat, v: nat
      ensures PeriodInv(t, i, v)
    {
      SendStages(s, id, now, i, v);
      assert PeriodInv(s, i, v) && OnceAt(t, i, v);
      if i == id && id < |s.rows| && v == s.windows[id] {
        MarkEncodes(s.rows[id], Stages(s.log, i, v), now);
      }
    }
  }

  lemma ChangeKeepsBook(s: Book, e: Event)
    requires Wellformed(s) && BookInv(s)
    ensures BookInv(Change(s, e))
  {
    forall id: nat, window: nat
      ensures PeriodInv(Change(s, e), id, window)
    {
      assert PeriodInv(s, id, window);
    }
  }

  /** Only a re-issue moves a row to a new period, about which nothing was sent yet. */
  lemma ChangeKeepsSelected(s: Book, e: Event, b: Batch, id: nat)
    requires Wellformed(s) && BookInv(s) && SelectedInv(s, b, id)
    ensures SelectedInv(Change(s, e), b, id)
  {
    var t := Change(s, e);
    if t.windows[id] != s.windows[id] {
      assert PeriodInv(s, id, t.windows[id]);
      StagesSplit(s.log, b.since, id, t.windows[id]);
    }
  }

  lemma SendKeepsSelected(s: Book, x: nat, now: int, b: Batch, id: nat)
    requires Wellformed(s) && SelectedInv(s, b, id)
    ensures SelectedInv(Send(s, x, now), b, id)
  {
    assert Send(s, x, now).log[..b.since] == s.log[..b.since];
  }

  lemma SelectedNow(s: Book, b: Batch, authority: bool, warningDays: int, id: nat)
    requires Wellformed(s) && BookInv(s) && b.since == |s.log|
    requires id in DueIds(s, authority, b.now, warningDays)
    ensures SelectedInv(s, b, id)
  {
    assert s.log[..|s.log|] == s.log;
    assert PeriodInv(s, id, s.windows[id]);
  }

  lemma StepKeepsInv(x: World, e: Event)
    requires Wellformed(x.book) && BookInv(x.book) && BatchesInv(x) && Enabled(x, e)
    requires AllOnce(Step(x, e).book)
    ensures BookInv(Step(x, e).book) && BatchesInv(Step(x, e))
  {
    var y := Step(x, e);
    if e.Report? && e.ok {
      SendKeepsBook(x.book, e.id, x.batches[e.w].now);
    } else {
      ChangeKeepsBook(x.book, e);
    }
    forall w, id | w in y.batches && id in y.batches[w].ids
      ensures SelectedInv(y.book, y.batches[w], id)
    {
      SelectedAfter(x, e, w, id);
    }
  }

  lemma SelectedAfter(x: World, e: Event, w: Worker, id: nat)
    requires Wellformed(x.book) && BookInv(x.book) && BatchesInv(x) && Enabled(x, e)
    requires w in Step(x, e).batches && id in Step(x, e).batches[w].ids
    ensures SelectedInv(Step(x, e).book, Step(x, e).batches[w], id)
  {
    if e.Select? && e.w == w {
      SelectedNow(x.book, Step(x, e).batches[w], e.authority, e.warningDays, id);
    } else {
      assert SelectedInv(x.book, x.batches[w], id);
      if e.Report? {
        SendKeepsSelected(x.book, e.id, x.batches[e.w].now, x.batches[w], id);
      } else {
        ChangeKeepsSelected(x.book, e, x.batches[w], id);
      }
    }
  }

  /** A step keeps the once-only log exactly when it is not a disturbed report. */
  lemma StepOnce(x: World, e: Event)
    requires Wellformed(x.book) && Enabled(x, e) && (AllOnce(x.book) ==> BatchesInv(x))
    ensures AllOnce(Step(x, e).book) <==>
            AllOnce(x.book) && (e.Report? && e.ok ==> Undisturbed(x, e.w, e.id))
  {
    var y := Step(x, e);
    if AllOnce(x.book) && e.Report? && e.ok {
      assert SelectedInv(x.book, x.batches[e.w], e.id);
      ReportOnceIffUndisturbed(x, e.w, e.id);
    } else if e.Report? && e.ok {
      forall id: nat, window: nat
        ensures OnceAt(y.book, id, window) ==> OnceAt(x.book, id, window)
      {
        SendStages(x.book, e.id, x.batches[e.w].now, id, window);
        if OnceAt(y.book, id, window) && e.id < |x.book.rows| {
          OncePrefix(Stages(x.book.log, id, window),
                     if e.id == id && window == x.book.windows[e.id]
                     then [StageAt(x.book.rows[e.id], x.batches[e.w].now)] else []);
        }
      }
    } else {
      assert y.book.log == x.book.log;
      forall id: nat, window: nat
        ensures OnceAt(y.book, id, window) <==> OnceAt(x.book, id, window)
      {
      }
    }
  }

  /** For any number of workers and any clocks: every validity period gets each event at
      most once, never "expiring" after "expired", if and only if every report is
      undisturbed; and then the timestamps tell what was sent. */
  lemma {:induction false} NotifiesOnceIffUndisturbed(es: seq<Event>)
    requires Legal(es)
    ensures AllOnce(Play(es).book) <==> UndisturbedRun(es)
    ensures AllOnce(Play(es).book) ==> BookInv(Play(es).book) && BatchesInv(Play(es))
  {
    if es != [] {
      var init, e := es[..|es| - 1], es[|es| - 1];
      NotifiesOnceIffUndisturbed(init);
      StepOnce(Play(init), e);
      if AllOnce(Play(es).book) {
        StepKeepsInv(Play(init), e);
      }
    }
  }

  /** What one timestamp says about the present period of a row. */
  lemma TimestampTellsStages(es: seq<Event>, id: nat)
    requires Legal(es) && UndisturbedRun(es) && id < |Play(es).book.rows|
    ensures var s := Play(es).book; var sent := Stages(s.log, id, s.windows[id]);
      && (s.rows[id].notified.None? <==> sent == [])
      && (Expired in sent <==> s.rows[id].notified.Some? && s.rows[id].notified.value >= s.rows[id].notAfter)
      && (sent == [Expiring] <==> s.rows[id].notified.Some? && s.rows[id].notified.value < s.rows[id].notAfter)
  {
    NotifiesOnceIffUndisturbed(es);
    var s := Play(es).book;
    assert PeriodInv(s, id, s.windows[id]);
  }

  // ---------------------------------------------------------------------------
  // Passes that do not overlap, and passes that do
  // ---------------------------------------------------------------------------

  /** A pass begins only when no other worker has rows left to report. */
  ghost predicate BeginsAlone(x: World, e: Event) {
    e.Select? ==> forall v :: v in x.batches && v != e.w ==> x.batches[v].ids == {}
  }

  ghost predicate SerialRun(es: seq<Event>)
    requires Legal(es)
  {
    es != [] ==>
      var init := es[..|es| - 1];
      SerialRun(init) && BeginsAlone(Play(init), es[|es| - 1])
  }

  /** One worker at most has rows left, and nobody reported them since it selected them. */
  ghost predicate SerialInv(x: World)
    requires Wellformed(x.book)
  {
    && (forall v, w :: v in x.batches && w in x.batches && x.batches[v].ids != {} && x.batches[w].ids != {} ==> v == w)
    && (forall w, id :: w in x.batches && id in x.batches[w].ids ==> Unreported(x, w, id))
  }

  ghost predicate Unreported(x: World, w: Worker, id: nat)
    requires Wellformed(x.book) && w in x.batches
  {
    && id < |x.book.rows| && x.batches[w].since <= |x.book.log|
    && SentSince(x.book, x.batches[w].since, id) == []
  }

  lemma SendElsewhere(s: Book, x: nat, now: int, n: nat, id: nat)
    requires Wellformed(s) && n <= |s.log| && id < |s.rows| && x != id
    ensures SentSince(Send(s, x, now), n, id) == SentSince(s, n, id)
  {
    var t := Send(s, x, now);
    if x < |s.rows| {
      var note := Notice(x, s.windows[x], StageAt(s.rows[x], now), now);
      assert t.log[n..] == s.log[n..] + [note];
      assert t.log[n..][..|t.log[n..]| - 1] == s.log[n..];
    }
  }

  lemma ChangeUnreported(x: World, e: Event, w: Worker, id: nat)
    requires Wellformed(x.book) && BookInv(x.book) && w in x.batches && Unreported(x, w, id)
    ensures Unreported(x.(book := Change(x.book, e)), w, id)
  {
    var s, t := x.book, Change(x.book, e);
    if t.windows[id] != s.windows[id] {
      assert PeriodInv(s, id, t.windows[id]);
      StagesSplit(s.log, x.batches[w].since, id, t.windows[id]);
    }
  }

  lemma StepKeepsSerial(x: World, e: Event)
    requires Wellformed(x.book) && BookInv(x.book) && SerialInv(x) && Enabled(x, e) && BeginsAlone(x, e)
    ensures SerialInv(Step(x, e))
  {
    var y := Step(x, e);
    forall w, id | w in y.batches && id in y.batches[w].ids
      ensures Unreported(y, w, id)
    {
      if e.Select? && e.w == w {
        assert y.book.log[|y.book.log|..] == [];
      } else {
        assert Unreported(x, w, id);
        if e.Report? && e.ok {
          assert w == e.w && e.id != id;
          SendElsewhere(x.book, e.id, x.batches[w].now, x.batches[w].since, id);
        } else {
          ChangeUnreported(x, e, w, id);
        }
      }
    }
  }

  /** Passes that follow one another send each event at most once. */
  lemma {:induction false} SerialRunsNotifyOnce(es: seq<Event>)
    requires Legal(es) && SerialRun(es)
    ensures UndisturbedRun(es) && AllOnce(Play(es).book)
    ensures SerialInv(Play(es))
  {
    if es != [] {
      var init, e := es[..|es| - 1], es[|es| - 1];
      SerialRunsNotifyOnce(init);
      NotifiesOnceIffUndisturbed(init);
      StepKeepsSerial(Play(init), e);
      assert e.Report? ==> Unreported(Play(init), e.w, e.id);
      NotifiesOnceIffUndisturbed(es);
    }
  }

  const DUE_SOON := Issue(false, 10 * DAY)

  /** Workers 1 and 2 select the same certificate before either marks it. */
  const OVERLAP: seq<Event> :=
    [DUE_SOON, Select(1, false, 0, 30), Select(2, false, 0, 30), Report(1, 0, true), Report(2, 0, true)]

  lemma GoOn(es: seq<Event>, e: Event)
    requires Legal(es) && Enabled(Play(es), e)
    ensures Legal(es + [e]) && Play(es + [e]) == Step(Play(es), e)
  {
    assert (es + [e])[..|es + [e]| - 1] == es;
  }

  const ROW := Entry(false, 10 * DAY, None, false, false)

  lemma BothSelect()
    ensures Legal(OVERLAP[..3])
    ensures Play(OVERLAP[..3]) == World(Book([ROW], [0], []), map[1 := Batch(0, {0}, 0), 2 := Batch(0, {0}, 0)])
  {
    assert OVERLAP[..1] == [] + [OVERLAP[0]] && OVERLAP[..2] == OVERLAP[..1] + [OVERLAP[1]];
    assert OVERLAP[..3] == OVERLAP[..2] + [OVERLAP[2]];
    GoOn([], OVERLAP[0]);
    assert Play(OVERLAP[..1]).book == Book([ROW], [0], []);
    assert DueIds(Book([ROW], [0], []), false, 0, 30) == {0};
    GoOn(OVERLAP[..1], OVERLAP[1]);
    GoOn(OVERLAP[..2], OVERLAP[2]);
  }

  /** Each of the two reports sends "expiring" about the row. */
  lemma ReportSends(es: seq<Event>, w: Worker, sent: seq<Stage>)
    requires Legal(es) && w in Play(es).batches && Play(es).batches[w] == Batch(0, {0}, 0)
    requires var s := Play(es).book; |s.rows| == 1 && s.rows[0].notAfter == 10 * DAY && s.windows == [0]
    requires Stages(Play(es).book.log, 0, 0) == sent
    ensures var next := es + [Report(w, 0, true)];
      && Legal(next) && Stages(Play(next).book.log, 0, 0) == sent + [Expiring]
      && Play(next).book.windows == [0] && |Play(next).book.rows| == 1
      && Play(next).book.rows[0].notAfter == 10 * DAY
      && forall v :: v != w && v in Play(es).batches ==>
           v in Play(next).batches && Play(next).batches[v] == Play(es).batches[v]
  {
    GoOn(es, Report(w, 0, true));
    SendStages(Play(es).book, 0, 0, 0, 0);
  }

  lemma TwoReports(three: seq<Event>, four: seq<Event>, es: seq<Event>)
    requires Legal(three)
    requires Play(three) == World(Book([ROW], [0], []), map[1 := Batch(0, {0}, 0), 2 := Batch(0, {0}, 0)])
    requires four == three + [Report(1, 0, true)] && es == four + [Report(2, 0, true)]
    ensures Legal(es) && Stages(Play(es).book.log, 0, 0) == [Expiring, Expiring]
  {
    ReportSends(three, 1, []);
    assert [] + [Expiring] == [Expiring];
    ReportSends(four, 2, [Expiring]);
    assert [Expiring] + [Expiring] == [Expiring, Expiring];
  }

  lemma OverlapEnds()
    ensures OVERLAP[..4] == OVERLAP[..3] + [Report(1, 0, true)]
    ensures OVERLAP == OVERLAP[..4] + [Report(2, 0, true)]
  {
  }

  /** Then its one validity period gets the same event twice. */
  lemma OverlapSendsTwice()
    ensures Legal(OVERLAP) && Stages(Play(OVERLAP).book.log, 0, 0) == [Expiring, Expiring]
  {
    BothSelect();
    OverlapEnds();
    TwoReports(OVERLAP[..3], OVERLAP[..4], OVERLAP);
  }

  // ---------------------------------------------------------------------------
  // Nothing is left
  // ---------------------------------------------------------------------------

  /** What else happens to a row: it is revoked, superseded or, a CA, re-issued into a new
      period of which nothing was sent. */
  lemma ChangesOfARow(x: World, id: nat, notAfter: int)
    requires Wellformed(x.book) && id < |x.book.rows|
    ensures var e, w := x.book.rows[id], x.book.windows[id];
      && Step(x, Revoke(id)).book.rows[id] == Entry(e.authority, e.notAfter, e.notified, true, e.renewed)
      && Step(x, Renew(id)).book.rows[id] ==
           (if e.authority then e else Entry(false, e.notAfter, e.notified, e.revoked, true))
      && Step(x, Reissue(id, notAfter)).book.rows[id] ==
           (if e.authority then Entry(true, notAfter, None, e.revoked, e.renewed) else e)
      && Step(x, Reissue(id, notAfter)).book.windows[id] == (if e.authority then w + 1 else w)
  {
  }

  /** Given what was sent about its period, a row is due exactly if it is not revoked and
      not superseded, and it has expired without being reported so, or expires within the
      warning days without having been reported at all. */
  lemma DueIffNotYetSent(e: Entry, sent: seq<Stage>, now: int, warningDays: int)
    requires Encodes(e, sent)
    ensures Due(e, now, warningDays) <==>
      && !e.revoked && !(e.renewed && !e.authority)
      && (if now >= e.notAfter then Expired !in sent else sent == [] && e.notAfter - now <= warningDays * DAY)
  {
  }

  /** So a worker selects exactly those rows, in every undisturbed run. */
  lemma {:induction false} EveryRunSelectsExactly(es: seq<Event>, authority: bool, now: int, warningDays: int, id: nat)
    requires Legal(es) && UndisturbedRun(es) && id < |Play(es).book.rows|
    ensures var s := Play(es).book; var e, sent := s.rows[id], Stages(s.log, id, s.windows[id]);
      id in DueIds(s, authority, now, warningDays) <==>
      && e.authority == authority && !e.revoked && !(e.renewed && !e.authority)
      && (if now >= e.notAfter then Expired !in sent else sent == [] && e.notAfter - now <= warningDays * DAY)
  {
    NotifiesOnceIffUndisturbed(es);
    var s := Play(es).book;
    assert PeriodInv(s, id, s.windows[id]);
    DueIffNotYetSent(s.rows[id], Stages(s.log, id, s.windows[id]), now, warningDays);
  }

  /** A pass that nobody disturbs reports exactly the rows that were due and did not
      fail, each once, at the stage the clock tells; it leaves the others alone. */
  lemma PassReports(s: Book, authority: bool, now: int, warningDays: int, due: seq<nat>, fails: set<nat>, id: nat)
    requires Wellformed(s) && DueList(s, authority, now, warningDays, due) && id < |s.rows|
    ensures var t := SendAll(s, due, now, fails);
      var hit := s.rows[id].authority == authority && Due(s.rows[id], now, warningDays) && id !in fails;
      && t.rows[id] == (if hit then Mark(s.rows[id], now) else s.rows[id])
      && Stages(t.log, id, s.windows[id]) ==
           Stages(s.log, id, s.windows[id]) + (if hit then [StageAt(s.rows[id], now)] else [])
  {
    SendAllAt(s, due, now, fails, id);
  }

  /** After a failure-free pass nothing is due: of the rows neither revoked nor
      superseded, the expired ones were all reported as expired, and the ones in the
      warning window were all reported. */
  lemma PassLeavesNothingDue(es: seq<Event>, now: int, warningDays: int, certs: seq<nat>, cas: seq<nat>, id: nat)
    requires Legal(es) && UndisturbedRun(es)
    requires DueList(Play(es).book, false, now, warningDays, certs)
    requires DueList(SendAll(Play(es).book, certs, now, {}), true, now, warningDays, cas)
    requires id < |Play(es).book.rows|
    ensures var t := SendAll(SendAll(Play(es).book, certs, now, {}), cas, now, {}); var e := t.rows[id];
      var sent := Stages(t.log, id, t.windows[id]);
      && !Due(e, now, warningDays)
      && (!e.revoked && (e.authority || !e.renewed) ==>
            && (e.notAfter <= now ==> Expired in sent)
            && (now < e.notAfter <= now + warningDays * DAY ==> sent != []))
  {
    var s := Play(es).book;
    var m := SendAll(s, certs, now, {});
    PassReports(s, false, now, warningDays, certs, {}, id);
    PassReports(m, true, now, warningDays, cas, {}, id);
    NotifiesOnceIffUndisturbed(es);
    assert PeriodInv(s, id, s.windows[id]);
    LeftNothing(s.rows[id], now, warningDays, Stages(s.log, id, s.windows[id]));
  }

  lemma LeftNothing(e: Entry, now: int, warningDays: int, sent: seq<Stage>)
    requires Encodes(e, sent)
    ensures var hit := Due(e, now, warningDays);
      var after := if hit then sent + [StageAt(e, now)] else sent;
      && !Due(if hit then Mark(e, now) else e, now, warningDays)
      && (!e.revoked && (e.authority || !e.renewed) ==>
            && (e.notAfter <= now ==> Expired in after)
            && (now < e.notAfter <= now + warningDays * DAY ==> after != []))
  {
    assert (sent + [StageAt(e, now)])[|sent|] == StageAt(e, now);
  }
}
