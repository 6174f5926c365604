/**
 Master-passphrase rotation: app/services/passphrase_service.py over the registered
 columns of encrypted values, with the wrapping of app/services/crypto_utils.py.
 */
module Passphrases {
  import opened Prelude

  type Blob = string
  type Payload = string
  type Passphrase = string
  type Salt = nat

  /** `decrypt_payload`: the passphrase may be wrong, the data malformed, or the call
      may break down in some other way. */
  datatype Opening = Opened(payload: Payload) | InvalidToken | Malformed | Broken

  datatype Cipher = Cipher(open: (Blob, Passphrase) -> Opening, wrap: (Payload, Passphrase, Salt) -> Blob)

  /** A wrapped payload is not empty and opens under its passphrase. */
  ghost predicate Sound(c: Cipher) {
    forall p, k, s :: c.wrap(p, k, s) != "" && c.open(c.wrap(p, k, s), k) == Opened(p)
  }

  /** A registered column, its rows in id order; NULL is None. */
  type Cell = Option<Blob>
  type Column = seq<Cell>

  /** NULL, and the empty bytes of a key held elsewhere, carry no ciphertext. */
  predicate Filled(cell: Cell) {
    cell.Some? && cell.value != ""
  }

  /** How many of the first `n` rows carry one. */
  function CountFilled(col: Column, n: nat): nat
    requires n <= |col|
  {
    if n == 0 then 0 else CountFilled(col, n - 1) + if Filled(col[n - 1]) then 1 else 0
  }

  datatype Failure = WrongPassphrase | Undecryptable | Unverified | Trouble

  /** Where the fresh salt of a row comes from. */
  type Salts = (nat, nat) -> Salt

  datatype Job = Job(cipher: Cipher, current: Passphrase, target: Passphrase, salts: Salts)

  /** `rewrap` and the check of its result. */
  function Rewrap(job: Job, blob: Blob, salt: Salt): Result<Blob, Failure> {
    match job.cipher.open(blob, job.current)
    case InvalidToken => Err(Undecryptable)
    case Opened(p) =>
      var wrapped := job.cipher.wrap(p, job.target, salt);
      (match job.cipher.open(wrapped, job.target)
       case InvalidToken => Err(Undecryptable)
       case Opened(q) => if q == p then Ok(wrapped) else Err(Unverified)
       case _ => Err(Trouble))
    case _ => Err(Trouble)
  }

  /** A row that can be re-wrapped, and what is in it afterwards. */
  predicate CellPasses(job: Job, cell: Cell, salt: Salt) {
    Filled(cell) ==> Rewrap(job, cell.value, salt).Ok?
  }

  function CellAfter(job: Job, cell: Cell, salt: Salt): Cell
    requires CellPasses(job, cell, salt)
  {
    if Filled(cell) then Some(Rewrap(job, cell.value, salt).value) else cell
  }

  ghost predicate ColumnPasses(job: Job, col: Column, k: nat) {
    forall j :: 0 <= j < |col| ==> CellPasses(job, col[j], job.salts(k, j))
  }

  ghost predicate ColumnDone(job: Job, was: Column, col: Column, k: nat) {
    && |col| == |was|
    && forall j :: 0 <= j < |col| ==>
         CellPasses(job, was[j], job.salts(k, j)) && col[j] == CellAfter(job, was[j], job.salts(k, j))
  }

  ghost predicate StorePasses(job: Job, store: seq<Column>) {
    forall k :: 0 <= k < |store| ==> ColumnPasses(job, store[k], k)
  }

  ghost predicate StoreDone(job: Job, was: seq<Column>, store: seq<Column>) {
    |store| == |was| && forall k :: 0 <= k < |store| ==> ColumnDone(job, was[k], store[k], k)
  }

  /** `can_decrypt`, which lets other errors through. */
  function CanOpen(c: Cipher, blob: Blob, pass: Passphrase): Result<bool, Failure> {
    match c.open(blob, pass)
    case Opened(_) => Ok(true)
    case InvalidToken => Ok(false)
    case Malformed => Ok(false)
    case Broken => Err(Trouble)
  }

  /** The row number of the first ciphertext, the number of rows when there is none. */
  method FirstFilled(col: Column) returns (i: nat)
    ensures i <= |col| && (i < |col| ==> Filled(col[i])) && forall j :: 0 <= j < i ==> !Filled(col[j])
  {
    i := 0;
    while i < |col| && !Filled(col[i])
      invariant i <= |col| && forall j :: 0 <= j < i ==> !Filled(col[j])
    {
      i := i + 1;
    }
  }

  ghost predicate IsFirst(col: Column, i: nat) {
    i < |col| && Filled(col[i]) && forall j :: 0 <= j < i ==> !Filled(col[j])
  }

  ghost predicate FirstOpens(c: Cipher, pass: Passphrase, col: Column) {
    forall i: nat :: IsFirst(col, i) ==> c.open(col[i].value, pass).Opened?
  }

  ghost predicate WrongSomewhere(c: Cipher, pass: Passphrase, store: seq<Column>) {
    exists k :: 0 <= k < |store| && !FirstOpens(c, pass, store[k])
  }

  ghost predicate FirstBreaks(c: Cipher, pass: Passphrase, col: Column) {
    exists i: nat :: IsFirst(col, i) && c.open(col[i].value, pass).Broken?
  }

  /** The database session: the registered columns as this transaction sees them. */
  class SecretStore {
    var columns: seq<Column>

    constructor (columns: seq<Column>)
      ensures this.columns == columns
    {
      this.columns := columns;
    }

    /** `check`: per column the number of ciphertexts, and whether the first one opens. */
    method Check(c: Cipher, pass: Passphrase) returns (r: Result<seq<(nat, Option<bool>)>, Failure>)
      ensures r.Err? ==> exists k :: 0 <= k < |columns| && FirstBreaks(c, pass, columns[k])
      ensures r.Ok? ==> |r.value| == |columns|
      ensures r.Ok? ==> forall k :: 0 <= k < |columns| ==>
        r.value[k].0 == CountFilled(columns[k], |columns[k]|) && (r.value[k].1 == None <==> r.value[k].0 == 0)
      ensures r.Ok? ==> forall k :: 0 <= k < |columns| && r.value[k].1.Some? ==>
        (r.value[k].1.value <==> FirstOpens(c, pass, columns[k]))
    {
      var report: seq<(nat, Option<bool>)> := [];
      for k := 0 to |columns|
        invariant |report| == k
        invariant forall m :: 0 <= m < k ==>
          report[m].0 == CountFilled(columns[m], |columns[m]|) && (report[m].1 == None <==> report[m].0 == 0)
        invariant forall m :: 0 <= m < k && report[m].1.Some? ==>
          (report[m].1.value <==> FirstOpens(c, pass, columns[m]))
      {
        var i := FirstFilled(columns[k]);
        NoneFilled(columns[k], i);
        if i < |columns[k]| {
          var ok := CanOpen(c, columns[k][i].value, pass);
          if ok.Err? {
            assert IsFirst(columns[k], i);
            return Err(ok.error);
          }
          report := report + [(CountFilled(columns[k], |columns[k]|), Some(ok.value))];
        } else {
          report := report + [(0, None)];
        }
      }
      r := Ok(report);
    }

    /** Re-wraps one column in place, row by row. */
    method RewrapColumn(job: Job, k: nat) returns (r: Result<nat, Failure>)
      requires k < |columns|
      modifies this
      ensures r.Ok? <==> ColumnPasses(job, old(columns)[k], k)
      ensures |columns| == |old(columns)| && forall m :: 0 <= m < |columns| && m != k ==> columns[m] == old(columns)[m]
      ensures r.Ok? ==> ColumnDone(job, old(columns)[k], columns[k], k)
      ensures r.Ok? ==> r.value == CountFilled(old(columns)[k], |old(columns)[k]|)
      ensures r.Err? ==> r.error != WrongPassphrase
    {
      ghost var was := columns[k];
      var count := 0;
      for j := 0 to |columns[k]|
        invariant |columns| == |old(columns)| && |columns[k]| == |was|
        invariant forall m :: 0 <= m < |columns| && m != k ==> columns[m] == old(columns)[m]
        invariant forall i :: 0 <= i < j ==>
          CellPasses(job, was[i], job.salts(k, i)) && columns[k][i] == CellAfter(job, was[i], job.salts(k, i))
        invariant forall i :: j <= i < |was| ==> columns[k][i] == was[i]
        invariant count == CountFilled(was, j)
      {
        var cell := columns[k][j];
        if Filled(cell) {
          var wrapped := Rewrap(job, cell.value, job.salts(k, j));
          if wrapped.Err? {
            assert !CellPasses(job, was[j], job.salts(k, j));
            return Err(wrapped.error);
          }
          columns := columns[k := columns[k][j := Some(wrapped.value)]];
          count := count + 1;
        }
      }
      r := Ok(count);
    }

    /** The gate of `rotate`: the current passphrase opens the first ciphertext of
        every column. */
    method Gate(job: Job) returns (r: Result<(), Failure>)
      ensures r.Ok? <==> forall k :: 0 <= k < |columns| ==> FirstOpens(job.cipher, job.current, columns[k])
      ensures r.Err? ==> r.error == WrongPassphrase || r.error == Trouble
      ensures r.Err? && r.error == WrongPassphrase ==> WrongSomewhere(job.cipher, job.current, columns)
    {
      for k := 0 to |columns|
        invariant forall m :: 0 <= m < k ==> FirstOpens(job.cipher, job.current, columns[m])
      {
        var i := FirstFilled(columns[k]);
        if i < |columns[k]| {
          var ok := CanOpen(job.cipher, columns[k][i].value, job.current);
          if ok.Err? {
            return Err(ok.error);
          }
          if !ok.value {
            assert IsFirst(columns[k], i);
            return Err(WrongPassphrase);
          }
        }
      }
      r := Ok(());
    }

    /** `rotate`: all columns or nothing. `flushed` is whether the final flush works. */
    method Rotate(job: Job, flushed: bool) returns (r: Result<seq<nat>, Failure>)
      modifies this
      ensures r.Ok? <==> flushed && StorePasses(job, old(columns))
      ensures r.Ok? ==> StoreDone(job, old(columns), columns)
      ensures r.Ok? ==> |r.value| == |columns| && forall k :: 0 <= k < |columns| ==>
        r.value[k] == CountFilled(old(columns)[k], |old(columns)[k]|)
      ensures r.Err? ==> columns == old(columns)
      ensures r.Err? && r.error == WrongPassphrase ==> WrongSomewhere(job.cipher, job.current, columns)
    {
      var gate := Gate(job);
      if gate.Err? {
        GateIsNeeded(job, columns);
        return Err(gate.error);
      }
      var saved := columns;
      var stats: seq<nat> := [];
      for k := 0 to |columns|
        invariant |columns| == |saved| && |stats| == k
        invariant forall m :: 0 <= m < k ==> ColumnPasses(job, saved[m], m) && ColumnDone(job, saved[m], columns[m], m)
        invariant forall m :: 0 <= m < k ==> stats[m] == CountFilled(saved[m], |saved[m]|)
        invariant forall m :: k <= m < |saved| ==> columns[m] == saved[m]
      {
        var count := RewrapColumn(job, k);
        if count.Err? {
          columns := saved;
          return Err(count.error);
        }
        stats := stats + [count.value];
      }
      if !flushed {
        columns := saved;
        return Err(Trouble);
      }
      r := Ok(stats);
    }
  }

  /** The count is that of the rows that are neither NULL nor empty. */
  lemma {:induction false} CountIs(col: Column, n: nat)
    requires n <= |col|
    ensures CountFilled(col, n) == |set j | 0 <= j < n && col[j] != None && col[j] != Some("")|
  {
    if n > 0 {
      CountIs(col, n - 1);
      var before := set j | 0 <= j < n - 1 && col[j] != None && col[j] != Some("");
      var all := set j | 0 <= j < n && col[j] != None && col[j] != Some("");
      assert all == before + if col[n - 1] != None && col[n - 1] != Some("") then {n - 1} else {};
    }
  }

  /** No ciphertext before row `i`, and one there when it exists. */
  lemma {:induction false} NoneFilled(col: Column, i: nat)
    requires i <= |col| && forall j :: 0 <= j < i ==> !Filled(col[j])
    requires i < |col| ==> Filled(col[i])
    ensures CountFilled(col, |col|) == 0 <==> i == |col|
  {
    CountsNone(col, i);
    if i < |col| {
      CountGrows(col, i + 1, |col|);
    }
  }

  lemma {:induction false} CountsNone(col: Column, i: nat)
    requires i <= |col| && forall j :: 0 <= j < i ==> !Filled(col[j])
    ensures CountFilled(col, i) == 0
  {
    if i > 0 {
      CountsNone(col, i - 1);
    }
  }

  lemma {:induction false} CountGrows(col: Column, i: nat, n: nat)
    requires i <= n <= |col|
    ensures CountFilled(col, i) <= CountFilled(col, n)
    decreases n
  {
    if i < n {
      CountGrows(col, i, n - 1);
    }
  }

  /** A store that fails the gate could not have been rotated. */
  lemma GateIsNeeded(job: Job, store: seq<Column>)
    ensures StorePasses(job, store) ==> forall k :: 0 <= k < |store| ==> FirstOpens(job.cipher, job.current, store[k])
  {
    forall k | StorePasses(job, store) && 0 <= k < |store|
      ensures FirstOpens(job.cipher, job.current, store[k])
    {
      assert ColumnPasses(job, store[k], k);
      assert forall i :: 0 <= i < |store[k]| ==> CellPasses(job, store[k][i], job.salts(k, i));
    }
  }

  // ---------------------------------------------------------------------------
  // What a rotation means
  // ---------------------------------------------------------------------------

  /** The cell holds what it held, now under the other passphrase. */
  ghost predicate CellMoved(c: Cipher, a: Cell, k: Passphrase, b: Cell, l: Passphrase) {
    if a == None || a == Some("") then b == a
    else b.Some? && c.open(a.value, k).Opened? && c.open(b.value, l) == c.open(a.value, k)
  }

  /** Every ciphertext of `a` under `k` is in `b` under `l`; nothing else differs. */
  ghost predicate Moved(c: Cipher, a: seq<Column>, k: Passphrase, b: seq<Column>, l: Passphrase) {
    && |a| == |b|
    && (forall i :: 0 <= i < |a| ==> |a[i]| == |b[i]|)
    && (forall i, j :: 0 <= i < |a| && 0 <= j < |a[i]| ==> CellMoved(c, a[i][j], k, b[i][j], l))
  }

  lemma RewrapMoves(job: Job, blob: Blob, salt: Salt)
    requires Rewrap(job, blob, salt).Ok?
    ensures job.cipher.open(blob, job.current).Opened?
    ensures job.cipher.open(Rewrap(job, blob, salt).value, job.target) == job.cipher.open(blob, job.current)
  {
  }

  /** After a successful rotation every ciphertext opens under the new passphrase to the
      payload it had, and empty and NULL cells are untouched, whatever the cipher is. */
  lemma DoneIsMoved(job: Job, was: seq<Column>, store: seq<Column>)
    requires StoreDone(job, was, store)
    ensures Moved(job.cipher, was, job.current, store, job.target)
  {
    forall i, j | 0 <= i < |was| && 0 <= j < |was[i]|
      ensures CellMoved(job.cipher, was[i][j], job.current, store[i][j], job.target)
    {
      assert ColumnDone(job, was[i], store[i], i);
      if Filled(was[i][j]) {
        RewrapMoves(job, was[i][j].value, job.salts(i, j));
      }
    }
  }

  ghost predicate OpensAll(c: Cipher, store: seq<Column>, pass: Passphrase) {
    forall i, j :: 0 <= i < |store| && 0 <= j < |store[i]| && store[i][j] != None && store[i][j] != Some("") ==>
                     c.open(store[i][j].value, pass).Opened?
  }

  lemma CellPassesIffOpens(job: Job, cell: Cell, salt: Salt)
    requires Sound(job.cipher)
    ensures CellPasses(job, cell, salt) <==> (Filled(cell) ==> job.cipher.open(cell.value, job.current).Opened?)
  {
  }

  /** With a sound cipher the rotation goes through exactly when the current passphrase
      opens every ciphertext. */
  lemma RotatesIffAllOpen(job: Job, store: seq<Column>)
    requires Sound(job.cipher)
    ensures StorePasses(job, store) <==> OpensAll(job.cipher, store, job.current)
  {
    forall i, j | 0 <= i < |store| && 0 <= j < |store[i]|
      ensures CellPasses(job, store[i][j], job.salts(i, j)) <==>
              (Filled(store[i][j]) ==> job.cipher.open(store[i][j].value, job.current).Opened?)
    {
      CellPassesIffOpens(job, store[i][j], job.salts(i, j));
    }
    if OpensAll(job.cipher, store, job.current) {
      forall i | 0 <= i < |store|
        ensures ColumnPasses(job, store[i], i)
      {
      }
    }
    if StorePasses(job, store) {
      forall i, j | 0 <= i < |store| && 0 <= j < |store[i]| && Filled(store[i][j])
        ensures job.cipher.open(store[i][j].value, job.current).Opened?
      {
        assert ColumnPasses(job, store[i], i);
      }
    }
  }

  /** Rotating on, and so also rotating back, is one rotation. */
  lemma MovesCompose(c: Cipher, x: seq<Column>, y: seq<Column>, z: seq<Column>, k: Passphrase, l: Passphrase, m: Passphrase)
    requires Moved(c, x, k, y, l) && Moved(c, y, l, z, m)
    requires forall i, j :: 0 <= i < |x| && 0 <= j < |x[i]| && Filled(x[i][j]) ==> Filled(y[i][j])
    ensures Moved(c, x, k, z, m)
  {
    forall i, j | 0 <= i < |x| && 0 <= j < |x[i]|
      ensures CellMoved(c, x[i][j], k, z[i][j], m)
    {
      assert CellMoved(c, x[i][j], k, y[i][j], l) && CellMoved(c, y[i][j], l, z[i][j], m);
    }
  }

  /** A rotated store can be rotated back, and then holds every payload it held. */
  lemma RotatesBack(job: Job, back: Job, x: seq<Column>, y: seq<Column>, z: seq<Column>)
    requires Sound(job.cipher) && StoreDone(job, x, y)
    requires back.cipher == job.cipher && back.current == job.target && back.target == job.current
    ensures StorePasses(back, y)
    ensures StoreDone(back, y, z) ==> Moved(job.cipher, x, job.current, z, job.current)
  {
    DoneIsMoved(job, x, y);
    forall i, j | 0 <= i < |y| && 0 <= j < |y[i]|
      ensures (Filled(x[i][j]) <==> Filled(y[i][j])) && (Filled(y[i][j]) ==> job.cipher.open(y[i][j].value, back.current).Opened?)
    {
      assert ColumnDone(job, x[i], y[i], i) && CellMoved(job.cipher, x[i][j], job.current, y[i][j], job.target);
    }
    RotatesIffAllOpen(back, y);
    if StoreDone(back, y, z) {
      DoneIsMoved(back, y, z);
      MovesCompose(job.cipher, x, y, z, job.current, job.target, job.current);
    }
  }
}
