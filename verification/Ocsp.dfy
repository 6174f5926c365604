/**
 The OCSP responder of app/services/ocsp_service.py with its three caches: signed
 responses, responder keys, and (app/services/keybackend/software.py) CA keys.
 */
module Ocsp {
  import opened Prelude
  import opened CaTree
  import opened CaRuns
  import opened Crls

  type Key = string
  type Blob = string
  type Print = string

  const DAY := 24 * 3600
  const CA_KEY := "ca-key"

  /** A delegated responder certificate and its encrypted key. */
  datatype Responder = Responder(serial: string, blob: Blob, notBefore: int, notAfter: int)

  /** The key columns of a CA row. */
  datatype KeyRow = KeyRow(blob: Blob, responder: Option<Responder>)

  /** A signed response: what it says about which serial, and who signed it. */
  datatype Response = Response(ca: nat, serial: string, revoked: bool, algorithm: string, signer: string, key: Key)

  datatype Answer = Unauthorized | Signed(response: Response)

  datatype CacheKey = CacheKey(ca: nat, serial: string, revoked: bool, algorithm: string, signer: string)

  datatype Cached<T> = Cached(value: T, expiresAt: int)

  datatype KeyEntry = KeyEntry(fingerprint: Print, key: Key, expiresAt: int)

  datatype Settings = Settings(delegated: bool, responseTtl: int, keyTtl: int, renewBeforeDays: int)

  /** Decryption under the master passphrase, the fingerprint of a blob, and the key
      that belongs to a signer of a CA. */
  datatype Crypto = Crypto(open: Blob -> Key, digest: Blob -> Print, keyOf: (nat, string) -> Key)

  ghost predicate CollisionFree(c: Crypto) {
    forall a, b :: c.digest(a) == c.digest(b) ==> a == b
  }

  /** The encrypted keys of a row are the keys of the signers it names. */
  predicate WellKeyed(c: Crypto, ca: nat, row: KeyRow) {
    && c.open(row.blob) == c.keyOf(ca, CA_KEY)
    && (row.responder.Some? ==> c.open(row.responder.value.blob) == c.keyOf(ca, row.responder.value.serial))
  }

  predicate Usable(r: Responder, now: int) {
    r.notBefore <= now < r.notAfter
  }

  /** `responder_needs_rotation`; whole days left, rounded down. */
  predicate NeedsRotation(r: Option<Responder>, now: int, renewBeforeDays: int) {
    r.None? || !Usable(r.value, now) || (r.value.notAfter - now) / DAY < renewBeforeDays
  }

  /** `ensure_responder` may issue one. */
  predicate CanIssueResponder(p: Pki, ca: nat, now: int) {
    ca in p.cas && p.cas[ca].keyed && !p.cas[ca].pending && !p.cas[ca].Revoked() && p.cas[ca].notAfter > now
  }

  /** Who should sign now, given that a due rotation brings `next` or fails: the
      responder, or the CA key as the fallback. */
  function SignerNow(p: Pki, row: KeyRow, ca: nat, cfg: Settings, now: int, next: Option<Responder>): Option<Responder>
    requires ca in p.cas
  {
    if !cfg.delegated || p.cas[ca].notAfter <= now then None
    else if !NeedsRotation(row.responder, now, cfg.renewBeforeDays) then row.responder
    else if CanIssueResponder(p, ca, now) then next
    else None
  }

  /** Valid now, and for at least the renewal period from now. */
  predicate Lasting(r: Responder, now: int, renewBeforeDays: int) {
    r.notBefore <= now < r.notAfter && r.notAfter - now >= renewBeforeDays * DAY
  }

  /** With delegation on and a CA that has not expired, a lasting responder signs; any
      other is replaced if the CA may certify, and otherwise the CA key signs itself. */
  lemma WhoSigns(p: Pki, row: KeyRow, ca: nat, cfg: Settings, now: int, next: Option<Responder>)
    requires ca in p.cas
    ensures var c, lasting := p.cas[ca], row.responder.Some? && Lasting(row.responder.value, now, cfg.renewBeforeDays);
      SignerNow(p, row, ca, cfg, now, next) ==
        if !cfg.delegated || now >= c.notAfter then None
        else if lasting then row.responder
        else if c.keyed && !c.pending && c.revoked.None? then next
        else None
  {
    if row.responder.Some? {
      var left := row.responder.value.notAfter - now;
      WholeDays(left, cfg.renewBeforeDays);
    }
  }

  lemma WholeDays(seconds: int, days: int)
    ensures seconds / DAY < days <==> seconds < days * DAY
  {
  }

  /** The key columns after a rotation that is due, or as they were. */
  function RowAfter(p: Pki, row: KeyRow, ca: nat, cfg: Settings, now: int, next: Option<Responder>): KeyRow
    requires ca in p.cas
  {
    if cfg.delegated && p.cas[ca].notAfter > now && NeedsRotation(row.responder, now, cfg.renewBeforeDays)
       && CanIssueResponder(p, ca, now) && next.Some?
    then row.(responder := next) else row
  }

  /** The CA cannot sign, or no certificate of it and no CA below it carries the serial. */
  ghost predicate Refuses(p: Pki, ca: nat, serial: string)
    requires ca in p.cas
  {
    !p.cas[ca].keyed || p.cas[ca].pending || (!CarriedRevoked(p, ca, serial) && !CarriedLive(p, ca, serial))
  }

  class OcspService {
    const crypto: Crypto
    const cfg: Settings
    var responses: map<CacheKey, Cached<Response>>
    var responderKeys: map<nat, KeyEntry>
    var caKeys: map<nat, KeyEntry>

    /** A cached key opens whatever blob has its fingerprint. */
    ghost predicate Opens(e: KeyEntry) {
      forall b :: crypto.digest(b) == e.fingerprint ==> e.key == crypto.open(b)
    }

    /** A cached response says what its cache key says, under its signer's key. */
    ghost predicate Truthful(k: CacheKey, r: Response) {
      CacheKey(r.ca, r.serial, r.revoked, r.algorithm, r.signer) == k && r.key == crypto.keyOf(r.ca, r.signer)
    }

    ghost predicate Valid()
      reads this
    {
      && CollisionFree(crypto)
      && (forall k :: k in responses ==> Truthful(k, responses[k].value))
      && (forall ca :: ca in responderKeys ==> Opens(responderKeys[ca]))
      && (forall ca :: ca in caKeys ==> Opens(caKeys[ca]))
    }

    constructor (crypto: Crypto, cfg: Settings)
      requires CollisionFree(crypto)
      ensures Valid() && this.crypto == crypto && this.cfg == cfg
    {
      this.crypto, this.cfg := crypto, cfg;
      responses, responderKeys, caKeys := map[], map[], map[];
    }

    /** `_OcspResponseCache.get`: drops an entry past its time. */
    method CachedResponse(k: CacheKey, tick: int) returns (r: Option<Response>)
      requires Valid()
      modifies this`responses
      ensures Valid()
      ensures r.Some? <==> cfg.responseTtl > 0 && k in old(responses) && tick < old(responses)[k].expiresAt
      ensures r.Some? ==> r.value == old(responses)[k].value && Truthful(k, r.value)
      ensures r.Some? ==> responses == old(responses)
    {
      if cfg.responseTtl <= 0 || k !in responses {
        return None;
      }
      if tick >= responses[k].expiresAt {
        responses := responses - {k};
        return None;
      }
      r := Some(responses[k].value);
    }

    /** `_responder_key`. */
    method ResponderKey(ca: nat, blob: Blob, tick: int) returns (key: Key)
      requires Valid()
      modifies this`responderKeys
      ensures Valid() && key == crypto.open(blob)
    {
      var fingerprint := crypto.digest(blob);
      if cfg.keyTtl > 0 && ca in responderKeys {
        var e := responderKeys[ca];
        if e.fingerprint == fingerprint && e.expiresAt > tick {
          assert Opens(e);
          return e.key;
        }
      }
      key := crypto.open(blob);
      if cfg.keyTtl > 0 {
        responderKeys := responderKeys[ca := KeyEntry(fingerprint, key, tick + cfg.keyTtl)];
      }
    }

    /** `_ocsp_key` of the software backend. */
    method CaKey(ca: nat, blob: Blob, tick: int) returns (key: Key)
      requires Valid()
      modifies this`caKeys
      ensures Valid() && key == crypto.open(blob)
    {
      if cfg.keyTtl <= 0 {
        return crypto.open(blob);
      }
      var fingerprint := crypto.digest(blob);
      if ca in caKeys {
        var e := caKeys[ca];
        if e.fingerprint == fingerprint && e.expiresAt > tick {
          assert Opens(e);
          return e.key;
        }
      }
      key := crypto.open(blob);
      caKeys := caKeys[ca := KeyEntry(fingerprint, key, tick + cfg.keyTtl)];
    }

    /** A new responder: its key and every signed response leave the caches. */
    method Rotated(ca: nat)
      requires Valid()
      modifies this`responderKeys, this`responses
      ensures Valid() && responses == map[] && ca !in responderKeys
    {
      responderKeys := responderKeys - {ca};
      responses := map[];
    }

    /** `_delegated_responder`: the responder to sign with, rotating when due. `next`
        is the certificate a rotation issues, or None when issuing fails. */
    method DelegatedResponder(p: Pki, row: KeyRow, ca: nat, now: int, next: Option<Responder>)
      returns (signer: Option<Responder>, row': KeyRow)
      requires Valid() && ca in p.cas && WellKeyed(crypto, ca, row) && WellKeyed(crypto, ca, row.(responder := next))
      modifies this`responderKeys, this`responses
      ensures Valid() && WellKeyed(crypto, ca, row')
      ensures signer == SignerNow(p, row, ca, cfg, now, next)
      ensures row' == RowAfter(p, row, ca, cfg, now, next)
      ensures row' != row ==> responses == map[]
    {
      signer, row' := None, row;
      if !cfg.delegated || p.cas[ca].notAfter <= now {
        return;
      }
      if NeedsRotation(row.responder, now, cfg.renewBeforeDays) {
        if !CanIssueResponder(p, ca, now) || next.None? {
          return;
        }
        row' := row.(responder := next);
        Rotated(ca);
      }
      signer := row'.responder;
    }

    /** `build_ocsp_response` for a well-formed request. */
    method Respond(p: Pki, row: KeyRow, ca: nat, serial: string, algorithm: string, now: int, tick: int,
                   next: Option<Responder>) returns (answer: Answer, row': KeyRow)
      requires Valid() && ca in p.cas && SerialsUnique(p)
      requires WellKeyed(crypto, ca, row) && WellKeyed(crypto, ca, row.(responder := next))
      modifies this
      ensures Valid() && WellKeyed(crypto, ca, row')
      ensures answer.Unauthorized? <==> Refuses(p, ca, serial)
      ensures row' == if Refuses(p, ca, serial) then row else RowAfter(p, row, ca, cfg, now, next)
      ensures answer.Signed? ==> Answers(p, ca, serial, algorithm, SignerNow(p, row, ca, cfg, now, next), answer.response)
      ensures answer.Signed? ==> answer.response.key == crypto.keyOf(ca, answer.response.signer)
    {
      row' := row;
      if !p.cas[ca].keyed || p.cas[ca].pending {
        return Unauthorized, row;
      }
      var revoked := Subject(p, ca, serial);
      if revoked.None? {
        return Unauthorized, row;
      }
      var signer;
      signer, row' := DelegatedResponder(p, row, ca, now, next);
      var name := if signer.Some? then signer.value.serial else CA_KEY;
      var k := CacheKey(ca, serial, revoked.value, algorithm, name);
      var cached := CachedResponse(k, tick);
      if cached.Some? {
        return Signed(cached.value), row';
      }
      var key;
      if signer.Some? {
        key := ResponderKey(ca, signer.value.blob, tick);
      } else {
        key := CaKey(ca, row'.blob, tick);
      }
      var r := Response(ca, serial, revoked.value, algorithm, name, key);
      if cfg.responseTtl > 0 {
        responses := responses[k := Cached(r, tick + cfg.responseTtl)];
      }
      answer := Signed(r);
    }
  }

  /** The subject a request is about: a certificate of the CA, else a sub-CA. */
  method Subject(p: Pki, ca: nat, serial: string) returns (revoked: Option<bool>)
    requires SerialsUnique(p)
    ensures match revoked
      case None => !CarriedRevoked(p, ca, serial) && !CarriedLive(p, ca, serial)
      case Some(true) => CarriedRevoked(p, ca, serial) && !CarriedLive(p, ca, serial)
      case Some(false) => CarriedLive(p, ca, serial) && !CarriedRevoked(p, ca, serial)
  {
    StatusIsThatOfTheCarrier(p, ca, serial);
    var leaves := LeavesWith(p, ca, serial);
    if leaves != {} {
      var k :| k in leaves;
      OnlyLeaf(p, ca, serial, k);
      return Some(p.leaves[k].Revoked());
    }
    var subs := SubCasWith(p, ca, serial);
    if subs != {} {
      var c :| c in subs;
      OnlySubCa(p, ca, serial, c);
      return Some(p.cas[c].Revoked());
    }
    revoked := None;
  }

  /** The response is about the serial asked for, states its stored status, and is
      signed by whoever signs now. */
  ghost predicate Answers(p: Pki, ca: nat, serial: string, algorithm: string, signer: Option<Responder>, r: Response) {
    && r.ca == ca && r.serial == serial && r.algorithm == algorithm
    && (if r.revoked then CarriedRevoked(p, ca, serial) else CarriedLive(p, ca, serial))
    && r.signer == if signer.Some? then signer.value.serial else CA_KEY
  }

  // ---------------------------------------------------------------------------
  // Runs
  // ---------------------------------------------------------------------------

  /** A request, a rotation by the scheduler of this process or by another process, or a
      change of the hierarchy or of the published CRLs. `next` is what a rotation would
      issue. Another process reaches the stored keys but not the caches of this one. */
  datatype Step =
    | Request(ca: nat, serial: string, algorithm: string, next: Option<Responder>)
    | Rotate(ca: nat, next: Option<Responder>, here: bool)
    | Alter(action: Action)

  /** The changes of the hierarchy among the steps. */
  function Actions(run: seq<Step>): seq<Action> {
    if run == [] then []
    else Actions(run[..|run| - 1]) + if run[|run| - 1].Alter? then [run[|run| - 1].action] else []
  }

  /** An issued responder's encrypted key is its own. */
  predicate NextKeyed(c: Crypto, step: Step) {
    !step.Alter? && step.next.Some? ==> c.open(step.next.value.blob) == c.keyOf(step.ca, step.next.value.serial)
  }

  /** The database as each step finds it. */
  ghost predicate Snapshots(run: seq<Step>, dbs: seq<Pki>) {
    |dbs| == |run| && forall i :: 0 <= i < |run| ==> SnapshotAt(run, dbs, i)
  }

  ghost predicate SnapshotAt(run: seq<Step>, dbs: seq<Pki>, i: int)
    requires 0 <= i < |run| && |dbs| == |run|
  {
    Feasible(Actions(run[..i])) && dbs[i] == Perform(Actions(run[..i])).pki
  }

  /** The stored keys after one step. */
  ghost function RowsAfter(cfg: Settings, p: Pki, rows: map<nat, KeyRow>, step: Step, wall: int): map<nat, KeyRow> {
    match step
    case Request(ca, serial, _, next) =>
      if ca in p.cas && ca in rows && !Refuses(p, ca, serial)
      then rows[ca := RowAfter(p, rows[ca], ca, cfg, wall, next)] else rows
    case Rotate(ca, next, _) =>
      if ca in rows && CanIssueResponder(p, ca, wall) && next.Some? then rows[ca := rows[ca].(responder := next)] else rows
    case Alter(_) => rows
  }

  /** The stored keys as step `n` finds them. */
  ghost function RowsAt(cfg: Settings, run: seq<Step>, dbs: seq<Pki>, walls: seq<int>, rows: map<nat, KeyRow>, n: nat):
    (r: map<nat, KeyRow>)
    requires n <= |run| == |dbs| == |walls|
    ensures r.Keys == rows.Keys
  {
    if n == 0 then rows
    else RowsAfter(cfg, dbs[n - 1], RowsAt(cfg, run, dbs, walls, rows, n - 1), run[n - 1], walls[n - 1])
  }

  /** A request about a CA is answered: refused exactly when it has to be, otherwise with
      the status the database has at that moment, signed by the signer of that moment
      under its own key. */
  ghost predicate TruthfulAnswer(c: Crypto, cfg: Settings, p: Pki, rows: map<nat, KeyRow>, step: Step, wall: int,
                                 answer: Option<Answer>) {
    (answer.Some? <==> step.Request? && step.ca in p.cas) &&
    (answer.Some? ==>
       && (answer.value.Unauthorized? <==> Refuses(p, step.ca, step.serial))
       && (answer.value.Signed? && step.ca in rows ==>
             var r := answer.value.response;
             && Answers(p, step.ca, step.serial, step.algorithm,
                        SignerNow(p, rows[step.ca], step.ca, cfg, wall, step.next), r)
             && r.key == c.keyOf(r.ca, r.signer)))
  }

  /** A run: its steps, the database and the clocks each of them finds, and the keys
      stored at the start. */
  datatype Run = Run(steps: seq<Step>, dbs: seq<Pki>, walls: seq<int>, ticks: seq<int>, keyRows: map<nat, KeyRow>)

  predicate AllKeyed(c: Crypto, rows: map<nat, KeyRow>) {
    forall ca :: ca in rows ==> WellKeyed(c, ca, rows[ca])
  }

  predicate StepKeyed(c: Crypto, rows: map<nat, KeyRow>, step: Step) {
    NextKeyed(c, step) && (step.Request? ==> step.ca in rows)
  }

  ghost predicate Proper(c: Crypto, r: Run) {
    && |r.walls| == |r.steps| == |r.ticks| && Snapshots(r.steps, r.dbs) && AllKeyed(c, r.keyRows)
    && forall i :: 0 <= i < |r.steps| ==> StepKeyed(c, r.keyRows, r.steps[i])
  }

  ghost predicate TruthfulAt(c: Crypto, cfg: Settings, r: Run, i: int, answer: Option<Answer>)
    requires Proper(c, r) && 0 <= i < |r.steps|
  {
    TruthfulAnswer(c, cfg, r.dbs[i], RowsAt(cfg, r.steps, r.dbs, r.walls, r.keyRows, i), r.steps[i], r.walls[i], answer)
  }

  lemma SnapshotUnique(c: Crypto, r: Run, i: nat)
    requires Proper(c, r) && i < |r.steps|
    ensures SerialsUnique(r.dbs[i])
  {
    assert SnapshotAt(r.steps, r.dbs, i);
    RunKeepsPublished(Actions(r.steps[..i]));
  }

  /** Step `i` of a run. */
  method ServeNext(service: OcspService, r: Run, i: nat, rows: map<nat, KeyRow>)
    returns (answer: Option<Answer>, rows': map<nat, KeyRow>)
    requires service.Valid() && Proper(service.crypto, r) && i < |r.steps|
    requires rows == RowsAt(service.cfg, r.steps, r.dbs, r.walls, r.keyRows, i) && AllKeyed(service.crypto, rows)
    modifies service
    ensures service.Valid()
    ensures rows' == RowsAt(service.cfg, r.steps, r.dbs, r.walls, r.keyRows, i + 1) && AllKeyed(service.crypto, rows')
    ensures TruthfulAt(service.crypto, service.cfg, r, i, answer)
  {
    SnapshotUnique(service.crypto, r, i);
    assert StepKeyed(service.crypto, r.keyRows, r.steps[i]);
    answer, rows' := ServeStep(service, r.dbs[i], rows, r.steps[i], r.walls[i], r.ticks[i]);
  }

  /** The first steps are served: every answer is truthful, and the keys are those the
      next step finds. */
  ghost predicate Served(c: Crypto, cfg: Settings, r: Run, rows: map<nat, KeyRow>, answers: seq<Option<Answer>>)
    requires Proper(c, r)
  {
    && |answers| <= |r.steps| && AllKeyed(c, rows)
    && rows == RowsAt(cfg, r.steps, r.dbs, r.walls, r.keyRows, |answers|)
    && forall j :: 0 <= j < |answers| ==> TruthfulAt(c, cfg, r, j, answers[j])
  }

  lemma ServedNext(c: Crypto, cfg: Settings, r: Run, rows: map<nat, KeyRow>, answers: seq<Option<Answer>>,
                   rows': map<nat, KeyRow>, answer: Option<Answer>)
    requires Proper(c, r) && Served(c, cfg, r, rows, answers) && |answers| < |r.steps| && AllKeyed(c, rows')
    requires rows' == RowsAt(cfg, r.steps, r.dbs, r.walls, r.keyRows, |answers| + 1)
    requires TruthfulAt(c, cfg, r, |answers|, answer)
    ensures Served(c, cfg, r, rows', answers + [answer])
  {
    var more := answers + [answer];
    forall j | 0 <= j < |more|
      ensures TruthfulAt(c, cfg, r, j, more[j])
    {
      assert j < |answers| ==> TruthfulAt(c, cfg, r, j, answers[j]);
    }
  }

  /** Serves a run of requests, revocations and rotations, here or by other processes:
      whatever the caches hold, every answer is truthful at its moment. */
  method Serve(crypto: Crypto, cfg: Settings, r: Run) returns (answers: seq<Option<Answer>>)
    requires CollisionFree(crypto) && Proper(crypto, r)
    ensures |answers| == |r.steps|
    ensures forall i :: 0 <= i < |r.steps| ==> TruthfulAt(crypto, cfg, r, i, answers[i])
  {
    var service := new OcspService(crypto, cfg);
    var rows := r.keyRows;
    answers := [];
    while |answers| < |r.steps|
      invariant fresh(service) && service.Valid() && service.crypto == crypto && service.cfg == cfg
      invariant Served(crypto, cfg, r, rows, answers)
    {
      var answer, rows' := ServeNext(service, r, |answers|, rows);
      ServedNext(crypto, cfg, r, rows, answers, rows', answer);
      rows, answers := rows', answers + [answer];
    }
  }

  /** One step of the run, on the stored keys and the caches of this process. */
  method ServeStep(service: OcspService, p: Pki, rows: map<nat, KeyRow>, step: Step, wall: int, tick: int)
    returns (answer: Option<Answer>, rows': map<nat, KeyRow>)
    requires service.Valid() && SerialsUnique(p) && AllKeyed(service.crypto, rows)
    requires StepKeyed(service.crypto, rows, step)
    modifies service
    ensures service.Valid()
    ensures rows' == RowsAfter(service.cfg, p, rows, step, wall)
    ensures AllKeyed(service.crypto, rows')
    ensures TruthfulAnswer(service.crypto, service.cfg, p, rows, step, wall, answer)
  {
    answer, rows' := None, rows;
    match step {
      case Request(ca, serial, algorithm, next) =>
        if ca in p.cas {
          var a, row := service.Respond(p, rows[ca], ca, serial, algorithm, wall, tick, next);
          rows' := rows[ca := row];
          answer := Some(a);
        }
      case Rotate(ca, next, here) =>
        if ca in rows && CanIssueResponder(p, ca, wall) && next.Some? {
          rows' := rows[ca := rows[ca].(responder := next)];
          if here {
            service.Rotated(ca);
          }
        }
      case Alter(_) =>
    }
  }
}
