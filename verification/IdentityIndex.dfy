/** Registration and login while the blind-index keys rotate.

    A worker owns a keyring; it names a person by one digest per key version and
    takes an advisory lock on every one of them, in version order, before it
    writes. Each function below is one database call of a transaction. A write is
    buffered until the commit, which comes before the locks are released; a
    transaction that aborts earlier is rolled back and leaves nothing. */
module IdentityIndex {
  import opened Common

  const MAX_KEY_VERSION := 32767

  datatype Identity = Identity(kind: string, issuer: string, subject: string)

  /** The keyed digest of (kind, subject) under one key version, taken to be injective. */
  datatype Digest = Digest(kind: string, subject: string, version: nat)

  datatype Row = Row(identity: Identity, index: Digest, version: nat)

  datatype Worker = Worker(keyring: seq<nat>, active: nat)

  /** What the key service checks when it is built; `key_versions` are sorted. */
  ghost predicate ValidWorker(w: Worker) {
    && (forall i, j :: 0 <= i < j < |w.keyring| ==> w.keyring[i] < w.keyring[j])
    && (forall i :: 0 <= i < |w.keyring| ==> 1 <= w.keyring[i] <= MAX_KEY_VERSION)
    && w.active in w.keyring
  }

  datatype Phase = LegacyCompatible | RotationReady

  datatype RolloutPolicy = RolloutPolicy(phase: Phase, legacyVersion: nat, legacyWritersDrained: bool) {
    /** The checks of the policy itself and of `validate` against a worker's keyring. */
    predicate Admits(w: Worker) {
      && 1 <= legacyVersion <= MAX_KEY_VERSION
      && (phase.RotationReady? ==> legacyWritersDrained)
      && legacyVersion in w.keyring
      && (phase.LegacyCompatible? ==> w.active == legacyVersion)
    }
  }

  datatype Db = Db(rows: seq<Row>, locks: map<Digest, nat>)

  /** What a transaction has written but not yet committed: nobody else sees it before the commit. */
  datatype Write = Insert | Reindex(row: nat)

  datatype Outcome = Registered | Conflict | Unavailable | Authenticated | Rejected | Aborted

  datatype Pc =
    | Locking(held: nat, registering: bool)
    | RegisterChecking
    | RegisterFinding
    | RegisterWriting
    | LoginChecking
    | LoginLooking
    | LoginRefinding
    | LoginVerifying(row: nat, seen: nat, locked: bool)
    | Committing(write: Write, locked: bool, outcome: Outcome)
    | Exiting(held: nat, outcome: Outcome)
    | Done(outcome: Outcome)

  /** The transaction has settled on an outcome: it is over, about to end, or about to commit. */
  predicate Settles(pc: Pc, outcome: Outcome) {
    (pc.Exiting? || pc.Done? || pc.Committing?) && pc.outcome == outcome
  }

  datatype Tx = Tx(worker: Worker, identity: Identity, pc: Pc) {
    function LockAt(k: nat): Digest
      requires k < |worker.keyring|
    {
      Digest(identity.kind, identity.subject, worker.keyring[k])
    }

    /** How many of its locks the transaction holds, counted in keyring order. */
    function Held(): nat {
      match pc
      case Locking(held, _) => held
      case RegisterChecking => |worker.keyring|
      case RegisterFinding => |worker.keyring|
      case RegisterWriting => |worker.keyring|
      case LoginChecking => 0
      case LoginLooking => 0
      case LoginRefinding => |worker.keyring|
      case LoginVerifying(_, _, locked) => if locked then |worker.keyring| else 0
      case Committing(_, locked, _) => if locked then |worker.keyring| else 0
      case Exiting(held, _) => held
      case Done(_) => 0
    }

    predicate Live() {
      !pc.Done?
    }

    /** The row that the transaction writes under its active key. */
    function NewRow(): Row {
      Row(identity, Digest(identity.kind, identity.subject, worker.active), worker.active)
    }
  }

  // ----- queries -----

  /** `find_by_blind_indexes`: same kind and issuer, and a digest of the keyring under the row's version. */
  predicate Matches(row: Row, worker: Worker, identity: Identity) {
    && row.identity.kind == identity.kind
    && row.identity.issuer == identity.issuer
    && row.version in worker.keyring
    && row.index == Digest(identity.kind, identity.subject, row.version)
  }

  function Find(rows: seq<Row>, worker: Worker, identity: Identity): (found: seq<nat>)
    ensures forall i :: i in found <==> 0 <= i < |rows| && Matches(rows[i], worker, identity)
    ensures forall k :: 0 <= k < |found| ==> found[k] < |rows| && Matches(rows[found[k]], worker, identity)
    ensures forall a, b :: 0 <= a < b < |found| ==> found[a] < found[b]
  {
    if rows == [] then []
    else
      var n := |rows| - 1;
      var rest := Find(rows[..n], worker, identity);
      if Matches(rows[n], worker, identity) then rest + [n] else rest
  }

  /** `has_unsupported_blind_index_versions`, which looks at every row of the table. */
  predicate Unsupported(rows: seq<Row>, worker: Worker) {
    exists i :: 0 <= i < |rows| && rows[i].version !in worker.keyring
  }

  // ----- one database call of one transaction -----

  function Exit(tx: Tx, outcome: Outcome): Pc {
    Exiting(tx.Held(), outcome)
  }

  function LockSegment(db: Db, tx: Tx, me: nat): Option<(Db, Pc)>
    requires tx.pc.Locking?
  {
    if tx.pc.held < |tx.worker.keyring| then
      var lock := tx.LockAt(tx.pc.held);
      if lock in db.locks then None
      else Some((db.(locks := db.locks[lock := me]), Locking(tx.pc.held + 1, tx.pc.registering)))
    else Some((db, if tx.pc.registering then RegisterChecking else LoginRefinding))
  }

  function LookSegment(db: Db, tx: Tx, locked: bool): Pc {
    var found := Find(db.rows, tx.worker, tx.identity);
    if |found| != 1 then Exit(tx, Rejected)
    else
      var seen := db.rows[found[0]].version;
      if !locked && seen != tx.worker.active then Locking(0, false) else LoginVerifying(found[0], seen, locked)
  }

  /** Decryption and password are checked against the row; a row under another key is moved to the active one. */
  function VerifySegment(db: Db, tx: Tx, valid: bool): Pc
    requires tx.pc.LoginVerifying?
  {
    if tx.pc.row >= |db.rows| || db.rows[tx.pc.row].identity.subject != tx.identity.subject || !valid
    then Exit(tx, Rejected)
    else if tx.pc.seen == tx.worker.active then Exit(tx, Authenticated)
    else Committing(Reindex(tx.pc.row), tx.pc.locked, Authenticated)
  }

  /** The rows once a transaction's write is committed. */
  function Committed(rows: seq<Row>, tx: Tx): seq<Row>
    requires tx.pc.Committing?
  {
    match tx.pc.write
    case Insert => rows + [tx.NewRow()]
    case Reindex(row) =>
      if row < |rows| then rows[row := rows[row].(index := tx.NewRow().index, version := tx.worker.active)] else rows
  }

  function ReleaseSegment(db: Db, tx: Tx): (Db, Pc)
    requires tx.pc.Exiting?
  {
    if 0 < tx.pc.held <= |tx.worker.keyring| then
      (db.(locks := db.locks - {tx.LockAt(tx.pc.held - 1)}), Exiting(tx.pc.held - 1, tx.pc.outcome))
    else (db, Done(tx.pc.outcome))
  }

  /** The next call of a transaction, with `valid` for a password that fits or a commit that is answered; `None`
      while it must wait for a lock or has ended. */
  function Segment(db: Db, tx: Tx, me: nat, valid: bool): Option<(Db, Pc)> {
    match tx.pc
    case Locking(_, _) => LockSegment(db, tx, me)
    case RegisterChecking =>
      Some((db, if Unsupported(db.rows, tx.worker) then Exit(tx, Unavailable) else RegisterFinding))
    case RegisterFinding =>
      Some((db, if Find(db.rows, tx.worker, tx.identity) != [] then Exit(tx, Conflict) else RegisterWriting))
    case RegisterWriting => Some((db, Committing(Insert, true, Registered)))
    case LoginChecking =>
      Some((db, if Unsupported(db.rows, tx.worker) then Exit(tx, Unavailable) else LoginLooking))
    case LoginLooking => Some((db, LookSegment(db, tx, false)))
    case LoginRefinding => Some((db, LookSegment(db, tx, true)))
    case LoginVerifying(_, _, _) => Some((db, VerifySegment(db, tx, valid)))
    case Committing(_, _, outcome) =>
      Some((db.(rows := Committed(db.rows, tx)), Exit(tx, if valid then outcome else Aborted)))
    case Exiting(_, _) => Some(ReleaseSegment(db, tx))
    case Done(_) => None
  }

  // ----- any number of transactions -----

  datatype World = World(db: Db, txs: seq<Tx>)

  datatype Event =
    | Register(worker: Worker, identity: Identity)
    | Login(worker: Worker, identity: Identity)
    | Advance(tx: nat, valid: bool)
    | Abort(tx: nat)

  const EMPTY := World(Db([], map[]), [])

  function Step(w: World, e: Event): Option<World> {
    match e
    case Register(worker, identity) => Some(w.(txs := w.txs + [Tx(worker, identity, Locking(0, true))]))
    case Login(worker, identity) => Some(w.(txs := w.txs + [Tx(worker, identity, LoginChecking)]))
    case Advance(t, valid) =>
      if t >= |w.txs| then None
      else
        var next := Segment(w.db, w.txs[t], t, valid);
        if next.None? then None
        else Some(World(next.value.0, w.txs[t := w.txs[t].(pc := next.value.1)]))
    case Abort(t) =>
      if t >= |w.txs| || w.txs[t].pc.Exiting? || w.txs[t].pc.Done? then None
      else Some(w.(txs := w.txs[t := w.txs[t].(pc := Exit(w.txs[t], Aborted))]))
  }

  function Run(w: World, events: seq<Event>): Option<World>
    decreases |events|
  {
    if events == [] then Some(w)
    else
      var next := Step(w, events[0]);
      if next.None? then None else Run(next.value, events[1..])
  }

  ghost predicate Duplicated(rows: seq<Row>) {
    exists i, j :: 0 <= i < j < |rows| && rows[i].identity == rows[j].identity
  }
}
