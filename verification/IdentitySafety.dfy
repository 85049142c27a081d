/** One row per identity, no deadlock, and no lost account, in every run of
    registrations and reindexing logins. */
module IdentitySafety {
  import opened Common
  import opened IdentityIndex

  // ----- the invariant -----

  ghost predicate Holds(tx: Tx, d: Digest) {
    && d.kind == tx.identity.kind && d.subject == tx.identity.subject
    && tx.Held() <= |tx.worker.keyring|
    && d.version in tx.worker.keyring[..tx.Held()]
  }

  predicate Owns(locks: map<Digest, nat>, d: Digest, t: nat) {
    d in locks && locks[d] == t
  }

  ghost predicate HeldBy(txs: seq<Tx>, d: Digest, t: nat) {
    t < |txs| && Holds(txs[t], d)
  }

  /** The lock table records exactly what the program counters say is held. */
  ghost predicate LocksExact(w: World) {
    forall d, t: nat :: Owns(w.db.locks, d, t) <==> HeldBy(w.txs, d, t)
  }

  ghost predicate TxsValid(w: World) {
    forall t :: 0 <= t < |w.txs| ==> ValidWorker(w.txs[t].worker) && w.txs[t].Held() <= |w.txs[t].worker.keyring|
  }

  ghost predicate RowsIndexed(rows: seq<Row>) {
    forall i :: 0 <= i < |rows| ==>
      rows[i].index == Digest(rows[i].identity.kind, rows[i].identity.subject, rows[i].version)
  }

  /** What a transaction has learnt about the table and may still rely on. */
  ghost predicate Knows(rows: seq<Row>, tx: Tx) {
    && (tx.pc.RegisterFinding? ==>
          forall i :: 0 <= i < |rows| && rows[i].identity == tx.identity ==> rows[i].version in tx.worker.keyring)
    && (Inserting(tx.pc) ==> forall i :: 0 <= i < |rows| ==> rows[i].identity != tx.identity)
    && (tx.pc.LoginVerifying? ==>
          && tx.pc.row < |rows| && rows[tx.pc.row].identity == tx.identity
          && (tx.pc.seen != tx.worker.active ==> tx.pc.locked))
    && (tx.pc.Committing? ==> tx.pc.locked)
    && (tx.pc.Committing? && tx.pc.write.Reindex? ==>
          tx.pc.write.row < |rows| && rows[tx.pc.write.row].identity == tx.identity)
  }

  /** The transaction is about to insert, or has done so and not committed yet. */
  predicate Inserting(pc: Pc) {
    pc.RegisterWriting? || (pc.Committing? && pc.write.Insert?)
  }

  ghost predicate Invariant(w: World) {
    && TxsValid(w) && LocksExact(w) && RowsIndexed(w.db.rows) && !Duplicated(w.db.rows)
    && forall t :: 0 <= t < |w.txs| ==> Knows(w.db.rows, w.txs[t])
  }

  ghost predicate Intersect(a: Worker, b: Worker) {
    exists v :: v in a.keyring && v in b.keyring
  }

  /** The keyrings of transactions that run at the same time pairwise intersect. */
  ghost predicate Overlapping(w: World) {
    forall t, u :: 0 <= t < |w.txs| && 0 <= u < |w.txs| && w.txs[t].Live() && w.txs[u].Live() ==>
      Intersect(w.txs[t].worker, w.txs[u].worker)
  }

  lemma FullHolderHolds(tx: Tx, d: Digest)
    requires tx.Held() == |tx.worker.keyring| && d.version in tx.worker.keyring
    requires d.kind == tx.identity.kind && d.subject == tx.identity.subject
    ensures Holds(tx, d)
  {
    assert tx.worker.keyring[..tx.Held()] == tx.worker.keyring;
  }

  /** Two transactions of one person that both hold all their locks, on overlapping keyrings, are one. */
  lemma FullHoldersAreOne(w: World, t: nat, u: nat)
    requires TxsValid(w) && LocksExact(w) && t < |w.txs| && u < |w.txs|
    requires w.txs[t].Held() == |w.txs[t].worker.keyring| && w.txs[u].Held() == |w.txs[u].worker.keyring|
    requires w.txs[t].identity == w.txs[u].identity && Intersect(w.txs[t].worker, w.txs[u].worker)
    ensures t == u
  {
    var v :| v in w.txs[t].worker.keyring && v in w.txs[u].worker.keyring;
    var d := Digest(w.txs[t].identity.kind, w.txs[t].identity.subject, v);
    FullHolderHolds(w.txs[t], d);
    FullHolderHolds(w.txs[u], d);
    assert HeldBy(w.txs, d, t) && HeldBy(w.txs, d, u);
  }

  // ----- locks -----

  ghost function Repoint(w: World, t: nat, db: Db, pc: Pc): World
    requires t < |w.txs|
  {
    World(db, w.txs[t := w.txs[t].(pc := pc)])
  }

  lemma SameHeldKeepsLocks(w: World, t: nat, db: Db, pc: Pc)
    requires TxsValid(w) && LocksExact(w) && t < |w.txs| && db.locks == w.db.locks
    requires w.txs[t].(pc := pc).Held() == w.txs[t].Held()
    ensures TxsValid(Repoint(w, t, db, pc)) && LocksExact(Repoint(w, t, db, pc))
  {
    var w' := Repoint(w, t, db, pc);
    forall d, u: nat ensures Owns(w'.db.locks, d, u) <==> HeldBy(w'.txs, d, u) {
      assert HeldBy(w'.txs, d, u) <==> HeldBy(w.txs, d, u);
    }
  }

  /** Taking or freeing the k-th lock changes what a transaction holds by exactly that digest. */
  lemma HeldByOneMore(tx: Tx, more: Tx, d: Digest)
    requires more == tx.(pc := more.pc) && more.Held() == tx.Held() + 1 <= |tx.worker.keyring|
    requires ValidWorker(tx.worker)
    ensures Holds(more, d) <==> Holds(tx, d) || d == tx.LockAt(tx.Held())
    ensures !Holds(tx, tx.LockAt(tx.Held()))
  {
    var h := tx.Held();
    assert tx.worker.keyring[..h + 1] == tx.worker.keyring[..h] + [tx.worker.keyring[h]];
  }

  lemma AcquireKeepsLocks(w: World, t: nat)
    requires TxsValid(w) && LocksExact(w) && t < |w.txs| && w.txs[t].pc.Locking?
    requires w.txs[t].pc.held < |w.txs[t].worker.keyring| && w.txs[t].LockAt(w.txs[t].pc.held) !in w.db.locks
    ensures var next := LockSegment(w.db, w.txs[t], t).value;
            TxsValid(Repoint(w, t, next.0, next.1)) && LocksExact(Repoint(w, t, next.0, next.1))
  {
    var tx := w.txs[t];
    var next := LockSegment(w.db, tx, t).value;
    var w' := Repoint(w, t, next.0, next.1);
    var taken := tx.LockAt(tx.pc.held);
    forall d, u: nat ensures Owns(w'.db.locks, d, u) <==> HeldBy(w'.txs, d, u) {
      HeldByOneMore(tx, w'.txs[t], d);
      assert Owns(w.db.locks, d, u) <==> HeldBy(w.txs, d, u);
      assert d == taken ==> !HeldBy(w.txs, d, u);
      assert u != t ==> (HeldBy(w'.txs, d, u) <==> HeldBy(w.txs, d, u));
    }
  }

  lemma ReleaseKeepsLocks(w: World, t: nat)
    requires TxsValid(w) && LocksExact(w) && t < |w.txs| && w.txs[t].pc.Exiting? && w.txs[t].pc.held > 0
    ensures var next := ReleaseSegment(w.db, w.txs[t]);
            TxsValid(Repoint(w, t, next.0, next.1)) && LocksExact(Repoint(w, t, next.0, next.1))
  {
    var tx := w.txs[t];
    var next := ReleaseSegment(w.db, tx);
    var w' := Repoint(w, t, next.0, next.1);
    var freed := tx.LockAt(tx.pc.held - 1);
    assert w'.txs[t] == tx.(pc := Exiting(tx.pc.held - 1, tx.pc.outcome));
    assert Owns(w.db.locks, freed, t) by {
      HeldByOneMore(w'.txs[t], tx, freed);
      assert HeldBy(w.txs, freed, t);
    }
    forall d, u: nat ensures Owns(w'.db.locks, d, u) <==> HeldBy(w'.txs, d, u) {
      HeldByOneMore(w'.txs[t], tx, d);
      assert Owns(w.db.locks, d, u) <==> HeldBy(w.txs, d, u);
      assert u != t ==> (HeldBy(w'.txs, d, u) <==> HeldBy(w.txs, d, u));
    }
  }

  lemma QuerySegmentKeepsLocks(db: Db, tx: Tx, me: nat, valid: bool)
    requires (tx.pc.Exiting? ==> tx.pc.held == 0) && (tx.pc.Locking? ==> tx.pc.held == |tx.worker.keyring|)
    requires Segment(db, tx, me, valid).Some?
    ensures var next := Segment(db, tx, me, valid).value;
            next.0.locks == db.locks && tx.(pc := next.1).Held() == tx.Held()
  {
  }

  lemma AdvanceKeepsLocks(w: World, t: nat, valid: bool)
    requires TxsValid(w) && LocksExact(w) && t < |w.txs| && Segment(w.db, w.txs[t], t, valid).Some?
    ensures var next := Segment(w.db, w.txs[t], t, valid).value;
            TxsValid(Repoint(w, t, next.0, next.1)) && LocksExact(Repoint(w, t, next.0, next.1))
  {
    var tx := w.txs[t];
    if tx.pc.Locking? && tx.pc.held < |tx.worker.keyring| {
      AcquireKeepsLocks(w, t);
    } else if tx.pc.Exiting? && tx.pc.held > 0 {
      ReleaseKeepsLocks(w, t);
    } else {
      QuerySegmentKeepsLocks(w.db, tx, t, valid);
      var next := Segment(w.db, tx, t, valid).value;
      SameHeldKeepsLocks(w, t, next.0, next.1);
    }
  }

  lemma BeginKeepsLocks(w: World, tx: Tx)
    requires TxsValid(w) && LocksExact(w) && ValidWorker(tx.worker) && tx.Held() == 0
    ensures TxsValid(w.(txs := w.txs + [tx])) && LocksExact(w.(txs := w.txs + [tx]))
  {
    forall d, u: nat ensures Owns(w.db.locks, d, u) <==> HeldBy(w.txs + [tx], d, u) {
      assert HeldBy(w.txs + [tx], d, u) <==> HeldBy(w.txs, d, u);
    }
  }

  lemma StepKeepsLocks(w: World, e: Event)
    requires TxsValid(w) && LocksExact(w) && Step(w, e).Some?
    requires (e.Register? || e.Login?) ==> ValidWorker(e.worker)
    ensures TxsValid(Step(w, e).value) && LocksExact(Step(w, e).value)
  {
    match e
    case Advance(t, valid) => AdvanceKeepsLocks(w, t, valid);
    case Abort(t) => SameHeldKeepsLocks(w, t, w.db, Exit(w.txs[t], Aborted));
    case Register(worker, identity) => BeginKeepsLocks(w, Tx(worker, identity, Locking(0, true)));
    case Login(worker, identity) => BeginKeepsLocks(w, Tx(worker, identity, LoginChecking));
  }

  // ----- rows -----

  /** A write of one transaction leaves what every other transaction knows true. */
  lemma WriteKeepsKnowledge(w: World, t: nat, u: nat, rows: seq<Row>)
    requires Invariant(w) && Overlapping(w) && t < |w.txs| && u < |w.txs| && t != u
    requires w.txs[t].Live() && w.txs[t].Held() == |w.txs[t].worker.keyring|
    requires |w.db.rows| <= |rows| <= |w.db.rows| + 1
    requires forall i :: 0 <= i < |w.db.rows| ==> rows[i].identity == w.db.rows[i].identity
    requires forall i :: 0 <= i < |rows| && rows[i].identity != w.txs[t].identity ==>
               i < |w.db.rows| && rows[i] == w.db.rows[i]
    ensures Knows(rows, w.txs[u])
  {
    assert Knows(w.db.rows, w.txs[u]);
    if (w.txs[u].pc.RegisterFinding? || Inserting(w.txs[u].pc)) && w.txs[u].identity == w.txs[t].identity {
      FullHoldersAreOne(w, t, u);
    }
  }

  /** Committing an insertion made under all locks keeps identities unique. */
  lemma InsertKeepsInvariant(w: World, t: nat, valid: bool)
    requires Invariant(w) && Overlapping(w) && t < |w.txs| && w.txs[t].pc.Committing? && w.txs[t].pc.write.Insert?
    ensures Invariant(Step(w, Advance(t, valid)).value)
  {
    StepKeepsLocks(w, Advance(t, valid));
    var w' := Step(w, Advance(t, valid)).value;
    assert Knows(w.db.rows, w.txs[t]);
    forall u | 0 <= u < |w'.txs| ensures Knows(w'.db.rows, w'.txs[u]) {
      if u != t { WriteKeepsKnowledge(w, t, u, w'.db.rows); }
    }
  }

  /** Committing a row's move to the active key under all locks keeps identities unique. */
  lemma ReindexKeepsInvariant(w: World, t: nat, valid: bool)
    requires Invariant(w) && Overlapping(w) && t < |w.txs| && w.txs[t].pc.Committing? && w.txs[t].pc.write.Reindex?
    ensures Invariant(Step(w, Advance(t, valid)).value)
  {
    StepKeepsLocks(w, Advance(t, valid));
    var w' := Step(w, Advance(t, valid)).value;
    assert Knows(w.db.rows, w.txs[t]);
    forall u | 0 <= u < |w'.txs| ensures Knows(w'.db.rows, w'.txs[u]) {
      if u != t { WriteKeepsKnowledge(w, t, u, w'.db.rows); }
    }
    assert !Duplicated(w'.db.rows) by {
      assert forall i :: 0 <= i < |w.db.rows| ==> w'.db.rows[i].identity == w.db.rows[i].identity;
    }
  }

  lemma QueryTeaches(db: Db, tx: Tx, me: nat, valid: bool)
    requires RowsIndexed(db.rows) && Knows(db.rows, tx) && Segment(db, tx, me, valid).Some?
    requires !tx.pc.Committing?
    ensures var next := Segment(db, tx, me, valid).value;
            next.0.rows == db.rows && Knows(db.rows, tx.(pc := next.1))
  {
    if tx.pc.RegisterFinding? {
      FindsEveryRow(db.rows, tx);
    } else if tx.pc.LoginLooking? {
      LookTeaches(db, tx, false);
    } else if tx.pc.LoginRefinding? {
      LookTeaches(db, tx, true);
    }
  }

  /** The one record a login finds is the row of the identity it asks for. */
  lemma LookTeaches(db: Db, tx: Tx, locked: bool)
    requires RowsIndexed(db.rows)
    ensures Knows(db.rows, tx.(pc := LookSegment(db, tx, locked)))
  {
    var found := Find(db.rows, tx.worker, tx.identity);
    if |found| == 1 { assert Matches(db.rows[found[0]], tx.worker, tx.identity); }
  }

  lemma QueryKeepsInvariant(w: World, t: nat, valid: bool)
    requires Invariant(w) && t < |w.txs| && Step(w, Advance(t, valid)).Some?
    requires !w.txs[t].pc.Committing?
    ensures Invariant(Step(w, Advance(t, valid)).value)
  {
    StepKeepsLocks(w, Advance(t, valid));
    QueryTeaches(w.db, w.txs[t], t, valid);
  }

  /** A search with a keyring that covers the identity's rows finds them all. */
  lemma FindsEveryRow(rows: seq<Row>, tx: Tx)
    requires RowsIndexed(rows)
    requires forall i :: 0 <= i < |rows| && rows[i].identity == tx.identity ==> rows[i].version in tx.worker.keyring
    ensures forall i :: 0 <= i < |rows| && rows[i].identity == tx.identity ==>
              i in Find(rows, tx.worker, tx.identity)
  {
  }

  lemma StepKeepsInvariant(w: World, e: Event)
    requires Invariant(w) && Overlapping(w) && Step(w, e).Some?
    requires (e.Register? || e.Login?) ==> ValidWorker(e.worker)
    ensures Invariant(Step(w, e).value)
  {
    var w' := Step(w, e).value;
    match e
    case Advance(t, valid) =>
      if w.txs[t].pc.Committing? && w.txs[t].pc.write.Insert? {
        InsertKeepsInvariant(w, t, valid);
      } else if w.txs[t].pc.Committing? {
        ReindexKeepsInvariant(w, t, valid);
      } else {
        QueryKeepsInvariant(w, t, valid);
      }
    case _ =>
      StepKeepsLocks(w, e);
      forall u | 0 <= u < |w'.txs| ensures Knows(w'.db.rows, w'.txs[u]) {
        if u < |w.txs| { assert Knows(w.db.rows, w.txs[u]); }
      }
  }
}
