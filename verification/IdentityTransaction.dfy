/** One transaction of the identity service over the shared database, call by call. */
module IdentityTransaction {
  import opened Common
  import opened IdentityIndex

  class Database {
    var rows: seq<Row>
    var locks: map<Digest, nat>

    function View(): Db
      reads this
    {
      Db(rows, locks)
    }

    method FindByBlindIndexes(worker: Worker, identity: Identity) returns (found: seq<nat>)
      ensures found == Find(rows, worker, identity)
      ensures found == [] <==> forall i :: 0 <= i < |rows| ==> !Matches(rows[i], worker, identity)
    {
      found := [];
      for i := 0 to |rows|
        invariant found == Find(rows[..i], worker, identity)
      {
        assert rows[..i + 1][..i] == rows[..i];
        if Matches(rows[i], worker, identity) { found := found + [i]; }
      }
      assert rows[..|rows|] == rows;
      if found != [] { assert found[0] in found; }
    }

    method HasUnsupportedBlindIndexVersions(worker: Worker) returns (unsupported: bool)
      ensures unsupported <==> Unsupported(rows, worker)
    {
      for i := 0 to |rows|
        invariant forall k :: 0 <= k < i ==> rows[k].version in worker.keyring
      {
        if rows[i].version !in worker.keyring { return true; }
      }
      return false;
    }

    /** `GET_LOCK`, as far as it succeeds at once. */
    method TryLock(lock: Digest, holder: nat) returns (acquired: bool)
      modifies this`locks
      ensures acquired <==> lock !in old(locks)
      ensures locks == if acquired then old(locks)[lock := holder] else old(locks)
    {
      if lock in locks { return false; }
      locks := locks[lock := holder];
      return true;
    }
  }

  class Transaction {
    const db: Database
    const worker: Worker
    const identity: Identity
    const me: nat
    var pc: Pc

    constructor (db: Database, worker: Worker, identity: Identity, me: nat, registering: bool)
      ensures this.db == db
      ensures View() == Tx(worker, identity, if registering then Locking(0, true) else LoginChecking)
    {
      this.db, this.worker, this.identity, this.me := db, worker, identity, me;
      pc := if registering then Locking(0, true) else LoginChecking;
    }

    function View(): Tx
      reads this
    {
      Tx(worker, identity, pc)
    }

    /** Runs to the next await; `moved` is false while a lock is missing or after the end. */
    method Advance(valid: bool) returns (moved: bool)
      modifies this`pc, db
      ensures moved <==> Segment(old(db.View()), old(View()), me, valid).Some?
      ensures moved ==> (db.View(), pc) == Segment(old(db.View()), old(View()), me, valid).value
      ensures !moved ==> db.View() == old(db.View()) && pc == old(pc)
      ensures old(pc).RegisterChecking? || old(pc).LoginChecking? ==>
                (Settles(pc, Unavailable) <==>
                 exists i :: 0 <= i < |old(db.rows)| && old(db.rows)[i].version !in worker.keyring)
      ensures old(pc).RegisterFinding? ==>
                (Settles(pc, Conflict) <==>
                 exists i :: 0 <= i < |old(db.rows)| && Matches(old(db.rows)[i], worker, identity))
      ensures old(pc).LoginVerifying? ==>
                var good := valid && old(pc).row < |old(db.rows)|
                            && old(db.rows)[old(pc).row].identity.subject == identity.subject;
                Settles(pc, if good then Authenticated else Rejected)
      ensures old(pc).Committing? && old(pc).write.Insert? ==>
                db.rows == old(db.rows)
                           + [Row(identity, Digest(identity.kind, identity.subject, worker.active), worker.active)]
    {
      moved := true;
      var tx := View();
      match pc
      case Locking(held, registering) =>
        if held < |worker.keyring| {
          moved := db.TryLock(tx.LockAt(held), me);
          if moved { pc := Locking(held + 1, registering); }
        } else {
          pc := if registering then RegisterChecking else LoginRefinding;
        }
      case RegisterChecking =>
        var unsupported := db.HasUnsupportedBlindIndexVersions(worker);
        pc := if unsupported then Exit(tx, Unavailable) else RegisterFinding;
      case RegisterFinding =>
        var found := db.FindByBlindIndexes(worker, identity);
        pc := if found != [] then Exit(tx, Conflict) else RegisterWriting;
      case RegisterWriting =>
        pc := Committing(Insert, true, Registered);
      case LoginChecking =>
        var unsupported := db.HasUnsupportedBlindIndexVersions(worker);
        pc := if unsupported then Exit(tx, Unavailable) else LoginLooking;
      case LoginLooking => Look(false);
      case LoginRefinding => Look(true);
      case LoginVerifying(row, seen, locked) =>
        if row >= |db.rows| || db.rows[row].identity.subject != identity.subject || !valid {
          pc := Exit(tx, Rejected);
        } else if seen != worker.active {
          pc := Committing(Reindex(row), locked, Authenticated);
        } else {
          pc := Exit(tx, Authenticated);
        }
      case Committing(write, locked, outcome) =>
        match write {
          case Insert => db.rows := db.rows + [tx.NewRow()];
          case Reindex(row) =>
            if row < |db.rows| {
              db.rows := db.rows[row := db.rows[row].(index := tx.NewRow().index, version := worker.active)];
            }
        }
        pc := Exit(tx, if valid then outcome else Aborted);
      case Exiting(held, outcome) =>
        if 0 < held <= |worker.keyring| {
          db.locks := db.locks - {tx.LockAt(held - 1)};
          pc := Exiting(held - 1, outcome);
        } else {
          pc := Done(outcome);
        }
      case Done(_) => moved := false;
    }

    /** An exception inside the unit of work: what was written is rolled back, and the locks are given up next. */
    method Abort()
      requires !pc.Exiting? && !pc.Done?
      modifies this`pc
      ensures pc == Exit(old(View()), Aborted) && db.View() == old(db.View())
    {
      pc := Exit(View(), Aborted);
    }

    method Look(locked: bool)
      modifies this`pc
      ensures pc == LookSegment(db.View(), old(View()), locked)
    {
      var found := db.FindByBlindIndexes(worker, identity);
      if |found| != 1 {
        pc := Exit(View(), Rejected);
      } else {
        var seen := db.rows[found[0]].version;
        pc := if !locked && seen != worker.active then Locking(0, false) else LoginVerifying(found[0], seen, locked);
      }
    }
  }
}
