/** Idempotency records: a reservation made, completed, failed and restarted by compare-and-set updates. */
module Idempotency {
  import opened Common

  datatype Status = Reserved | Completed | Failed

  type Fingerprint = nat  // the digest of a request; equal digests mean equal requests

  type ResultRef = nat  // a reference to the stored result

  /** What a record is unique for: the scope, the operation, and the hash of the client's key. */
  datatype Slot = Slot(scope: nat, operation: nat, keyHash: nat)

  datatype Record = Record(id: nat, fingerprint: Fingerprint, status: Status, result: Option<ResultRef>, expiresAt: int)

  type Rows = map<Slot, Record>

  datatype Acquired = Acquired(record: Record, inserted: bool)

  datatype Reservation = Reservation(id: nat, fingerprint: Fingerprint, replay: Option<ResultRef>)

  /** What the service does with the record it acquired. */
  datatype Decision =
    | Grant(reservation: Reservation)
    | Conflict
    | Corrupt
    | InProgress
    | TryRestart(allowed: Status, expiredBefore: Option<int>)

  // ----- the repository's statements -----

  function AfterAcquire(rows: Rows, slot: Slot, candidate: Record): (Rows, Acquired) {
    if slot in rows then (rows, Acquired(rows[slot], rows[slot].id == candidate.id))
    else (rows[slot := candidate], Acquired(candidate, true))
  }

  /** The conditions of an update. */
  predicate Fits(r: Record, id: nat, fingerprint: Fingerprint, allowed: Status, expiredBefore: Option<int>) {
    && r.id == id && r.fingerprint == fingerprint && r.status == allowed
    && (expiredBefore.Some? ==> r.expiresAt <= expiredBefore.value)
  }

  /** The rows an update's conditions select. */
  function Selected(rows: Rows, id: nat, fingerprint: Fingerprint, allowed: Status, expiredBefore: Option<int>)
    : set<Slot>
  {
    set s | s in rows && Fits(rows[s], id, fingerprint, allowed, expiredBefore)
  }

  function Restarted(r: Record, fingerprint: Fingerprint, expiresAt: int): Record {
    r.(fingerprint := fingerprint, status := Reserved, result := None, expiresAt := expiresAt)
  }

  function WithResult(r: Record, result: ResultRef): Record {
    r.(status := Completed, result := Some(result))
  }

  function GivenUp(r: Record): Record {
    r.(status := Failed, result := None)
  }

  function AfterRestart(rows: Rows, id: nat, before: Fingerprint, next: Fingerprint, allowed: Status,
                        expiredBefore: Option<int>, expiresAt: int): (Rows, bool)
  {
    var hit := Selected(rows, id, before, allowed, expiredBefore);
    (map s | s in rows :: if s in hit then Restarted(rows[s], next, expiresAt) else rows[s], |hit| == 1)
  }

  function AfterComplete(rows: Rows, id: nat, fingerprint: Fingerprint, result: ResultRef): (Rows, bool) {
    var hit := Selected(rows, id, fingerprint, Reserved, None);
    (map s | s in rows :: if s in hit then WithResult(rows[s], result) else rows[s], |hit| == 1)
  }

  function AfterFail(rows: Rows, id: nat, fingerprint: Fingerprint): (Rows, bool) {
    var hit := Selected(rows, id, fingerprint, Reserved, None);
    (map s | s in rows :: if s in hit then GivenUp(rows[s]) else rows[s], |hit| == 1)
  }

  // ----- the service -----

  function Candidate(id: nat, fingerprint: Fingerprint, now: int, ttl: nat): Record {
    Record(id, fingerprint, Reserved, None, now + ttl)
  }

  function Decide(a: Acquired, fingerprint: Fingerprint, now: int): Decision {
    var r := a.record;
    if a.inserted then Grant(Reservation(r.id, fingerprint, None))
    else if r.fingerprint != fingerprint then Conflict
    else match r.status
      case Completed => if r.result.None? then Corrupt else Grant(Reservation(r.id, fingerprint, r.result))
      case Failed => TryRestart(Failed, None)
      case Reserved => if r.expiresAt <= now then TryRestart(Reserved, Some(now)) else InProgress
  }

  datatype Outcome = Given(reservation: Reservation) | Refused(why: Decision) | NotRecovered

  ghost predicate UniqueIds(rows: Rows) {
    forall s, t :: s in rows && t in rows && rows[s].id == rows[t].id ==> s == t
  }

  ghost predicate SomeFits(rows: Rows, id: nat, fingerprint: Fingerprint, allowed: Status, expiredBefore: Option<int>) {
    exists s :: s in rows && Fits(rows[s], id, fingerprint, allowed, expiredBefore)
  }

  /** The reservation is the one its record is reserved for. */
  ghost predicate Reserves(rows: Rows, r: Reservation) {
    r.replay.None? && SomeFits(rows, r.id, r.fingerprint, Reserved, None)
  }

  /** A row changed, or none. */
  ghost predicate Updated(before: Rows, after: Rows, id: nat, hit: bool, update: Record -> Record) {
    if !hit then after == before
    else exists s :: s in before && before[s].id == id && after == before[s := update(before[s])]
  }

  /** The records, as the statements change them in place. */
  class Repository {
    var rows: Rows

    ghost predicate Valid()
      reads this
    {
      UniqueIds(rows)
    }

    constructor ()
      ensures Valid() && rows == map[]
    {
      rows := map[];
    }

    /** Inserts the candidate unless the slot has a record already, and returns the slot's record. */
    method Acquire(slot: Slot, candidate: Record) returns (a: Acquired)
      requires Valid() && forall s :: s in rows ==> rows[s].id != candidate.id
      modifies this
      ensures Valid() && (rows, a) == AfterAcquire(old(rows), slot, candidate)
      ensures slot in rows && a.record == rows[slot] && (a.inserted <==> slot !in old(rows))
      ensures forall s :: s in old(rows) ==> s in rows && rows[s] == old(rows)[s]
    {
      if slot !in rows { rows := rows[slot := candidate]; }
      a := Acquired(rows[slot], rows[slot].id == candidate.id);
    }

    /** Restarts the row of the id if it still is as the caller saw it, and otherwise changes nothing. */
    method Restart(id: nat, before: Fingerprint, next: Fingerprint, allowed: Status, expiredBefore: Option<int>,
                   expiresAt: int) returns (changed: bool)
      requires Valid()
      modifies this
      ensures Valid() && (rows, changed) == AfterRestart(old(rows), id, before, next, allowed, expiredBefore, expiresAt)
      ensures changed <==> SomeFits(old(rows), id, before, allowed, expiredBefore)
      ensures Updated(old(rows), rows, id, changed, r => Restarted(r, next, expiresAt))
    {
      var hit := Selected(rows, id, before, allowed, expiredBefore);
      RestartIs(rows, id, before, next, allowed, expiredBefore, expiresAt);
      changed := hit != {};
      if changed {
        var s :| s in hit;
        rows := rows[s := Restarted(rows[s], next, expiresAt)];
      }
    }

    /** Completes the row of the id if it is reserved for the same request, and otherwise changes nothing. */
    method Complete(id: nat, fingerprint: Fingerprint, result: ResultRef) returns (changed: bool)
      requires Valid()
      modifies this
      ensures Valid() && (rows, changed) == AfterComplete(old(rows), id, fingerprint, result)
      ensures changed <==> SomeFits(old(rows), id, fingerprint, Reserved, None)
      ensures Updated(old(rows), rows, id, changed, r => WithResult(r, result))
    {
      var hit := Selected(rows, id, fingerprint, Reserved, None);
      CompleteIs(rows, id, fingerprint, result);
      changed := hit != {};
      if changed {
        var s :| s in hit;
        rows := rows[s := WithResult(rows[s], result)];
      }
    }

    /** Gives the row of the id up if it is reserved for the same request, and otherwise changes nothing. */
    method Fail(id: nat, fingerprint: Fingerprint) returns (changed: bool)
      requires Valid()
      modifies this
      ensures Valid() && (rows, changed) == AfterFail(old(rows), id, fingerprint)
      ensures changed <==> SomeFits(old(rows), id, fingerprint, Reserved, None)
      ensures Updated(old(rows), rows, id, changed, r => GivenUp(r))
    {
      var hit := Selected(rows, id, fingerprint, Reserved, None);
      FailIs(rows, id, fingerprint);
      changed := hit != {};
      if changed {
        var s :| s in hit;
        rows := rows[s := GivenUp(rows[s])];
      }
    }
  }

  /** Reserving when nothing runs between the two statements. Each branch leaves the record as its outcome says. */
  method Reserve(repository: Repository, slot: Slot, id: nat, fingerprint: Fingerprint, now: int, ttl: nat)
    returns (o: Outcome)
    requires repository.Valid() && (forall s :: s in repository.rows ==> repository.rows[s].id != id)
    modifies repository
    ensures repository.Valid() && slot in repository.rows
    ensures forall s :: s in old(repository.rows) && s != slot ==>
              s in repository.rows && repository.rows[s] == old(repository.rows[s])
    ensures slot !in old(repository.rows) ==>
              && o == Given(Reservation(id, fingerprint, None))
              && repository.rows[slot] == Record(id, fingerprint, Reserved, None, now + ttl)
    ensures slot in old(repository.rows) ==>
              var was, row := old(repository.rows)[slot], repository.rows[slot];
              var mine := was.fingerprint == fingerprint;
              var free := mine && (was.status == Failed || (was.status == Reserved && was.expiresAt <= now));
              && (o == Refused(Conflict) <==> !mine)
              && (o == Refused(InProgress) <==> mine && was.status == Reserved && was.expiresAt > now)
              && (o == Refused(Corrupt) <==> mine && was.status == Completed && was.result.None?)
              && (o.Given? && o.reservation.replay.Some? <==> mine && was.status == Completed && was.result.Some?)
              && (o.Given? && o.reservation.replay.None? <==> free)
              && (o.Given? ==> o.reservation == Reservation(was.id, fingerprint, if free then None else was.result))
              && row == (if free then Record(was.id, fingerprint, Reserved, None, now + ttl) else was)
  {
    var a := repository.Acquire(slot, Candidate(id, fingerprint, now, ttl));
    var d := Decide(a, fingerprint, now);
    match d
    case Grant(r) => o := Given(r);
    case TryRestart(allowed, expiredBefore) =>
      var r := a.record;
      assert Fits(repository.rows[slot], r.id, r.fingerprint, allowed, expiredBefore);
      var changed := repository.Restart(r.id, r.fingerprint, fingerprint, allowed, expiredBefore, now + ttl);
      o := if changed then Given(Reservation(r.id, fingerprint, None)) else NotRecovered;
    case Conflict => o := Refused(d);
    case Corrupt => o := Refused(d);
    case InProgress => o := Refused(d);
  }

  /** Completing a reservation; a replay is refused before any statement is made. The reserved record keeps the result,
      and otherwise nothing changes. */
  method Finish(repository: Repository, reservation: Reservation, result: ResultRef) returns (done: bool)
    requires repository.Valid()
    modifies repository
    ensures repository.Valid()
    ensures Updated(old(repository.rows), repository.rows, reservation.id, done,
                    (r: Record) => r.(status := Completed, result := Some(result)))
    ensures done <==> Reserves(old(repository.rows), reservation)
  {
    if reservation.replay.Some? { return false; }
    done := repository.Complete(reservation.id, reservation.fingerprint, result);
  }

  /** Giving a reservation up, under the same conditions. */
  method GiveUp(repository: Repository, reservation: Reservation) returns (done: bool)
    requires repository.Valid()
    modifies repository
    ensures repository.Valid()
    ensures Updated(old(repository.rows), repository.rows, reservation.id, done,
                    (r: Record) => r.(status := Failed, result := None))
    ensures done <==> Reserves(old(repository.rows), reservation)
  {
    if reservation.replay.Some? { return false; }
    done := repository.Fail(reservation.id, reservation.fingerprint);
  }

  // ----- what each statement does -----

  /** An update by id selects one row at most, and it is the row of that id. */
  lemma SelectedIs(rows: Rows, id: nat, fingerprint: Fingerprint, allowed: Status, expiredBefore: Option<int>)
    requires UniqueIds(rows)
    ensures var hit := Selected(rows, id, fingerprint, allowed, expiredBefore);
            && (|hit| == 1 <==> hit != {}) && forall s :: s in hit ==> hit == {s}
  {
    var hit := Selected(rows, id, fingerprint, allowed, expiredBefore);
    if s :| s in hit { assert hit == {s}; }
  }

  /** Completing reaches the row just when it is reserved for the same request. */
  lemma CompleteIs(rows: Rows, id: nat, fingerprint: Fingerprint, result: ResultRef)
    requires UniqueIds(rows)
    ensures var (after, changed) := AfterComplete(rows, id, fingerprint, result);
            && (changed <==> SomeFits(rows, id, fingerprint, Reserved, None))
            && (!changed ==> after == rows)
            && forall s :: s in rows && Fits(rows[s], id, fingerprint, Reserved, None) ==>
                 after == rows[s := WithResult(rows[s], result)]
  {
    SelectedIs(rows, id, fingerprint, Reserved, None);
    var hit := Selected(rows, id, fingerprint, Reserved, None);
    if hit == {} {
      assert AfterComplete(rows, id, fingerprint, result).0 == rows;
    } else {
      var s :| s in hit;
      assert AfterComplete(rows, id, fingerprint, result).0 == rows[s := WithResult(rows[s], result)];
    }
  }

  /** Failing reaches the row just when it is reserved for the same request. */
  lemma FailIs(rows: Rows, id: nat, fingerprint: Fingerprint)
    requires UniqueIds(rows)
    ensures var (after, changed) := AfterFail(rows, id, fingerprint);
            && (changed <==> SomeFits(rows, id, fingerprint, Reserved, None))
            && (!changed ==> after == rows)
            && forall s :: s in rows && Fits(rows[s], id, fingerprint, Reserved, None) ==>
                 after == rows[s := GivenUp(rows[s])]
  {
    SelectedIs(rows, id, fingerprint, Reserved, None);
    var hit := Selected(rows, id, fingerprint, Reserved, None);
    if hit == {} {
      assert AfterFail(rows, id, fingerprint).0 == rows;
    } else {
      var s :| s in hit;
      assert AfterFail(rows, id, fingerprint).0 == rows[s := GivenUp(rows[s])];
    }
  }

  /** Restarting reaches the row just when fingerprint, status and expiry are still as the caller saw them. */
  lemma RestartIs(rows: Rows, id: nat, before: Fingerprint, next: Fingerprint, allowed: Status,
                  expiredBefore: Option<int>, expiresAt: int)
    requires UniqueIds(rows)
    ensures var (after, changed) := AfterRestart(rows, id, before, next, allowed, expiredBefore, expiresAt);
            && (changed <==> SomeFits(rows, id, before, allowed, expiredBefore))
            && (!changed ==> after == rows)
            && forall s :: s in rows && Fits(rows[s], id, before, allowed, expiredBefore) ==>
                 after == rows[s := Restarted(rows[s], next, expiresAt)]
  {
    SelectedIs(rows, id, before, allowed, expiredBefore);
    var hit := Selected(rows, id, before, allowed, expiredBefore);
    var after := AfterRestart(rows, id, before, next, allowed, expiredBefore, expiresAt).0;
    if hit == {} {
      assert after == rows;
    } else {
      var s :| s in hit;
      assert after == rows[s := Restarted(rows[s], next, expiresAt)];
    }
  }
}
