/** Any interleaving of clients on the idempotency records, each repository statement being one step. */
module IdempotencyRuns {
  import opened Common
  import opened Idempotency

  /** One attempt to reserve: between its two statements, or over. */
  datatype Client =
    | Deciding(slot: Slot, seen: Acquired, fingerprint: Fingerprint, now: int, ttl: nat)
    | Holding(slot: Slot, reservation: Reservation)
    | Finished

  /** What the clients have been told, in order. */
  datatype Entry =
    | Granted(slot: Slot, fingerprint: Fingerprint)
    | Replayed(slot: Slot, fingerprint: Fingerprint, result: ResultRef)
    | Conflicted(slot: Slot, fingerprint: Fingerprint)
    | Done(slot: Slot, fingerprint: Fingerprint, result: ResultRef)
    | GaveUp(slot: Slot)
    | Rejected(slot: Slot)

  datatype World = World(rows: Rows, clients: map<nat, Client>, log: seq<Entry>)

  datatype Event =
    | Begin(client: nat, at: Slot, id: nat, fingerprint: Fingerprint, now: int, ttl: nat)
    | Settle(client: nat)
    | Finish(client: nat, result: ResultRef)
    | Abandon(client: nat)

  /** New attempts and new records have ids not used before; the rest is up to the clients. */
  predicate Enabled(w: World, e: Event) {
    match e
    case Begin(c, at, id, fp, now, ttl) => c !in w.clients && forall s :: s in w.rows ==> w.rows[s].id != id
    case Settle(c) => c in w.clients && w.clients[c].Deciding?
    case Finish(c, result) => c in w.clients && w.clients[c].Holding?
    case Abandon(c) => c in w.clients && w.clients[c].Holding?
  }

  function Told(w: World, c: nat, client: Client, entry: Entry): World {
    w.(clients := w.clients[c := client], log := w.log + [entry])
  }

  function Granting(w: World, c: nat, at: Slot, r: Reservation): World {
    Told(w, c, Holding(at, r),
         if r.replay.Some? then Replayed(at, r.fingerprint, r.replay.value) else Granted(at, r.fingerprint))
  }

  /** The second half of reserving, on the record as it was when it was acquired. */
  function SettleStep(w: World, c: nat, d: Client): World
    requires d.Deciding?
  {
    match Decide(d.seen, d.fingerprint, d.now)
    case Grant(r) => Granting(w, c, d.slot, r)
    case TryRestart(allowed, expiredBefore) =>
      var r := d.seen.record;
      var (rows, changed) :=
        AfterRestart(w.rows, r.id, r.fingerprint, d.fingerprint, allowed, expiredBefore, d.now + d.ttl);
      if changed then Granting(w.(rows := rows), c, d.slot, Reservation(r.id, d.fingerprint, None))
      else Told(w.(rows := rows), c, Finished, Rejected(d.slot))
    case Conflict => Told(w, c, Finished, Conflicted(d.slot, d.fingerprint))
    case _ => Told(w, c, Finished, Rejected(d.slot))
  }

  /** Completing and failing are refused to a replay before any statement is made. */
  function FinishStep(w: World, c: nat, h: Client, result: ResultRef): World
    requires h.Holding?
  {
    if h.reservation.replay.Some? then Told(w, c, h, Rejected(h.slot))
    else
      var (rows, changed) := AfterComplete(w.rows, h.reservation.id, h.reservation.fingerprint, result);
      Told(w.(rows := rows), c, h,
           if changed then Done(h.slot, h.reservation.fingerprint, result) else Rejected(h.slot))
  }

  function AbandonStep(w: World, c: nat, h: Client): World
    requires h.Holding?
  {
    if h.reservation.replay.Some? then Told(w, c, h, Rejected(h.slot))
    else
      var (rows, changed) := AfterFail(w.rows, h.reservation.id, h.reservation.fingerprint);
      Told(w.(rows := rows), c, h, if changed then GaveUp(h.slot) else Rejected(h.slot))
  }

  function Step(w: World, e: Event): World
    requires Enabled(w, e)
  {
    match e
    case Begin(c, at, id, fp, now, ttl) =>
      var (rows, a) := AfterAcquire(w.rows, at, Candidate(id, fp, now, ttl));
      w.(rows := rows, clients := w.clients[c := Deciding(at, a, fp, now, ttl)])
    case Settle(c) => SettleStep(w, c, w.clients[c])
    case Finish(c, result) => FinishStep(w, c, w.clients[c], result)
    case Abandon(c) => AbandonStep(w, c, w.clients[c])
  }

  ghost predicate Run(worlds: seq<World>, events: seq<Event>) {
    && |worlds| == |events| + 1
    && forall i :: 0 <= i < |events| ==> LeadsAt(worlds, events, i)
  }

  ghost predicate LeadsAt(worlds: seq<World>, events: seq<Event>, i: nat)
    requires i < |events| && |worlds| == |events| + 1
  {
    Leads(worlds[i], events[i], worlds[i + 1])
  }

  ghost predicate Leads(w: World, e: Event, next: World) {
    Enabled(w, e) && next == Step(w, e)
  }

  const START := World(map[], map[], [])

  // ----- what every step keeps -----

  /** The client works on the row of its slot, for the request the row is for. */
  ghost predicate ClientSound(rows: Rows, client: Client) {
    match client
    case Deciding(slot, seen, fp, now, ttl) =>
      && slot in rows && rows[slot].id == seen.record.id && rows[slot].fingerprint == seen.record.fingerprint
      && (seen.inserted ==> seen.record.fingerprint == fp)
      && (seen.record.status == Completed <==> seen.record.result.Some?)
      && (seen.record.status == Completed ==> rows[slot] == seen.record)
    case Holding(slot, r) =>
      && slot in rows && rows[slot].id == r.id && rows[slot].fingerprint == r.fingerprint
      && (r.replay.Some? ==> rows[slot].result == r.replay)
    case Finished => true
  }

  /** What was told is still true of the row. */
  ghost predicate EntrySound(rows: Rows, entry: Entry) {
    match entry
    case Replayed(slot, fp, result) => slot in rows && rows[slot].fingerprint == fp && rows[slot].result == Some(result)
    case Done(slot, fp, result) => slot in rows && rows[slot].fingerprint == fp && rows[slot].result == Some(result)
    case Granted(slot, fp) => slot in rows && rows[slot].fingerprint == fp
    case Conflicted(slot, fp) => slot in rows && rows[slot].fingerprint != fp
    case _ => true
  }

  ghost predicate IsDone(entry: Entry, slot: Slot) {
    entry.Done? && entry.slot == slot
  }

  /** How often a slot was completed. */
  ghost function Completions(log: seq<Entry>, slot: Slot): nat {
    if log == [] then 0 else Completions(log[..|log| - 1], slot) + if IsDone(log[|log| - 1], slot) then 1 else 0
  }

  ghost predicate RowSound(r: Record) {
    r.status == Completed <==> r.result.Some?
  }

  ghost predicate Sound(w: World) {
    && UniqueIds(w.rows)
    && (forall s :: s in w.rows ==> RowSound(w.rows[s]))
    && (forall c :: c in w.clients ==> ClientSound(w.rows, w.clients[c]))
    && (forall e :: e in w.log ==> EntrySound(w.rows, e))
    && (forall s :: Completions(w.log, s) == if s in w.rows && w.rows[s].status == Completed then 1 else 0)
  }

  /** Rows stay, with their id and fingerprint; a completed row stays as it is. */
  ghost predicate Grown(before: Rows, after: Rows) {
    forall s :: s in before ==>
      && s in after && after[s].id == before[s].id && after[s].fingerprint == before[s].fingerprint
      && (before[s].status == Completed ==> after[s] == before[s])
  }
}
