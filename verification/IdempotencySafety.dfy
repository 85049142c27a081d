/** At most one completion per slot, and the same answer for ever after. */
module IdempotencySafety {
  import opened Common
  import opened Idempotency
  import opened IdempotencyRuns

  // ----- one step -----

  lemma CompletionsSnoc(log: seq<Entry>, e: Entry, slot: Slot)
    ensures Completions(log + [e], slot) == Completions(log, slot) + if IsDone(e, slot) then 1 else 0
  {
    assert (log + [e])[..|log|] == log;
  }

  /** A step that changes the row of one slot, tells one client something true, and counts a completion only as it
      makes one, keeps everything sound. */
  lemma ToldSound(w: World, rows: Rows, at: Slot, row: Record, c: nat, client: Client, e: Entry, next: World)
    requires Sound(w) && at in w.rows && rows == w.rows[at := row] && Grown(w.rows, rows) && RowSound(row)
    requires next == Told(w.(rows := rows), c, client, e)
    requires ClientSound(rows, client) && EntrySound(rows, e)
    requires IsDone(e, at) <==> w.rows[at].status != Completed && row.status == Completed
    requires e.Done? ==> e.slot == at
    ensures Sound(next) && Grown(w.rows, next.rows)
  {
    forall d | d in next.clients ensures ClientSound(rows, next.clients[d]) {
      if d != c { assert ClientSound(w.rows, w.clients[d]); }
    }
    forall x | x in next.log ensures EntrySound(rows, x) {
      assert x == e || x in w.log;
      if x in w.log { assert EntrySound(w.rows, x); }
    }
    forall s ensures Completions(next.log, s) == if s in rows && rows[s].status == Completed then 1 else 0 {
      CompletionsSnoc(w.log, e, s);
    }
  }

  lemma BeginSound(w: World, e: Event)
    requires Sound(w) && e.Begin? && Enabled(w, e)
    ensures Sound(Step(w, e)) && Grown(w.rows, Step(w, e).rows)
  {
    var next := Step(w, e);
    forall d | d in next.clients ensures ClientSound(next.rows, next.clients[d]) {
      if d != e.client { assert ClientSound(w.rows, w.clients[d]); }
    }
    forall x | x in next.log ensures EntrySound(next.rows, x) { assert EntrySound(w.rows, x); }
  }

  lemma SettleRestart(w: World, c: nat, d: Client, next: World)
    requires Sound(w) && c in w.clients && d == w.clients[c] && d.Deciding? && ClientSound(w.rows, d)
    requires next == SettleStep(w, c, d) && Decide(d.seen, d.fingerprint, d.now).TryRestart?
    ensures Sound(next) && Grown(w.rows, next.rows)
  {
    var decision, r := Decide(d.seen, d.fingerprint, d.now), d.seen.record;
    RestartIs(w.rows, r.id, r.fingerprint, d.fingerprint, decision.allowed, decision.expiredBefore, d.now + d.ttl);
    ToldSound(w, next.rows, d.slot, next.rows[d.slot], c, next.clients[c], next.log[|w.log|], next);
  }

  lemma SettleNow(w: World, c: nat, d: Client, next: World)
    requires Sound(w) && c in w.clients && d == w.clients[c] && d.Deciding? && ClientSound(w.rows, d)
    requires next == SettleStep(w, c, d) && !Decide(d.seen, d.fingerprint, d.now).TryRestart?
    ensures Sound(next) && Grown(w.rows, next.rows)
  {
    ToldSound(w, w.rows, d.slot, w.rows[d.slot], c, next.clients[c], next.log[|w.log|], next);
  }

  lemma SettleSound(w: World, c: nat)
    requires Sound(w) && Enabled(w, Settle(c))
    ensures Sound(Step(w, Settle(c))) && Grown(w.rows, Step(w, Settle(c)).rows)
  {
    var d := w.clients[c];
    assert ClientSound(w.rows, d);
    if Decide(d.seen, d.fingerprint, d.now).TryRestart? {
      SettleRestart(w, c, d, SettleStep(w, c, d));
    } else {
      SettleNow(w, c, d, SettleStep(w, c, d));
    }
  }

  lemma FinishSound(w: World, c: nat, result: ResultRef)
    requires Sound(w) && Enabled(w, Finish(c, result))
    ensures Sound(Step(w, Finish(c, result))) && Grown(w.rows, Step(w, Finish(c, result)).rows)
  {
    var h := w.clients[c];
    assert ClientSound(w.rows, h);
    var next := FinishStep(w, c, h, result);
    CompleteIs(w.rows, h.reservation.id, h.reservation.fingerprint, result);
    ToldSound(w, next.rows, h.slot, next.rows[h.slot], c, h, next.log[|w.log|], next);
  }

  lemma AbandonSound(w: World, c: nat)
    requires Sound(w) && Enabled(w, Abandon(c))
    ensures Sound(Step(w, Abandon(c))) && Grown(w.rows, Step(w, Abandon(c)).rows)
  {
    var h := w.clients[c];
    assert ClientSound(w.rows, h);
    var next := AbandonStep(w, c, h);
    FailIs(w.rows, h.reservation.id, h.reservation.fingerprint);
    ToldSound(w, next.rows, h.slot, next.rows[h.slot], c, h, next.log[|w.log|], next);
  }

  lemma StepSound(w: World, e: Event)
    requires Sound(w) && Enabled(w, e)
    ensures Sound(Step(w, e)) && Grown(w.rows, Step(w, e).rows)
  {
    match e
    case Begin(_, _, _, _, _, _) => BeginSound(w, e);
    case Settle(c) => SettleSound(w, c);
    case Finish(c, result) => FinishSound(w, c, result);
    case Abandon(c) => AbandonSound(w, c);
  }

  lemma LeadsSound(w: World, e: Event, next: World)
    requires Sound(w) && Leads(w, e, next)
    ensures Sound(next) && Grown(w.rows, next.rows)
  {
    StepSound(w, e);
  }

  lemma GrownTransitive(a: Rows, b: Rows, c: Rows)
    requires Grown(a, b) && Grown(b, c)
    ensures Grown(a, c)
  {
  }

  // ----- whole runs -----

  lemma {:induction false} RunSound(worlds: seq<World>, events: seq<Event>, i: nat)
    requires Run(worlds, events) && worlds[0] == START && i < |worlds|
    ensures Sound(worlds[i])
  {
    if i > 0 {
      RunSound(worlds, events, i - 1);
      assert LeadsAt(worlds, events, i - 1);
      LeadsSound(worlds[i - 1], events[i - 1], worlds[i]);
    }
  }

  lemma StepGrows(worlds: seq<World>, events: seq<Event>, i: nat)
    requires Run(worlds, events) && worlds[0] == START && i < |events|
    ensures Grown(worlds[i].rows, worlds[i + 1].rows)
  {
    RunSound(worlds, events, i);
    assert LeadsAt(worlds, events, i);
    LeadsSound(worlds[i], events[i], worlds[i + 1]);
  }

  /** A record once made keeps its id and fingerprint, and once completed never changes again. */
  lemma {:induction false} RecordsPersist(worlds: seq<World>, events: seq<Event>, i: nat, j: nat)
    requires Run(worlds, events) && worlds[0] == START && i <= j < |worlds|
    ensures Grown(worlds[i].rows, worlds[j].rows)
    decreases j
  {
    if i < j {
      RecordsPersist(worlds, events, i, j - 1);
      StepGrows(worlds, events, j - 1);
      GrownTransitive(worlds[i].rows, worlds[j - 1].rows, worlds[j].rows);
    }
  }

  /** However the clients interleave, fail, expire and restart, no slot is completed twice. */
  lemma AtMostOneCompletion(worlds: seq<World>, events: seq<Event>, i: nat, slot: Slot)
    requires Run(worlds, events) && worlds[0] == START && i < |worlds|
    ensures Completions(worlds[i].log, slot) <= 1
    ensures Completions(worlds[i].log, slot) == 1 <==>
              slot in worlds[i].rows && worlds[i].rows[slot].status == Completed
  {
    RunSound(worlds, events, i);
  }

  /** Every replay of a slot gives the result the slot was completed with, to the same request. */
  lemma ReplaysAgree(worlds: seq<World>, events: seq<Event>, i: nat, done: Entry, replayed: Entry)
    requires Run(worlds, events) && worlds[0] == START && i < |worlds|
    requires done in worlds[i].log && replayed in worlds[i].log && done.Done? && replayed.Replayed?
    requires done.slot == replayed.slot
    ensures replayed.result == done.result && replayed.fingerprint == done.fingerprint
  {
    RunSound(worlds, events, i);
    assert EntrySound(worlds[i].rows, done) && EntrySound(worlds[i].rows, replayed);
  }

  /** Nobody is granted or replayed a slot that somebody else was refused for the same request's sake: the answers
      conflict only for different requests. */
  lemma ConflictsAreDifferentRequests(worlds: seq<World>, events: seq<Event>, i: nat, a: Entry, b: Entry)
    requires Run(worlds, events) && worlds[0] == START && i < |worlds| && a in worlds[i].log && b in worlds[i].log
    requires a.Conflicted? && (b.Granted? || b.Done? || b.Replayed?) && a.slot == b.slot
    ensures a.fingerprint != b.fingerprint
  {
    RunSound(worlds, events, i);
    assert EntrySound(worlds[i].rows, a) && EntrySound(worlds[i].rows, b);
  }

  /** From a completion on, an attempt with the same request is answered with its result and one with another
      request is refused, at whatever later time its two halves run. */
  lemma LaterAttemptsReplay(worlds: seq<World>, events: seq<Event>, i: nat, j: nat, k: nat, slot: Slot, row: Record)
    requires Run(worlds, events) && worlds[0] == START && i <= j < k < |events|
    requires slot in worlds[i].rows && row == worlds[i].rows[slot] && row.status == Completed
    requires events[j].Begin? && events[j].at == slot && events[k] == Settle(events[j].client)
    requires forall m :: j < m < k ==> events[m] != Settle(events[j].client)
    ensures row.result.Some?
    ensures worlds[k + 1].log == worlds[k].log + [if events[j].fingerprint == row.fingerprint
              then Replayed(slot, row.fingerprint, row.result.value) else Conflicted(slot, events[j].fingerprint)]
  {
    var e := events[j];
    RunSound(worlds, events, i);
    RunSound(worlds, events, j);
    RecordsPersist(worlds, events, i, j);
    assert LeadsAt(worlds, events, j);
    var d := Deciding(slot, Acquired(row, false), e.fingerprint, e.now, e.ttl);
    assert worlds[j + 1].clients[e.client] == d;
    ClientWaits(worlds, events, j + 1, k, e.client);
    assert LeadsAt(worlds, events, k);
  }

  /** A client between its two statements stays there until it goes on itself. */
  lemma {:induction false} ClientWaits(worlds: seq<World>, events: seq<Event>, i: nat, j: nat, c: nat)
    requires Run(worlds, events) && i <= j < |worlds| && c in worlds[i].clients && worlds[i].clients[c].Deciding?
    requires forall m :: i <= m < j ==> events[m] != Settle(c)
    ensures c in worlds[j].clients && worlds[j].clients[c] == worlds[i].clients[c]
    decreases j
  {
    if i < j {
      ClientWaits(worlds, events, i, j - 1, c);
      assert LeadsAt(worlds, events, j - 1);
    }
  }

  /** What an attempt that found a record may be granted: one that was given up, or reserved until now or earlier, both
      when it was found and still. */
  predicate Free(r: Record, fingerprint: Fingerprint, now: int) {
    r.fingerprint == fingerprint && (r.status == Failed || (r.status == Reserved && r.expiresAt <= now))
  }

  /** The second half of an attempt. */
  lemma SettleGrantsIff(worlds: seq<World>, events: seq<Event>, i: nat, c: nat)
    requires Run(worlds, events) && worlds[0] == START && i < |worlds| && Enabled(worlds[i], Settle(c))
    ensures var w, d, next := worlds[i], worlds[i].clients[c], Step(worlds[i], Settle(c));
            && d.slot in w.rows
            && (next.log == w.log + [Granted(d.slot, d.fingerprint)] <==>
                || d.seen.inserted
                || (&& Free(d.seen.record, d.fingerprint, d.now) && Free(w.rows[d.slot], d.fingerprint, d.now)
                    && d.seen.record.status == w.rows[d.slot].status))
            && (next.log != w.log + [Granted(d.slot, d.fingerprint)] || d.seen.inserted ==> next.rows == w.rows)
            && (next.log == w.log + [Granted(d.slot, d.fingerprint)] && !d.seen.inserted ==>
                  next.rows
                  == w.rows[d.slot := Record(w.rows[d.slot].id, d.fingerprint, Reserved, None, d.now + d.ttl)])
  {
    RunSound(worlds, events, i);
    var w, d := worlds[i], worlds[i].clients[c];
    assert ClientSound(w.rows, d);
    SettleGrants(w, c, d, SettleStep(w, c, d));
  }

  lemma SettleGrants(w: World, c: nat, d: Client, next: World)
    requires Sound(w) && d.Deciding? && ClientSound(w.rows, d) && next == SettleStep(w, c, d)
    ensures next.log == w.log + [Granted(d.slot, d.fingerprint)] <==>
              || d.seen.inserted
              || (&& Free(d.seen.record, d.fingerprint, d.now) && Free(w.rows[d.slot], d.fingerprint, d.now)
                  && d.seen.record.status == w.rows[d.slot].status)
    ensures next.log != w.log + [Granted(d.slot, d.fingerprint)] || d.seen.inserted ==> next.rows == w.rows
    ensures next.log == w.log + [Granted(d.slot, d.fingerprint)] && !d.seen.inserted ==>
              next.rows == w.rows[d.slot := Record(w.rows[d.slot].id, d.fingerprint, Reserved, None, d.now + d.ttl)]
  {
    var decision, r := Decide(d.seen, d.fingerprint, d.now), d.seen.record;
    var granted := Granted(d.slot, d.fingerprint);
    assert next.log[|w.log|] == granted <==> next.log == w.log + [granted];
    if decision.TryRestart? {
      RestartIs(w.rows, r.id, r.fingerprint, d.fingerprint, decision.allowed, decision.expiredBefore, d.now + d.ttl);
    }
  }

  /** An entry that comes with a change of the slot's record. */
  predicate Touches(e: Entry, slot: Slot) {
    (e.Granted? || e.Done? || e.GaveUp?) && e.slot == slot
  }

  lemma StepLeavesRow(w: World, e: Event, slot: Slot)
    requires Sound(w) && Enabled(w, e) && slot in w.rows
    ensures w.log <= Step(w, e).log && slot in Step(w, e).rows
    ensures (forall k :: |w.log| <= k < |Step(w, e).log| ==> !Touches(Step(w, e).log[k], slot)) ==>
              Step(w, e).rows[slot] == w.rows[slot]
  {
    match e
    case Begin(_, _, _, _, _, _) =>
    case Settle(c) => SettleLeavesRow(w, c, w.clients[c], slot);
    case Finish(c, result) => FinishLeavesRow(w, c, w.clients[c], result, slot);
    case Abandon(c) => AbandonLeavesRow(w, c, w.clients[c], slot);
  }

  lemma SettleLeavesRow(w: World, c: nat, d: Client, slot: Slot)
    requires Sound(w) && c in w.clients && d == w.clients[c] && d.Deciding? && slot in w.rows
    ensures var next := SettleStep(w, c, d);
            && w.log <= next.log && |next.log| == |w.log| + 1 && slot in next.rows
            && (!Touches(next.log[|w.log|], slot) ==> next.rows[slot] == w.rows[slot])
  {
    assert ClientSound(w.rows, d);
    var decision, r := Decide(d.seen, d.fingerprint, d.now), d.seen.record;
    if decision.TryRestart? {
      RestartIs(w.rows, r.id, r.fingerprint, d.fingerprint, decision.allowed, decision.expiredBefore, d.now + d.ttl);
    }
  }

  lemma FinishLeavesRow(w: World, c: nat, h: Client, result: ResultRef, slot: Slot)
    requires Sound(w) && c in w.clients && h == w.clients[c] && h.Holding? && slot in w.rows
    ensures var next := FinishStep(w, c, h, result);
            && w.log <= next.log && |next.log| == |w.log| + 1 && slot in next.rows
            && (!Touches(next.log[|w.log|], slot) ==> next.rows[slot] == w.rows[slot])
  {
    assert ClientSound(w.rows, h);
    CompleteIs(w.rows, h.reservation.id, h.reservation.fingerprint, result);
  }

  lemma AbandonLeavesRow(w: World, c: nat, h: Client, slot: Slot)
    requires Sound(w) && c in w.clients && h == w.clients[c] && h.Holding? && slot in w.rows
    ensures var next := AbandonStep(w, c, h);
            && w.log <= next.log && |next.log| == |w.log| + 1 && slot in next.rows
            && (!Touches(next.log[|w.log|], slot) ==> next.rows[slot] == w.rows[slot])
  {
    assert ClientSound(w.rows, h);
    FailIs(w.rows, h.reservation.id, h.reservation.fingerprint);
  }

  /** Until somebody is told of a change, a record stays as it is. */
  lemma {:induction false} RowWaits(worlds: seq<World>, events: seq<Event>, i: nat, j: nat, slot: Slot)
    requires Run(worlds, events) && worlds[0] == START && i <= j < |worlds| && slot in worlds[i].rows
    ensures worlds[i].log <= worlds[j].log && slot in worlds[j].rows
    ensures (forall k :: |worlds[i].log| <= k < |worlds[j].log| ==> !Touches(worlds[j].log[k], slot)) ==>
              worlds[j].rows[slot] == worlds[i].rows[slot]
    decreases j
  {
    if i < j {
      RowWaits(worlds, events, i, j - 1, slot);
      RunSound(worlds, events, j - 1);
      assert LeadsAt(worlds, events, j - 1);
      StepLeavesRow(worlds[j - 1], events[j - 1], slot);
    }
  }

  /** A reservation is handed on only when it is given up or has run out: if it was made until `expiresAt`, and since
      then nobody was told of a grant, a completion or a failure of its slot, an attempt that finds it is granted it
      only at `expiresAt` or later. */
  lemma HandedOnWhenExpired(worlds: seq<World>, events: seq<Event>, i: nat, j: nat, c: nat, slot: Slot)
    requires Run(worlds, events) && worlds[0] == START && i <= j < |events|
    requires slot in worlds[i].rows && worlds[i].rows[slot].status == Reserved
    requires forall k :: |worlds[i].log| <= k < |worlds[j].log| ==> !Touches(worlds[j].log[k], slot)
    requires events[j] == Settle(c) && c in worlds[j].clients && worlds[j].clients[c].Deciding?
    requires worlds[j].clients[c].slot == slot && !worlds[j].clients[c].seen.inserted
    requires worlds[j + 1].log == worlds[j].log + [Granted(slot, worlds[j].clients[c].fingerprint)]
    ensures worlds[i].rows[slot].expiresAt <= worlds[j].clients[c].now
  {
    RowWaits(worlds, events, i, j, slot);
    assert LeadsAt(worlds, events, j);
    SettleGrantsIff(worlds, events, j, c);
  }

  /** A holder completes just when the record is reserved, whoever reserved it last. */
  lemma HolderCompletesIff(worlds: seq<World>, events: seq<Event>, i: nat, c: nat, result: ResultRef)
    requires Run(worlds, events) && worlds[0] == START && i < |worlds| && Enabled(worlds[i], Finish(c, result))
    ensures var w, h := worlds[i], worlds[i].clients[c];
            && h.slot in w.rows
            && (Completions(Step(w, Finish(c, result)).log, h.slot) == Completions(w.log, h.slot) + 1
                <==> w.rows[h.slot].status == Reserved && h.reservation.replay.None?)
  {
    RunSound(worlds, events, i);
    var w, h := worlds[i], worlds[i].clients[c];
    assert ClientSound(w.rows, h);
    CompleteIs(w.rows, h.reservation.id, h.reservation.fingerprint, result);
    CompletionsSnoc(w.log, Step(w, Finish(c, result)).log[|w.log|], h.slot);
  }

  /** And gives up just when it could complete, which leaves the record free for the next attempt at any time. */
  lemma HolderGivesUpIff(worlds: seq<World>, events: seq<Event>, i: nat, c: nat)
    requires Run(worlds, events) && worlds[0] == START && i < |worlds| && Enabled(worlds[i], Abandon(c))
    ensures var w, h, next := worlds[i], worlds[i].clients[c], Step(worlds[i], Abandon(c));
            && h.slot in w.rows
            && if w.rows[h.slot].status == Reserved && h.reservation.replay.None?
               then next.rows == w.rows[h.slot := w.rows[h.slot].(status := Failed, result := None)]
               else next.rows == w.rows
  {
    RunSound(worlds, events, i);
    var w, h := worlds[i], worlds[i].clients[c];
    assert ClientSound(w.rows, h);
    FailIs(w.rows, h.reservation.id, h.reservation.fingerprint);
  }

  const SLOT := Slot(0, 0, 0)
  const FIRST := Candidate(1, 7, 0, 60)
  const HELD := Holding(SLOT, Reservation(1, 7, None))
  const WAITING := Deciding(SLOT, Acquired(FIRST, false), 7, 60, 60)
  const GRANTED_ONCE := World(map[SLOT := FIRST], map[0 := HELD], [Granted(SLOT, 7)])
  const SECOND_WAITS := World(map[SLOT := FIRST], map[0 := HELD, 1 := WAITING], [Granted(SLOT, 7)])
  const GRANTED_TWICE := World(
    map[SLOT := Restarted(FIRST, 7, 120)], map[0 := HELD, 1 := HELD], [Granted(SLOT, 7), Granted(SLOT, 7)])

  lemma FirstGrant() returns (w: World)
    ensures Leads(START, Begin(0, SLOT, 1, 7, 0, 60), w) && Leads(w, Settle(0), GRANTED_ONCE)
  {
    w := World(map[SLOT := FIRST], map[0 := Deciding(SLOT, Acquired(FIRST, true), 7, 0, 60)], []);
  }

  lemma SecondGrant()
    ensures Leads(GRANTED_ONCE, Begin(1, SLOT, 2, 7, 60, 60), SECOND_WAITS)
    ensures Leads(SECOND_WAITS, Settle(1), GRANTED_TWICE)
  {
    RestartIs(SECOND_WAITS.rows, 1, 7, 7, Reserved, Some(60), 120);
  }

  /** So a reservation that expired and was handed on can still be the one that completes. */
  lemma SupersededHolderCanComplete() returns (worlds: seq<World>, events: seq<Event>)
    ensures Run(worlds, events) && worlds[0] == START && |events| == 5
    ensures worlds[4].log == [Granted(SLOT, 7), Granted(SLOT, 7)]
    ensures events[4] == Finish(0, 9) && worlds[5].log == worlds[4].log + [Done(SLOT, 7, 9)]
  {
    events := [Begin(0, SLOT, 1, 7, 0, 60), Settle(0), Begin(1, SLOT, 2, 7, 60, 60), Settle(1), Finish(0, 9)];
    var w1 := FirstGrant();
    SecondGrant();
    CompleteIs(GRANTED_TWICE.rows, 1, 7, 9);
    worlds := [START, w1, GRANTED_ONCE, SECOND_WAITS, GRANTED_TWICE, Step(GRANTED_TWICE, events[4])];
  }
}
