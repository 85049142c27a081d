/** What a registration or login answers, and why. */
module IdentityOutcomes {
  import opened Common
  import opened IdentityIndex
  import opened IdentitySafety
  import opened IdentityRuns

  /** The transaction can only give up its locks any more. */
  predicate Ends(pc: Pc, outcome: Outcome) {
    (pc.Exiting? || pc.Done?) && pc.outcome == outcome
  }

  /** A row that the worker can find for the person. */
  predicate Findable(row: Row, tx: Tx) {
    && row.identity.kind == tx.identity.kind && row.identity.issuer == tx.identity.issuer
    && row.version in tx.worker.keyring && row.index == Digest(tx.identity.kind, tx.identity.subject, row.version)
  }

  // ----- what each call decides -----

  /** Both operations fail closed if and only if some row of the table is under a key version the worker lacks. */
  lemma CheckDecides(w: World, t: nat, valid: bool, w': World)
    requires t < |w.txs| && (w.txs[t].pc.RegisterChecking? || w.txs[t].pc.LoginChecking?)
    requires Step(w, Advance(t, valid)) == Some(w')
    ensures w'.db == w.db && |w'.txs| == |w.txs|
    ensures Settles(w'.txs[t].pc, Unavailable) <==>
            exists i :: 0 <= i < |w.db.rows| && w.db.rows[i].version !in w.txs[t].worker.keyring
    ensures Settles(w'.txs[t].pc, Unavailable)
            || w'.txs[t].pc == if w.txs[t].pc.RegisterChecking? then RegisterFinding else LoginLooking
  {
  }

  /** A registration conflicts if and only if the person has a row that the worker can find; otherwise it is written. */
  lemma FindDecides(w: World, t: nat, valid: bool, w': World)
    requires t < |w.txs| && w.txs[t].pc.RegisterFinding? && Step(w, Advance(t, valid)) == Some(w')
    ensures w'.db == w.db && |w'.txs| == |w.txs|
    ensures Settles(w'.txs[t].pc, Conflict) <==> exists i :: 0 <= i < |w.db.rows| && Findable(w.db.rows[i], w.txs[t])
    ensures Settles(w'.txs[t].pc, Conflict) || w'.txs[t].pc == RegisterWriting
  {
    var found := Find(w.db.rows, w.txs[t].worker, w.txs[t].identity);
    if found != [] { assert found[0] in found; }
  }

  /** Row `i` is the only one that the worker can find for the person. */
  ghost predicate OnlyRow(rows: seq<Row>, tx: Tx, i: nat) {
    i < |rows| && Findable(rows[i], tx) && forall j :: 0 <= j < |rows| && Findable(rows[j], tx) ==> j == i
  }

  lemma FoundOne(rows: seq<Row>, tx: Tx)
    ensures var found := Find(rows, tx.worker, tx.identity);
            if |found| == 1 then OnlyRow(rows, tx, found[0]) else forall i: nat :: !OnlyRow(rows, tx, i)
  {
    var found := Find(rows, tx.worker, tx.identity);
    assert forall i :: 0 <= i < |rows| ==> (i in found <==> Findable(rows[i], tx));
    if |found| == 1 {
      assert found[0] in found;
    } else if |found| > 1 {
      assert found[0] in found && found[1] in found && found[0] < found[1];
    }
  }

  /** What a look at the table leads to: a rejection if there is no row to be found or more than one, and otherwise the
      check of that row, which comes after the locks if it is under another key. */
  ghost predicate LookLeads(rows: seq<Row>, tx: Tx, pc: Pc) {
    || (Settles(pc, Rejected) && forall i: nat :: !OnlyRow(rows, tx, i))
    || (pc == Locking(0, false) && tx.pc.LoginLooking?
        && exists i: nat :: OnlyRow(rows, tx, i) && rows[i].version != tx.worker.active)
    || (&& pc.LoginVerifying? && OnlyRow(rows, tx, pc.row) && pc.seen == rows[pc.row].version
        && (pc.locked <==> tx.pc.LoginRefinding?) && (tx.pc.LoginLooking? ==> pc.seen == tx.worker.active))
  }

  lemma LookDecides(w: World, t: nat, valid: bool, w': World)
    requires t < |w.txs| && (w.txs[t].pc.LoginLooking? || w.txs[t].pc.LoginRefinding?)
    requires Step(w, Advance(t, valid)) == Some(w')
    ensures w'.db == w.db && |w'.txs| == |w.txs| && LookLeads(w.db.rows, w.txs[t], w'.txs[t].pc)
  {
    LookIsLed(w.db, w.txs[t]);
  }

  lemma LookIsLed(db: Db, tx: Tx)
    requires tx.pc.LoginLooking? || tx.pc.LoginRefinding?
    ensures LookLeads(db.rows, tx, LookSegment(db, tx, tx.pc.LoginRefinding?))
  {
    FoundOne(db.rows, tx);
  }

  /** A login is good if and only if the password fits and the row found carries the subject that was given; it moves
      the row to the active key if and only if it was found under another. Otherwise it is rejected. */
  lemma VerifyDecides(w: World, t: nat, valid: bool, w': World)
    requires t < |w.txs| && w.txs[t].pc.LoginVerifying? && Step(w, Advance(t, valid)) == Some(w')
    ensures w'.db == w.db && |w'.txs| == |w.txs|
    ensures var tx, pc := w.txs[t], w'.txs[t].pc;
            if valid && tx.pc.row < |w.db.rows| && w.db.rows[tx.pc.row].identity.subject == tx.identity.subject
            then Settles(pc, Authenticated)
                 && (if tx.pc.seen == tx.worker.active then pc.Exiting?
                     else pc == Committing(Reindex(tx.pc.row), tx.pc.locked, Authenticated))
            else Settles(pc, Rejected)
  {
  }

  /** A commit appends the person's row under the active key, or moves the one row to it and changes no other. */
  lemma CommitWrites(w: World, t: nat, answered: bool, w': World)
    requires t < |w.txs| && w.txs[t].pc.Committing? && Step(w, Advance(t, answered)) == Some(w')
    ensures var tx := w.txs[t];
            var index := Digest(tx.identity.kind, tx.identity.subject, tx.worker.active);
            && w'.db.locks == w.db.locks && |w'.txs| == |w.txs|
            && Settles(w'.txs[t].pc, if answered then tx.pc.outcome else Aborted) && w'.txs[t].pc.Exiting?
            && match tx.pc.write
               case Insert => w'.db.rows == w.db.rows + [Row(tx.identity, index, tx.worker.active)]
               case Reindex(r) =>
                 && |w'.db.rows| == |w.db.rows|
                 && (forall i :: 0 <= i < |w.db.rows| && i != r ==> w'.db.rows[i] == w.db.rows[i])
                 && (r < |w.db.rows| ==> w'.db.rows[r] == Row(w.db.rows[r].identity, index, tx.worker.active))
  {
  }

  // ----- in every run -----

  /** Registrations commit an insertion, logins a reindexing. */
  ghost predicate Consistent(w: World) {
    forall t :: 0 <= t < |w.txs| && w.txs[t].pc.Committing? ==>
      w.txs[t].pc.outcome == if w.txs[t].pc.write.Insert? then Registered else Authenticated
  }

  lemma StepKeepsConsistent(w: World, e: Event)
    requires Consistent(w) && Step(w, e).Some?
    ensures Consistent(Step(w, e).value)
  {
  }

  /** Why a transaction that goes on by `e` from `w` to `w'` comes to its answer. */
  ghost predicate Because(w: World, e: Event, w': World, t: nat, outcome: Outcome)
    requires t < |w.txs|
  {
    var tx := w.txs[t];
    match outcome
    case Registered =>
      && e == Advance(t, true) && tx.pc.Committing? && NoRowOf(w.db.rows, tx.identity)
      && w'.db.rows == w.db.rows + [tx.NewRow()]
    case Conflict => e.Advance? && e.tx == t && tx.pc.RegisterFinding? && !NoRowOf(w.db.rows, tx.identity)
    case Unavailable => e.Advance? && e.tx == t && Unsupported(w.db.rows, tx.worker)
    case Authenticated =>
      && e == Advance(t, true) && tx.pc.LoginVerifying? && tx.pc.row < |w.db.rows|
      && w.db.rows[tx.pc.row].identity == tx.identity
    case Rejected =>
      && e.Advance? && e.tx == t
      && if tx.pc.LoginVerifying? then !e.valid else NoneFindable(w.db.rows, tx)
    case Aborted => e == Abort(t) || e == Advance(t, false)
  }

  ghost predicate NoRowOf(rows: seq<Row>, identity: Identity) {
    forall i :: 0 <= i < |rows| ==> rows[i].identity != identity
  }

  ghost predicate NoneFindable(rows: seq<Row>, tx: Tx) {
    forall i :: 0 <= i < |rows| && rows[i].identity == tx.identity ==> rows[i].version !in tx.worker.keyring
  }

  /** The moment at which the answer is decided: a good login when the password is checked, any other when the
      transaction begins to end. */
  predicate Decided(pc: Pc, outcome: Outcome) {
    if outcome == Authenticated then Settles(pc, outcome) else Ends(pc, outcome)
  }

  lemma OwnRowIsOnly(rows: seq<Row>, tx: Tx, i: nat)
    requires RowsIndexed(rows) && forall a, b :: 0 <= a < b < |rows| ==> rows[a].identity != rows[b].identity
    requires i < |rows| && rows[i].identity == tx.identity && rows[i].version in tx.worker.keyring
    ensures OnlyRow(rows, tx, i)
  {
    forall j | 0 <= j < |rows| && Findable(rows[j], tx) ensures j == i { assert rows[j].identity == tx.identity; }
  }

  /** The step at which an answer is decided has a reason for it. */
  lemma DecisionHasReason(w: World, e: Event, w': World, t: nat, outcome: Outcome)
    requires Invariant(w) && Consistent(w) && Step(w, e) == Some(w') && t < |w'.txs|
    requires Decided(w'.txs[t].pc, outcome) && (t < |w.txs| ==> !Decided(w.txs[t].pc, outcome))
    ensures t < |w.txs| && Because(w, e, w', t, outcome)
  {
    assert t < |w.txs| && (e.Advance? || e.Abort?) && e.tx == t;
    if e.Advance? {
      var pc := w.txs[t].pc;
      if pc.RegisterChecking? || pc.LoginChecking? {
        CheckDecides(w, t, e.valid, w');
      } else if pc.LoginLooking? || pc.LoginRefinding? {
        LookDecides(w, t, e.valid, w');
        LookRejects(w, w', t);
      } else if pc.LoginVerifying? {
        VerifyHasReason(w, t, e.valid, w', outcome);
      } else if pc.Committing? {
        CommitHasReason(w, t, e.valid, w', outcome);
      } else {
        FindHasReason(w, t, e.valid, w', outcome);
      }
    }
  }

  lemma VerifyHasReason(w: World, t: nat, valid: bool, w': World, outcome: Outcome)
    requires Invariant(w) && t < |w.txs| && w.txs[t].pc.LoginVerifying? && Step(w, Advance(t, valid)) == Some(w')
    requires Decided(w'.txs[t].pc, outcome)
    ensures Because(w, Advance(t, valid), w', t, outcome)
  {
    assert Knows(w.db.rows, w.txs[t]);
    VerifyDecides(w, t, valid, w');
  }

  lemma CommitHasReason(w: World, t: nat, answered: bool, w': World, outcome: Outcome)
    requires Invariant(w) && Consistent(w) && t < |w.txs| && w.txs[t].pc.Committing?
    requires Step(w, Advance(t, answered)) == Some(w')
    requires Decided(w'.txs[t].pc, outcome) && !Decided(w.txs[t].pc, outcome)
    ensures Because(w, Advance(t, answered), w', t, outcome)
  {
    assert Knows(w.db.rows, w.txs[t]);
    CommitWrites(w, t, answered, w');
  }

  lemma FindHasReason(w: World, t: nat, valid: bool, w': World, outcome: Outcome)
    requires Invariant(w) && t < |w.txs| && Step(w, Advance(t, valid)) == Some(w')
    requires var pc := w.txs[t].pc; pc.Locking? || pc.RegisterFinding? || pc.RegisterWriting? || pc.Exiting?
    requires Decided(w'.txs[t].pc, outcome) && !Decided(w.txs[t].pc, outcome)
    ensures Because(w, Advance(t, valid), w', t, outcome)
  {
    if w.txs[t].pc.RegisterFinding? {
      FindDecides(w, t, valid, w');
      ConflictFinds(w, t);
    }
  }

  lemma ConflictFinds(w: World, t: nat)
    requires Invariant(w) && t < |w.txs|
    ensures (exists i :: 0 <= i < |w.db.rows| && Findable(w.db.rows[i], w.txs[t])) ==>
              !NoRowOf(w.db.rows, w.txs[t].identity)
  {
    forall i | 0 <= i < |w.db.rows| && Findable(w.db.rows[i], w.txs[t])
      ensures w.db.rows[i].identity == w.txs[t].identity
    {
    }
  }

  lemma LookRejects(w: World, w': World, t: nat)
    requires Invariant(w) && t < |w.txs| && t < |w'.txs| && LookLeads(w.db.rows, w.txs[t], w'.txs[t].pc)
    ensures Settles(w'.txs[t].pc, Rejected) ==> NoneFindable(w.db.rows, w.txs[t])
  {
    var rows, tx := w.db.rows, w.txs[t];
    forall i | 0 <= i < |rows| && rows[i].identity == tx.identity && rows[i].version in tx.worker.keyring
      ensures OnlyRow(rows, tx, i)
    {
      OwnRowIsOnly(rows, tx, i);
    }
  }

  /** A transaction keeps its person and its worker. */
  lemma StepKeepsPerson(w: World, e: Event, t: nat)
    requires t < |w.txs| && Step(w, e).Some?
    ensures var w' := Step(w, e).value; t < |w'.txs| && w'.txs[t].(pc := w.txs[t].pc) == w.txs[t]
  {
  }

  /** An answer in a run was decided at some step of it, and what the table was then is the reason. */
  lemma {:induction false} DecidedOnce(start: World, events: seq<Event>, end: World, t: nat, outcome: Outcome)
    returns (before: seq<Event>, w: World, e: Event, w': World)
    requires ProperWorkers(events) && OverlappingRun(start, events) && Run(start, events) == Some(end)
    requires Invariant(start) && Consistent(start)
    requires t < |end.txs| && Decided(end.txs[t].pc, outcome)
    requires (t < |start.txs| ==> !Decided(start.txs[t].pc, outcome))
    ensures before + [e] <= events && Run(start, before) == Some(w) && Step(w, e) == Some(w')
    ensures t < |w.txs| && w.txs[t].(pc := end.txs[t].pc) == end.txs[t] && Because(w, e, w', t, outcome)
    decreases |events|
  {
    var next := Step(start, events[0]).value;
    StepKeepsInvariant(start, events[0]);
    StepKeepsConsistent(start, events[0]);
    if t < |next.txs| && Decided(next.txs[t].pc, outcome) {
      before, w, e, w' := [], start, events[0], next;
      DecisionHasReason(start, events[0], next, t, outcome);
      StepKeepsPerson(start, events[0], t);
      RunKeepsPerson(next, events[1..], t);
    } else {
      var rest;
      rest, w, e, w' := DecidedOnce(next, events[1..], end, t, outcome);
      before := [events[0]] + rest;
      assert before[1..] == rest && events == [events[0]] + events[1..];
    }
  }

  lemma {:induction false} RunKeepsPerson(w: World, events: seq<Event>, t: nat)
    requires t < |w.txs| && Run(w, events).Some?
    ensures var end := Run(w, events).value; t < |end.txs| && end.txs[t].(pc := w.txs[t].pc) == w.txs[t]
    decreases |events|
  {
    if events != [] {
      StepKeepsPerson(w, events[0], t);
      RunKeepsPerson(Step(w, events[0]).value, events[1..], t);
    }
  }

  /** Whatever else runs: a registration that succeeded appended the row of a person who had none, and one that
      conflicted saw a row of that person. A login that succeeded checked a fitting password against the person's own
      row; one that was rejected had a password that does not fit, or no row to be found. An operation was unavailable
      when a row was under a key that its worker lacks. */
  lemma AnswersHaveReasons(events: seq<Event>, end: World, t: nat, outcome: Outcome)
    returns (before: seq<Event>, w: World, e: Event, w': World)
    requires ProperWorkers(events) && OverlappingRun(EMPTY, events) && Run(EMPTY, events) == Some(end)
    requires t < |end.txs| && end.txs[t].pc == Done(outcome)
    ensures before + [e] <= events && Run(EMPTY, before) == Some(w) && Step(w, e) == Some(w')
    ensures t < |w.txs| && w.txs[t].(pc := end.txs[t].pc) == end.txs[t] && Because(w, e, w', t, outcome)
  {
    before, w, e, w' := DecidedOnce(EMPTY, events, end, t, outcome);
  }

  // ----- operations that nobody disturbs -----

  /** The locks when a transaction has taken its first `h` ones. */
  function LocksWith(locks: map<Digest, nat>, tx: Tx, h: nat, me: nat): map<Digest, nat>
    requires h <= |tx.worker.keyring|
  {
    if h == 0 then locks else LocksWith(locks, tx, h - 1, me)[tx.LockAt(h - 1) := me]
  }

  ghost predicate AllFree(locks: map<Digest, nat>, worker: Worker, identity: Identity) {
    forall v :: v in worker.keyring ==> Digest(identity.kind, identity.subject, v) !in locks
  }

  lemma {:induction false} NextIsFree(locks: map<Digest, nat>, tx: Tx, h: nat, k: nat, me: nat)
    requires ValidWorker(tx.worker) && AllFree(locks, tx.worker, tx.identity) && h <= k < |tx.worker.keyring|
    ensures tx.LockAt(k) !in LocksWith(locks, tx, h, me)
  {
    if h > 0 { NextIsFree(locks, tx, h - 1, k, me); }
  }

  /** A world in which transaction `t` is at `pc` and the others are as in `w`. */
  ghost predicate At(v: World, w: World, t: nat, rows: seq<Row>, locks: map<Digest, nat>, pc: Pc) {
    t < |w.txs| && v == World(Db(rows, locks), w.txs[t := w.txs[t].(pc := pc)])
  }

  lemma {:induction false} Then(start: World, events: seq<Event>, w: World, e: Event)
    returns (longer: seq<Event>, next: World)
    requires Run(start, events) == Some(w) && Step(w, e).Some?
    ensures longer == events + [e] && Some(next) == Step(w, e) && Run(start, longer) == Some(next)
    decreases |events|
  {
    longer, next := events + [e], Step(w, e).value;
    if events == [] {
      assert longer[1..] == [];
    } else {
      var rest, end := Then(Step(start, events[0]).value, events[1..], w, e);
      assert longer[1..] == rest;
    }
  }

  /** From `from` on, a run lets only transaction `t` go on, and every check and commit answers well. */
  predicate OnlyAdvances(events: seq<Event>, from: nat, t: nat) {
    forall i :: from <= i < |events| ==> events[i] == Advance(t, true)
  }

  /** It takes its locks one after the other. */
  lemma {:induction false} TakesLocks(start: World, before: seq<Event>, v: World, w: World, t: nat, h: nat, from: nat)
    returns (events: seq<Event>, end: World)
    requires t < |w.txs| && ValidWorker(w.txs[t].worker) && AllFree(w.db.locks, w.txs[t].worker, w.txs[t].identity)
    requires w.txs[t].pc.Locking? && h <= |w.txs[t].worker.keyring|
    requires Run(start, before) == Some(v) && OnlyAdvances(before, from, t)
    requires At(v, w, t, w.db.rows, LocksWith(w.db.locks, w.txs[t], h, t), Locking(h, w.txs[t].pc.registering))
    ensures Run(start, events) == Some(end) && before <= events && OnlyAdvances(events, from, t)
    ensures At(end, w, t, w.db.rows, LocksWith(w.db.locks, w.txs[t], |w.txs[t].worker.keyring|, t),
               if w.txs[t].pc.registering then RegisterChecking else LoginRefinding)
    decreases |w.txs[t].worker.keyring| - h
  {
    if h < |w.txs[t].worker.keyring| {
      NextIsFree(w.db.locks, w.txs[t], h, h, t);
      assert v.txs[t].LockAt(h) == w.txs[t].LockAt(h);
    }
    events, end := Then(start, before, v, Advance(t, true));
    if h < |w.txs[t].worker.keyring| { events, end := TakesLocks(start, events, end, w, t, h + 1, from); }
  }

  /** And gives them up again, after which the locks are as they were. */
  lemma {:induction false} FreesLocks(start: World, before: seq<Event>, v: World, w: World, t: nat, rows: seq<Row>,
                                      h: nat,
                                      outcome: Outcome, from: nat)
    returns (events: seq<Event>, end: World)
    requires t < |w.txs| && ValidWorker(w.txs[t].worker) && AllFree(w.db.locks, w.txs[t].worker, w.txs[t].identity)
    requires h <= |w.txs[t].worker.keyring|
    requires Run(start, before) == Some(v) && OnlyAdvances(before, from, t)
    requires At(v, w, t, rows, LocksWith(w.db.locks, w.txs[t], h, t), Exiting(h, outcome))
    ensures Run(start, events) == Some(end) && before <= events && OnlyAdvances(events, from, t)
    ensures At(end, w, t, rows, w.db.locks, Done(outcome))
    decreases h
  {
    events, end := Then(start, before, v, Advance(t, true));
    if h > 0 {
      NextIsFree(w.db.locks, w.txs[t], h - 1, h - 1, t);
      assert v.txs[t].LockAt(h - 1) == w.txs[t].LockAt(h - 1);
      assert end.db.locks == LocksWith(w.db.locks, w.txs[t], h - 1, t);
      events, end := FreesLocks(start, events, end, w, t, rows, h - 1, outcome, from);
    }
  }

  lemma NobodyFound(rows: seq<Row>, tx: Tx)
    requires NoRowOf(rows, tx.identity) && RowsIndexed(rows)
    ensures Find(rows, tx.worker, tx.identity) == []
  {
    forall i | 0 <= i < |rows| ensures !Matches(rows[i], tx.worker, tx.identity) {
      assert rows[i].identity != tx.identity;
    }
    var found := Find(rows, tx.worker, tx.identity);
    assert forall i :: i !in found;
  }

  /** A registration of a new person that nobody disturbs, by a worker that has all key versions in use, succeeds: its
      row is appended and its locks are free again. */
  lemma UndisturbedRegistration(w: World, worker: Worker, identity: Identity) returns (events: seq<Event>, end: World)
    requires ValidWorker(worker) && RowsIndexed(w.db.rows) && NoRowOf(w.db.rows, identity)
    requires !Unsupported(w.db.rows, worker) && AllFree(w.db.locks, worker, identity)
    ensures Run(w, events) == Some(end) && OnlyAdvances(events, 1, |w.txs|)
    ensures [Register(worker, identity)] <= events
    ensures end.db.locks == w.db.locks && end.txs == w.txs + [Tx(worker, identity, Done(Registered))]
    ensures var index := Digest(identity.kind, identity.subject, worker.active);
            end.db.rows == w.db.rows + [Row(identity, index, worker.active)]
  {
    var t, n := |w.txs|, |worker.keyring|;
    var begun;
    events, begun := Then(w, [], w, Register(worker, identity));
    end := begun;
    events, end := TakesLocks(w, events, end, begun, t, 0, 1);
    events, end := WritesRow(w, events, end, begun, t);
    events, end := FreesLocks(w, events, end, begun, t, end.db.rows, n, Registered, 1);
  }

  lemma WritesRow(start: World, before: seq<Event>, v: World, w: World, t: nat)
    returns (events: seq<Event>, end: World)
    requires t < |w.txs| && Run(start, before) == Some(v) && OnlyAdvances(before, 1, t)
    requires At(v, w, t, w.db.rows, v.db.locks, RegisterChecking)
    requires RowsIndexed(w.db.rows) && NoRowOf(w.db.rows, w.txs[t].identity) && !Unsupported(w.db.rows, w.txs[t].worker)
    ensures Run(start, events) == Some(end) && before <= events && OnlyAdvances(events, 1, t)
    ensures At(end, w, t, w.db.rows + [w.txs[t].NewRow()], v.db.locks, Exiting(|w.txs[t].worker.keyring|, Registered))
  {
    NobodyFound(w.db.rows, w.txs[t]);
    events, end := Then(start, before, v, Advance(t, true));
    assert At(end, w, t, w.db.rows, v.db.locks, RegisterFinding);
    events, end := Then(start, events, end, Advance(t, true));
    assert At(end, w, t, w.db.rows, v.db.locks, RegisterWriting);
    events, end := Then(start, events, end, Advance(t, true));
    assert At(end, w, t, w.db.rows, v.db.locks, Committing(Insert, true, Registered));
    events, end := Then(start, events, end, Advance(t, true));
  }

  lemma OwnRowFound(rows: seq<Row>, tx: Tx, i: nat)
    requires OnlyRow(rows, tx, i)
    ensures Find(rows, tx.worker, tx.identity) == [i]
  {
    var found := Find(rows, tx.worker, tx.identity);
    assert forall j :: j in found <==> 0 <= j < |rows| && Findable(rows[j], tx);
    assert i in found;
    TwoFound(found);
  }

  /** A login with a fitting password that nobody disturbs succeeds, and leaves the row under the active key. */
  lemma UndisturbedLogin(w: World, worker: Worker, i: nat) returns (events: seq<Event>, end: World)
    requires ValidWorker(worker) && i < |w.db.rows| && !Unsupported(w.db.rows, worker)
    requires OnlyRow(w.db.rows, Tx(worker, w.db.rows[i].identity, LoginChecking), i)
    requires AllFree(w.db.locks, worker, w.db.rows[i].identity)
    ensures var identity := w.db.rows[i].identity;
            && Run(w, events) == Some(end) && OnlyAdvances(events, 1, |w.txs|) && [Login(worker, identity)] <= events
            && end.db.locks == w.db.locks && end.txs == w.txs + [Tx(worker, identity, Done(Authenticated))]
            && end.db.rows == w.db.rows[i := Row(identity, Digest(identity.kind, identity.subject, worker.active),
                                                 worker.active)]
  {
    var t, n := |w.txs|, |worker.keyring|;
    var begun;
    events, begun := Then(w, [], w, Login(worker, w.db.rows[i].identity));
    OwnRowFound(w.db.rows, begun.txs[t], i);
    events, end := Then(w, events, begun, Advance(t, true));
    assert At(end, begun, t, w.db.rows, w.db.locks, LoginLooking);
    events, end := Then(w, events, end, Advance(t, true));
    if w.db.rows[i].version == worker.active {
      events, end := VerifiesRow(w, events, end, begun, t, i, false);
      events, end := FreesLocks(w, events, end, begun, t, end.db.rows, 0, Authenticated, 1);
    } else {
      var locking := end;
      assert At(locking, begun, t, w.db.rows, w.db.locks, Locking(0, false));
      events, end := TakesLocks(w, events, end, locking, t, 0, 1);
      OwnRowFound(w.db.rows, end.txs[t], i);
      events, end := Then(w, events, end, Advance(t, true));
      assert At(end, locking, t, w.db.rows, end.db.locks, LoginVerifying(i, w.db.rows[i].version, true));
      events, end := VerifiesRow(w, events, end, locking, t, i, true);
      events, end := FreesLocks(w, events, end, locking, t, end.db.rows, n, Authenticated, 1);
    }
  }

  /** The check of the row, and the commit where there is something to write. */
  lemma VerifiesRow(start: World, before: seq<Event>, v: World, w: World, t: nat, i: nat, locked: bool)
    returns (events: seq<Event>, end: World)
    requires t < |w.txs| && i < |w.db.rows| && Run(start, before) == Some(v) && OnlyAdvances(before, 1, t)
    requires At(v, w, t, w.db.rows, v.db.locks, LoginVerifying(i, w.db.rows[i].version, locked))
    requires w.db.rows[i].identity == w.txs[t].identity
    requires w.db.rows[i].index == Digest(w.txs[t].identity.kind, w.txs[t].identity.subject, w.db.rows[i].version)
    requires locked <==> w.db.rows[i].version != w.txs[t].worker.active
    ensures Run(start, events) == Some(end) && before <= events && OnlyAdvances(events, 1, t)
    ensures At(end, w, t, w.db.rows[i := w.txs[t].NewRow()], v.db.locks,
               Exiting(if locked then |w.txs[t].worker.keyring| else 0, Authenticated))
  {
    events, end := Then(start, before, v, Advance(t, true));
    if locked {
      assert At(end, w, t, w.db.rows, v.db.locks, Committing(Reindex(i), true, Authenticated));
      events, end := Then(start, events, end, Advance(t, true));
    } else {
      assert w.db.rows[i := w.txs[t].NewRow()] == w.db.rows;
    }
  }

  // ----- what the two phases of a rollout are for -----

  /** Every worker that runs passed a policy of the given phase for one legacy version. */
  ghost predicate AdmittedIn(events: seq<Event>, phase: Phase, legacy: nat) {
    forall i :: 0 <= i < |events| && (events[i].Register? || events[i].Login?) ==>
      exists drained :: RolloutPolicy(phase, legacy, drained).Admits(events[i].worker)
  }

  ghost predicate AllUnder(w: World, version: nat) {
    && (forall t :: 0 <= t < |w.txs| ==> w.txs[t].worker.active == version)
    && (forall i :: 0 <= i < |w.db.rows| ==> w.db.rows[i].version == version)
  }

  lemma StepKeepsVersion(w: World, e: Event, version: nat)
    requires AllUnder(w, version) && Step(w, e).Some?
    requires e.Register? || e.Login? ==> e.worker.active == version
    ensures AllUnder(Step(w, e).value, version)
  {
  }

  lemma {:induction false} RunKeepsVersion(w: World, events: seq<Event>, end: World, legacy: nat)
    requires AllUnder(w, legacy) && AdmittedIn(events, LegacyCompatible, legacy) && Run(w, events) == Some(end)
    ensures AllUnder(end, legacy)
    decreases |events|
  {
    if events != [] {
      assert events[0].Register? || events[0].Login? ==> events[0].worker.active == legacy;
      StepKeepsVersion(w, events[0], legacy);
      RunKeepsVersion(Step(w, events[0]).value, events[1..], end, legacy);
    }
  }

  /** While all workers are in the compatible phase, one that has nothing but the legacy version is never shut out. */
  lemma CompatiblePhaseServesAll(events: seq<Event>, w: World, legacy: nat, other: Worker)
    requires AdmittedIn(events, LegacyCompatible, legacy) && Run(EMPTY, events) == Some(w) && legacy in other.keyring
    ensures !Unsupported(w.db.rows, other)
  {
    RunKeepsVersion(EMPTY, events, w, legacy);
  }

  /** After it one registration shuts out every worker without the new version, so that those must be drained first. */
  lemma RotationShutsOut(worker: Worker, identity: Identity, other: Worker) returns (events: seq<Event>, w: World)
    requires ValidWorker(worker) && worker.active !in other.keyring
    ensures Run(EMPTY, events) == Some(w) && [Register(worker, identity)] <= events && Unsupported(w.db.rows, other)
  {
    events, w := UndisturbedRegistration(EMPTY, worker, identity);
    assert w.db.rows[0].version == worker.active;
  }
}
