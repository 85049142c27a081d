/** The theorems about whole runs of registrations and logins. */
module IdentityRuns {
  import opened Common
  import opened IdentityIndex
  import opened IdentitySafety

  // ----- from worlds whose live keyrings overlap -----

  /** Every transaction of the run belongs to a worker with a proper keyring. */
  ghost predicate ProperWorkers(events: seq<Event>) {
    forall i :: 0 <= i < |events| && (events[i].Register? || events[i].Login?) ==> ValidWorker(events[i].worker)
  }

  /** In every world that the run passes through, a predicate holds. */
  ghost predicate Along(w: World, events: seq<Event>, ok: World -> bool)
    decreases |events|
  {
    ok(w) && (events != [] && Step(w, events[0]).Some? ==> Along(Step(w, events[0]).value, events[1..], ok))
  }

  /** The keyrings of transactions that run at the same time intersect, in every world of the run. */
  ghost predicate OverlappingRun(w: World, events: seq<Event>) {
    Along(w, events, v => Overlapping(v))
  }

  lemma {:induction false} RunKeepsInvariant(w: World, events: seq<Event>)
    requires ProperWorkers(events) && OverlappingRun(w, events)
    requires Invariant(w) && Run(w, events).Some?
    ensures Invariant(Run(w, events).value)
    decreases |events|
  {
    if events != [] {
      StepKeepsInvariant(w, events[0]);
      RunKeepsInvariant(Step(w, events[0]).value, events[1..]);
    }
  }

  /** While the keyrings of simultaneous transactions overlap, no run of registrations and reindexing logins gives a
      person two rows, through however many rotations. */
  lemma OneRowPerIdentity(events: seq<Event>, w: World)
    requires ProperWorkers(events) && OverlappingRun(EMPTY, events) && Run(EMPTY, events) == Some(w)
    ensures !Duplicated(w.db.rows)
  {
    RunKeepsInvariant(EMPTY, events);
  }

  /** Under the same assumption a person's row is at any time the one record that a worker finds when it holds the
      row's key version, and every other worker fails closed. */
  lemma FoundOrUnavailable(events: seq<Event>, w: World, i: nat, worker: Worker)
    requires ProperWorkers(events) && OverlappingRun(EMPTY, events) && Run(EMPTY, events) == Some(w)
    requires i < |w.db.rows|
    ensures w.db.rows[i].version in worker.keyring ==> Find(w.db.rows, worker, w.db.rows[i].identity) == [i]
    ensures w.db.rows[i].version !in worker.keyring ==> Unsupported(w.db.rows, worker)
  {
    RunKeepsInvariant(EMPTY, events);
    var found := Find(w.db.rows, worker, w.db.rows[i].identity);
    if w.db.rows[i].version in worker.keyring {
      assert i in found;
      forall j | j in found ensures j == i { SameSubjectSameRow(w, i, j, worker); }
      TwoFound(found);
    }
  }

  lemma TwoFound(found: seq<nat>)
    requires forall a, b :: 0 <= a < b < |found| ==> found[a] < found[b]
    ensures |found| > 1 ==> exists i, j :: i in found && j in found && i != j
  {
    if |found| > 1 { assert found[0] in found && found[1] in found && found[0] != found[1]; }
  }

  lemma SameSubjectSameRow(w: World, i: nat, j: nat, worker: Worker)
    requires Invariant(w) && i < |w.db.rows| && j < |w.db.rows|
    requires Matches(w.db.rows[j], worker, w.db.rows[i].identity)
    ensures i == j
  {
    assert w.db.rows[j].identity == w.db.rows[i].identity;
  }

  // ----- which workers may run together -----

  type Pairs = set<(Worker, Worker)>

  /** Two live transactions belong to workers that may run together. */
  ghost predicate Together(w: World, pairs: Pairs) {
    forall t, u :: 0 <= t < |w.txs| && 0 <= u < |w.txs| && t != u && w.txs[t].Live() && w.txs[u].Live() ==>
      (w.txs[t].worker, w.txs[u].worker) in pairs
  }

  ghost predicate TogetherRun(w: World, events: seq<Event>, pairs: Pairs) {
    Along(w, events, v => Together(v, pairs))
  }

  ghost predicate PairsIntersect(pairs: Pairs) {
    forall p :: p in pairs ==> Intersect(p.0, p.1)
  }

  ghost predicate ProperTxs(w: World) {
    forall t :: 0 <= t < |w.txs| ==> ValidWorker(w.txs[t].worker)
  }

  lemma {:induction false} TogetherOverlaps(w: World, events: seq<Event>, pairs: Pairs)
    requires ProperTxs(w) && ProperWorkers(events) && PairsIntersect(pairs) && TogetherRun(w, events, pairs)
    ensures OverlappingRun(w, events)
    decreases |events|
  {
    forall t, u | 0 <= t < |w.txs| && 0 <= u < |w.txs| && w.txs[t].Live() && w.txs[u].Live()
      ensures Intersect(w.txs[t].worker, w.txs[u].worker)
    {
      if t == u { assert w.txs[t].worker.active in w.txs[t].worker.keyring; }
    }
    if events != [] && Step(w, events[0]).Some? { TogetherOverlaps(Step(w, events[0]).value, events[1..], pairs); }
  }

  /** Uniqueness holds for every run in which only certain pairs of workers run together if and only if the keyrings
      of these pairs intersect. Workers that never meet, such as the first and the last of a long rotation, need
      nothing in common. */
  lemma UniqueIffPairsIntersect(pairs: Pairs, identity: Identity)
    requires forall p :: p in pairs ==> ValidWorker(p.0) && ValidWorker(p.1) && (p.1, p.0) in pairs
    ensures (forall events, w ::
               ProperWorkers(events) && TogetherRun(EMPTY, events, pairs) && Run(EMPTY, events) == Some(w) ==>
               !Duplicated(w.db.rows))
            <==> PairsIntersect(pairs)
  {
    if PairsIntersect(pairs) {
      forall events, w | ProperWorkers(events) && TogetherRun(EMPTY, events, pairs) && Run(EMPTY, events) == Some(w)
        ensures !Duplicated(w.db.rows)
      {
        TogetherOverlaps(EMPTY, events, pairs);
        OneRowPerIdentity(events, w);
      }
    } else {
      var p :| p in pairs && !Intersect(p.0, p.1);
      var events, w := DisjointKeyringsDuplicate(p.0, p.1, identity, pairs);
    }
  }

  /** While transactions run one at a time, no two keyrings need anything in common: the check for unsupported versions
      alone keeps identities unique. */
  lemma OneAtATimeNeedsNothing(events: seq<Event>, w: World)
    requires ProperWorkers(events) && TogetherRun(EMPTY, events, {}) && Run(EMPTY, events) == Some(w)
    ensures !Duplicated(w.db.rows)
  {
    TogetherOverlaps(EMPTY, events, {});
    OneRowPerIdentity(events, w);
  }

  // ----- a fixed set of workers -----

  ghost predicate From(events: seq<Event>, workers: set<Worker>) {
    forall i :: 0 <= i < |events| && (events[i].Register? || events[i].Login?) ==> events[i].worker in workers
  }

  ghost predicate AllValid(workers: set<Worker>) {
    forall a :: a in workers ==> ValidWorker(a)
  }

  ghost predicate PairwiseIntersecting(workers: set<Worker>) {
    forall a, b :: a in workers && b in workers ==> Intersect(a, b)
  }

  ghost predicate Employs(w: World, workers: set<Worker>) {
    forall t :: 0 <= t < |w.txs| ==> w.txs[t].worker in workers
  }

  lemma {:induction false} WorkersOverlap(w: World, events: seq<Event>, workers: set<Worker>)
    requires Employs(w, workers) && From(events, workers) && PairwiseIntersecting(workers)
    ensures OverlappingRun(w, events)
    decreases |events|
  {
    if events != [] && Step(w, events[0]).Some? {
      WorkersOverlap(Step(w, events[0]).value, events[1..], workers);
    }
  }

  /** A rollout in which every worker passed the policy with one legacy key version needs no further promise. */
  lemma OneLegacyVersionSuffices(events: seq<Event>, w: World, workers: set<Worker>, legacy: nat)
    requires AllValid(workers) && From(events, workers)
    requires forall a :: a in workers ==> exists p: RolloutPolicy :: p.legacyVersion == legacy && p.Admits(a)
    requires Run(EMPTY, events) == Some(w)
    ensures !Duplicated(w.db.rows)
  {
    forall a, b | a in workers && b in workers ensures Intersect(a, b) {
      assert legacy in a.keyring && legacy in b.keyring;
    }
    WorkersOverlap(EMPTY, events, workers);
    OneRowPerIdentity(events, w);
  }

  // ----- no deadlock -----

  predicate Waiting(w: World, t: nat)
    requires t < |w.txs|
  {
    w.txs[t].Live() && Segment(w.db, w.txs[t], t, true).None?
  }

  ghost function Wanted(w: World, t: nat): nat
    requires t < |w.txs| && w.txs[t].pc.Locking? && w.txs[t].pc.held < |w.txs[t].worker.keyring|
  {
    w.txs[t].worker.keyring[w.txs[t].pc.held]
  }

  /** Following the holder of the wanted lock only climbs in key version, so it ends at a transaction that can go on. */
  lemma {:induction false} ChainEnds(w: World, t: nat) returns (u: nat)
    requires TxsValid(w) && LocksExact(w) && t < |w.txs| && w.txs[t].Live()
    ensures u < |w.txs| && w.txs[u].Live() && Segment(w.db, w.txs[u], u, true).Some?
    decreases if Waiting(w, t) then MAX_KEY_VERSION + 1 - Wanted(w, t) else 0
  {
    if !Waiting(w, t) {
      u := t;
    } else {
      var lock := w.txs[t].LockAt(w.txs[t].pc.held);
      var holder := w.db.locks[lock];
      assert Owns(w.db.locks, lock, holder);
      assert HeldBy(w.txs, lock, holder);
      assert w.txs[holder].Live();
      if Waiting(w, holder) {
        HeldBelowWanted(w, holder, lock);
      }
      u := ChainEnds(w, holder);
    }
  }

  lemma HeldBelowWanted(w: World, u: nat, d: Digest)
    requires TxsValid(w) && u < |w.txs| && Waiting(w, u) && Holds(w.txs[u], d)
    ensures d.version < Wanted(w, u)
  {
    var k :| 0 <= k < w.txs[u].Held() && w.txs[u].worker.keyring[..w.txs[u].Held()][k] == d.version;
    assert w.txs[u].worker.keyring[k] == d.version;
  }

  lemma {:induction false} RunKeepsLocks(w: World, events: seq<Event>)
    requires ProperWorkers(events) && TxsValid(w) && LocksExact(w) && Run(w, events).Some?
    ensures TxsValid(Run(w, events).value) && LocksExact(Run(w, events).value)
    decreases |events|
  {
    if events != [] {
      StepKeepsLocks(w, events[0]);
      RunKeepsLocks(Step(w, events[0]).value, events[1..]);
    }
  }

  /** Sorted locking cannot deadlock: while any transaction is unfinished, some transaction can take its next step.
      This needs nothing of the keyrings but their order. */
  lemma NoDeadlock(events: seq<Event>, w: World, t: nat) returns (u: nat)
    requires ProperWorkers(events) && Run(EMPTY, events) == Some(w) && t < |w.txs| && w.txs[t].Live()
    ensures u < |w.txs| && w.txs[u].Live() && Step(w, Advance(u, true)).Some?
  {
    RunKeepsLocks(EMPTY, events);
    u := ChainEnds(w, t);
  }

  // ----- why the keyrings must overlap -----

  /** Extends a run by one event. */
  lemma {:induction false} Then(start: World, events: seq<Event>, w: World, e: Event, pairs: Pairs)
    returns (longer: seq<Event>, next: World)
    requires Run(start, events) == Some(w) && Step(w, e).Some?
    requires TogetherRun(start, events, pairs) && Together(Step(w, e).value, pairs)
    ensures longer == events + [e] && Some(next) == Step(w, e)
    ensures Run(start, longer) == Some(next) && TogetherRun(start, longer, pairs)
    decreases |events|
  {
    longer, next := events + [e], Step(w, e).value;
    if events == [] {
      assert longer[1..] == [];
    } else {
      var rest, end := Then(Step(start, events[0]).value, events[1..], w, e, pairs);
      assert longer[1..] == rest;
    }
  }

  /** A world of two workers that may run together. */
  ghost predicate Duo(w: World, a: Worker, b: Worker, pairs: Pairs) {
    && |w.txs| <= 2 && (a, b) in pairs && (b, a) in pairs
    && (|w.txs| > 0 ==> w.txs[0].worker == a) && (|w.txs| > 1 ==> w.txs[1].worker == b)
  }

  lemma DuoTogether(w: World, a: Worker, b: Worker, pairs: Pairs)
    requires Duo(w, a, b, pairs)
    ensures Together(w, pairs)
  {
  }

  /** A registration whose digests are all free takes its remaining locks one after the other. */
  lemma {:induction false} LockAll(events: seq<Event>, w: World, t: nat, a: Worker, b: Worker, pairs: Pairs)
    returns (longer: seq<Event>, next: World)
    requires Run(EMPTY, events) == Some(w) && t < |w.txs| && TogetherRun(EMPTY, events, pairs) && Duo(w, a, b, pairs)
    requires w.txs[t].pc.Locking? && w.txs[t].pc.registering && w.txs[t].pc.held <= |w.txs[t].worker.keyring|
    requires ValidWorker(w.txs[t].worker) && From(events, {a, b})
    requires forall k :: w.txs[t].pc.held <= k < |w.txs[t].worker.keyring| ==> w.txs[t].LockAt(k) !in w.db.locks
    ensures Run(EMPTY, longer) == Some(next) && TogetherRun(EMPTY, longer, pairs) && From(longer, {a, b})
    ensures next.db.rows == w.db.rows && next.txs == w.txs[t := w.txs[t].(pc := RegisterChecking)]
    ensures forall d :: d in next.db.locks ==> d in w.db.locks || d.version in w.txs[t].worker.keyring
    decreases |w.txs[t].worker.keyring| - w.txs[t].pc.held
  {
    DuoTogether(Step(w, Advance(t, true)).value, a, b, pairs);
    longer, next := Then(EMPTY, events, w, Advance(t, true), pairs);
    if w.txs[t].pc.held < |w.txs[t].worker.keyring| {
      forall k | w.txs[t].pc.held < k < |w.txs[t].worker.keyring| ensures next.txs[t].LockAt(k) !in next.db.locks {
        assert next.txs[t].LockAt(k) == w.txs[t].LockAt(k) != w.txs[t].LockAt(w.txs[t].pc.held);
      }
      longer, next := LockAll(longer, next, t, a, b, pairs);
    }
  }

  /** Two workers without a common key version both come to hold all their locks. */
  lemma BothLocked(a: Worker, b: Worker, identity: Identity, pairs: Pairs) returns (events: seq<Event>, w: World)
    requires ValidWorker(a) && ValidWorker(b) && !Intersect(a, b) && (a, b) in pairs && (b, a) in pairs
    ensures Run(EMPTY, events) == Some(w) && From(events, {a, b}) && TogetherRun(EMPTY, events, pairs)
    ensures w.db.rows == [] && w.txs == [Tx(a, identity, RegisterChecking), Tx(b, identity, RegisterChecking)]
  {
    DuoTogether(Step(EMPTY, Register(a, identity)).value, a, b, pairs);
    events, w := Then(EMPTY, [], EMPTY, Register(a, identity), pairs);
    DuoTogether(Step(w, Register(b, identity)).value, a, b, pairs);
    events, w := Then(EMPTY, events, w, Register(b, identity), pairs);
    assert w.txs == [Tx(a, identity, Locking(0, true)), Tx(b, identity, Locking(0, true))] && From(events, {a, b});
    events, w := LockAll(events, w, 0, a, b, pairs);
    events, w := LockAll(events, w, 1, a, b, pairs);
  }

  /** Both transactions of a world take one step that leaves the table alone. */
  lemma BothAdvance(before: seq<Event>, start: World, a: Tx, b: Tx, pc: Pc, pairs: Pairs)
    returns (events: seq<Event>, w: World)
    requires Run(EMPTY, before) == Some(start) && start.txs == [a, b] && TogetherRun(EMPTY, before, pairs)
    requires Duo(start, a.worker, b.worker, pairs) && From(before, {a.worker, b.worker})
    requires Segment(start.db, a, 0, true) == Some((start.db, pc))
    requires Segment(start.db, b, 1, true) == Some((start.db, pc))
    ensures Run(EMPTY, events) == Some(w) && TogetherRun(EMPTY, events, pairs) && From(events, {a.worker, b.worker})
    ensures w == World(start.db, [a.(pc := pc), b.(pc := pc)])
  {
    DuoTogether(Step(start, Advance(0, true)).value, a.worker, b.worker, pairs);
    events, w := Then(EMPTY, before, start, Advance(0, true), pairs);
    DuoTogether(Step(w, Advance(1, true)).value, a.worker, b.worker, pairs);
    events, w := Then(EMPTY, events, w, Advance(1, true), pairs);
  }

  /** Two workers without a common key version that run together can register the same person twice. */
  lemma DisjointKeyringsDuplicate(a: Worker, b: Worker, identity: Identity, pairs: Pairs)
    returns (events: seq<Event>, w: World)
    requires ValidWorker(a) && ValidWorker(b) && !Intersect(a, b) && (a, b) in pairs && (b, a) in pairs
    ensures Run(EMPTY, events) == Some(w) && Duplicated(w.db.rows)
    ensures From(events, {a, b}) && TogetherRun(EMPTY, events, pairs)
  {
    events, w := BothLocked(a, b, identity, pairs);
    events, w := BothAdvance(events, w, w.txs[0], w.txs[1], RegisterFinding, pairs);
    events, w := BothAdvance(events, w, w.txs[0], w.txs[1], RegisterWriting, pairs);
    events, w := BothAdvance(events, w, w.txs[0], w.txs[1], Committing(Insert, true, Registered), pairs);
    DuoTogether(Step(w, Advance(0, true)).value, a, b, pairs);
    events, w := Then(EMPTY, events, w, Advance(0, true), pairs);
    DuoTogether(Step(w, Advance(1, true)).value, a, b, pairs);
    events, w := Then(EMPTY, events, w, Advance(1, true), pairs);
    assert w.db.rows[0].identity == w.db.rows[1].identity;
  }

  /** When any workers of a set may run together, uniqueness holds if and only if all their keyrings intersect. */
  lemma UniqueIffKeyringsIntersect(workers: set<Worker>, identity: Identity)
    requires AllValid(workers)
    ensures (forall events, w :: From(events, workers) && Run(EMPTY, events) == Some(w) ==> !Duplicated(w.db.rows))
            <==> PairwiseIntersecting(workers)
  {
    if PairwiseIntersecting(workers) {
      forall events, w | From(events, workers) && Run(EMPTY, events) == Some(w) ensures !Duplicated(w.db.rows) {
        WorkersOverlap(EMPTY, events, workers);
        OneRowPerIdentity(events, w);
      }
    } else {
      var a, b :| a in workers && b in workers && !Intersect(a, b);
      var events, w := DisjointKeyringsDuplicate(a, b, identity, {(a, b), (b, a)});
      assert From(events, workers);
    }
  }
}
