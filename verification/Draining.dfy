/** The service's gate for two operations at a time, and closing it while some are inside. */
module Draining {
  import opened Common

  const CAPACITY: nat := 2

  /** Where the thread of one operation is. */
  datatype Phase = Admitted | Working | Leaving | Turned | Finished | Busy

  /** The semaphore's free slots, the two fields of the runtime, the threads so far, and what each call of close has
      returned. */
  datatype World = World(slots: int, active: int, closed: bool, threads: seq<Phase>, closers: seq<Option<bool>>)

  datatype Event = Call | Enter(thread: nat) | Finish(thread: nat) | Release(thread: nat) | Close | Answer(closer: nat)

  const START := World(CAPACITY, 0, false, [], [])

  predicate Enabled(w: World, e: Event) {
    match e
    case Call => true
    case Enter(t) => t < |w.threads| && w.threads[t].Admitted?
    case Finish(t) => t < |w.threads| && w.threads[t].Working?
    case Release(t) => t < |w.threads| && (w.threads[t].Leaving? || w.threads[t].Turned?)
    case Close => true
    case Answer(c) => c < |w.closers| && w.closers[c].None?
  }

  /** A call is turned away at once when no slot is free; inside, a closed service is left again. Close returns whether
      it saw no operation inside, at whatever time it is woken or times out. */
  function Step(w: World, e: Event): World
    requires Enabled(w, e)
  {
    match e
    case Call =>
      if w.slots > 0 then w.(slots := w.slots - 1, threads := w.threads + [Admitted])
      else w.(threads := w.threads + [Busy])
    case Enter(t) =>
      if w.closed then w.(threads := w.threads[t := Turned])
      else w.(active := w.active + 1, threads := w.threads[t := Working])
    case Finish(t) => w.(active := w.active - 1, threads := w.threads[t := Leaving])
    case Release(t) => w.(slots := w.slots + 1, threads := w.threads[t := Finished])
    case Close => w.(closed := true, closers := w.closers + [None])
    case Answer(c) => w.(closers := w.closers[c := Some(w.active == 0)])
  }

  ghost predicate Runs(w: World, events: seq<Event>, end: World)
    decreases |events|
  {
    if events == [] then end == w else Enabled(w, events[0]) && Runs(Step(w, events[0]), events[1..], end)
  }

  /** The runtime and its gate as objects: each event is what runs under the condition's lock, or one
      semaphore call. */
  class Runtime {
    var slots: int
    var active: int
    var closed: bool
    var threads: seq<Phase>
    var closers: seq<Option<bool>>

    function View(): World
      reads this
    {
      World(slots, active, closed, threads, closers)
    }

    constructor ()
      ensures View() == START
    {
      slots, active, closed, threads, closers := CAPACITY, 0, false, [], [];
    }

    method Perform(e: Event)
      requires Enabled(View(), e)
      modifies this
      ensures View() == Step(old(View()), e)
      ensures old(Sound(View())) ==> Sound(View())
    {
      ghost var before := View();
      match e {
        case Call =>
          if slots > 0 {
            slots := slots - 1;
            threads := threads + [Admitted];
          } else {
            threads := threads + [Busy];
          }
        case Enter(t) =>
          if closed {
            threads := threads[t := Turned];
          } else {
            active := active + 1;
            threads := threads[t := Working];
          }
        case Finish(t) =>
          active := active - 1;
          threads := threads[t := Leaving];
        case Release(t) =>
          slots := slots + 1;
          threads := threads[t := Finished];
        case Close =>
          closed := true;
          closers := closers + [None];
        case Answer(c) => closers := closers[c := Some(active == 0)];
      }
      if Sound(before) { StepKeepsSound(before, e); }
    }
  }

  // ----- what every step keeps -----

  function Inside(threads: seq<Phase>): set<nat> {
    set t | 0 <= t < |threads| && threads[t].Working?
  }

  /** A thread in such a phase holds a slot. */
  predicate Holds(p: Phase) {
    !p.Finished? && !p.Busy?
  }

  function Holding(threads: seq<Phase>): set<nat> {
    set t | 0 <= t < |threads| && Holds(threads[t])
  }

  /** The counters count what they are for, and who was told that the service is empty was told so for good. */
  ghost predicate Sound(w: World) {
    && w.active == |Inside(w.threads)| && w.slots + |Holding(w.threads)| == CAPACITY && 0 <= w.slots
    && (w.closers != [] ==> w.closed)
    && (forall c :: 0 <= c < |w.closers| && w.closers[c] == Some(true) ==> w.active == 0)
  }

  function One(b: bool): nat {
    if b then 1 else 0
  }

  lemma InsideMoves(before: seq<Phase>, t: nat, p: Phase)
    requires t < |before|
    ensures Inside(before[t := p]) == if p.Working? then Inside(before) + {t} else Inside(before) - {t}
    ensures |Inside(before[t := p])| == |Inside(before)| + One(p.Working?) - One(before[t].Working?)
  {
    var moved := if p.Working? then Inside(before) + {t} else Inside(before) - {t};
    assert t in Inside(before) <==> before[t].Working?;
    forall u ensures u in Inside(before[t := p]) <==> u in moved {
    }
    assert Inside(before[t := p]) == moved;
  }

  lemma HoldingMoves(before: seq<Phase>, t: nat, p: Phase)
    requires t < |before|
    ensures |Holding(before[t := p])| == |Holding(before)| + One(Holds(p)) - One(Holds(before[t]))
  {
    var moved := if Holds(p) then Holding(before) + {t} else Holding(before) - {t};
    assert t in Holding(before) <==> Holds(before[t]);
    forall u ensures u in Holding(before[t := p]) <==> u in moved {
    }
    assert Holding(before[t := p]) == moved;
  }

  lemma NewThread(before: seq<Phase>, p: Phase)
    requires p.Admitted? || p.Busy?
    ensures |Inside(before + [p])| == |Inside(before)| && |Holding(before + [p])| == |Holding(before)| + One(Holds(p))
  {
    var after, n := before + [p], |before|;
    assert after[n] == p && forall u: nat | u < n :: after[u] == before[u];
    assert Inside(after) == Inside(before);
    if Holds(p) {
      assert Holding(after) - {n} == Holding(before) && n in Holding(after);
    } else {
      assert Holding(after) == Holding(before);
    }
  }

  /** One thread moves on, and the counters with it. */
  lemma MoveKeepsSound(w: World, next: World, t: nat, p: Phase)
    requires Sound(w) && t < |w.threads|
    requires next == w.(threads := w.threads[t := p], slots := next.slots, active := next.active)
    requires next.active == w.active + One(p.Working?) - One(w.threads[t].Working?)
    requires next.slots == w.slots + One(Holds(w.threads[t])) - One(Holds(p)) && Holds(w.threads[t])
    requires w.closed ==> !p.Working?
    ensures Sound(next)
  {
    InsideMoves(w.threads, t, p);
    HoldingMoves(w.threads, t, p);
  }

  lemma CallKeepsSound(w: World)
    requires Sound(w)
    ensures Sound(Step(w, Call))
  {
    NewThread(w.threads, if w.slots > 0 then Admitted else Busy);
  }

  lemma StepKeepsSound(w: World, e: Event)
    requires Sound(w) && Enabled(w, e)
    ensures Sound(Step(w, e))
  {
    var next := Step(w, e);
    match e
    case Call => CallKeepsSound(w);
    case Enter(t) => MoveKeepsSound(w, next, t, if w.closed then Turned else Working);
    case Finish(t) => MoveKeepsSound(w, next, t, Leaving);
    case Release(t) => MoveKeepsSound(w, next, t, Finished);
    case Close =>
    case Answer(c) =>
  }

  lemma {:induction false} RunKeepsSound(w: World, events: seq<Event>, end: World)
    requires Sound(w) && Runs(w, events, end)
    ensures Sound(end)
    decreases |events|
  {
    if events != [] {
      StepKeepsSound(w, events[0]);
      RunKeepsSound(Step(w, events[0]), events[1..], end);
    }
  }

  /** In every run `active` is the number of operations inside, never more than two; the semaphore is never released
      beyond its bound, and a call is turned away if and only if two others hold its slots. */
  lemma ActiveCountsInside(events: seq<Event>, w: World)
    requires Runs(START, events, w)
    ensures w.active == |Inside(w.threads)| <= CAPACITY && 0 <= w.slots <= CAPACITY
    ensures Step(w, Call).threads[|w.threads|].Busy? <==> |Holding(w.threads)| == CAPACITY
  {
    RunKeepsSound(START, events, w);
    assert Inside(w.threads) <= Holding(w.threads);
    assert Holding(w.threads) == Inside(w.threads) + (Holding(w.threads) - Inside(w.threads));
  }

  /** After close no operation gets inside any more: those inside at any later time were inside before. */
  lemma {:induction false} NoneEntersAfterClose(w: World, events: seq<Event>, end: World)
    requires w.closed && Runs(w, events, end)
    ensures end.closed && Inside(end.threads) <= Inside(w.threads)
    decreases |events|
  {
    if events != [] {
      ClosedStepAdmitsNone(w, events[0]);
      NoneEntersAfterClose(Step(w, events[0]), events[1..], end);
    }
  }

  lemma ClosedStepAdmitsNone(w: World, e: Event)
    requires w.closed && Enabled(w, e)
    ensures Step(w, e).closed && Inside(Step(w, e).threads) <= Inside(w.threads)
  {
    var next := Step(w, e);
    forall t | t in Inside(next.threads) ensures t in Inside(w.threads) {
      assert next.threads[t].Working?;
    }
  }

  /** When a close has returned true, nothing is inside then and ever after. */
  lemma DrainedForGood(before: seq<Event>, w: World, c: nat, after: seq<Event>, end: World)
    requires Runs(START, before, w) && c < |w.closers| && w.closers[c] == Some(true)
    requires Runs(w, after, end)
    ensures Inside(w.threads) == {} && Inside(end.threads) == {} && end.active == 0
  {
    RunKeepsSound(START, before, w);
    NoneEntersAfterClose(w, after, end);
    RunKeepsSound(w, after, end);
  }

  function Finishes(events: seq<Event>): nat {
    if events == [] then 0 else One(events[0].Finish?) + Finishes(events[1..])
  }

  /** After close each operation that finishes leaves one fewer inside, and nothing else changes their number. */
  lemma {:induction false} FinishesDrain(w: World, events: seq<Event>, end: World)
    requires w.closed && Runs(w, events, end)
    ensures end.active == w.active - Finishes(events)
    decreases |events|
  {
    if events != [] {
      ClosedStepAdmitsNone(w, events[0]);
      FinishesDrain(Step(w, events[0]), events[1..], end);
    }
  }

  /** And a closed service can always become empty. */
  lemma {:induction false} Drains(w: World)
    requires Sound(w) && w.closed
    ensures exists events, end :: Runs(w, events, end) && Inside(end.threads) == {} && |events| == w.active
    decreases |Inside(w.threads)|
  {
    if Inside(w.threads) == {} {
      assert Runs(w, [], w);
    } else {
      var t :| t in Inside(w.threads);
      var next := Step(w, Finish(t));
      StepKeepsSound(w, Finish(t));
      InsideMoves(w.threads, t, Leaving);
      Drains(next);
      var events, end :| Runs(next, events, end) && Inside(end.threads) == {} && |events| == next.active;
      assert ([Finish(t)] + events)[1..] == events;
      assert Runs(w, [Finish(t)] + events, end);
    }
  }
}
