/** What holds in every run of the transport, whatever the interleaving. */
module AuthTransportSafety {
  import opened Common
  import opened AuthTransport
  import opened AuthTransportRuns

  // ----- the protocol part: single flight and the lock -----

  lemma SpawnKeepsProtocol(w: World, tab: nat, pc: Pc)
    requires Protocol(w) && tab < |w.tabs| && !InFlight(pc) && !Critical(pc)
    ensures Protocol(Spawn(w, tab, pc))
  {
  }

  lemma EnsureKeepsProtocol(w: World, tab: nat, force: bool, csrf: bool, now: int)
    requires Protocol(w) && tab < |w.tabs|
    ensures Protocol(EnsureIn(w, tab, force, csrf, now).0)
  {
  }

  lemma MoveKeepsProtocol(w: World, i: nat, pc: Pc)
    requires Protocol(w) && i < |w.tasks|
    requires InFlight(pc) == InFlight(w.tasks[i].pc)
    requires Critical(pc) ==> Critical(w.tasks[i].pc)
    ensures Protocol(Move(w, i, pc))
  {
  }

  lemma RetabKeepsProtocol(w: World, tab: nat, l: Local)
    requires Protocol(w) && tab < |w.tabs|
    requires l.tab.refreshing == w.tabs[tab].refreshing
    ensures Protocol(WithLocal(w, tab, l))
  {
  }

  lemma TakeKeepsProtocol(w: World, i: nat, pc: Pc)
    requires Protocol(w) && CanEnter(w) && i < |w.tasks| && InFlight(pc) == InFlight(w.tasks[i].pc)
    ensures Protocol(Move(w, i, pc).(holder := if w.locksAvailable && Critical(pc) then Some(i) else w.holder))
  {
  }

  lemma EnterKeepsProtocol(w: World, i: nat, now: int)
    requires Protocol(w) && i < |w.tasks| && EnterStep(w, i, now).Some?
    ensures Protocol(EnterStep(w, i, now).value)
  {
    match w.tasks[i].pc
    case RefreshQueued(before, identity) => TakeKeepsProtocol(w, i, RefreshEntered(w.store, before, identity, now));
    case LogoutQueued => TakeKeepsProtocol(w, i, LogoutSent);
    case _ =>
  }

  lemma SettleKeepsProtocol(w: World, i: nat)
    requires Protocol(w) && i < |w.tasks| && SettleStep(w, i).Some?
    ensures Protocol(SettleStep(w, i).value)
  {
  }

  lemma FinishKeepsProtocol(w: World, i: nat, next: (Local, Pc))
    requires Protocol(w) && i < |w.tasks|
    requires next.0.tab.refreshing == w.tabs[w.tasks[i].tab].refreshing
    requires InFlight(next.1) == InFlight(w.tasks[i].pc)
    requires Critical(next.1) ==> Critical(w.tasks[i].pc)
    ensures Protocol(FinishLocal(w, i, next))
  {
    RetabKeepsProtocol(w, w.tasks[i].tab, next.0);
    MoveKeepsProtocol(WithLocal(w, w.tasks[i].tab, next.0), i, next.1);
  }

  lemma AnswerKeepsProtocol(w: World, i: nat, reply: Reply, csrf: bool, now: int, aborted: bool)
    requires Protocol(w) && i < |w.tasks| && AnswerStep(w, i, reply, csrf, now, aborted).Some?
    ensures Protocol(AnswerStep(w, i, reply, csrf, now, aborted).value)
  {
    var tab := w.tasks[i].tab;
    var l := LocalOf(w, tab);
    match w.tasks[i].pc
    case RefreshSent(identity) => FinishKeepsProtocol(w, i, RefreshReplied(l, identity, reply));
    case RefreshDeriving(identity, tenant) => FinishKeepsProtocol(w, i, TenantRestored(l, identity, tenant, reply));
    case SelectDeriving(generation, tenant, identity) =>
      FinishKeepsProtocol(w, i, SelectReplied(l, generation, tenant, identity, reply));
    case LogoutSent => FinishKeepsProtocol(w, i, LogoutReplied(l, reply));
    case FetchFirst(scope, captured, original, sent) =>
      if FetchForcesRefresh(w.store, scope, captured, original, reply, csrf) {
        EnsureKeepsProtocol(w, tab, true, csrf, now);
        var (w', awaited) := EnsureIn(w, tab, true, csrf, now);
        MoveKeepsProtocol(w', i, FetchRetrying(scope, captured, awaited));
      } else {
        MoveKeepsProtocol(w, i, FirstReplied(w.store, scope, captured, original, reply, csrf, aborted));
      }
    case FetchSecond(scope, captured, sent) => MoveKeepsProtocol(w, i, SecondReplied(w.store, scope, captured, reply));
  }

  lemma ResumeKeepsProtocol(w: World, i: nat, aborted: bool)
    requires Protocol(w) && i < |w.tasks| && ResumeStep(w, i, aborted).Some?
    ensures Protocol(ResumeStep(w, i, aborted).value)
  {
    var w' := ResumeStep(w, i, aborted).value;
    assert w' == Move(w, i, w'.tasks[i].pc);
    MoveKeepsProtocol(w, i, w'.tasks[i].pc);
  }

  lemma CallKeepsProtocol(w: World, tab: nat, e: Event)
    requires Protocol(w) && tab < |w.tabs| && Step(w, e).Some?
    requires (e.Select? || e.Logout? || e.Fetch?) && e.tab == tab
    ensures Protocol(Step(w, e).value)
  {
    RetabKeepsProtocol(w, tab, LocalOf(Overtake(w, tab), tab));
    match e
    case Select(_, tenant, csrf, now) =>
      EnsureKeepsProtocol(Overtake(w, tab), tab, false, csrf, now);
      var (w', awaited) := EnsureIn(Overtake(w, tab), tab, false, csrf, now);
      SpawnKeepsProtocol(w', tab, SelectEnsuring(w'.tabs[tab].generation, tenant, awaited));
    case Logout(_) =>
      SpawnKeepsProtocol(Overtake(w, tab), tab, LogoutQueued);
    case Fetch(_, scope, csrf, now) =>
      EnsureKeepsProtocol(w, tab, false, csrf, now);
      var (w', awaited) := EnsureIn(w, tab, false, csrf, now);
      SpawnKeepsProtocol(w', tab, FetchEnsuring(scope, awaited));
      SpawnKeepsProtocol(w, tab, FirstSend(w.store, scope));
  }

  lemma ReadBodyKeepsProtocol(w: World, i: nat)
    requires Protocol(w) && i < |w.tasks| && w.tasks[i].tab < |w.tabs| && ReadBodyStep(w, i).Some?
    ensures Protocol(ReadBodyStep(w, i).value)
  {
    var task := w.tasks[i];
    FinishKeepsProtocol(w, i, RefreshRead(LocalOf(w, task.tab), task.pc.identity, task.pc.reply));
  }

  lemma StepKeepsProtocol(w: World, e: Event)
    requires Protocol(w) && Step(w, e).Some?
    ensures Protocol(Step(w, e).value)
  {
    match e
    case Login(tab, token) => RetabKeepsProtocol(w, tab, LoggedIn(LocalOf(w, tab), token));
    case Ensure(tab, force, csrf, now) => EnsureKeepsProtocol(w, tab, force, csrf, now);
    case Select(tab, _, _, _) => CallKeepsProtocol(w, tab, e);
    case Logout(tab) => CallKeepsProtocol(w, tab, e);
    case Fetch(tab, _, _, _) => CallKeepsProtocol(w, tab, e);
    case EnterLock(i, now) => EnterKeepsProtocol(w, i, now);
    case Answer(i, reply, csrf, now, aborted) => AnswerKeepsProtocol(w, i, reply, csrf, now, aborted);
    case ReadBody(i) => ReadBodyKeepsProtocol(w, i);
    case Resume(i, aborted) => ResumeKeepsProtocol(w, i, aborted);
    case Settle(i) => SettleKeepsProtocol(w, i);
  }

  lemma StepKeepsLockMode(w: World, e: Event)
    requires Step(w, e).Some?
    ensures Step(w, e).value.locksAvailable == w.locksAvailable
  {
  }

  lemma {:induction false} RunKeepsProtocol(w: World, events: seq<Event>)
    requires Protocol(w) && Run(w, events).Some?
    ensures Protocol(Run(w, events).value) && Run(w, events).value.locksAvailable == w.locksAvailable
    decreases |events|
  {
    if events != [] {
      StepKeepsProtocol(w, events[0]);
      StepKeepsLockMode(w, events[0]);
      RunKeepsProtocol(Step(w, events[0]).value, events[1..]);
    }
  }

  /** Per tab at most one refresh is in flight, and it is the one `refreshing` names. */
  lemma OneRefreshPerTab(tabs: nat, locksAvailable: bool, events: seq<Event>, w: World, i: nat, j: nat)
    requires Run(Start(tabs, locksAvailable), events) == Some(w)
    requires i < |w.tasks| && j < |w.tasks| && w.tasks[i].tab == w.tasks[j].tab
    requires InFlight(w.tasks[i].pc) && InFlight(w.tasks[j].pc)
    ensures i == j && w.tasks[i].tab < |w.tabs| && w.tabs[w.tasks[i].tab].refreshing == Some(i)
  {
    RunKeepsProtocol(Start(tabs, locksAvailable), events);
  }

  /** With the cross-tab lock no two refreshes and logouts, of whichever tabs, are on the network together. */
  lemma LockedSectionsNeverOverlap(tabs: nat, events: seq<Event>, w: World, i: nat, j: nat)
    requires Run(Start(tabs, true), events) == Some(w)
    requires i < |w.tasks| && j < |w.tasks| && Critical(w.tasks[i].pc) && Critical(w.tasks[j].pc)
    ensures i == j
  {
    RunKeepsProtocol(Start(tabs, true), events);
  }

  /** Extends a concrete run by one event. */
  lemma {:induction false} Then(start: World, events: seq<Event>, w: World, e: Event)
    returns (longer: seq<Event>, next: World)
    requires Run(start, events) == Some(w) && Step(w, e).Some?
    ensures longer == events + [e] && Some(next) == Step(w, e)
    ensures Run(start, longer) == Some(next)
    decreases |events|
  {
    longer, next := events + [e], Step(w, e).value;
    if events == [] {
      assert longer[1..] == [];
    } else {
      var rest, end := Then(Step(start, events[0]).value, events[1..], w, e);
      assert longer[1..] == rest;
    }
  }

  /** A browser without `navigator.locks` gives no such guarantee: here a refresh and a logout overlap. */
  lemma WithoutLocksSectionsOverlap(token: Token) returns (events: seq<Event>, w: World, i: nat, j: nat)
    ensures Run(Start(1, false), events) == Some(w)
    ensures i < |w.tasks| && j < |w.tasks| && i != j
    ensures Critical(w.tasks[i].pc) && Critical(w.tasks[j].pc)
  {
    var start := Start(1, false);
    events, w := Then(start, [], start, Login(0, token));
    events, w := Then(start, events, w, Ensure(0, true, true, 0));
    events, w := Then(start, events, w, Logout(0));
    events, w := Then(start, events, w, EnterLock(0, 0));
    events, w := Then(start, events, w, EnterLock(1, 0));
    i, j := 0, 1;
  }

  // ----- a tenant token never outlives its identity -----

  lemma SpawnKeepsBound(w: World, tab: nat, pc: Pc)
    requires Bound(w) && TaskSound(pc)
    ensures Bound(Spawn(w, tab, pc))
  {
  }

  lemma EnsureKeepsBound(w: World, tab: nat, force: bool, csrf: bool, now: int)
    requires Bound(w) && tab < |w.tabs|
    ensures Bound(EnsureIn(w, tab, force, csrf, now).0)
    ensures EnsureIn(w, tab, force, csrf, now).0.store == w.store
    ensures |w.tasks| <= |EnsureIn(w, tab, force, csrf, now).0.tasks|
    ensures EnsureIn(w, tab, force, csrf, now).0.tasks[..|w.tasks|] == w.tasks
  {
  }

  lemma FinishKeepsBound(w: World, i: nat, next: (Local, Pc))
    requires Bound(w) && i < |w.tasks| && w.tasks[i].tab < |w.tabs|
    requires next.0.store.TenantBound() && TaskSound(next.1)
    ensures Bound(FinishLocal(w, i, next))
  {
  }

  lemma OwnCredential(s: Store, scope: Scope)
    requires s.TenantBound()
    ensures BelongsTo(BearerOf(s, scope), IdentityOf(s, scope))
  {
  }

  lemma MoveKeepsBound(w: World, i: nat, pc: Pc)
    requires Bound(w) && i < |w.tasks| && TaskSound(pc)
    ensures Bound(Move(w, i, pc))
  {
  }

  lemma AnswerKeepsBound(w: World, i: nat, reply: Reply, csrf: bool, now: int, aborted: bool)
    requires Bound(w) && i < |w.tasks| && w.tasks[i].tab < |w.tabs| && HonestReply(w.tasks[i].pc, reply)
    requires AnswerStep(w, i, reply, csrf, now, aborted).Some?
    ensures Bound(AnswerStep(w, i, reply, csrf, now, aborted).value)
  {
    var tab := w.tasks[i].tab;
    var l := LocalOf(w, tab);
    match w.tasks[i].pc
    case RefreshSent(identity) => FinishKeepsBound(w, i, RefreshReplied(l, identity, reply));
    case RefreshDeriving(identity, tenant) => FinishKeepsBound(w, i, TenantRestored(l, identity, tenant, reply));
    case SelectDeriving(generation, tenant, identity) =>
      FinishKeepsBound(w, i, SelectReplied(l, generation, tenant, identity, reply));
    case LogoutSent => FinishKeepsBound(w, i, LogoutReplied(l, reply));
    case FetchFirst(scope, captured, original, sent) =>
      OwnCredential(w.store, scope);
      if FetchForcesRefresh(w.store, scope, captured, original, reply, csrf) {
        EnsureKeepsBound(w, tab, true, csrf, now);
        var (w', awaited) := EnsureIn(w, tab, true, csrf, now);
        MoveKeepsBound(w', i, FetchRetrying(scope, captured, awaited));
      } else {
        MoveKeepsBound(w, i, FirstReplied(w.store, scope, captured, original, reply, csrf, aborted));
      }
    case FetchSecond(scope, captured, sent) => MoveKeepsBound(w, i, SecondReplied(w.store, scope, captured, reply));
  }

  lemma ResumeKeepsBound(w: World, i: nat, aborted: bool)
    requires Bound(w) && i < |w.tasks| && w.tasks[i].tab < |w.tabs| && ResumeStep(w, i, aborted).Some?
    ensures Bound(ResumeStep(w, i, aborted).value)
  {
    OwnCredential(w.store, AccountScope);
    OwnCredential(w.store, TenantScope);
    var w' := ResumeStep(w, i, aborted).value;
    assert w' == Move(w, i, w'.tasks[i].pc);
    MoveKeepsBound(w, i, w'.tasks[i].pc);
  }

  lemma CallKeepsBound(w: World, e: Event)
    requires Bound(w) && !e.Targeted() && Step(w, e).Some?
    ensures Bound(Step(w, e).value)
  {
    match e
    case Login(tab, token) =>
    case Ensure(tab, force, csrf, now) => EnsureKeepsBound(w, tab, force, csrf, now);
    case Select(tab, tenant, csrf, now) => EnsureKeepsBound(Overtake(w, tab), tab, false, csrf, now);
    case Logout(tab) => SpawnKeepsBound(Overtake(w, tab), tab, LogoutQueued);
    case Fetch(tab, scope, csrf, now) =>
      OwnCredential(w.store, scope);
      EnsureKeepsBound(w, tab, false, csrf, now);
  }

  lemma EnterKeepsBound(w: World, i: nat, now: int)
    requires Bound(w) && i < |w.tasks| && EnterStep(w, i, now).Some?
    ensures Bound(EnterStep(w, i, now).value)
  {
  }

  lemma ReadBodyKeepsBound(w: World, i: nat)
    requires Bound(w) && i < |w.tasks| && w.tasks[i].tab < |w.tabs| && ReadBodyStep(w, i).Some?
    ensures Bound(ReadBodyStep(w, i).value)
  {
    var task := w.tasks[i];
    assert TaskSound(task.pc);
    FinishKeepsBound(w, i, RefreshRead(LocalOf(w, task.tab), task.pc.identity, task.pc.reply));
  }

  lemma SettleKeepsBound(w: World, i: nat)
    requires Bound(w) && i < |w.tasks| && w.tasks[i].tab < |w.tabs| && SettleStep(w, i).Some?
    ensures Bound(SettleStep(w, i).value)
  {
    var l := LocalOf(w, w.tasks[i].tab);
    FinishKeepsBound(w, i, (l.(tab := l.tab.(refreshing := None)), RefreshDone(w.tasks[i].pc.succeeded)));
  }

  lemma StepKeepsBound(w: World, e: Event)
    requires Bound(w) && Honest(w, e) && Step(w, e).Some?
    ensures Bound(Step(w, e).value)
  {
    if !e.Targeted() {
      CallKeepsBound(w, e);
    } else {
      match e
      case EnterLock(i, now) => EnterKeepsBound(w, i, now);
      case Answer(i, reply, csrf, now, aborted) => AnswerKeepsBound(w, i, reply, csrf, now, aborted);
      case ReadBody(i) => ReadBodyKeepsBound(w, i);
      case Resume(i, aborted) => ResumeKeepsBound(w, i, aborted);
      case Settle(i) => SettleKeepsBound(w, i);
    }
  }

  lemma {:induction false} RunKeepsBound(w: World, events: seq<Event>)
    requires Bound(w) && HonestRun(w, events) && Run(w, events).Some?
    ensures Bound(Run(w, events).value)
    decreases |events|
  {
    if events != [] {
      StepKeepsBound(w, events[0]);
      RunKeepsBound(Step(w, events[0]).value, events[1..]);
    }
  }

  /** In every interleaving the stored tenant token belongs to the stored account and membership, and a request
      on the network carries only a credential of the identity captured for it. */
  lemma TenantTokenAlwaysBound(tabs: nat, locksAvailable: bool, events: seq<Event>, w: World)
    requires HonestRun(Start(tabs, locksAvailable), events)
    requires Run(Start(tabs, locksAvailable), events) == Some(w)
    ensures w.store.TenantBound()
    ensures forall i :: 0 <= i < |w.tasks| && (w.tasks[i].pc.FetchFirst? || w.tasks[i].pc.FetchSecond?) ==>
              BelongsTo(w.tasks[i].pc.sent, w.tasks[i].pc.captured)
  {
    RunKeepsBound(Start(tabs, locksAvailable), events);
    forall i | 0 <= i < |w.tasks| && (w.tasks[i].pc.FetchFirst? || w.tasks[i].pc.FetchSecond?)
      ensures BelongsTo(w.tasks[i].pc.sent, w.tasks[i].pc.captured)
    {
      assert TaskSound(w.tasks[i].pc);
    }
  }

  /** The trust in refresh cannot be dropped: committing a refreshed account token keeps a bound store bound
      exactly when no tenant token is stored or the new token names the old account. */
  lemma RefreshKeepsBindingIff(l: Local, identity: Option<Account>, reply: Reply)
    requires l.store.TenantBound() && reply.AccountGranted? && l.store.Account() == identity
    ensures RefreshRead(l, identity, reply).0.store.TenantBound() <==>
            l.store.tenantToken.None? || identity == Some(reply.token.account)
  {
  }

  // ----- a token rotated by another tab is not refreshed again -----

  lemma EnsureIsOldOrNew(w: World, tab: nat, force: bool, csrf: bool, now: int, i: nat)
    requires tab < |w.tabs| && i < |w.tasks|
    ensures i < |EnsureIn(w, tab, force, csrf, now).0.tasks|
    ensures EnsureIn(w, tab, force, csrf, now).0.tasks[i] == w.tasks[i]
  {
  }

  /** No coroutine comes back to the queue: one that waits there has not moved. */
  lemma StepKeepsQueued(w: World, e: Event, i: nat)
    requires i < |w.tasks| && Step(w, e).Some?
    requires i < |Step(w, e).value.tasks| && Step(w, e).value.tasks[i].pc.RefreshQueued?
    ensures w.tasks[i].pc == Step(w, e).value.tasks[i].pc
  {
    StepIsLocal(w, e);
    if e.Targeted() && e.task == i {
      match e
      case EnterLock(_, now) =>
      case Answer(_, reply, csrf, now, aborted) => AnswerLeavesQueue(w, i, reply, csrf, now, aborted);
      case ReadBody(_) =>
      case Resume(_, aborted) =>
      case Settle(_) =>
    }
  }

  lemma AnswerLeavesQueue(w: World, i: nat, reply: Reply, csrf: bool, now: int, aborted: bool)
    requires i < |w.tasks| && w.tasks[i].tab < |w.tabs| && AnswerStep(w, i, reply, csrf, now, aborted).Some?
    ensures !AnswerStep(w, i, reply, csrf, now, aborted).value.tasks[i].pc.RefreshQueued?
  {
    var tab := w.tasks[i].tab;
    match w.tasks[i].pc
    case FetchFirst(scope, captured, original, sent) =>
      if FetchForcesRefresh(w.store, scope, captured, original, reply, csrf) {
        EnsureIsOldOrNew(w, tab, true, csrf, now, i);
        assert AnswerStep(w, i, reply, csrf, now, aborted).value.tasks[i].pc.FetchRetrying?;
      }
    case FetchSecond(_, _, _) =>
    case LogoutSent =>
    case _ =>
  }

  lemma {:induction false} RunKeepsQueued(w: World, events: seq<Event>, i: nat)
    requires i < |w.tasks| && Run(w, events).Some?
    requires i < |Run(w, events).value.tasks| && Run(w, events).value.tasks[i].pc.RefreshQueued?
    ensures w.tasks[i].pc == Run(w, events).value.tasks[i].pc
    decreases |events|
  {
    if events != [] {
      StepIsLocal(w, events[0]);
      RunKeepsQueued(Step(w, events[0]).value, events[1..], i);
      StepKeepsQueued(w, events[0], i);
    }
  }

  /** A refresh started on some token and granted the lock later, after anything the other tabs did, goes to the network
      if and only if that token is still stored or the stored one is stale; otherwise it works with what is stored. */
  lemma RotatedTokenIsNotRefreshed(start: World, tab: nat, force: bool, csrf: bool, startedAt: int, queued: World,
                                   events: seq<Event>, w: World, now: int, end: World)
    requires tab < |start.tabs| && start.tabs[tab].refreshing.None?
    requires EnsureIn(start, tab, force, csrf, startedAt) == (queued, Some(|start.tasks|))
    requires Run(queued, events) == Some(w) && |start.tasks| < |w.tasks| && w.tasks[|start.tasks|].pc.RefreshQueued?
    requires Step(w, EnterLock(|start.tasks|, now)) == Some(end)
    ensures var i := |start.tasks|;
            && i < |end.tasks| && end.store == w.store
            && (end.tasks[i].pc.RefreshSent? <==> w.store.token == start.store.token || w.store.TokenExpired(now))
            && (end.tasks[i].pc.RefreshSent? ==> end.tasks[i].pc.identity == start.store.Account())
            && (end.tasks[i].pc.RefreshDeriving? ==>
                  end.tasks[i].pc.identity == w.store.Account() && w.store.active == Some(end.tasks[i].pc.tenant))
  {
    RunKeepsQueued(queued, events, |start.tasks|);
  }

  // ----- overtaken selections and returned responses -----

  predicate Overtakes(e: Event, tab: nat) {
    (e.Select? || e.Logout? || e.Login?) && e.tab == tab
  }

  predicate SelectPending(pc: Pc) {
    pc.SelectEnsuring? || pc.SelectDeriving?
  }

  ghost predicate GenerationsBounded(w: World) {
    forall i :: 0 <= i < |w.tasks| && SelectPending(w.tasks[i].pc) ==>
      w.tasks[i].tab < |w.tabs| && w.tasks[i].pc.generation <= w.tabs[w.tasks[i].tab].generation
  }

  /** The task is a selection that a later event of its own tab has overtaken, or one that was rejected. */
  ghost predicate Stale(w: World, i: nat) {
    && i < |w.tasks|
    && (|| w.tasks[i].pc == SelectDone(false)
        || (&& SelectPending(w.tasks[i].pc)
            && w.tasks[i].tab < |w.tabs|
            && w.tasks[i].pc.generation < w.tabs[w.tasks[i].tab].generation))
  }

  /** From `w` to `w'` nothing but task `i` moved, and no tab's generation fell. */
  ghost predicate OnlyMoved(w: World, w': World, i: nat) {
    && |w'.tabs| == |w.tabs|
    && |w.tasks| <= |w'.tasks|
    && (forall j :: 0 <= j < |w.tasks| ==> w'.tasks[j].tab == w.tasks[j].tab)
    && (forall j :: 0 <= j < |w.tasks| && j != i ==> w'.tasks[j] == w.tasks[j])
    && (forall t :: 0 <= t < |w.tabs| ==> w.tabs[t].generation <= w'.tabs[t].generation)
  }

  lemma EnsureIsLocal(w: World, tab: nat, force: bool, csrf: bool, now: int)
    requires tab < |w.tabs|
    ensures OnlyMoved(w, EnsureIn(w, tab, force, csrf, now).0, |EnsureIn(w, tab, force, csrf, now).0.tasks|)
    ensures forall i :: |w.tasks| <= i < |EnsureIn(w, tab, force, csrf, now).0.tasks| ==>
              InFlight(EnsureIn(w, tab, force, csrf, now).0.tasks[i].pc)
  {
  }

  lemma MoveIsLocal(w: World, i: nat, pc: Pc)
    requires i < |w.tasks|
    ensures OnlyMoved(w, Move(w, i, pc), i) && |Move(w, i, pc).tasks| == |w.tasks|
  {
  }

  lemma AnswerIsLocal(w: World, i: nat, reply: Reply, csrf: bool, now: int, aborted: bool)
    requires i < |w.tasks| && w.tasks[i].tab < |w.tabs| && AnswerStep(w, i, reply, csrf, now, aborted).Some?
    ensures OnlyMoved(w, AnswerStep(w, i, reply, csrf, now, aborted).value, i)
    ensures forall j :: |w.tasks| <= j < |AnswerStep(w, i, reply, csrf, now, aborted).value.tasks| ==>
              InFlight(AnswerStep(w, i, reply, csrf, now, aborted).value.tasks[j].pc)
  {
    var tab := w.tasks[i].tab;
    match w.tasks[i].pc
    case FetchFirst(scope, captured, original, sent) =>
      if FetchForcesRefresh(w.store, scope, captured, original, reply, csrf) {
        EnsureIsLocal(w, tab, true, csrf, now);
        var (w', awaited) := EnsureIn(w, tab, true, csrf, now);
        MoveIsLocal(w', i, FetchRetrying(scope, captured, awaited));
      } else {
        MoveIsLocal(w, i, FirstReplied(w.store, scope, captured, original, reply, csrf, aborted));
      }
    case FetchSecond(scope, captured, sent) => MoveIsLocal(w, i, SecondReplied(w.store, scope, captured, reply));
    case _ =>
  }

  /** A new task that is a selection carries its tab's current generation. */
  ghost predicate NewSelectionsCurrent(w: World, w': World) {
    forall j :: |w.tasks| <= j < |w'.tasks| && SelectPending(w'.tasks[j].pc) ==>
      && w'.tasks[j].tab < |w'.tabs|
      && w'.tasks[j].pc.generation == w'.tabs[w'.tasks[j].tab].generation
  }

  lemma SelectIsLocal(w: World, tab: nat, tenant: Tenant, csrf: bool, now: int)
    requires tab < |w.tabs|
    ensures var w' := SelectStep(w, tab, tenant, csrf, now);
            OnlyMoved(w, w', |w'.tasks|) && NewSelectionsCurrent(w, w')
            && w.tabs[tab].generation < w'.tabs[tab].generation
  {
    EnsureIsLocal(Overtake(w, tab), tab, false, csrf, now);
  }

  lemma FetchIsLocal(w: World, tab: nat, scope: Scope, csrf: bool, now: int)
    requires tab < |w.tabs|
    ensures var w' := FetchStep(w, tab, scope, csrf, now);
            OnlyMoved(w, w', |w'.tasks|) && NewSelectionsCurrent(w, w')
  {
    EnsureIsLocal(w, tab, false, csrf, now);
  }

  lemma CallIsLocal(w: World, e: Event)
    requires Step(w, e).Some? && !e.Targeted()
    ensures OnlyMoved(w, Step(w, e).value, |Step(w, e).value.tasks|)
    ensures NewSelectionsCurrent(w, Step(w, e).value)
    ensures forall t :: 0 <= t < |w.tabs| && Overtakes(e, t) ==>
              w.tabs[t].generation < Step(w, e).value.tabs[t].generation
  {
    match e
    case Select(tab, tenant, csrf, now) => SelectIsLocal(w, tab, tenant, csrf, now);
    case Fetch(tab, scope, csrf, now) => FetchIsLocal(w, tab, scope, csrf, now);
    case Ensure(tab, force, csrf, now) => EnsureIsLocal(w, tab, force, csrf, now);
    case _ =>
  }

  /** A step moves at most the coroutine it names, and an overtaking event raises its tab's generation. */
  lemma StepIsLocal(w: World, e: Event)
    requires Step(w, e).Some?
    ensures OnlyMoved(w, Step(w, e).value, if e.Targeted() then e.task else |Step(w, e).value.tasks|)
    ensures forall t :: 0 <= t < |w.tabs| && Overtakes(e, t) ==>
              w.tabs[t].generation < Step(w, e).value.tabs[t].generation
  {
    if e.Targeted() {
      if e.Answer? { AnswerIsLocal(w, e.task, e.reply, e.csrf, e.now, e.aborted); }
    } else {
      CallIsLocal(w, e);
    }
  }

  /** No answer leaves a selection pending. */
  lemma AnswerEndsSelection(w: World, i: nat, reply: Reply, csrf: bool, now: int, aborted: bool)
    requires i < |w.tasks| && w.tasks[i].tab < |w.tabs| && AnswerStep(w, i, reply, csrf, now, aborted).Some?
    ensures !SelectPending(AnswerStep(w, i, reply, csrf, now, aborted).value.tasks[i].pc)
  {
    var tab := w.tasks[i].tab;
    match w.tasks[i].pc
    case FetchFirst(scope, captured, original, sent) =>
      if FetchForcesRefresh(w.store, scope, captured, original, reply, csrf) {
        EnsureIsLocal(w, tab, true, csrf, now);
        assert AnswerStep(w, i, reply, csrf, now, aborted).value.tasks[i].pc.FetchRetrying?;
      }
    case FetchSecond(_, _, _) =>
    case LogoutSent =>
    case SelectDeriving(generation, tenant, identity) =>
      var next := SelectReplied(LocalOf(w, tab), generation, tenant, identity, reply);
      assert AnswerStep(w, i, reply, csrf, now, aborted) == Some(FinishLocal(w, i, next));
    case _ =>
  }

  lemma EnterIsNoSelection(w: World, i: nat, now: int)
    requires i < |w.tasks| && EnterStep(w, i, now).Some?
    ensures !SelectPending(EnterStep(w, i, now).value.tasks[i].pc)
  {
  }

  lemma ResumeKeepsGeneration(w: World, i: nat, aborted: bool)
    requires i < |w.tasks| && w.tasks[i].tab < |w.tabs| && ResumeStep(w, i, aborted).Some?
    requires SelectPending(ResumeStep(w, i, aborted).value.tasks[i].pc)
    ensures SelectPending(w.tasks[i].pc)
    ensures ResumeStep(w, i, aborted).value.tasks[i].pc.generation == w.tasks[i].pc.generation
  {
  }

  /** A selection that a step leaves pending keeps the generation it took at its start. */
  lemma MovedSelectionKeepsGeneration(w: World, e: Event)
    requires Step(w, e).Some? && e.Targeted() && e.task < |Step(w, e).value.tasks|
    requires SelectPending(Step(w, e).value.tasks[e.task].pc)
    ensures e.task < |w.tasks| && SelectPending(w.tasks[e.task].pc)
    ensures Step(w, e).value.tasks[e.task].pc.generation == w.tasks[e.task].pc.generation
  {
    match e
    case Answer(i, reply, csrf, now, aborted) => AnswerEndsSelection(w, i, reply, csrf, now, aborted);
    case EnterLock(i, now) => EnterIsNoSelection(w, i, now);
    case Resume(i, aborted) => ResumeKeepsGeneration(w, i, aborted);
    case _ =>
  }

  lemma StepKeepsGenerationsBounded(w: World, e: Event)
    requires GenerationsBounded(w) && Step(w, e).Some?
    ensures GenerationsBounded(Step(w, e).value)
  {
    var w' := Step(w, e).value;
    StepIsLocal(w, e);
    if !e.Targeted() { CallIsLocal(w, e); }
    if e.Answer? { AnswerIsLocal(w, e.task, e.reply, e.csrf, e.now, e.aborted); }
    forall i | 0 <= i < |w'.tasks| && SelectPending(w'.tasks[i].pc)
      ensures w'.tasks[i].tab < |w'.tabs| && w'.tasks[i].pc.generation <= w'.tabs[w'.tasks[i].tab].generation
    {
      if e.Targeted() && i == e.task { MovedSelectionKeepsGeneration(w, e); }
    }
  }

  lemma StepKeepsStale(w: World, e: Event, i: nat)
    requires Stale(w, i) && Step(w, e).Some?
    ensures Stale(Step(w, e).value, i)
  {
    StepIsLocal(w, e);
  }

  lemma {:induction false} RunKeepsGenerationsBounded(w: World, events: seq<Event>)
    requires GenerationsBounded(w) && Run(w, events).Some?
    ensures GenerationsBounded(Run(w, events).value)
    decreases |events|
  {
    if events != [] {
      StepKeepsGenerationsBounded(w, events[0]);
      RunKeepsGenerationsBounded(Step(w, events[0]).value, events[1..]);
    }
  }

  lemma {:induction false} RunKeepsStale(w: World, events: seq<Event>, i: nat)
    requires Stale(w, i) && Run(w, events).Some?
    ensures Stale(Run(w, events).value, i)
    decreases |events|
  {
    if events != [] {
      StepKeepsStale(w, events[0], i);
      RunKeepsStale(Step(w, events[0]).value, events[1..], i);
    }
  }

  /** A selection overtaken by a later selection, login or logout of its tab never commits, however late its
      answers arrive. */
  lemma OvertakenSelectionNeverCommits(
    tabs: nat, locksAvailable: bool, before: seq<Event>, w: World, i: nat, e: Event, after: seq<Event>, end: World)
    requires Run(Start(tabs, locksAvailable), before) == Some(w)
    requires i < |w.tasks| && SelectPending(w.tasks[i].pc) && Overtakes(e, w.tasks[i].tab)
    requires Step(w, e).Some? && Run(Step(w, e).value, after) == Some(end)
    ensures i < |end.tasks| && end.tasks[i].pc != SelectDone(true)
  {
    RunKeepsGenerationsBounded(Start(tabs, locksAvailable), before);
    StepIsLocal(w, e);
    RunKeepsStale(Step(w, e).value, after, i);
  }

  predicate FetchPending(pc: Pc) {
    pc.FetchFirst? || pc.FetchRetrying? || pc.FetchSecond?
  }

  /** From its first send to its end a fetch keeps the identity it captured, and it returns a response only in a
      step that finds that identity still current. */
  ghost predicate FetchAdvances(w: World, w': World, i: nat)
    requires i < |w.tasks| && i < |w'.tasks|
  {
    var pc, pc' := w.tasks[i].pc, w'.tasks[i].pc;
    && (pc.FetchDone? ==> pc' == pc)
    && (FetchPending(pc) ==>
      || (FetchPending(pc') && pc'.scope == pc.scope && pc'.captured == pc.captured)
      || pc' == FetchDone(pc.captured, false)
      || (pc' == FetchDone(pc.captured, true) && IdentityOf(w'.store, pc.scope) == pc.captured))
  }

  lemma StepAdvancesFetch(w: World, e: Event, i: nat)
    requires i < |w.tasks| && Step(w, e).Some?
    ensures i < |Step(w, e).value.tasks| && FetchAdvances(w, Step(w, e).value, i)
  {
    StepIsLocal(w, e);
  }

  lemma {:induction false} RunKeepsFetch(w: World, events: seq<Event>, i: nat)
    requires i < |w.tasks| && (FetchPending(w.tasks[i].pc) || w.tasks[i].pc.FetchDone?) && Run(w, events).Some?
    ensures var end := Run(w, events).value;
            && i < |end.tasks|
            && (if FetchPending(end.tasks[i].pc)
                then FetchPending(w.tasks[i].pc) && end.tasks[i].pc.scope == w.tasks[i].pc.scope
                else end.tasks[i].pc.FetchDone?)
            && end.tasks[i].pc.captured == w.tasks[i].pc.captured
    decreases |events|
  {
    if events != [] {
      var next := Step(w, events[0]).value;
      StepIsLocal(w, events[0]);
      StepAdvancesFetch(w, events[0], i);
      RunKeepsFetch(next, events[1..], i);
    }
  }

  /** `authenticatedFetch` hands back a response only while the identity captured before its first send is still
      current, whatever ran between the send, the retry and the return. */
  lemma ReturnedResponseKeepsIdentity(
    sent: World, i: nat, events: seq<Event>, w: World, e: Event, end: World)
    requires i < |sent.tasks| && sent.tasks[i].pc.FetchFirst?
    requires Run(sent, events) == Some(w) && Step(w, e) == Some(end)
    requires i < |w.tasks| && !w.tasks[i].pc.FetchDone?
    requires i < |end.tasks| && end.tasks[i].pc.FetchDone? && end.tasks[i].pc.returned
    ensures IdentityOf(end.store, sent.tasks[i].pc.scope) == sent.tasks[i].pc.captured
  {
    RunKeepsFetch(sent, events, i);
    StepAdvancesFetch(w, e, i);
  }

  /** A tab that has logged in as `a` and selected `tenant`. */
  lemma SelectedWorld(a: Token, t: TenantToken, tenant: Tenant) returns (events: seq<Event>, w: World)
    requires a.expires.None?
    ensures Run(Start(1, true), events) == Some(w)
    ensures w == World(Store(Some(a), Some(t), Some(tenant)), [Tab(2, None)], [Task(0, SelectDone(true))], None, true)
  {
    var start := Start(1, true);
    events, w := Then(start, [], start, Login(0, a));
    events, w := Then(start, events, w, Select(0, tenant, true, 0));
    assert w.tasks == [Task(0, SelectEnsuring(2, tenant, None))];
    events, w := Then(start, events, w, Resume(0, false));
    assert w.tasks == [Task(0, SelectDeriving(2, tenant, Some(a.account)))];
    events, w := Then(start, events, w, Answer(0, TenantGranted(t), true, 0, false));
    assert w.tasks == [Task(0, SelectDone(true))];
    assert w.tabs == [Tab(2, None)];
  }

  /** The same failure end to end: a refresh that answers for another account leaves the old account's tenant
      token beside the new account token. */
  lemma ForeignRefreshUnbinds(a: Token, b: Token, t: TenantToken, tenant: Tenant)
    returns (events: seq<Event>, w: World)
    requires a.account != b.account && IssuedFor(t, Some(a.account), tenant) && a.expires.None?
    ensures Run(Start(1, true), events) == Some(w)
    ensures !w.store.TenantBound()
  {
    var start := Start(1, true);
    events, w := SelectedWorld(a, t, tenant);
    events, w := Then(start, events, w, Ensure(0, true, true, 0));
    assert w.tasks[1] == Task(0, RefreshQueued(Some(a), Some(a.account)));
    events, w := Then(start, events, w, EnterLock(1, 0));
    assert w.tasks[1] == Task(0, RefreshSent(Some(a.account)));
    events, w := Then(start, events, w, Answer(1, AccountGranted(b), true, 0, false));
    assert w.tasks[1] == Task(0, RefreshReading(Some(a.account), AccountGranted(b)));
    events, w := Then(start, events, w, ReadBody(1));
  }
}
