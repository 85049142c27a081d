/** Every interleaving of the transport's segments over any number of tabs.

    A world holds the shared storage, the tabs, every coroutine ever started and
    the holder of the cross-tab lock. An event lets one coroutine run from one
    await to the next. */
module AuthTransportRuns {
  import opened Common
  import opened AuthTransport

  datatype Task = Task(tab: nat, pc: Pc)

  datatype World = World(store: Store, tabs: seq<Tab>, tasks: seq<Task>, holder: Option<nat>, locksAvailable: bool)

  datatype Event =
    | Login(tab: nat, token: Token)
    | Ensure(tab: nat, force: bool, csrf: bool, now: int)
    | Select(tab: nat, tenant: Tenant, csrf: bool, now: int)
    | Logout(tab: nat)
    | Fetch(tab: nat, scope: Scope, csrf: bool, now: int)
    | EnterLock(task: nat, now: int)
    | Answer(task: nat, reply: Reply, csrf: bool, now: int, aborted: bool)
    | ReadBody(task: nat)
    | Resume(task: nat, aborted: bool)
    | Settle(task: nat)
  {
    /** The event lets a started coroutine continue. */
    predicate Targeted() {
      EnterLock? || Answer? || ReadBody? || Resume? || Settle?
    }
  }

  function Start(tabs: nat, locksAvailable: bool): World {
    World(EMPTY_STORE, seq(tabs, i => Tab(0, None)), [], None, locksAvailable)
  }

  // ----- one step -----

  predicate InFlight(pc: Pc) {
    pc.RefreshQueued? || pc.RefreshSent? || pc.RefreshReading? || pc.RefreshDeriving? || pc.RefreshSettling?
  }

  /** The coroutine is inside `lock(...)`. */
  predicate Critical(pc: Pc) {
    pc.RefreshSent? || pc.RefreshReading? || pc.RefreshDeriving? || pc.LogoutSent?
  }

  function LocalOf(w: World, tab: nat): Local
    requires tab < |w.tabs|
  {
    Local(w.store, w.tabs[tab])
  }

  function WithLocal(w: World, tab: nat, l: Local): World
    requires tab < |w.tabs|
  {
    w.(store := l.store, tabs := w.tabs[tab := l.tab])
  }

  function Spawn(w: World, tab: nat, pc: Pc): World {
    w.(tasks := w.tasks + [Task(tab, pc)])
  }

  /** Moves a task; leaving the critical section releases the lock. */
  function Move(w: World, i: nat, pc: Pc): World
    requires i < |w.tasks|
  {
    w.(tasks := w.tasks[i := w.tasks[i].(pc := pc)],
       holder := if Critical(w.tasks[i].pc) && !Critical(pc) then None else w.holder)
  }

  /** `ensureSession` up to its first await, and the refresh its caller then awaits. */
  function EnsureIn(w: World, tab: nat, force: bool, csrf: bool, now: int): (World, Option<nat>)
    requires tab < |w.tabs|
  {
    if w.tabs[tab].refreshing.Some? then (w, w.tabs[tab].refreshing)
    else if !RefreshNeeded(w.store, force, csrf, now) then (w, None)
    else
      var id := |w.tasks|;
      var started := Spawn(w, tab, RefreshQueued(w.store.token, w.store.Account()));
      (WithLocal(started, tab, Local(w.store, w.tabs[tab].(refreshing := Some(id)))), Some(id))
  }

  predicate CanEnter(w: World) {
    !w.locksAvailable || w.holder.None?
  }

  function EnterStep(w: World, i: nat, now: int): Option<World>
    requires i < |w.tasks|
  {
    if !CanEnter(w) then None
    else
      match w.tasks[i].pc
      case RefreshQueued(before, identity) =>
        var pc := RefreshEntered(w.store, before, identity, now);
        Some(Move(w, i, pc).(holder := if w.locksAvailable && Critical(pc) then Some(i) else w.holder))
      case LogoutQueued =>
        Some(Move(w, i, LogoutSent).(holder := if w.locksAvailable then Some(i) else w.holder))
      case _ => None
  }

  function FinishLocal(w: World, i: nat, next: (Local, Pc)): World
    requires i < |w.tasks| && w.tasks[i].tab < |w.tabs|
  {
    Move(WithLocal(w, w.tasks[i].tab, next.0), i, next.1)
  }

  function AnswerStep(w: World, i: nat, reply: Reply, csrf: bool, now: int, aborted: bool): Option<World>
    requires i < |w.tasks| && w.tasks[i].tab < |w.tabs|
  {
    var tab := w.tasks[i].tab;
    var l := LocalOf(w, tab);
    match w.tasks[i].pc
    case RefreshSent(identity) => Some(FinishLocal(w, i, RefreshReplied(l, identity, reply)))
    case RefreshDeriving(identity, tenant) => Some(FinishLocal(w, i, TenantRestored(l, identity, tenant, reply)))
    case SelectDeriving(generation, tenant, identity) =>
      Some(FinishLocal(w, i, SelectReplied(l, generation, tenant, identity, reply)))
    case LogoutSent => Some(FinishLocal(w, i, LogoutReplied(l, reply)))
    case FetchFirst(scope, captured, original, sent) =>
      if FetchForcesRefresh(w.store, scope, captured, original, reply, csrf) then
        var (w', awaited) := EnsureIn(w, tab, true, csrf, now);
        Some(Move(w', i, FetchRetrying(scope, captured, awaited)))
      else Some(Move(w, i, FirstReplied(w.store, scope, captured, original, reply, csrf, aborted)))
    case FetchSecond(scope, captured, sent) => Some(Move(w, i, SecondReplied(w.store, scope, captured, reply)))
    case _ => None
  }

  /** The awaited refresh, if there is one, has settled. */
  predicate Settled(w: World, awaited: Option<nat>) {
    awaited.Some? ==> awaited.value < |w.tasks| && w.tasks[awaited.value].pc.RefreshDone?
  }

  predicate Fulfilled(w: World, awaited: Option<nat>)
    requires Settled(w, awaited)
  {
    awaited.Some? ==> w.tasks[awaited.value].pc.succeeded
  }

  function ResumeStep(w: World, i: nat, aborted: bool): Option<World>
    requires i < |w.tasks| && w.tasks[i].tab < |w.tabs|
  {
    var l := LocalOf(w, w.tasks[i].tab);
    match w.tasks[i].pc
    case SelectEnsuring(generation, tenant, awaited) =>
      if !Settled(w, awaited) then None
      else Some(Move(w, i, SelectResumed(l, generation, tenant, Fulfilled(w, awaited))))
    case FetchEnsuring(scope, awaited) =>
      if !Settled(w, awaited) then None
      else if !Fulfilled(w, awaited) then Some(Move(w, i, FetchDone(IdentityOf(w.store, scope), false)))
      else Some(Move(w, i, FirstSend(w.store, scope)))
    case FetchRetrying(scope, captured, awaited) =>
      if !Settled(w, awaited) then None
      else if !Fulfilled(w, awaited) then Some(Move(w, i, FetchDone(captured, false)))
      else Some(Move(w, i, SecondSend(w.store, scope, captured, aborted)))
    case _ => None
  }

  function SettleStep(w: World, i: nat): Option<World>
    requires i < |w.tasks| && w.tasks[i].tab < |w.tabs|
  {
    match w.tasks[i].pc
    case RefreshSettling(succeeded) =>
      var l := LocalOf(w, w.tasks[i].tab);
      Some(FinishLocal(w, i, (l.(tab := l.tab.(refreshing := None)), RefreshDone(succeeded))))
    case _ => None
  }

  function ReadBodyStep(w: World, i: nat): Option<World>
    requires i < |w.tasks| && w.tasks[i].tab < |w.tabs|
  {
    match w.tasks[i].pc
    case RefreshReading(identity, reply) =>
      Some(FinishLocal(w, i, RefreshRead(LocalOf(w, w.tasks[i].tab), identity, reply)))
    case _ => None
  }

  /** A new selection or a logout makes the tab's earlier selections stale. */
  function Overtake(w: World, tab: nat): World
    requires tab < |w.tabs|
  {
    WithLocal(w, tab, Local(w.store, w.tabs[tab].(generation := w.tabs[tab].generation + 1)))
  }

  function SelectStep(w: World, tab: nat, tenant: Tenant, csrf: bool, now: int): World
    requires tab < |w.tabs|
  {
    var (w', awaited) := EnsureIn(Overtake(w, tab), tab, false, csrf, now);
    Spawn(w', tab, SelectEnsuring(w'.tabs[tab].generation, tenant, awaited))
  }

  function FetchStep(w: World, tab: nat, scope: Scope, csrf: bool, now: int): World
    requires tab < |w.tabs|
  {
    if FetchNeedsSession(w.store, scope, now) then
      var (w', awaited) := EnsureIn(w, tab, false, csrf, now);
      Spawn(w', tab, FetchEnsuring(scope, awaited))
    else Spawn(w, tab, FirstSend(w.store, scope))
  }

  function LogoutStep(w: World, tab: nat): World
    requires tab < |w.tabs|
  {
    Spawn(Overtake(w, tab), tab, LogoutQueued)
  }

  /** The world after an event, or `None` where the event cannot happen. */
  function Step(w: World, e: Event): Option<World> {
    match e
    case Login(tab, token) =>
      if tab < |w.tabs| then Some(WithLocal(w, tab, LoggedIn(LocalOf(w, tab), token))) else None
    case Ensure(tab, force, csrf, now) =>
      if tab < |w.tabs| then Some(EnsureIn(w, tab, force, csrf, now).0) else None
    case Select(tab, tenant, csrf, now) =>
      if tab < |w.tabs| then Some(SelectStep(w, tab, tenant, csrf, now)) else None
    case Logout(tab) => if tab < |w.tabs| then Some(LogoutStep(w, tab)) else None
    case Fetch(tab, scope, csrf, now) =>
      if tab < |w.tabs| then Some(FetchStep(w, tab, scope, csrf, now)) else None
    case EnterLock(i, now) => if i < |w.tasks| then EnterStep(w, i, now) else None
    case Answer(i, reply, csrf, now, aborted) =>
      if i < |w.tasks| && w.tasks[i].tab < |w.tabs| then AnswerStep(w, i, reply, csrf, now, aborted) else None
    case ReadBody(i) => if i < |w.tasks| && w.tasks[i].tab < |w.tabs| then ReadBodyStep(w, i) else None
    case Resume(i, aborted) =>
      if i < |w.tasks| && w.tasks[i].tab < |w.tabs| then ResumeStep(w, i, aborted) else None
    case Settle(i) => if i < |w.tasks| && w.tasks[i].tab < |w.tabs| then SettleStep(w, i) else None
  }

  function Run(w: World, events: seq<Event>): Option<World>
    decreases |events|
  {
    if events == [] then Some(w)
    else
      var next := Step(w, events[0]);
      if next.None? then None else Run(next.value, events[1..])
  }

  // ----- what the server is trusted for -----

  /** A refresh renews the identity it was asked to renew; a derived token is the one asked for. */
  ghost predicate HonestReply(pc: Pc, reply: Reply) {
    match pc
    case RefreshSent(identity) => reply.AccountGranted? && identity.Some? ==> reply.token.account == identity.value
    case RefreshDeriving(identity, tenant) => reply.TenantGranted? ==> IssuedFor(reply.tenantToken, identity, tenant)
    case SelectDeriving(_, tenant, identity) => reply.TenantGranted? ==> IssuedFor(reply.tenantToken, identity, tenant)
    case _ => true
  }

  ghost predicate IssuedFor(t: TenantToken, identity: Option<Account>, tenant: Tenant) {
    identity == Some(t.account) && t.membershipId == tenant.membershipId
  }

  ghost predicate Honest(w: World, e: Event) {
    e.Answer? && e.task < |w.tasks| ==> HonestReply(w.tasks[e.task].pc, e.reply)
  }

  ghost predicate HonestRun(w: World, events: seq<Event>)
    decreases |events|
  {
    events != [] ==>
      && Honest(w, events[0])
      && (Step(w, events[0]).Some? ==> HonestRun(Step(w, events[0]).value, events[1..]))
  }

  // ----- the invariant -----

  ghost predicate TaskSound(pc: Pc) {
    match pc
    case RefreshReading(identity, reply) =>
      reply.AccountGranted? && identity.Some? ==> reply.token.account == identity.value
    case FetchFirst(_, captured, _, sent) => BelongsTo(sent, captured)
    case FetchSecond(_, captured, sent) => BelongsTo(sent, captured)
    case _ => true
  }

  ghost predicate TasksSound(w: World) {
    forall i :: 0 <= i < |w.tasks| ==> TaskSound(w.tasks[i].pc)
  }

  ghost predicate TasksInTabs(w: World) {
    forall i :: 0 <= i < |w.tasks| ==> w.tasks[i].tab < |w.tabs|
  }

  /** `refreshing` names exactly the tab's unsettled refresh. */
  ghost predicate SingleFlight(w: World) {
    && (forall i :: 0 <= i < |w.tasks| && InFlight(w.tasks[i].pc) ==>
          w.tasks[i].tab < |w.tabs| && w.tabs[w.tasks[i].tab].refreshing == Some(i))
    && (forall t :: 0 <= t < |w.tabs| && w.tabs[t].refreshing.Some? ==>
          var i := w.tabs[t].refreshing.value;
          i < |w.tasks| && w.tasks[i].tab == t && InFlight(w.tasks[i].pc))
  }

  /** With a cross-tab lock, its holder is exactly the coroutine inside it. */
  ghost predicate LockExact(w: World) {
    w.locksAvailable ==>
      && (forall i :: 0 <= i < |w.tasks| && Critical(w.tasks[i].pc) ==> w.holder == Some(i))
      && (w.holder.Some? ==> w.holder.value < |w.tasks| && Critical(w.tasks[w.holder.value].pc))
  }

  ghost predicate Protocol(w: World) {
    TasksInTabs(w) && SingleFlight(w) && LockExact(w)
  }

  ghost predicate Bound(w: World) {
    w.store.TenantBound() && TasksSound(w)
  }
}
