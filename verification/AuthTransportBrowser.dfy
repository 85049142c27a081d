/** A browser as objects: the tabs with their closure variables, the storage they share, and the coroutines that wait.
    Performing an event calls the methods of the tab concerned, and is proved to be one step of the model that the
    theorems about runs are about. */
module AuthTransportBrowser {
  import opened Common
  import opened AuthTransport
  import opened AuthTransportRuns
  import opened AuthTransportTab
  import opened AuthTransportSafety

  class Browser {
    const session: SessionStorage
    const tabs: seq<Transport>
    const locksAvailable: bool
    var tasks: seq<Task>
    var holder: Option<nat>

    ghost predicate Valid()
      reads this
    {
      && (forall i :: 0 <= i < |tabs| ==> tabs[i].session == session)
      && (forall i, j :: 0 <= i < j < |tabs| ==> tabs[i] != tabs[j])
      && (forall i :: 0 <= i < |tasks| ==> tasks[i].tab < |tabs|)
    }

    function TabViews(): (views: seq<Tab>)
      reads tabs
      ensures |views| == |tabs|
    {
      seq(|tabs|, i requires 0 <= i < |tabs| reads tabs => Tab(tabs[i].selectionGeneration, tabs[i].refreshing))
    }

    function View(): World
      reads this, session, tabs
    {
      World(session.View(), TabViews(), tasks, holder, locksAvailable)
    }

    constructor (session: SessionStorage, tabs: seq<Transport>, locksAvailable: bool)
      requires forall i :: 0 <= i < |tabs| ==> tabs[i].session == session
      requires forall i, j :: 0 <= i < j < |tabs| ==> tabs[i] != tabs[j]
      ensures Valid() && this.session == session && this.tabs == tabs
      ensures View() == World(session.View(), TabViews(), [], None, locksAvailable)
    {
      this.session, this.tabs, this.locksAvailable := session, tabs, locksAvailable;
      tasks, holder := [], None;
    }

    /** What changed since `old` is the storage and one tab. */
    twostate lemma OneTabChanged(k: nat)
      requires Valid() && k < |tabs| && tasks == old(tasks) && holder == old(holder)
      requires forall i :: 0 <= i < |tabs| && i != k ==> unchanged(tabs[i])
      ensures View() == WithLocal(old(View()), k, tabs[k].View())
    {
    }

    method Queue(tab: nat, pc: Pc)
      requires Valid() && tab < |tabs|
      modifies this`tasks
      ensures Valid() && View() == Spawn(old(View()), tab, pc)
    {
      tasks := tasks + [Task(tab, pc)];
    }

    method MoveTo(i: nat, pc: Pc)
      requires Valid() && i < |tasks|
      modifies this`tasks, this`holder
      ensures Valid() && View() == Move(old(View()), i, pc)
    {
      if Critical(tasks[i].pc) && !Critical(pc) { holder := None; }
      tasks := tasks[i := tasks[i].(pc := pc)];
    }

    /** `ensureSession` called in a tab; the refresh it may start is a new coroutine. */
    method Ensure(tab: nat, force: bool, csrf: bool, now: int) returns (awaited: Option<nat>)
      requires Valid() && tab < |tabs|
      modifies this`tasks, tabs[tab]
      ensures Valid() && (View(), awaited) == EnsureIn(old(View()), tab, force, csrf, now)
    {
      var queued;
      awaited, queued := tabs[tab].EnsureSession(force, csrf, now, |tasks|);
      OneTabChanged(tab);
      if queued.Some? { Queue(tab, queued.value); }
    }

    // ----- calls -----

    method Select(tab: nat, tenant: Tenant, csrf: bool, now: int)
      requires Valid() && tab < |tabs|
      modifies this`tasks, tabs[tab]
      ensures Valid() && View() == SelectStep(old(View()), tab, tenant, csrf, now)
    {
      var generation := tabs[tab].StartSelect();
      OneTabChanged(tab);
      assert View() == Overtake(old(View()), tab);
      var awaited := Ensure(tab, false, csrf, now);
      Queue(tab, SelectEnsuring(generation, tenant, awaited));
    }

    method Logout(tab: nat)
      requires Valid() && tab < |tabs|
      modifies this`tasks, tabs[tab]
      ensures Valid() && View() == LogoutStep(old(View()), tab)
    {
      var generation := tabs[tab].StartSelect();
      OneTabChanged(tab);
      Queue(tab, LogoutQueued);
    }

    method Fetch(tab: nat, scope: Scope, csrf: bool, now: int)
      requires Valid() && tab < |tabs|
      modifies this`tasks, tabs[tab]
      ensures Valid() && View() == FetchStep(old(View()), tab, scope, csrf, now)
    {
      if FetchNeedsSession(session.View(), scope, now) {
        var awaited := Ensure(tab, false, csrf, now);
        Queue(tab, FetchEnsuring(scope, awaited));
      } else {
        Queue(tab, FirstSend(session.View(), scope));
      }
    }

    method Login(tab: nat, token: Token)
      requires Valid() && tab < |tabs|
      modifies session, tabs[tab]
      ensures Valid() && View() == WithLocal(old(View()), tab, LoggedIn(LocalOf(old(View()), tab), token))
    {
      tabs[tab].AcceptLogin(token);
      OneTabChanged(tab);
    }

    // ----- coroutines that go on -----

    /** Grants the cross-tab lock to a coroutine that waits for it. */
    method Enter(i: nat, now: int) returns (done: bool)
      requires Valid() && i < |tasks|
      modifies this`tasks, this`holder
      ensures Valid() && (done <==> EnterStep(old(View()), i, now).Some?)
      ensures View() == if done then EnterStep(old(View()), i, now).value else old(View())
    {
      if locksAvailable && holder.Some? { return false; }
      var pc := tasks[i].pc;
      match pc {
        case RefreshQueued(before, identity) =>
          pc := tabs[tasks[i].tab].EnterRefresh(before, identity, now);
        case LogoutQueued => pc := LogoutSent;
        case _ => return false;
      }
      MoveTo(i, pc);
      if locksAvailable && Critical(pc) { holder := Some(i); }
      return true;
    }

    method ReadBody(i: nat) returns (done: bool)
      requires Valid() && i < |tasks|
      modifies this`tasks, this`holder, session
      ensures Valid() && (done <==> ReadBodyStep(old(View()), i).Some?)
      ensures View() == if done then ReadBodyStep(old(View()), i).value else old(View())
    {
      if !tasks[i].pc.RefreshReading? { return false; }
      var tab, pc := tasks[i].tab, tasks[i].pc;
      pc := tabs[tab].OnRefreshBody(pc.identity, pc.reply);
      OneTabChanged(tab);
      MoveTo(i, pc);
      return true;
    }

    method Settle(i: nat) returns (done: bool)
      requires Valid() && i < |tasks|
      modifies this`tasks, this`holder, tabs[tasks[i].tab]
      ensures Valid() && (done <==> SettleStep(old(View()), i).Some?)
      ensures View() == if done then SettleStep(old(View()), i).value else old(View())
    {
      if !tasks[i].pc.RefreshSettling? { return false; }
      var tab, succeeded := tasks[i].tab, tasks[i].pc.succeeded;
      tabs[tab].OnSettled();
      OneTabChanged(tab);
      MoveTo(i, RefreshDone(succeeded));
      return true;
    }

    /** Goes on behind an `await ensureSession()` once the refresh it joined has settled. */
    method Resume(i: nat, aborted: bool) returns (done: bool)
      requires Valid() && i < |tasks|
      modifies this`tasks, this`holder
      ensures Valid() && (done <==> ResumeStep(old(View()), i, aborted).Some?)
      ensures View() == if done then ResumeStep(old(View()), i, aborted).value else old(View())
    {
      var pc, store := tasks[i].pc, session.View();
      if !(pc.SelectEnsuring? || pc.FetchEnsuring? || pc.FetchRetrying?) { return false; }
      var awaited := pc.awaited;
      if awaited.Some? && !(awaited.value < |tasks| && tasks[awaited.value].pc.RefreshDone?) { return false; }
      var succeeded := awaited.Some? ==> tasks[awaited.value].pc.succeeded;
      match pc {
        case SelectEnsuring(generation, tenant, _) =>
          pc := tabs[tasks[i].tab].OnSelectResumed(generation, tenant, succeeded);
        case FetchEnsuring(scope, _) =>
          pc := if succeeded then FirstSend(store, scope) else FetchDone(IdentityOf(store, scope), false);
        case FetchRetrying(scope, captured, _) =>
          pc := if succeeded then SecondSend(store, scope, captured, aborted) else FetchDone(captured, false);
      }
      MoveTo(i, pc);
      return true;
    }

    method FirstAnswer(i: nat, reply: Reply, csrf: bool, now: int, aborted: bool)
      requires Valid() && i < |tasks| && tasks[i].pc.FetchFirst?
      modifies this`tasks, this`holder, tabs[tasks[i].tab]
      ensures Valid() && Some(View()) == AnswerStep(old(View()), i, reply, csrf, now, aborted)
    {
      var tab, pc := tasks[i].tab, tasks[i].pc;
      var next, queued :=
        tabs[tab].OnFirstReply(pc.scope, pc.captured, pc.original, reply, csrf, now, aborted, |tasks|);
      OneTabChanged(tab);
      if queued.Some? { Queue(tab, queued.value); }
      MoveTo(i, next);
    }

    /** The answer to the request a coroutine has on the network. */
    method Answer(i: nat, reply: Reply, csrf: bool, now: int, aborted: bool) returns (done: bool)
      requires Valid() && i < |tasks|
      modifies this`tasks, this`holder, session, tabs[tasks[i].tab]
      ensures Valid() && (done <==> AnswerStep(old(View()), i, reply, csrf, now, aborted).Some?)
      ensures View() == if done then AnswerStep(old(View()), i, reply, csrf, now, aborted).value else old(View())
    {
      var tab, pc := tasks[i].tab, tasks[i].pc;
      match pc {
        case RefreshSent(identity) => pc := tabs[tab].OnRefreshReply(identity, reply);
        case RefreshDeriving(identity, tenant) => pc := tabs[tab].OnTenantRestored(identity, tenant, reply);
        case SelectDeriving(generation, tenant, identity) =>
          pc := tabs[tab].OnSelectReply(generation, tenant, identity, reply);
        case LogoutSent => pc := tabs[tab].OnLogoutReply(reply);
        case FetchFirst(_, _, _, _) =>
          FirstAnswer(i, reply, csrf, now, aborted);
          return true;
        case FetchSecond(scope, captured, _) => pc := SecondReplied(session.View(), scope, captured, reply);
        case _ => return false;
      }
      OneTabChanged(tab);
      MoveTo(i, pc);
      return true;
    }

    // ----- any event -----

    /** Every event does to the objects what a step does to the model. */
    method Perform(e: Event) returns (done: bool)
      requires Valid()
      modifies this`tasks, this`holder, session, tabs
      ensures Valid() && (done <==> Step(old(View()), e).Some?)
      ensures View() == if done then Step(old(View()), e).value else old(View())
    {
      if if e.Targeted() then e.task >= |tasks| else e.tab >= |tabs| { return false; }
      done := true;
      match e
      case Login(tab, token) => Login(tab, token);
      case Ensure(tab, force, csrf, now) => var awaited := Ensure(tab, force, csrf, now);
      case Select(tab, tenant, csrf, now) => Select(tab, tenant, csrf, now);
      case Logout(tab) => Logout(tab);
      case Fetch(tab, scope, csrf, now) => Fetch(tab, scope, csrf, now);
      case EnterLock(i, now) => done := Enter(i, now);
      case Answer(i, reply, csrf, now, aborted) => done := Answer(i, reply, csrf, now, aborted);
      case ReadBody(i) => done := ReadBody(i);
      case Resume(i, aborted) => done := Resume(i, aborted);
      case Settle(i) => done := Settle(i);
    }

    /** A whole run. In a browser that was started empty and whose server is honest, the stored tenant token belongs to
        the stored account and membership after it. */
    method PerformAll(events: seq<Event>) returns (done: bool)
      requires Valid()
      modifies this`tasks, this`holder, session, tabs
      ensures Valid() && (done <==> Run(old(View()), events).Some?)
      ensures done ==> Run(old(View()), events) == Some(View())
      ensures done && old(View()) == Start(|tabs|, locksAvailable) && HonestRun(old(View()), events) ==>
                session.View().TenantBound()
    {
      ghost var start := View();
      done := true;
      assert events[0..] == events;
      for k := 0 to |events|
        invariant Valid() && Run(View(), events[k..]) == Run(start, events)
      {
        assert events[k..][0] == events[k] && events[k..][1..] == events[k + 1..];
        done := Perform(events[k]);
        if !done { return; }
      }
      if start == Start(|tabs|, locksAvailable) && HonestRun(start, events) {
        TenantTokenAlwaysBound(|tabs|, locksAvailable, events, View());
      }
    }
  }
}
