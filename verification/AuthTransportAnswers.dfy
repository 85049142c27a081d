/** What each answer does to the storage and the tabs, and what a coroutine that ended well has done. */
module AuthTransportAnswers {
  import opened Common
  import opened AuthTransport
  import opened AuthTransportRuns
  import opened AuthTransportSafety
  import opened Sequences

  /** Task `i` goes on at `pc`; the storage and the tabs stay as they were. */
  ghost predicate Quiet(w: World, w': World, i: nat, pc: Pc) {
    w'.store == w.store && w'.tabs == w.tabs && |w'.tasks| == |w.tasks| && i < |w.tasks| && w'.tasks[i].pc == pc
  }

  /** The session of all tabs is gone, and pending selections of this tab are overtaken. */
  ghost predicate Emptied(w: World, w': World, tab: nat) {
    && w'.store.token.None? && w'.store.tenantToken.None? && w'.store.active.None?
    && OnlyGenerationRises(w, w', tab)
  }

  ghost predicate OnlyGenerationRises(w: World, w': World, tab: nat) {
    && tab < |w.tabs| == |w'.tabs| && w'.tabs[tab] == w.tabs[tab].(generation := w.tabs[tab].generation + 1)
    && forall t :: 0 <= t < |w.tabs| && t != tab ==> w'.tabs[t] == w.tabs[t]
  }

  // ----- what each answer does -----

  /** The session is gone if and only if the server confirmed the logout or did not know the session any more. */
  lemma LogoutAnswered(w: World, i: nat, reply: Reply, csrf: bool, now: int, aborted: bool, w': World)
    requires i < |w.tasks| && w.tasks[i].pc.LogoutSent?
    requires Step(w, Answer(i, reply, csrf, now, aborted)) == Some(w')
    ensures if reply != Dropped && reply != Refused(false)
            then Emptied(w, w', w.tasks[i].tab) && w'.tasks[i].pc == LogoutDone(true)
            else Quiet(w, w', i, LogoutDone(false))
  {
  }

  /** A refresh is given up when it was dropped or the account changed; a 401 empties the session and fails it too. */
  lemma RefreshAnswered(w: World, i: nat, reply: Reply, csrf: bool, now: int, aborted: bool, w': World)
    requires i < |w.tasks| && w.tasks[i].pc.RefreshSent?
    requires Step(w, Answer(i, reply, csrf, now, aborted)) == Some(w')
    ensures var identity := w.tasks[i].pc.identity;
            if reply.Dropped? || w.store.Account() != identity then Quiet(w, w', i, RefreshSettling(false))
            else if reply == Refused(true)
            then Emptied(w, w', w.tasks[i].tab) && w'.tasks[i].pc == RefreshSettling(false)
            else Quiet(w, w', i, RefreshReading(identity, reply))
  {
  }

  /** The new account token is stored if and only if one was granted and the account is still the same; with an active
      tenant its token is asked for next. */
  lemma BodyRead(w: World, i: nat, w': World)
    requires i < |w.tasks| && w.tasks[i].pc.RefreshReading? && Step(w, ReadBody(i)) == Some(w')
    ensures var reply := w.tasks[i].pc.reply;
            if reply.AccountGranted? && w.store.Account() == w.tasks[i].pc.identity
            then && w'.store.token == Some(reply.token) && w'.store.active == w.store.active
                 && w'.store.tenantToken == w.store.tenantToken && w'.tabs == w.tabs
                 && w'.tasks[i].pc == (if w.store.active.None? then RefreshSettling(true)
                                       else RefreshDeriving(Some(reply.token.account), w.store.active.value))
            else Quiet(w, w', i, RefreshSettling(false))
  {
  }

  /** The derived token is stored if and only if account and membership are still those it was asked for. */
  lemma TenantAnswered(w: World, i: nat, reply: Reply, csrf: bool, now: int, aborted: bool, w': World)
    requires i < |w.tasks| && w.tasks[i].pc.RefreshDeriving?
    requires Step(w, Answer(i, reply, csrf, now, aborted)) == Some(w')
    ensures var pc := w.tasks[i].pc;
            if reply.TenantGranted? && w.store.Account() == pc.identity && w.store.active.Some?
               && w.store.active.value.membershipId == pc.tenant.membershipId
            then && w'.store.tenantToken == Some(reply.tenantToken) && w'.store.token == w.store.token
                 && w'.store.active == w.store.active && w'.tabs == w.tabs && w'.tasks[i].pc == RefreshSettling(true)
            else Quiet(w, w', i, RefreshSettling(false))
  {
  }

  /** A selection stores tenant and token if and only if the token was granted, the account is the one it was asked for,
      and nothing has overtaken it. */
  lemma SelectionAnswered(w: World, i: nat, reply: Reply, csrf: bool, now: int, aborted: bool, w': World)
    requires i < |w.tasks| && w.tasks[i].pc.SelectDeriving? && w.tasks[i].tab < |w.tabs|
    requires Step(w, Answer(i, reply, csrf, now, aborted)) == Some(w')
    ensures var pc := w.tasks[i].pc;
            if reply.TenantGranted? && w.store.Account() == pc.identity
               && w.tabs[w.tasks[i].tab].generation == pc.generation
            then && w'.store.active == Some(pc.tenant) && w'.store.tenantToken == Some(reply.tenantToken)
                 && w'.store.token == w.store.token && w'.tabs == w.tabs && w'.tasks[i].pc == SelectDone(true)
            else Quiet(w, w', i, SelectDone(false))
  {
  }

  /** A refresh that gets the lock goes to the network unless another tab has stored a fresh token meanwhile; then only
      the tenant token of what is stored is missing. */
  lemma LockGranted(w: World, i: nat, now: int, w': World)
    requires i < |w.tasks| && w.tasks[i].pc.RefreshQueued? && Step(w, EnterLock(i, now)) == Some(w')
    ensures var pc := w.tasks[i].pc;
            if w.store.token == pc.before || w.store.TokenExpired(now) then Quiet(w, w', i, RefreshSent(pc.identity))
            else if w.store.active.None? then Quiet(w, w', i, RefreshSettling(true))
            else Quiet(w, w', i, RefreshDeriving(w.store.Account(), w.store.active.value))
  {
  }

  /** The end of a refresh makes room for the tab's next one, whether it succeeded or not. */
  lemma RefreshSettles(w: World, i: nat, w': World)
    requires i < |w.tasks| && w.tasks[i].pc.RefreshSettling? && Step(w, Settle(i)) == Some(w')
    ensures var tab := w.tasks[i].tab;
            && w'.store == w.store && w'.tasks[i].pc == RefreshDone(w.tasks[i].pc.succeeded)
            && tab < |w.tabs| && w'.tabs == w.tabs[tab := w.tabs[tab].(refreshing := None)]
  {
  }

  /** A selection asks for its token if and only if the refresh it waited for succeeded and nothing has overtaken it. */
  lemma SelectionGoesOn(w: World, i: nat, aborted: bool, w': World)
    requires i < |w.tasks| && w.tasks[i].pc.SelectEnsuring? && Step(w, Resume(i, aborted)) == Some(w')
    ensures var pc := w.tasks[i].pc;
            && (pc.awaited.Some? ==> pc.awaited.value < |w.tasks| && w.tasks[pc.awaited.value].pc.RefreshDone?)
            && w.tasks[i].tab < |w.tabs|
            && if (pc.awaited.Some? ==> w.tasks[pc.awaited.value].pc.succeeded)
                  && w.tabs[w.tasks[i].tab].generation == pc.generation
               then Quiet(w, w', i, SelectDeriving(pc.generation, pc.tenant, w.store.Account()))
               else Quiet(w, w', i, SelectDone(false))
  {
  }

  lemma LoggedInFresh(w: World, tab: nat, token: Token, w': World)
    requires Step(w, Login(tab, token)) == Some(w')
    ensures w'.store.token == Some(token) && w'.store.tenantToken.None? && w'.store.active.None?
    ensures OnlyGenerationRises(w, w', tab) && w'.tasks == w.tasks
  {
  }

  // ----- what starts a refresh, a selection, a fetch -----

  /** `ensureSession` starts a refresh if and only if none is in flight in its tab, there is anything to renew, and it
      is forced or a token that is in use runs out; the refresh remembers the token and the account of that moment. */
  lemma EnsureStarts(w: World, tab: nat, force: bool, csrf: bool, now: int, w': World)
    requires tab < |w.tabs| && Step(w, Ensure(tab, force, csrf, now)) == Some(w')
    ensures w'.store == w.store
    ensures var starts :=
              && w.tabs[tab].refreshing.None? && (w.store.token.Some? || csrf)
              && (force || w.store.TokenExpired(now) || (w.store.active.Some? && w.store.TenantTokenExpired(now)));
            if starts
            then && w'.tasks == w.tasks + [Task(tab, RefreshQueued(w.store.token, w.store.Account()))]
                 && w'.tabs == w.tabs[tab := w.tabs[tab].(refreshing := Some(|w.tasks|))]
            else w' == w
  {
  }

  /** A selection overtakes the earlier ones of its tab and remembers that it did. */
  lemma SelectionStarts(w: World, tab: nat, tenant: Tenant, csrf: bool, now: int, w': World)
    requires tab < |w.tabs| && Step(w, Select(tab, tenant, csrf, now)) == Some(w')
    ensures w'.store == w.store && |w'.tasks| > |w.tasks| && |w'.tabs| == |w.tabs|
    ensures w'.tabs[tab].generation == w.tabs[tab].generation + 1
    ensures Last(w'.tasks) == Task(tab, SelectEnsuring(w.tabs[tab].generation + 1, tenant, w'.tabs[tab].refreshing))
  {
  }

  lemma LogoutStarts(w: World, tab: nat, w': World)
    requires Step(w, Logout(tab)) == Some(w')
    ensures w'.store == w.store && OnlyGenerationRises(w, w', tab) && w'.tasks == w.tasks + [Task(tab, LogoutQueued)]
  {
  }

  /** A fetch waits for the session if and only if a token it needs runs out; otherwise it is sent at once, with what is
      stored. */
  lemma FetchStarts(w: World, tab: nat, scope: Scope, csrf: bool, now: int, w': World)
    requires tab < |w.tabs| && Step(w, Fetch(tab, scope, csrf, now)) == Some(w')
    ensures w'.store == w.store && |w'.tasks| > |w.tasks|
    ensures if w.store.TokenExpired(now) || (scope.TenantScope? && w.store.TenantTokenExpired(now))
            then Last(w'.tasks).pc.FetchEnsuring? && Last(w'.tasks).pc.awaited == w'.tabs[tab].refreshing
            else SentWithStored(w.store, scope, Last(w'.tasks).pc)
  {
  }

  /** The request carries the stored credential, and the fetch remembers whose session it was sent in. */
  predicate SentWithStored(s: Store, scope: Scope, pc: Pc) {
    && pc.FetchFirst? && pc.scope == scope && pc.captured == IdentityOf(s, scope)
    && pc.sent == pc.original == BearerOf(s, scope)
  }

  /** A fetch that waited for the session is sent if and only if the refresh succeeded, with what is stored by then. */
  lemma FetchGoesOn(w: World, i: nat, aborted: bool, w': World)
    requires i < |w.tasks| && w.tasks[i].pc.FetchEnsuring? && Step(w, Resume(i, aborted)) == Some(w')
    ensures var awaited := w.tasks[i].pc.awaited;
            && (awaited.Some? ==> awaited.value < |w.tasks| && w.tasks[awaited.value].pc.RefreshDone?)
            && Quiet(w, w', i, w'.tasks[i].pc)
            && if awaited.None? || w.tasks[awaited.value].pc.succeeded
               then SentWithStored(w.store, w.tasks[i].pc.scope, w'.tasks[i].pc)
               else w'.tasks[i].pc.FetchDone? && !w'.tasks[i].pc.returned
  {
  }

  /** What the first answer of a fetch leads to, when its session is still the one captured: an answer other than 401
      is returned, and so is a 401 when there is nothing to renew; a credential that has changed meanwhile is tried at
      once, and an unchanged one is renewed first. */
  lemma FirstAnswered(w: World, i: nat, reply: Reply, csrf: bool, now: int, aborted: bool, w': World)
    requires i < |w.tasks| && w.tasks[i].pc.FetchFirst? && w.tasks[i].tab < |w.tabs|
    requires Step(w, Answer(i, reply, csrf, now, aborted)) == Some(w')
    ensures var pc := w.tasks[i].pc;
            var current := IdentityOf(w.store, pc.scope) == pc.captured;
            if reply.Dropped? || !current then Quiet(w, w', i, FetchDone(pc.captured, false))
            else if reply != Refused(true) || (w.store.token.None? && !csrf)
            then Quiet(w, w', i, FetchDone(pc.captured, true))
            else if BearerOf(w.store, pc.scope) == pc.original
            then && w'.store == w.store && i < |w'.tasks| && w.tasks[i].tab < |w'.tabs|
                 && w'.tabs[w.tasks[i].tab].refreshing.Some?
                 && w'.tasks[i].pc == FetchRetrying(pc.scope, pc.captured, w'.tabs[w.tasks[i].tab].refreshing)
            else if aborted then Quiet(w, w', i, FetchDone(pc.captured, false))
            else Quiet(w, w', i, FetchSecond(pc.scope, pc.captured, BearerOf(w.store, pc.scope)))
  {
    var tab, pc := w.tasks[i].tab, w.tasks[i].pc;
    if FetchForcesRefresh(w.store, pc.scope, pc.captured, pc.original, reply, csrf) {
      var (renewing, awaited) := EnsureIn(w, tab, true, csrf, now);
      assert w' == Move(renewing, i, FetchRetrying(pc.scope, pc.captured, awaited));
    }
  }

  /** After a forced refresh the request is sent once more if and only if the refresh succeeded, the session is still
      the one captured, and the caller has not given up; it then carries the credential of that moment. */
  lemma RetryGoesOn(w: World, i: nat, aborted: bool, w': World)
    requires i < |w.tasks| && w.tasks[i].pc.FetchRetrying? && Step(w, Resume(i, aborted)) == Some(w')
    ensures var pc := w.tasks[i].pc;
            && (pc.awaited.Some? ==> pc.awaited.value < |w.tasks| && w.tasks[pc.awaited.value].pc.RefreshDone?)
            && if (pc.awaited.Some? ==> w.tasks[pc.awaited.value].pc.succeeded)
                  && IdentityOf(w.store, pc.scope) == pc.captured && !aborted
               then Quiet(w, w', i, FetchSecond(pc.scope, pc.captured, BearerOf(w.store, pc.scope)))
               else Quiet(w, w', i, FetchDone(pc.captured, false))
  {
  }

  lemma SecondAnswered(w: World, i: nat, reply: Reply, csrf: bool, now: int, aborted: bool, w': World)
    requires i < |w.tasks| && w.tasks[i].pc.FetchSecond?
    requires Step(w, Answer(i, reply, csrf, now, aborted)) == Some(w')
    ensures var pc := w.tasks[i].pc;
            Quiet(w, w', i, FetchDone(pc.captured, !reply.Dropped? && IdentityOf(w.store, pc.scope) == pc.captured))
  {
  }

  // ----- calls that nobody disturbs -----

  /** A world as `w` but for storage and tabs, with one task more. */
  ghost predicate Extends(v: World, w: World, store: Store, tabs: seq<Tab>, task: Task) {
    v.store == store && v.tabs == tabs && v.tasks == w.tasks + [task] && v.locksAvailable == w.locksAvailable
  }

  lemma LastTaskFinishes(v: World, w: World, store: Store, tabs: seq<Tab>, task: Task, next: (Local, Pc))
    requires Extends(v, w, store, tabs, task) && task.tab < |tabs|
    ensures Extends(FinishLocal(v, |w.tasks|, next), w, next.0.store, tabs[task.tab := next.0.tab],
                    Task(task.tab, next.1))
    ensures Critical(task.pc) && !Critical(next.1) ==> CanEnter(FinishLocal(v, |w.tasks|, next))
    ensures !Critical(task.pc) && CanEnter(v) ==> CanEnter(FinishLocal(v, |w.tasks|, next))
  {
  }

  /** The first events of a logout that nobody disturbs. */
  lemma LogoutSends(w: World, tab: nat) returns (events: seq<Event>, v: World)
    requires tab < |w.tabs| && CanEnter(w)
    ensures Run(w, events) == Some(v) && events == [Logout(tab), EnterLock(|w.tasks|, 0)]
    ensures Extends(v, w, w.store, w.tabs[tab := w.tabs[tab].(generation := w.tabs[tab].generation + 1)],
                    Task(tab, LogoutSent))
  {
    var i := |w.tasks|;
    events, v := Then(w, [], w, Logout(tab));
    events, v := Then(w, events, v, EnterLock(i, 0));
  }

  /** A logout whose lock is free, and which the server confirms, ends with nothing stored. */
  lemma UndisturbedLogout(w: World, tab: nat, reply: Reply) returns (events: seq<Event>, end: World)
    requires tab < |w.tabs| && CanEnter(w) && reply != Dropped && reply != Refused(false)
    ensures Run(w, events) == Some(end) && CanEnter(end)
    ensures events == [Logout(tab), EnterLock(|w.tasks|, 0), Answer(|w.tasks|, reply, true, 0, false)]
    ensures end.store == EMPTY_STORE && end.tasks == w.tasks + [Task(tab, LogoutDone(true))]
  {
    var v;
    events, v := LogoutSends(w, tab);
    LastTaskFinishes(v, w, v.store, v.tabs, Task(tab, LogoutSent), LogoutReplied(LocalOf(v, tab), reply));
    events, end := Then(w, events, v, Answer(|w.tasks|, reply, true, 0, false));
  }

  /** A tab that starts a refresh and gets the lock sends it for the stored account. */
  lemma RefreshSends(w: World, tab: nat, csrf: bool) returns (events: seq<Event>, v: World)
    requires tab < |w.tabs| && CanEnter(w) && w.tabs[tab].refreshing.None? && (w.store.token.Some? || csrf)
    ensures Run(w, events) == Some(v) && events == [Ensure(tab, true, csrf, 0), EnterLock(|w.tasks|, 0)]
    ensures Extends(v, w, w.store, w.tabs[tab := w.tabs[tab].(refreshing := Some(|w.tasks|))],
                    Task(tab, RefreshSent(w.store.Account())))
  {
    var i := |w.tasks|;
    events, v := Then(w, [], w, Ensure(tab, true, csrf, 0));
    assert v.tasks == w.tasks + [Task(tab, RefreshQueued(w.store.token, w.store.Account()))];
    events, v := Then(w, events, v, EnterLock(i, 0));
  }

  /** Its answer is read, and the new token stored. */
  lemma RefreshCommits(w: World, before: seq<Event>, v: World, store: Store, tabs: seq<Tab>, tab: nat, token: Token)
    returns (events: seq<Event>, end: World)
    requires Run(w, before) == Some(v) && tab < |tabs|
    requires Extends(v, w, store, tabs, Task(tab, RefreshSent(store.Account())))
    ensures Run(w, events) == Some(end) && (store.active.None? ==> CanEnter(end))
    ensures events == before + [Answer(|w.tasks|, AccountGranted(token), true, 0, false), ReadBody(|w.tasks|)]
    ensures Extends(end, w, store.(token := Some(token)), tabs,
                    Task(tab, if store.active.None? then RefreshSettling(true)
                              else RefreshDeriving(Some(token.account), store.active.value)))
  {
    var i, reply := |w.tasks|, AccountGranted(token);
    LastTaskFinishes(v, w, store, tabs, v.tasks[i], RefreshReplied(LocalOf(v, tab), store.Account(), reply));
    events, end := Then(w, before, v, Answer(i, reply, true, 0, false));
    LastTaskFinishes(end, w, store, tabs, end.tasks[i], RefreshRead(LocalOf(end, tab), store.Account(), reply));
    events, end := Then(w, events, end, ReadBody(i));
  }

  /** With an active tenant its token is derived again. */
  lemma TenantCommits(w: World, before: seq<Event>, v: World, store: Store, tabs: seq<Tab>, tab: nat,
                      granted: TenantToken)
    returns (events: seq<Event>, end: World)
    requires Run(w, before) == Some(v) && tab < |tabs| && store.active.Some?
    requires Extends(v, w, store, tabs, Task(tab, RefreshDeriving(store.Account(), store.active.value)))
    ensures Run(w, events) == Some(end) && CanEnter(end)
    ensures events == before + [Answer(|w.tasks|, TenantGranted(granted), true, 0, false)]
    ensures Extends(end, w, store.(tenantToken := Some(granted)), tabs, Task(tab, RefreshSettling(true)))
  {
    var i, reply := |w.tasks|, TenantGranted(granted);
    LastTaskFinishes(v, w, store, tabs, v.tasks[i],
                     TenantRestored(LocalOf(v, tab), store.Account(), store.active.value, reply));
    events, end := Then(w, before, v, Answer(i, reply, true, 0, false));
  }

  /** The events of a refresh that gets the lock and both tokens. */
  function RefreshEvents(tab: nat, csrf: bool, i: nat, token: Token, granted: Option<TenantToken>): seq<Event> {
    [Ensure(tab, true, csrf, 0), EnterLock(i, 0), Answer(i, AccountGranted(token), true, 0, false), ReadBody(i)]
    + (if granted.None? then [] else [Answer(i, TenantGranted(granted.value), true, 0, false)]) + [Settle(i)]
  }

  /** A refresh that gets the lock and both tokens ends with both stored, and with nothing else changed. */
  lemma UndisturbedRefresh(w: World, tab: nat, csrf: bool, token: Token, granted: TenantToken)
    returns (events: seq<Event>, end: World)
    requires tab < |w.tabs| && CanEnter(w) && w.tabs[tab].refreshing.None? && (w.store.token.Some? || csrf)
    ensures Run(w, events) == Some(end) && CanEnter(end)
    ensures events == RefreshEvents(tab, csrf, |w.tasks|, token, if w.store.active.Some? then Some(granted) else None)
    ensures end.store.token == Some(token) && end.store.active == w.store.active
    ensures end.store.tenantToken == if w.store.active.Some? then Some(granted) else w.store.tenantToken
    ensures end.tabs == w.tabs && end.tasks == w.tasks + [Task(tab, RefreshDone(true))]
  {
    var i, v := |w.tasks|, w;
    events, v := RefreshSends(w, tab, csrf);
    events, v := RefreshCommits(w, events, v, w.store, v.tabs, tab, token);
    if w.store.active.Some? { events, v := TenantCommits(w, events, v, v.store, v.tabs, tab, granted); }
    LastTaskFinishes(v, w, v.store, v.tabs, Task(tab, RefreshSettling(true)),
                     (LocalOf(v, tab).(tab := v.tabs[tab].(refreshing := None)), RefreshDone(true)));
    events, end := Then(w, events, v, Settle(i));
    assert end.tabs == w.tabs;
  }

  /** A selection made while the session is good, answered and not overtaken, ends with the tenant selected. */
  lemma UndisturbedSelection(w: World, tab: nat, tenant: Tenant, csrf: bool, now: int, granted: TenantToken)
    returns (events: seq<Event>, end: World)
    requires tab < |w.tabs| && w.tabs[tab].refreshing.None?
    requires !w.store.TokenExpired(now) && (w.store.active.None? || !w.store.TenantTokenExpired(now))
    ensures Run(w, events) == Some(end)
    ensures var i, reply := |w.tasks|, TenantGranted(granted);
            events == [Select(tab, tenant, csrf, now), Resume(i, false), Answer(i, reply, true, 0, false)]
    ensures end.store == w.store.(active := Some(tenant), tenantToken := Some(granted))
    ensures end.tasks == w.tasks + [Task(tab, SelectDone(true))]
  {
    var i, g, v := |w.tasks|, w.tabs[tab].generation + 1, w;
    var tabs := w.tabs[tab := w.tabs[tab].(generation := g)];
    events, v := Then(w, [], w, Select(tab, tenant, csrf, now));
    assert Extends(v, w, w.store, tabs, Task(tab, SelectEnsuring(g, tenant, None)));
    events, v := Then(w, events, v, Resume(i, false));
    assert Extends(v, w, w.store, tabs, Task(tab, SelectDeriving(g, tenant, w.store.Account())));
    LastTaskFinishes(v, w, w.store, tabs, v.tasks[i],
                     SelectReplied(LocalOf(v, tab), g, tenant, w.store.Account(), TenantGranted(granted)));
    events, end := Then(w, events, v, Answer(i, TenantGranted(granted), true, 0, false));
  }

  // ----- what a coroutine that ended well has done -----

  /** A task that a run brings to `pc` got there by some step of the run. */
  lemma {:induction false} Arrival(start: World, events: seq<Event>, end: World, i: nat, pc: Pc)
    returns (before: seq<Event>, w: World, e: Event, w': World)
    requires Run(start, events) == Some(end) && i < |end.tasks| && end.tasks[i].pc == pc
    requires i < |start.tasks| ==> start.tasks[i].pc != pc
    ensures before + [e] <= events && Run(start, before) == Some(w) && Step(w, e) == Some(w')
    ensures i < |w'.tasks| && w'.tasks[i].pc == pc && (i < |w.tasks| ==> w.tasks[i].pc != pc)
    decreases |events|
  {
    var next := Step(start, events[0]).value;
    if i < |next.tasks| && next.tasks[i].pc == pc {
      before, w, e, w' := [], start, events[0], next;
    } else {
      var rest;
      rest, w, e, w' := Arrival(next, events[1..], end, i, pc);
      before := [events[0]] + rest;
      assert before[1..] == rest && events == [events[0]] + events[1..];
    }
  }

  /** No step starts a task that is over, and none but an answer ends a logout or a selection well. */
  lemma EndsByAnswer(w: World, e: Event, w': World, i: nat, pc: Pc)
    requires Step(w, e) == Some(w') && i < |w'.tasks| && w'.tasks[i].pc == pc
    requires pc == LogoutDone(true) || pc == SelectDone(true)
    requires i < |w.tasks| ==> w.tasks[i].pc != pc
    ensures i < |w.tasks| && e.Answer? && e.task == i
    ensures if pc.LogoutDone? then w.tasks[i].pc.LogoutSent? else w.tasks[i].pc.SelectDeriving?
  {
    StepIsLocal(w, e);
    if !e.Targeted() {
      StartsNothingOver(w, e, w', i);
    } else if e.Answer? {
      AnswerEndsWell(w, e, w', pc);
    } else if e.Resume? {
      ResumeEndsNothingWell(w, i, e.aborted, w');
    } else {
      OthersEndNothing(w, e, w');
    }
  }

  lemma AnswerEndsWell(w: World, e: Event, w': World, pc: Pc)
    requires e.Answer? && e.task < |w.tasks| && w.tasks[e.task].pc != pc
    requires Step(w, e) == Some(w') && e.task < |w'.tasks| && w'.tasks[e.task].pc == pc
    requires pc == LogoutDone(true) || pc == SelectDone(true)
    ensures if pc.LogoutDone? then w.tasks[e.task].pc.LogoutSent? else w.tasks[e.task].pc.SelectDeriving?
  {
    if w.tasks[e.task].pc.FetchFirst? { FirstAnswered(w, e.task, e.reply, e.csrf, e.now, e.aborted, w'); }
  }

  lemma StartsNothingOver(w: World, e: Event, w': World, i: nat)
    requires Step(w, e) == Some(w') && !e.Targeted() && |w.tasks| <= i < |w'.tasks|
    ensures !w'.tasks[i].pc.LogoutDone? && !w'.tasks[i].pc.SelectDone?
  {
  }

  lemma OthersEndNothing(w: World, e: Event, w': World)
    requires e.EnterLock? || e.ReadBody? || e.Settle?
    requires e.task < |w.tasks| && Step(w, e) == Some(w')
    ensures !w'.tasks[e.task].pc.LogoutDone? && !w'.tasks[e.task].pc.SelectDone?
  {
  }

  lemma ResumeEndsNothingWell(w: World, i: nat, aborted: bool, w': World)
    requires i < |w.tasks| && Step(w, Resume(i, aborted)) == Some(w')
    ensures w'.tasks[i].pc != LogoutDone(true) && w'.tasks[i].pc != SelectDone(true)
  {
  }

  /** However the tabs interleave: a logout that ended well had emptied the session at some moment of the run, and no
      logout ends well otherwise. */
  lemma LoggedOutMeansEmptied(tabs: nat, locksAvailable: bool, events: seq<Event>, end: World, i: nat)
    returns (moment: seq<Event>, w: World)
    requires Run(Start(tabs, locksAvailable), events) == Some(end)
    requires i < |end.tasks| && end.tasks[i].pc == LogoutDone(true)
    ensures moment <= events && Run(Start(tabs, locksAvailable), moment) == Some(w)
    ensures w.store.token.None? && w.store.tenantToken.None? && w.store.active.None?
    ensures i < |w.tasks| && w.tasks[i].pc == LogoutDone(true)
  {
    var start := Start(tabs, locksAvailable);
    var before, v, e, v' := Arrival(start, events, end, i, LogoutDone(true));
    EndsByAnswer(v, e, v', i, LogoutDone(true));
    LogoutAnswered(v, i, e.reply, e.csrf, e.now, e.aborted, v');
    moment, w := Then(start, before, v, e);
  }

  /** And a selection that ended well had stored its tenant, with the token granted for it, while nothing had overtaken
      it. */
  lemma SelectedMeansStored(tabs: nat, locksAvailable: bool, events: seq<Event>, end: World, i: nat)
    returns (earlier: seq<Event>, before: World, e: Event, granted: TenantToken, w: World)
    requires Run(Start(tabs, locksAvailable), events) == Some(end)
    requires i < |end.tasks| && end.tasks[i].pc == SelectDone(true)
    ensures earlier + [e] <= events && Run(Start(tabs, locksAvailable), earlier) == Some(before)
    ensures Step(before, e) == Some(w)
    ensures i < |before.tasks| && before.tasks[i].pc.SelectDeriving? && before.tasks[i].tab < |before.tabs|
    ensures before.tasks[i].pc.generation == before.tabs[before.tasks[i].tab].generation
    ensures w.store == before.store.(active := Some(before.tasks[i].pc.tenant), tenantToken := Some(granted))
  {
    var start := Start(tabs, locksAvailable);
    earlier, before, e, w := Arrival(start, events, end, i, SelectDone(true));
    EndsByAnswer(before, e, w, i, SelectDone(true));
    SelectionAnswered(before, i, e.reply, e.csrf, e.now, e.aborted, w);
    granted := e.reply.tenantToken;
  }
}
