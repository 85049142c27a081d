/** The transport of one tab as the program keeps it: two closure variables and a
    storage object that every tab of the browser shares. Each method is the code
    between two awaits and is proved to do exactly what its segment function says,
    so that the theorems about runs are about this code. */
module AuthTransportTab {
  import opened Common
  import opened AuthTransport

  class SessionStorage {
    var token: Option<Token>
    var tenantToken: Option<TenantToken>
    var active: Option<Tenant>

    function View(): Store
      reads this
    {
      Store(token, tenantToken, active)
    }
  }

  class Transport {
    const session: SessionStorage
    var selectionGeneration: nat
    var refreshing: Option<nat>

    constructor (session: SessionStorage)
      ensures this.session == session
      ensures View() == Local(session.View(), Tab(0, None))
    {
      this.session := session;
      selectionGeneration := 0;
      refreshing := None;
    }

    function View(): Local
      reads this, session
    {
      Local(session.View(), Tab(selectionGeneration, refreshing))
    }

    method Clear()
      modifies this`selectionGeneration, session
      ensures View() == Cleared(old(View()))
    {
      selectionGeneration := selectionGeneration + 1;
      session.token := None;
      session.tenantToken := None;
      session.active := None;
    }

    method AcceptLogin(token: Token)
      modifies this`selectionGeneration, session
      ensures View() == LoggedIn(old(View()), token)
      ensures session.token == Some(token) && session.tenantToken.None? && session.active.None?
      ensures selectionGeneration == old(selectionGeneration) + 1
    {
      selectionGeneration := selectionGeneration + 1;
      session.tenantToken := None;
      session.active := None;
      session.token := Some(token);
    }

    /** Joins the refresh in flight, starts one under the given task number, or returns at once. */
    method EnsureSession(force: bool, csrf: bool, now: int, task: nat)
      returns (awaited: Option<nat>, queued: Option<Pc>)
      modifies this`refreshing
      ensures old(refreshing).Some? ==> awaited == old(refreshing) && queued == None && refreshing == old(refreshing)
      ensures old(refreshing).None? && !RefreshNeeded(session.View(), force, csrf, now) ==>
                awaited == None && queued == None && refreshing == None
      ensures old(refreshing).None? && RefreshNeeded(session.View(), force, csrf, now) ==>
                awaited == Some(task) && refreshing == Some(task)
                && queued == Some(RefreshQueued(session.token, session.View().Account()))
    {
      if refreshing.Some? { return refreshing, None; }
      var store := session.View();
      if session.token.None? && !csrf { return None, None; }
      if !force && !store.TokenExpired(now) && (session.active.None? || !store.TenantTokenExpired(now)) {
        return None, None;
      }
      var before, identity := session.token, store.Account();
      refreshing := Some(task);
      return refreshing, Some(RefreshQueued(before, identity));
    }

    /** The action of a refresh once the cross-tab lock is granted. It goes to the network, for the account it was
        started for, unless another tab has put a fresh token in place of `before`; then it only restores the tenant
        token of what is stored now, if a tenant is active. */
    method EnterRefresh(before: Option<Token>, identity: Option<Account>, now: int) returns (pc: Pc)
      ensures pc == RefreshEntered(session.View(), before, identity, now)
      ensures pc.RefreshSent? <==> session.token == before || session.View().TokenExpired(now)
      ensures pc.RefreshSent? ==> pc.identity == identity
      ensures pc.RefreshDeriving? ==>
                session.active == Some(pc.tenant) && pc.identity == session.View().Account() && session.token.Some?
      ensures pc == RefreshSettling(true) <==> !pc.RefreshSent? && session.active.None?
    {
      if session.token == before || session.View().TokenExpired(now) {
        return RefreshSent(identity);
      }
      pc := StartTenantPhase();
    }

    method StartTenantPhase() returns (pc: Pc)
      ensures pc == TenantPhase(session.View())
    {
      if session.active.Some? {
        return RefreshDeriving(session.View().Account(), session.active.value);
      }
      return RefreshSettling(true);
    }

    method OnRefreshReply(identity: Option<Account>, reply: Reply) returns (pc: Pc)
      modifies this`selectionGeneration, session
      ensures (View(), pc) == RefreshReplied(old(View()), identity, reply)
      ensures if reply == Refused(true) && old(session.View().Account()) == identity
              then session.token.None? && session.tenantToken.None? && session.active.None?
                   && selectionGeneration == old(selectionGeneration) + 1 && pc == RefreshSettling(false)
              else View() == old(View())
      ensures pc.RefreshReading? <==> !reply.Dropped? && reply != Refused(true) && session.View().Account() == identity
    {
      if reply.Dropped? || session.View().Account() != identity { return RefreshSettling(false); }
      if reply == Refused(true) {
        Clear();
        return RefreshSettling(false);
      }
      return RefreshReading(identity, reply);
    }

    method OnRefreshBody(identity: Option<Account>, reply: Reply) returns (pc: Pc)
      modifies session`token
      ensures (View(), pc) == RefreshRead(old(View()), identity, reply)
      ensures if reply.AccountGranted? && old(session.View().Account()) == identity
              then session.token == Some(reply.token) && pc != RefreshSettling(false)
              else session.token == old(session.token) && pc == RefreshSettling(false)
    {
      if !reply.AccountGranted? || session.View().Account() != identity { return RefreshSettling(false); }
      session.token := Some(reply.token);
      pc := StartTenantPhase();
    }

    method OnTenantRestored(identity: Option<Account>, tenant: Tenant, reply: Reply) returns (pc: Pc)
      modifies session`tenantToken
      ensures (View(), pc) == TenantRestored(old(View()), identity, tenant, reply)
      ensures if reply.TenantGranted? && session.View().Account() == identity
                 && session.active.Some? && session.active.value.membershipId == tenant.membershipId
              then session.tenantToken == Some(reply.tenantToken) && pc == RefreshSettling(true)
              else session.tenantToken == old(session.tenantToken) && pc == RefreshSettling(false)
    {
      if !reply.TenantGranted? { return RefreshSettling(false); }
      if session.View().Account() != identity
        || session.active.None? || session.active.value.membershipId != tenant.membershipId
      {
        return RefreshSettling(false);
      }
      session.tenantToken := Some(reply.tenantToken);
      return RefreshSettling(true);
    }

    /** The `finally` of a refresh. */
    method OnSettled()
      modifies this`refreshing
      ensures View() == old(View()).(tab := old(View()).tab.(refreshing := None))
    {
      refreshing := None;
    }

    method StartSelect() returns (generation: nat)
      modifies this`selectionGeneration
      ensures generation == old(selectionGeneration) + 1
      ensures View() == old(View()).(tab := old(View()).tab.(generation := generation))
    {
      selectionGeneration := selectionGeneration + 1;
      generation := selectionGeneration;
    }

    method OnSelectResumed(generation: nat, tenant: Tenant, succeeded: bool) returns (pc: Pc)
      ensures pc == SelectResumed(View(), generation, tenant, succeeded)
    {
      if !succeeded || generation != selectionGeneration { return SelectDone(false); }
      return SelectDeriving(generation, tenant, session.View().Account());
    }

    method OnSelectReply(generation: nat, tenant: Tenant, identity: Option<Account>, reply: Reply) returns (pc: Pc)
      modifies session`active, session`tenantToken
      ensures (View(), pc) == SelectReplied(old(View()), generation, tenant, identity, reply)
      ensures if reply.TenantGranted? && session.View().Account() == identity && selectionGeneration == generation
              then session.active == Some(tenant) && session.tenantToken == Some(reply.tenantToken)
                   && pc == SelectDone(true)
              else View() == old(View()) && pc == SelectDone(false)
    {
      if !reply.TenantGranted? || session.View().Account() != identity || generation != selectionGeneration {
        return SelectDone(false);
      }
      session.active := Some(tenant);
      session.tenantToken := Some(reply.tenantToken);
      return SelectDone(true);
    }

    method OnLogoutReply(reply: Reply) returns (pc: Pc)
      modifies this`selectionGeneration, session
      ensures (View(), pc) == LogoutReplied(old(View()), reply)
      ensures if reply != Dropped && reply != Refused(false)
              then session.token.None? && session.tenantToken.None? && session.active.None?
                   && selectionGeneration == old(selectionGeneration) + 1 && pc == LogoutDone(true)
              else View() == old(View()) && pc == LogoutDone(false)
    {
      if reply.Dropped? || reply == Refused(false) { return LogoutDone(false); }
      Clear();
      return LogoutDone(true);
    }

    method OnFirstReply(scope: Scope, captured: Identity, original: Bearer, reply: Reply, csrf: bool, now: int,
                        aborted: bool, task: nat)
      returns (pc: Pc, queued: Option<Pc>)
      modifies this`refreshing
      ensures !FetchForcesRefresh(session.View(), scope, captured, original, reply, csrf) ==>
                && View() == old(View()) && queued == None
                && pc == FirstReplied(session.View(), scope, captured, original, reply, csrf, aborted)
      ensures FetchForcesRefresh(session.View(), scope, captured, original, reply, csrf) ==>
                && pc == FetchRetrying(scope, captured, refreshing) && refreshing.Some?
                && (old(refreshing).Some? ==> View() == old(View()) && queued == None)
                && (old(refreshing).None? ==>
                      refreshing == Some(task)
                      && queued == Some(RefreshQueued(session.token, session.View().Account())))
    {
      queued := None;
      if reply.Dropped? || IdentityOf(session.View(), scope) != captured { return FetchDone(captured, false), None; }
      if reply == Refused(true) {
        if session.token.None? && !csrf { return FetchDone(captured, true), None; }
        if BearerOf(session.View(), scope) == original {
          var awaited;
          awaited, queued := EnsureSession(true, csrf, now, task);
          return FetchRetrying(scope, captured, awaited), queued;
        }
        pc := SecondSend(session.View(), scope, captured, aborted);
      } else {
        return FetchDone(captured, true), None;
      }
    }
  }
}
