/** The code of the browser's authentication transport, cut at its awaits.

    All tabs share one session storage. Each function below is one uninterrupted
    segment of a coroutine: what it does to the storage and to its own tab, and
    the program counter at which it then waits. */
module AuthTransport {
  import opened Common

  /** `sub:sid:auth_version`, the identity that a stored account token names. */
  type Account = string

  datatype Token = Token(account: Account, expires: Option<int>, serial: nat)
  datatype Tenant = Tenant(tenantId: string, membershipId: string)
  datatype TenantToken = TenantToken(account: Account, membershipId: string, expires: Option<int>, serial: nat)

  const EXPIRY_MARGIN_MS := 15_000

  predicate Stale(expires: Option<int>, now: int) {
    expires.Some? && expires.value * 1000 <= now + EXPIRY_MARGIN_MS
  }

  datatype Store = Store(token: Option<Token>, tenantToken: Option<TenantToken>, active: Option<Tenant>) {
    function Account(): Option<Account> {
      if token.Some? then Some(token.value.account) else None
    }

    predicate TokenExpired(now: int) {
      token.None? || Stale(token.value.expires, now)
    }

    predicate TenantTokenExpired(now: int) {
      tenantToken.None? || Stale(tenantToken.value.expires, now)
    }

    /** A stored tenant token belongs to the current account and the current membership. */
    ghost predicate TenantBound() {
      tenantToken.Some? ==>
        && token.Some? && active.Some?
        && tenantToken.value.account == token.value.account
        && tenantToken.value.membershipId == active.value.membershipId
    }
  }

  const EMPTY_STORE := Store(None, None, None)

  datatype Tab = Tab(generation: nat, refreshing: Option<nat>)

  datatype Scope = AccountScope | TenantScope

  /** What a fetch compares before and after each await. */
  datatype Identity = AccountIdentity(account: Option<Account>) | TenantIdentity(at: Option<(Account, Tenant)>)

  datatype Bearer = NoBearer | AccountBearer(token: Token) | TenantBearer(tenantToken: TenantToken)

  function IdentityOf(s: Store, scope: Scope): Identity {
    match scope
    case AccountScope => AccountIdentity(s.Account())
    case TenantScope =>
      TenantIdentity(if s.token.Some? && s.active.Some? then Some((s.token.value.account, s.active.value)) else None)
  }

  function BearerOf(s: Store, scope: Scope): Bearer {
    match scope
    case AccountScope => if s.token.Some? then AccountBearer(s.token.value) else NoBearer
    case TenantScope => if s.tenantToken.Some? then TenantBearer(s.tenantToken.value) else NoBearer
  }

  /** The credential was issued to the identity. */
  ghost predicate BelongsTo(bearer: Bearer, identity: Identity) {
    match bearer
    case NoBearer => true
    case AccountBearer(t) => identity == AccountIdentity(Some(t.account))
    case TenantBearer(t) =>
      && identity.TenantIdentity? && identity.at.Some?
      && identity.at.value.0 == t.account
      && identity.at.value.1.membershipId == t.membershipId
  }

  /** A settled network call: an answer, or `Dropped` for a timeout or a failed connection. */
  datatype Reply =
    | Dropped
    | Refused(unauthorized: bool)
    | AccountGranted(token: Token)
    | TenantGranted(tenantToken: TenantToken)
    | Served

  /** Where a coroutine waits, with its live local variables. */
  datatype Pc =
    | RefreshQueued(before: Option<Token>, identity: Option<Account>)
    | RefreshSent(identity: Option<Account>)
    | RefreshReading(identity: Option<Account>, reply: Reply)
    | RefreshDeriving(identity: Option<Account>, tenant: Tenant)
    | RefreshSettling(succeeded: bool)
    | RefreshDone(succeeded: bool)
    | SelectEnsuring(generation: nat, tenant: Tenant, awaited: Option<nat>)
    | SelectDeriving(generation: nat, tenant: Tenant, identity: Option<Account>)
    | SelectDone(committed: bool)
    | LogoutQueued
    | LogoutSent
    | LogoutDone(cleared: bool)
    | FetchEnsuring(scope: Scope, awaited: Option<nat>)
    | FetchFirst(scope: Scope, captured: Identity, original: Bearer, sent: Bearer)
    | FetchRetrying(scope: Scope, captured: Identity, awaited: Option<nat>)
    | FetchSecond(scope: Scope, captured: Identity, sent: Bearer)
    | FetchDone(captured: Identity, returned: bool)

  datatype Local = Local(store: Store, tab: Tab)

  // ----- segments that finish at once -----

  function Cleared(l: Local): Local {
    Local(EMPTY_STORE, l.tab.(generation := l.tab.generation + 1))
  }

  function LoggedIn(l: Local, token: Token): Local {
    Local(Store(Some(token), None, None), l.tab.(generation := l.tab.generation + 1))
  }

  // ----- ensureSession -----

  /** The two early returns of `ensureSession` are not taken. */
  predicate RefreshNeeded(s: Store, force: bool, csrf: bool, now: int) {
    && (s.token.Some? || csrf)
    && (force || s.TokenExpired(now) || (s.active.Some? && s.TenantTokenExpired(now)))
  }

  /** First segment under the cross-tab lock: another tab may already have rotated the token. */
  function RefreshEntered(s: Store, before: Option<Token>, identity: Option<Account>, now: int): Pc {
    if s.token == before || s.TokenExpired(now) then RefreshSent(identity) else TenantPhase(s)
  }

  function TenantPhase(s: Store): Pc {
    if s.active.Some? then RefreshDeriving(s.Account(), s.active.value) else RefreshSettling(true)
  }

  function RefreshReplied(l: Local, identity: Option<Account>, reply: Reply): (Local, Pc) {
    if reply.Dropped? || l.store.Account() != identity then (l, RefreshSettling(false))
    else if reply == Refused(true) then (Cleared(l), RefreshSettling(false))
    else (l, RefreshReading(identity, reply))
  }

  function RefreshRead(l: Local, identity: Option<Account>, reply: Reply): (Local, Pc) {
    if !reply.AccountGranted? || l.store.Account() != identity then (l, RefreshSettling(false))
    else
      var s := l.store.(token := Some(reply.token));
      (l.(store := s), TenantPhase(s))
  }

  function TenantRestored(l: Local, identity: Option<Account>, tenant: Tenant, reply: Reply): (Local, Pc) {
    if !reply.TenantGranted? || l.store.Account() != identity || l.store.active.None?
       || l.store.active.value.membershipId != tenant.membershipId
    then (l, RefreshSettling(false))
    else (l.(store := l.store.(tenantToken := Some(reply.tenantToken))), RefreshSettling(true))
  }

  // ----- selectTenant and logoutSession -----

  function SelectResumed(l: Local, generation: nat, tenant: Tenant, succeeded: bool): Pc {
    if !succeeded || generation != l.tab.generation then SelectDone(false)
    else SelectDeriving(generation, tenant, l.store.Account())
  }

  function SelectReplied(l: Local, generation: nat, tenant: Tenant, identity: Option<Account>, reply: Reply)
    : (Local, Pc)
  {
    if !reply.TenantGranted? || l.store.Account() != identity || generation != l.tab.generation
    then (l, SelectDone(false))
    else (l.(store := l.store.(active := Some(tenant), tenantToken := Some(reply.tenantToken))), SelectDone(true))
  }

  function LogoutReplied(l: Local, reply: Reply): (Local, Pc) {
    if reply.Dropped? || reply == Refused(false) then (l, LogoutDone(false))
    else (Cleared(l), LogoutDone(true))
  }

  // ----- authenticatedFetch -----

  predicate FetchNeedsSession(s: Store, scope: Scope, now: int) {
    s.TokenExpired(now) || (scope.TenantScope? && s.TenantTokenExpired(now))
  }

  function FirstSend(s: Store, scope: Scope): Pc {
    FetchFirst(scope, IdentityOf(s, scope), BearerOf(s, scope), BearerOf(s, scope))
  }

  /** The second send, unless `assertIdentity` or the caller's abort signal throws first. */
  function SecondSend(s: Store, scope: Scope, captured: Identity, aborted: bool): Pc {
    if IdentityOf(s, scope) != captured || aborted then FetchDone(captured, false)
    else FetchSecond(scope, captured, BearerOf(s, scope))
  }

  /** After a 401 the session is forced through a refresh unless the credential has changed meanwhile. */
  predicate FetchForcesRefresh(s: Store, scope: Scope, captured: Identity, original: Bearer, reply: Reply, csrf: bool) {
    && reply == Refused(true)
    && IdentityOf(s, scope) == captured
    && (s.token.Some? || csrf)
    && BearerOf(s, scope) == original
  }

  function FirstReplied(s: Store, scope: Scope, captured: Identity, original: Bearer, reply: Reply, csrf: bool,
                        aborted: bool): Pc
    requires !FetchForcesRefresh(s, scope, captured, original, reply, csrf)
  {
    if reply.Dropped? || IdentityOf(s, scope) != captured then FetchDone(captured, false)
    else if reply != Refused(true) || (s.token.None? && !csrf) then FetchDone(captured, true)
    else SecondSend(s, scope, captured, aborted)
  }

  function SecondReplied(s: Store, scope: Scope, captured: Identity, reply: Reply): Pc {
    FetchDone(captured, !reply.Dropped? && IdentityOf(s, scope) == captured)
  }
}
