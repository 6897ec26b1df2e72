/**
 * The access-control pallet: a role per (account, resource) pair, granted by root or by an
 * `Admin` of that resource, and revoked by root, an `Admin` of that resource or the holder.
 */
module AccessControl {
  import opened Wrappers
  import opened Frame

  datatype Role = Admin | Editor | Viewer

  datatype Error = NotAuthorized | RoleNotFound

  datatype Event =
    | RoleGranted(account: AccountId, resourceId: U32, role: Role)
    | RoleRevoked(account: AccountId, resourceId: U32)

  /** The `Roles` double map, keyed by (account, resource id). */
  type Roles = map<(AccountId, U32), Role>

  type Outcome = Result<(), DispatchError<Error>>

  /** The pallet's storage together with the events deposited so far. */
  datatype Storage = Storage(roles: Roles, events: seq<Event>)

  predicate IsAdmin(roles: Roles, who: AccountId, resourceId: U32) {
    (who, resourceId) in roles && roles[(who, resourceId)] == Admin
  }

  /** `b` is `a` with at most the entry under `key` changed. */
  ghost predicate AgreeExcept(a: Roles, b: Roles, key: (AccountId, U32)) {
    forall k :: k != key ==> (k in a <==> k in b) && (k in a ==> a[k] == b[k])
  }

  /**
   * `ensure_admin_or_root`: root passes with no account, a signed `Admin` of the resource
   * passes with its account, any other signed caller is `NotAuthorized`, unsigned is `BadOrigin`.
   */
  function EnsureAdminOrRoot(roles: Roles, origin: Origin, resourceId: U32): (r: Result<Option<AccountId>, DispatchError<Error>>)
    ensures r == Ok(None) <==> origin.Root?
    ensures (r.Ok? && r.value.Some?) <==> origin.Signed? && IsAdmin(roles, origin.who, resourceId)
    ensures r.Ok? && r.value.Some? ==> r.value.value == origin.who
    ensures r == Err(BadOrigin) <==> origin.Unsigned?
    ensures r == Err(Module(NotAuthorized)) <==> origin.Signed? && !IsAdmin(roles, origin.who, resourceId)
  {
    if origin.Root? then Ok(None)
    else
      match EnsureSigned<Error>(origin)
      case Err(e) => Err(e)
      case Ok(who) =>
        if (who, resourceId) !in roles then Err(Module(NotAuthorized))
        else if roles[(who, resourceId)] != Admin then Err(Module(NotAuthorized))
        else Ok(Some(who))
  }

  /**
   * `ensure_admin_root_or_self`: as above, except that a signed caller may also act on
   * its own account.
   */
  function EnsureAdminRootOrSelf(roles: Roles, origin: Origin, resourceId: U32, target: AccountId): (r: Outcome)
    ensures r.Ok? <==> origin.Root? || (origin.Signed? && (origin.who == target || IsAdmin(roles, origin.who, resourceId)))
    ensures r == Err(BadOrigin) <==> origin.Unsigned?
    ensures r.Err? && r != Err(BadOrigin) ==> r == Err(Module(NotAuthorized))
  {
    if origin.Root? then Ok(())
    else
      match EnsureSigned<Error>(origin)
      case Err(e) => Err(e)
      case Ok(who) =>
        if who == target then Ok(())
        else if (who, resourceId) !in roles then Err(Module(NotAuthorized))
        else if roles[(who, resourceId)] != Admin then Err(Module(NotAuthorized))
        else Ok(())
  }

  /** `grant_role` as a transition of the storage. */
  function Grant(s: Storage, origin: Origin, account: AccountId, resourceId: U32, role: Role): (r: (Outcome, Storage))
    ensures r.0.Ok? <==> EnsureAdminOrRoot(s.roles, origin, resourceId).Ok?
    ensures r.0.Err? ==> r.1 == s
    ensures r.0.Ok? ==>
      && (account, resourceId) in r.1.roles && r.1.roles[(account, resourceId)] == role
      && AgreeExcept(s.roles, r.1.roles, (account, resourceId))
      && r.1.events == s.events + [RoleGranted(account, resourceId, role)]
  {
    match EnsureAdminOrRoot(s.roles, origin, resourceId)
    case Err(e) => (Err(e), s)
    case Ok(_) =>
      (Ok(()), Storage(s.roles[(account, resourceId) := role], s.events + [RoleGranted(account, resourceId, role)]))
  }

  /** `revoke_role` as a transition: authority is checked before the role's existence. */
  function Revoke(s: Storage, origin: Origin, account: AccountId, resourceId: U32): (r: (Outcome, Storage))
    ensures EnsureAdminRootOrSelf(s.roles, origin, resourceId, account).Err? ==>
      r == (EnsureAdminRootOrSelf(s.roles, origin, resourceId, account), s)
    ensures EnsureAdminRootOrSelf(s.roles, origin, resourceId, account).Ok? && (account, resourceId) !in s.roles ==>
      r == (Err(Module(RoleNotFound)), s)
    ensures r.0.Ok? <==>
      EnsureAdminRootOrSelf(s.roles, origin, resourceId, account).Ok? && (account, resourceId) in s.roles
    ensures r.0.Ok? ==>
      && (account, resourceId) !in r.1.roles
      && AgreeExcept(s.roles, r.1.roles, (account, resourceId))
      && r.1.events == s.events + [RoleRevoked(account, resourceId)]
  {
    match EnsureAdminRootOrSelf(s.roles, origin, resourceId, account)
    case Err(e) => (Err(e), s)
    case Ok(_) =>
      if (account, resourceId) !in s.roles then (Err(Module(RoleNotFound)), s)
      else (Ok(()), Storage(s.roles - {(account, resourceId)}, s.events + [RoleRevoked(account, resourceId)]))
  }

  /** The pallet's storage items, updated in place by its two calls. */
  class Pallet {
    var roles: Roles
    var events: seq<Event>

    function Snapshot(): Storage
      reads this
    {
      Storage(roles, events)
    }

    /** Genesis: no role is stored and nothing has been emitted. */
    constructor()
      ensures roles == map[] && events == []
    {
      roles := map[];
      events := [];
    }

    method GrantRole(origin: Origin, account: AccountId, resourceId: U32, role: Role) returns (r: Outcome)
      modifies this
      ensures (r, Snapshot()) == Grant(old(Snapshot()), origin, account, resourceId, role)
    {
      var guard := EnsureAdminOrRoot(roles, origin, resourceId);
      if guard.Err? {
        return Err(guard.error);
      }
      roles := roles[(account, resourceId) := role];
      events := events + [RoleGranted(account, resourceId, role)];
      r := Ok(());
    }

    method RevokeRole(origin: Origin, account: AccountId, resourceId: U32) returns (r: Outcome)
      modifies this
      ensures (r, Snapshot()) == Revoke(old(Snapshot()), origin, account, resourceId)
    {
      var guard := EnsureAdminRootOrSelf(roles, origin, resourceId, account);
      if guard.Err? {
        return guard;
      }
      if (account, resourceId) !in roles {
        return Err(Module(RoleNotFound));
      }
      roles := roles - {(account, resourceId)};
      events := events + [RoleRevoked(account, resourceId)];
      r := Ok(());
    }
  }

  /** Being `Admin` of one resource gives no authority over another. */
  lemma AdminIsPerResource(roles: Roles, who: AccountId, r1: U32, r2: U32, target: AccountId)
    requires r1 != r2
    ensures EnsureAdminOrRoot(roles[(who, r1) := Admin], Signed(who), r2) == EnsureAdminOrRoot(roles, Signed(who), r2)
    ensures EnsureAdminRootOrSelf(roles[(who, r1) := Admin], Signed(who), r2, target)
         == EnsureAdminRootOrSelf(roles, Signed(who), r2, target)
  {
    assert IsAdmin(roles[(who, r1) := Admin], who, r2) == IsAdmin(roles, who, r2);
  }

  /** A root grant followed by a root revoke of the same pair leaves the other entries as they were. */
  lemma GrantThenRevoke(s: Storage, account: AccountId, resourceId: U32, role: Role)
    ensures var g := Grant(s, Root, account, resourceId, role);
      var v := Revoke(g.1, Root, account, resourceId);
      g.0.Ok? && v.0.Ok? && v.1.roles == s.roles - {(account, resourceId)}
  {
    var g := Grant(s, Root, account, resourceId, role);
    var v := Revoke(g.1, Root, account, resourceId);
    assert v.1.roles == g.1.roles - {(account, resourceId)};
    assert AgreeExcept(s.roles, g.1.roles, (account, resourceId));
  }

  /** Any signed account may drop its own role, whatever role it holds. */
  lemma SelfRevoke(s: Storage, account: AccountId, resourceId: U32)
    ensures Revoke(s, Signed(account), account, resourceId).0.Ok? <==> (account, resourceId) in s.roles
  {
  }

  /** An `Editor` or `Viewer` cannot grant, not even to itself, and nothing changes. */
  lemma NonAdminCannotGrant(s: Storage, who: AccountId, resourceId: U32, account: AccountId, role: Role)
    requires (who, resourceId) in s.roles && s.roles[(who, resourceId)] != Admin
    ensures Grant(s, Signed(who), account, resourceId, role) == (Err(Module(NotAuthorized)), s)
  {
  }
}
