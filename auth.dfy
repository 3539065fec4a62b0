/**
 * The `useAuth` hook (src/hooks/useAuth.tsx): the signed-in user, their role and a
 * loading flag, filled in by the initial session check and by session-change
 * events, and the redirect that the hook performs once loading is over.
 */
module Auth {
  import opened Wrappers

  /** A signed-in user as the identity provider reports it; only the id is used. */
  datatype User = User(id: string)

  /** JavaScript truthiness of an optional string: `null`, `undefined` and `""` are falsy. */
  predicate Truthy(s: Option<string>)
  {
    s.Some? && s.value != ""
  }

  /** `roles?.role || null`: the role kept from a `user_roles` lookup. */
  function StoredRole(fetched: Option<string>): (r: Option<string>)
    ensures Truthy(fetched) ==> r == fetched
    ensures !Truthy(fetched) ==> r == None
    ensures r != Some("")
  {
    if Truthy(fetched) then fetched else None
  }

  /**
   * The redirect effect: nothing while loading; `/login` without a user; `/` when a
   * (truthy) role is required and the user's role differs; nothing otherwise.
   */
  function RedirectTarget(loading: bool, user: Option<User>, role: Option<string>,
                          requiredRole: Option<string>): (r: Option<string>)
    ensures loading ==> r == None
    ensures r == Some("/login") <==> !loading && user.None?
    ensures r == Some("/") <==> !loading && user.Some? && Truthy(requiredRole) && role != requiredRole
    ensures r == None <==> loading || (user.Some? && (!Truthy(requiredRole) || role == requiredRole))
  {
    if loading then None
    else if user.None? then Some("/login")
    else if Truthy(requiredRole) && role != requiredRole then Some("/")
    else None
  }

  /** Without a user the hook sends to `/login`, whatever the role and the required role. */
  lemma MissingUserFirst(role: Option<string>, requiredRole: Option<string>)
    ensures RedirectTarget(false, None, role, requiredRole) == Some("/login")
  {
  }

  /** A user holding the required role is never redirected. */
  lemma MatchingRoleStays(user: User, requiredRole: Option<string>)
    ensures RedirectTarget(false, Some(user), requiredRole, requiredRole) == None
  {
  }

  /** The hook's state. */
  class AuthHook {
    const requiredRole: Option<string>
    var user: Option<User>
    var role: Option<string>
    var loading: bool

    /** A role is only ever held by a signed-in user, and it is never the empty string. */
    ghost predicate Valid()
      reads this
    {
      && role != Some("")
      && (user.None? ==> role.None?)
    }

    /** The initial state: no user, no role, loading. */
    constructor (requiredRole: Option<string>)
      ensures Valid()
      ensures this.requiredRole == requiredRole
      ensures user == None && role == None && loading
    {
      this.requiredRole := requiredRole;
      user := None;
      role := None;
      loading := true;
    }

    /** Where the redirect effect sends the user in the current state. */
    function Redirect(): (r: Option<string>)
      reads this
      ensures loading ==> r == None
      ensures !loading && user.None? ==> r == Some("/login")
    {
      RedirectTarget(loading, user, role, requiredRole)
    }

    /**
     * `checkAuth`: `session` is the result of `getSession()`, `roleRow` that of the
     * `user_roles` lookup, which is only made when the session has a user. The user is
     * stored before the lookup, so a lookup that throws leaves the user set and the role
     * as it was. `finally` clears `loading` on every path.
     */
    method CheckAuth(session: Attempt<Option<User>>, roleRow: Attempt<Option<string>>)
      requires Valid()
      modifies this
      ensures Valid()
      ensures !loading
      ensures session.Returned? && session.value.Some? ==>
                user == session.value &&
                role == (if roleRow.Returned? then StoredRole(roleRow.value) else old(role))
      ensures !(session.Returned? && session.value.Some?) ==>
                user == old(user) && role == old(role)
    {
      if session.Returned? && session.value.Some? {
        user := session.value;
        if roleRow.Returned? {
          role := StoredRole(roleRow.value);
        }
      }
      loading := false;
    }

    /**
     * The `onAuthStateChange` listener: the user becomes the session's user; with a user
     * the role is looked up again (a lookup that throws leaves it as it was), without one
     * the role is cleared. `loading` is not touched.
     */
    method OnAuthStateChange(session: Option<User>, roleRow: Attempt<Option<string>>)
      requires Valid()
      modifies this
      ensures Valid()
      ensures user == session && loading == old(loading)
      ensures session.None? ==> role == None
      ensures session.Some? ==>
                role == (if roleRow.Returned? then StoredRole(roleRow.value) else old(role))
    {
      user := session;
      if session.Some? {
        if roleRow.Returned? {
          role := StoredRole(roleRow.value);
        }
      } else {
        role := None;
      }
    }
  }

  /** The hook on a page opened without a session ends up sending the visitor to `/login`. */
  method SignedOutVisit(requiredRole: Option<string>) returns (target: Option<string>)
    ensures target == Some("/login")
  {
    var hook := new AuthHook(requiredRole);
    assert hook.Redirect() == None;
    hook.CheckAuth(Returned(None), Threw);
    target := hook.Redirect();
  }

  /**
   * Signing out after a successful check: the listener clears user and role, and the
   * redirect then goes to `/login`.
   */
  method SignOutAfterCheck(u: User, fetched: Option<string>, requiredRole: Option<string>)
    returns (before: Option<string>, after: Option<string>)
    ensures before == (if Truthy(requiredRole) && StoredRole(fetched) != requiredRole then Some("/") else None)
    ensures after == Some("/login")
  {
    var hook := new AuthHook(requiredRole);
    hook.CheckAuth(Returned(Some(u)), Returned(fetched));
    before := hook.Redirect();
    hook.OnAuthStateChange(None, Threw);
    after := hook.Redirect();
  }
}
