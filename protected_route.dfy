/** The route guard of client/src/components/ProtectedRoute.jsx: an ordered
    cascade over the authentication state and the current path. `user` is
    whether `useAuth()` holds a user object. */
module ProtectedRoute {
  import opened Base
  import opened Text

  /** What the guard renders: the loading placeholder, a `<Navigate replace>`
      (to `/login` it carries the location it came from), or the children. */
  datatype View = Placeholder | Redirect(to: string, from: Option<string>) | Children

  const MeetingPrefix := "/meeting/"

  /** The paths that need a logged-in user. */
  predicate NeedsLogin(pathname: string)
  {
    pathname == "/projects" || StartsWith(pathname, MeetingPrefix)
  }

  /** `allowedRoles.includes(role)`; a missing role is never included. */
  predicate RoleAllowed(role: Option<string>, allowedRoles: seq<string>)
  {
    role.Some? && role.value in allowedRoles
  }

  function Decide(loading: bool, user: bool, role: Option<string>, pathname: string,
                  allowedRoles: Option<seq<string>>): (v: View)
    ensures loading <==> v == Placeholder
    ensures v == Redirect("/projects", None) <==>
              !loading && user && (pathname == "/login" || pathname == "/register")
    ensures v == Redirect("/login", Some(pathname)) <==> !loading && !user && NeedsLogin(pathname)
    ensures v == Redirect("/", None) <==>
              !loading && user && pathname != "/login" && pathname != "/register"
              && allowedRoles.Some? && !RoleAllowed(role, allowedRoles.value)
    ensures v == Children <==>
              !loading
              && (user ==> pathname != "/login" && pathname != "/register"
                           && (allowedRoles.Some? ==> RoleAllowed(role, allowedRoles.value)))
              && (!user ==> !NeedsLogin(pathname))
  {
    if loading then Placeholder
    else if user && (pathname == "/login" || pathname == "/register") then Redirect("/projects", None)
    else if !user && NeedsLogin(pathname) then Redirect("/login", Some(pathname))
    else if allowedRoles.Some? && user && !RoleAllowed(role, allowedRoles.value) then Redirect("/", None)
    else Children
  }

  /** Without a role restriction the guard never redirects twice: the page
      a redirect leads to is rendered by the same guard. */
  lemma RedirectSettles(user: bool, role: Option<string>, pathname: string)
    requires Decide(false, user, role, pathname, None).Redirect?
    ensures Decide(false, user, role, Decide(false, user, role, pathname, None).to, None) == Children
  {
    assert !StartsWith("/login", MeetingPrefix) by { assert "/login"[1] != MeetingPrefix[1]; }
  }

  /** A logged-out user at the root or at the login page passes through,
      and so does a logged-out user at a meeting path that lacks the
      trailing slash. */
  lemma LoggedOutPassThrough()
    ensures Decide(false, false, None, "/", None) == Children
    ensures Decide(false, false, None, "/login", None) == Children
    ensures Decide(false, false, None, "/meeting", None) == Children
    ensures Decide(false, false, None, "/meeting/42", None) == Redirect("/login", Some("/meeting/42"))
  {
    assert !StartsWith("/login", MeetingPrefix) by { assert "/login"[1] != MeetingPrefix[1]; }
    assert "/meeting/42"[..|MeetingPrefix|] == MeetingPrefix;
  }
}
