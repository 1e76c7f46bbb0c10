/** The client-side guard of the admin dashboard, client/src/components/AdminRoute.js,
    with `isAdmin` from client/src/context/AuthContext.js: the user the client holds
    (None when logged out) decides whether the dashboard renders. */
module AdminRoute {
  import opened Common
  import Admin

  datatype Outcome = RedirectToLogin | RenderChildren | RedirectToHome

  /** `user?.role === 'admin'`. */
  predicate IsAdmin(user: Option<Caller>) {
    user.Some? && user.value.role == AdminRole
  }

  /** No user: to /login; an admin: the dashboard; anyone else: to the home page. */
  function Guard(user: Option<Caller>): Outcome {
    if user.None? then RedirectToLogin
    else if IsAdmin(user) then RenderChildren
    else RedirectToHome
  }

  /** For the same user the client guard and the server's admin gate agree: the
      dashboard renders exactly when the admin routes answer, a missing user is sent
      to log in where the server answers 401, and any other role is sent home where
      the server answers 403. */
  lemma GuardAgreesWithServer(user: Option<Caller>)
    ensures Guard(user) == RenderChildren <==> IsAdmin(user)
    ensures Guard(user) == RenderChildren <==> Admin.Gate(user).None?
    ensures Guard(user) == RedirectToLogin <==> Admin.Gate(user) == Some(Admin.Unauthenticated)
    ensures Guard(user) == RedirectToHome <==> Admin.Gate(user) == Some(Admin.NotAdmin)
  {
  }
}
