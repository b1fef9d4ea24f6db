/** The permission classes of `django_splint.api.permissions`: plain boolean
    rules over the request's user, its method and a query token. */
module Permissions {
  import opened Py

  /** The flags of `request.user` the rules read; an absent user is `None`. */
  datatype User = User(isAuthenticated: bool, isStaff: bool)

  /** `request.user and request.user.is_authenticated`. */
  predicate Authenticated(user: Option<User>) {
    user.Some? && user.value.isAuthenticated
  }

  /** `IsAdminUserOrReadOnlyAuthenticated.has_permission`: an authenticated
      user may use a safe method (`safeMethods`, DRF's `SAFE_METHODS`), and
      staff may use any. */
  predicate AdminOrReadOnly(user: Option<User>, httpMethod: string, safeMethods: set<string>) {
    Authenticated(user) && (httpMethod in safeMethods || user.value.isStaff)
  }

  /** `IsAdminUserAuthenticated.has_permission`. */
  predicate AdminAuthenticated(user: Option<User>) {
    Authenticated(user) && user.value.isStaff
  }

  /** `WorkflowExternalAuthenticated.has_permission`: the `workflow_token`
      query value (`None` when missing) equals the `WORKFLOW_TOKEN` setting.
      The user plays no part. */
  predicate WorkflowExternal(token: Option<string>, setting: Option<string>) {
    token == setting
  }

  /** The read-only rule is the admin rule widened by safe methods for any
      authenticated user; in particular it permits whatever the admin rule
      permits, and nobody unauthenticated gets through either. */
  lemma AdminOrReadOnlyDecomposed(user: Option<User>, httpMethod: string, safeMethods: set<string>)
    ensures AdminOrReadOnly(user, httpMethod, safeMethods) <==>
      AdminAuthenticated(user) || (Authenticated(user) && httpMethod in safeMethods)
    ensures AdminAuthenticated(user) ==> AdminOrReadOnly(user, httpMethod, safeMethods)
    ensures !Authenticated(user) ==> !AdminOrReadOnly(user, httpMethod, safeMethods) && !AdminAuthenticated(user)
  {
  }

  /** An authenticated non-staff user may read but not write. */
  lemma ReadOnlyForNonStaff(u: User, httpMethod: string, safeMethods: set<string>)
    requires u.isAuthenticated && !u.isStaff
    ensures AdminOrReadOnly(Some(u), httpMethod, safeMethods) <==> httpMethod in safeMethods
    ensures !AdminAuthenticated(Some(u))
  {
  }

  /** With no token configured, a request without a token passes and one
      with any token does not. */
  lemma WorkflowUnset(token: Option<string>)
    ensures WorkflowExternal(token, None) <==> token.None?
  {
  }
}
