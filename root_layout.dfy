/** The root layout (RootLayout.tsx): the authentication guard's redirects
    and the gate that waits for the sync client. */
module RootLayout {
  import opened Helper

  /** The pages reachable without logging in. */
  predicate IsPublic(pathname: string) {
    pathname == "/login" || pathname == "/signup"
  }

  /** What the guard's effect does: nothing, or `navigate(to, {replace: true})`. */
  datatype Redirect = NoRedirect | ReplaceWith(to: string)

  /** The guard's effect for a login state (truthy or not) and a path. */
  function AuthRedirect(loggedIn: bool, pathname: string): (r: Redirect)
    ensures r == ReplaceWith("/login") <==> !loggedIn && !IsPublic(pathname)
    ensures r == ReplaceWith("/") <==> loggedIn && IsPublic(pathname)
    ensures r == NoRedirect <==> (loggedIn <==> !IsPublic(pathname))
  {
    if !loggedIn && pathname != "/login" && pathname != "/signup" then ReplaceWith("/login")
    else if loggedIn && (pathname == "/login" || pathname == "/signup") then ReplaceWith("/")
    else NoRedirect
  }

  /** Whether the guard renders its children (rather than `null`). */
  function AuthGuardRendersChildren(loggedIn: bool, pathname: string): bool {
    if !loggedIn && pathname != "/login" && pathname != "/signup" then false
    else if loggedIn && (pathname == "/login" || pathname == "/signup") then false
    else true
  }

  /** The render guards use the effect's conditions: children render
      exactly when no redirect is due. */
  lemma GuardMatchesRedirect(loggedIn: bool, pathname: string)
    ensures AuthGuardRendersChildren(loggedIn, pathname) <==> AuthRedirect(loggedIn, pathname) == NoRedirect
  {
  }

  /** A redirect lands where the guard does not redirect again, and renders. */
  lemma RedirectSettles(loggedIn: bool, pathname: string)
    requires AuthRedirect(loggedIn, pathname).ReplaceWith?
    ensures AuthRedirect(loggedIn, AuthRedirect(loggedIn, pathname).to) == NoRedirect
    ensures AuthGuardRendersChildren(loggedIn, AuthRedirect(loggedIn, pathname).to)
  {
  }

  /** What `ZeroInitializer` shows: the loading placeholder, or the
      provider holding the client. */
  datatype Gate<Client> = Loading | Provide(client: Client)

  function ZeroInitializer<Client>(z: Option<Client>): (r: Gate<Client>)
    ensures r.Loading? <==> z.None?
    ensures r.Provide? ==> r.client == z.value
  {
    if z.None? then Loading else Provide(z.value)
  }
}
