/**
 * The admin access guard (src/components/AdminGuard.tsx).  The component
 * holds one piece of state, `ok : null | false | true`, that each `check`
 * overwrites; it runs `check` once at mount and again on every auth-state
 * event, and renders from `ok` alone.  The session, the profile lookup and
 * the router are outside this model: the user id and the lookup's answer
 * are inputs of `Check`, and the redirects it issues are kept in a log.
 */
module AdminGuard {
  import opened Wrappers

  /** The route every denial redirects to. */
  const LoginRoute: string := "/login"

  /** The only role that is let in. */
  const AdminRole: string := "admin"

  /** The `profiles` row the lookup returns: just the selected `role` column,
      which may be null. */
  datatype Profile = Profile(role: Option<string>)

  /** The answer of `from('profiles').select('role').eq('id', uid).maybeSingle()`:
      an error flag and, when a row matched, the row. */
  datatype Lookup = Lookup(error: bool, data: Option<Profile>)

  /** What the component renders. */
  datatype View = CheckingPlaceholder | Nothing | Children

  /** `!uid` is false: the session carries a non-empty user id.  Of the
      values `uid` can take, exactly the missing id and the empty string are
      falsy. */
  predicate HasUser(uid: Option<string>)
    ensures !HasUser(uid) <==> uid == None || uid == Some("")
  {
    uid.Some? && uid.value != ""
  }

  /** The outcome of one `check`, following its early returns: no user id
      denies, a failed, empty or non-admin lookup denies, anything else
      admits. */
  function Admits(uid: Option<string>, lookup: Lookup): (admitted: bool)
    // fail closed: only a clean lookup of an admin row lets the user in
    ensures admitted <==> HasUser(uid) && !lookup.error && lookup.data == Some(Profile(Some(AdminRole)))
  {
    if !HasUser(uid) then false
    else if lookup.error || lookup.data.None? || lookup.data.value.role != Some(AdminRole) then false
    else true
  }

  /** The rendering from `ok`: the placeholder while unknown, nothing once
      denied, the protected children only once admitted. */
  function Render(ok: Option<bool>): (v: View)
    ensures v == Children <==> ok == Some(true)
    ensures v == CheckingPlaceholder <==> ok == None
    ensures v == Nothing <==> ok == Some(false)
  {
    match ok
    case None => CheckingPlaceholder
    case Some(allowed) => if allowed then Children else Nothing
  }

  class Guard {
    /** `ok`: None while checking, then the outcome of the latest check. */
    var ok: Option<bool>
    /** Every `router.replace` the guard has issued, oldest first. */
    var redirects: seq<string>
    /** The user ids whose profile was looked up, oldest first. */
    var lookups: seq<string>

    /** Mounting: nothing decided, nothing redirected, nothing looked up. */
    constructor ()
      ensures ok == None && redirects == [] && lookups == []
      ensures View() == CheckingPlaceholder
    {
      ok := None;
      redirects := [];
      lookups := [];
    }

    function View(): View
      reads this
    {
      Render(ok)
    }

    /** `check(session)`: `uid` is `session?.user?.id` and `lookup` is what
        the profile query would answer; the query is issued only when there
        is a user id.  A denial sets `ok` to false and issues exactly one
        redirect to the login route; an admission sets it to true and issues
        none. */
    method Check(uid: Option<string>, lookup: Lookup)
      modifies this
      ensures ok == Some(Admits(uid, lookup))
      ensures redirects == old(redirects) + if Admits(uid, lookup) then [] else [LoginRoute]
      ensures lookups == old(lookups) + if HasUser(uid) then [uid.value] else []
    {
      if !HasUser(uid) {
        ok := Some(false);
        redirects := redirects + [LoginRoute];
        return;
      }
      lookups := lookups + [uid.value];
      if lookup.error || lookup.data.None? || lookup.data.value.role != Some(AdminRole) {
        ok := Some(false);
        redirects := redirects + [LoginRoute];
        return;
      }
      ok := Some(true);
    }
  }

  /** One session the guard is asked to check: the initial `getSession()`
      at mount, or the session of an auth-state event. */
  datatype SessionCheck = SessionCheck(uid: Option<string>, lookup: Lookup)

  /** The redirects a series of checks issues: one per denial. */
  function Denials(checks: seq<SessionCheck>): (r: seq<string>)
    ensures |r| <= |checks|
    ensures forall i :: 0 <= i < |r| ==> r[i] == LoginRoute
  {
    if checks == [] then []
    else
      var last := checks[|checks| - 1];
      Denials(checks[..|checks| - 1]) + if Admits(last.uid, last.lookup) then [] else [LoginRoute]
  }

  /** The guard's life: mount, then one check per session in `checks`
      (the first from `getSession()`, the rest from auth-state events), each
      completing before the next starts.  The view depends only on the
      latest check, and every denial redirected once. */
  method RunGuard(checks: seq<SessionCheck>) returns (view: View, redirects: seq<string>)
    ensures checks == [] ==> view == CheckingPlaceholder
    ensures checks != [] ==>
              view == (if Admits(checks[|checks| - 1].uid, checks[|checks| - 1].lookup) then Children else Nothing)
    ensures redirects == Denials(checks)
  {
    var guard := new Guard();
    for i := 0 to |checks|
      invariant fresh(guard)
      invariant i == 0 ==> guard.ok == None
      invariant i > 0 ==> guard.ok == Some(Admits(checks[i - 1].uid, checks[i - 1].lookup))
      invariant guard.redirects == Denials(checks[..i])
    {
      guard.Check(checks[i].uid, checks[i].lookup);
      assert checks[..i + 1][..i] == checks[..i];
    }
    assert checks[..|checks|] == checks;
    view := guard.View();
    redirects := guard.redirects;
  }

  /** An admin session at mount followed by a sign-out event: the guard
      ends up rendering nothing, without a reload, and the sign-out
      redirected once. */
  method AdminThenSignOut(adminUid: string, signedOut: Lookup) returns (view: View, redirects: seq<string>)
    requires adminUid != ""
    ensures view == Nothing
    ensures redirects == [LoginRoute]
  {
    var admin := Lookup(false, Some(Profile(Some(AdminRole))));
    var checks := [SessionCheck(Some(adminUid), admin), SessionCheck(None, signedOut)];
    assert checks[..1] == [checks[0]] && checks[..1][..0] == [];
    view, redirects := RunGuard(checks);
  }
}
