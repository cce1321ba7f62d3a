/** The request guard of the application middleware: decides, from the signed-in user, their
    resolved role and the request path, whether to send the request on, redirect it, or ask
    the user to sign in. */
module RouteGuard {
  import opened Wrappers
  import opened Strings
  import opened Roles

  datatype Decision = SignIn | Redirect(path: string) | Next

  /** `/`, and everything under `/sign-in`, `/sign-up` and `/api/webhooks`. The route matcher
      compiles its patterns case-insensitively, so the path is compared with its ASCII letters
      lowered (the patterns are ASCII, and such a match never pairs a non-ASCII character with
      an ASCII one). */
  predicate IsPublicRoute(path: string)
  {
    var p := ToLower(path);
    p == "/" || StartsWith(p, "/sign-in") || StartsWith(p, "/sign-up") || StartsWith(p, "/api/webhooks")
  }

  /** `/onboarding`, in any letter case. */
  predicate IsOnboardingRoute(path: string)
  {
    ToLower(path) == "/onboarding"
  }

  /** Route matching depends only on the path with its letters lowered. */
  lemma RouteMatchIgnoresCase(path: string)
    ensures IsPublicRoute(ToLower(path)) == IsPublicRoute(path)
    ensures IsOnboardingRoute(ToLower(path)) == IsOnboardingRoute(path)
  {
    ToLowerIdempotent(path);
  }

  /** Authentication state: a user id, or none; an empty id is as good as none. */
  predicate SignedIn(userId: Option<string>)
  {
    userId.Some? && userId.value != ""
  }

  /** The resolved role is present and non-empty. */
  predicate HasRole(role: Option<string>)
  {
    role.Some? && role.value != ""
  }

  /** Where a user with `role` lands: the unified `/dashboard` for portal roles, the role's own
      group otherwise. */
  function DashboardPath(role: string): (p: string)
    ensures IsPortalRole(role) ==> p == "/dashboard"
    ensures !IsPortalRole(role) ==> StartsWith(p, "/" + role) && EndsWith(p, "/dashboard")
    ensures !IsPortalRole(role) ==> p == "/" + role + "/dashboard"
  {
    if IsPortalRole(role) then "/dashboard"
    else
      StartsWithConcat("/" + role, "/dashboard");
      EndsWithConcat("/" + role, "/dashboard");
      "/" + role + "/dashboard"
  }

  /** The first of the protected group roles whose `/<role>` prefixes the path (no segment
      boundary is required). */
  function PathGroupRole(path: string): (r: Option<string>)
    ensures r.Some? ==> r.value in GroupRoles && StartsWith(path, "/" + r.value)
    ensures r.None? ==> forall g :: g in GroupRoles ==> !StartsWith(path, "/" + g)
  {
    if StartsWith(path, "/admin") then Some("admin")
    else if StartsWith(path, "/staff") then Some("staff")
    else None
  }

  /** At most one group role prefixes a path. */
  lemma GroupPrefixesExclusive(path: string, g: string, h: string)
    requires g in GroupRoles && h in GroupRoles
    requires StartsWith(path, "/" + g) && StartsWith(path, "/" + h)
    ensures g == h
  {
    assert path[1] == path[..|"/" + g|][1] == ("/" + g)[1] == g[0];
    assert path[1] == path[..|"/" + h|][1] == ("/" + h)[1] == h[0];
  }

  /** The first-segment prefixes of the retired portal route structure. */
  const OldPortalPrefixes: seq<string> := ["/volunteer/", "/participant/", "/caregiver/", "/portal/"]

  function OldPortalPrefix(path: string): (r: Option<string>)
    ensures r.Some? ==> r.value in OldPortalPrefixes && StartsWith(path, r.value)
    ensures r.None? ==> forall p :: p in OldPortalPrefixes ==> !StartsWith(path, p)
  {
    if StartsWith(path, "/volunteer/") then Some("/volunteer/")
    else if StartsWith(path, "/participant/") then Some("/participant/")
    else if StartsWith(path, "/caregiver/") then Some("/caregiver/")
    else if StartsWith(path, "/portal/") then Some("/portal/")
    else None
  }

  /** At most one retired portal prefix matches a path. */
  lemma OldPortalPrefixesExclusive(path: string, p: string, q: string)
    requires p in OldPortalPrefixes && q in OldPortalPrefixes
    requires StartsWith(path, p) && StartsWith(path, q)
    ensures p == q
  {
    assert path[1] == path[..|p|][1] == p[1] && path[2] == path[..|p|][2] == p[2];
    assert path[1] == path[..|q|][1] == q[1] && path[2] == path[..|q|][2] == q[2];
  }

  /** The path with its retired first segment collapsed to `/`. */
  function CollapseOldPortal(path: string, prefix: string): (p: string)
    requires prefix in OldPortalPrefixes && StartsWith(path, prefix)
    ensures StartsWith(p, "/") && |p| < |path|
    ensures path == prefix[..|prefix| - 1] + p
  {
    assert prefix[..|prefix| - 1] + prefix[|prefix| - 1..] == prefix;
    assert path == path[..|prefix|] + path[|prefix|..];
    "/" + path[|prefix|..]
  }

  /** The middleware's decision. */
  function Decide(userId: Option<string>, role: Option<string>, path: string): (d: Decision)
    ensures !SignedIn(userId) ==> d == (if IsPublicRoute(path) then Next else SignIn)
    ensures SignedIn(userId) && !HasRole(role) ==>
              d == (if IsOnboardingRoute(path) then Next else Redirect("/onboarding"))
    ensures SignedIn(userId) && HasRole(role) && (IsPublicRoute(path) || IsOnboardingRoute(path)) ==>
              d == Redirect(DashboardPath(role.value))
    ensures SignedIn(userId) && HasRole(role) && !IsPublicRoute(path) && !IsOnboardingRoute(path) ==>
              forall g :: g in GroupRoles && StartsWith(path, "/" + g) ==>
                d == (if g == role.value then Next else Redirect(DashboardPath(role.value)))
    ensures SignedIn(userId) && HasRole(role) && IsPortalRole(role.value) && !IsPublicRoute(path) &&
            !IsOnboardingRoute(path) && PathGroupRole(path).None? ==>
              forall p :: p in OldPortalPrefixes && StartsWith(path, p) ==>
                d == Redirect(CollapseOldPortal(path, p))
    ensures d == Next <==>
              if !SignedIn(userId) then IsPublicRoute(path)
              else if !HasRole(role) then IsOnboardingRoute(path)
              else && !IsPublicRoute(path) && !IsOnboardingRoute(path)
                   && (forall g :: g in GroupRoles && StartsWith(path, "/" + g) ==> g == role.value)
                   && (IsPortalRole(role.value) ==> forall p :: p in OldPortalPrefixes ==> !StartsWith(path, p))
  {
    if !SignedIn(userId) && !IsPublicRoute(path) then
      SignIn
    else if SignedIn(userId) then
      if !HasRole(role) && !IsOnboardingRoute(path) then
        Redirect("/onboarding")
      else if HasRole(role) then
        var r := role.value;
        var dashboard := DashboardPath(r);
        if path == "/" || IsPublicRoute(path) || IsOnboardingRoute(path) then
          Redirect(dashboard)
        else
          var group := PathGroupRole(path);
          assert forall g :: g in GroupRoles && StartsWith(path, "/" + g) ==> group == Some(g) by {
            forall g | g in GroupRoles && StartsWith(path, "/" + g)
              ensures group == Some(g)
            {
              GroupPrefixesExclusive(path, g, group.value);
            }
          }
          if group.Some? && group.value != r then
            Redirect(dashboard)
          else if IsPortalRole(r) && OldPortalPrefix(path).Some? then
            forall p | p in OldPortalPrefixes && StartsWith(path, p)
              ensures p == OldPortalPrefix(path).value
            {
              OldPortalPrefixesExclusive(path, p, OldPortalPrefix(path).value);
            }
            Redirect(CollapseOldPortal(path, OldPortalPrefix(path).value))
          else
            Next
      else
        Next
    else
      Next
  }

  /** The guard's decision for a fixed user and role, as a function of the path. */
  function Guard(userId: Option<string>, role: Option<string>): string -> Decision
  {
    p => Decide(userId, role, p)
  }

  /** The decision reached by following up to `steps` redirects of `decide` from `path`. */
  function Chase(decide: string -> Decision, path: string, steps: nat): Decision
    decreases steps
  {
    match decide(path)
    case Redirect(target) => if steps == 0 then Redirect(target) else Chase(decide, target, steps - 1)
    case d => d
  }

  /** The decision reached by following up to `steps` of the guard's redirects from `path`. */
  function Follow(userId: Option<string>, role: Option<string>, path: string, steps: nat): Decision
  {
    Chase(Guard(userId, role), path, steps)
  }

  lemma {:induction false} ChaseStaysNext(decide: string -> Decision, path: string, steps: nat, more: nat)
    requires Chase(decide, path, steps) == Next
    requires steps <= more
    ensures Chase(decide, path, more) == Next
    decreases steps
  {
    match decide(path)
    case Redirect(target) =>
      ChaseStaysNext(decide, target, steps - 1, more - 1);
    case _ =>
  }

  /** Once following redirects lets the request through, allowing more redirects does too. */
  lemma FollowStaysNext(userId: Option<string>, role: Option<string>, path: string, steps: nat, more: nat)
    requires Follow(userId, role, path, steps) == Next
    requires steps <= more
    ensures Follow(userId, role, path, more) == Next
  {
    ChaseStaysNext(Guard(userId, role), path, steps, more);
  }

  /** `path` is not public, not onboarding and not under a retired portal prefix; `at` gives,
      for each public and retired prefix in turn, a position where `path` differs. */
  lemma NotSpecial(path: string, at: seq<nat>)
    requires forall i :: 0 <= i < |path| ==> !IsUpper(path[i])
    requires |at| == 7 && forall k :: 0 <= k < |at| ==> at[k] < |path|
    requires path != "/" && path != "/onboarding"
    requires at[0] < 8 && path[at[0]] != "/sign-in"[at[0]]
    requires at[1] < 8 && path[at[1]] != "/sign-up"[at[1]]
    requires at[2] < 13 && path[at[2]] != "/api/webhooks"[at[2]]
    requires at[3] < 11 && path[at[3]] != "/volunteer/"[at[3]]
    requires at[4] < 13 && path[at[4]] != "/participant/"[at[4]]
    requires at[5] < 11 && path[at[5]] != "/caregiver/"[at[5]]
    requires at[6] < 8 && path[at[6]] != "/portal/"[at[6]]
    ensures !IsPublicRoute(path) && !IsOnboardingRoute(path) && OldPortalPrefix(path).None?
  {
    ToLowerKeepsLower(path);
    DiffersAt(path, "/sign-in", at[0]);
    DiffersAt(path, "/sign-up", at[1]);
    DiffersAt(path, "/api/webhooks", at[2]);
    DiffersAt(path, "/volunteer/", at[3]);
    DiffersAt(path, "/participant/", at[4]);
    DiffersAt(path, "/caregiver/", at[5]);
    DiffersAt(path, "/portal/", at[6]);
  }

  lemma AdminDashboardShape()
    ensures !IsPublicRoute("/admin/dashboard") && !IsOnboardingRoute("/admin/dashboard")
    ensures PathGroupRole("/admin/dashboard") == Some("admin")
    ensures OldPortalPrefix("/admin/dashboard").None?
  {
    NotSpecial("/admin/dashboard", [1, 1, 2, 1, 1, 1, 1]);
    assert "/admin/dashboard"[..6] == "/admin";
  }

  lemma StaffDashboardShape()
    ensures !IsPublicRoute("/staff/dashboard") && !IsOnboardingRoute("/staff/dashboard")
    ensures PathGroupRole("/staff/dashboard") == Some("staff")
    ensures OldPortalPrefix("/staff/dashboard").None?
  {
    NotSpecial("/staff/dashboard", [2, 2, 1, 1, 1, 1, 1]);
    DiffersAt("/staff/dashboard", "/admin", 1);
    assert "/staff/dashboard"[..6] == "/staff";
  }

  lemma PortalDashboardShape()
    ensures !IsPublicRoute("/dashboard") && !IsOnboardingRoute("/dashboard")
    ensures PathGroupRole("/dashboard") == None
    ensures OldPortalPrefix("/dashboard").None?
  {
    NotSpecial("/dashboard", [1, 1, 1, 1, 1, 1, 1]);
    DiffersAt("/dashboard", "/admin", 1);
    DiffersAt("/dashboard", "/staff", 1);
  }

  /** A dashboard path is neither public nor onboarding, and lies in its own group, if any. */
  lemma DashboardPathShape(r: string)
    requires IsKnownRole(r)
    ensures !IsPublicRoute(DashboardPath(r)) && !IsOnboardingRoute(DashboardPath(r))
    ensures PathGroupRole(DashboardPath(r)) == if r in GroupRoles then Some(r) else None
    ensures OldPortalPrefix(DashboardPath(r)).None?
  {
    if r == "admin" {
      assert DashboardPath(r) == "/admin/dashboard";
      AdminDashboardShape();
    } else if r == "staff" {
      assert DashboardPath(r) == "/staff/dashboard";
      StaffDashboardShape();
    } else {
      assert IsPortalRole(r);
      PortalDashboardShape();
    }
  }

  /** A signed-in user's dashboard and the onboarding page are let through, so the guard's
      redirects to them come to rest. */
  lemma LandingPagesPass(userId: Option<string>, role: Option<string>)
    requires SignedIn(userId)
    requires HasRole(role) ==> IsKnownRole(role.value)
    ensures HasRole(role) ==> Decide(userId, role, DashboardPath(role.value)) == Next
    ensures !HasRole(role) ==> Decide(userId, role, "/onboarding") == Next
  {
    if HasRole(role) {
      DashboardPathShape(role.value);
    }
  }

  /** A signed-in user is redirected to onboarding, to their dashboard, or to a strictly
      shorter path (a retired portal path with its first segment collapsed). */
  lemma RedirectTarget(userId: Option<string>, role: Option<string>, path: string, target: string)
    requires SignedIn(userId)
    requires Decide(userId, role, path) == Redirect(target)
    ensures !HasRole(role) ==> target == "/onboarding"
    ensures HasRole(role) && target != DashboardPath(role.value) ==>
              OldPortalPrefix(path).Some? && target == CollapseOldPortal(path, OldPortalPrefix(path).value)
    ensures HasRole(role) && target != DashboardPath(role.value) ==> |target| < |path|
  {
    if HasRole(role) && target != DashboardPath(role.value) {
      assert target == CollapseOldPortal(path, OldPortalPrefix(path).value);
    }
  }

  /** Redirect loops are impossible for the application's roles: from any path, a signed-in
      user reaches a page that is let through after at most |path| + 2 redirects. */
  lemma NoRedirectLoops(userId: Option<string>, role: Option<string>, path: string)
    requires SignedIn(userId)
    requires HasRole(role) ==> IsKnownRole(role.value)
    ensures Follow(userId, role, path, |path| + 2) == Next
  {
    forall p ensures Settles(Guard(userId, role), p) {
      GuardSettles(userId, role, p);
    }
    ChaseSettles(Guard(userId, role), path);
  }

  /** From `p`, `decide` lets the request through, or redirects once to a page it lets
      through, or redirects to a strictly shorter path. */
  predicate Settles(decide: string -> Decision, p: string)
  {
    match decide(p)
    case Next => true
    case SignIn => false
    case Redirect(t) => decide(t) == Next || |t| < |p|
  }

  /** For a signed-in user with a known role or none, every path settles under the guard. */
  lemma GuardSettles(userId: Option<string>, role: Option<string>, p: string)
    requires SignedIn(userId)
    requires HasRole(role) ==> IsKnownRole(role.value)
    ensures Settles(Guard(userId, role), p)
  {
    var d := Decide(userId, role, p);
    if d.Redirect? {
      RedirectTarget(userId, role, p, d.path);
      LandingPagesPass(userId, role);
    }
  }

  /** When every path settles, following |path| + 2 redirects from `path` comes to rest. */
  lemma {:induction false} ChaseSettles(decide: string -> Decision, path: string)
    requires forall p :: Settles(decide, p)
    ensures Chase(decide, path, |path| + 2) == Next
    decreases |path|
  {
    assert Settles(decide, path);
    match decide(path)
    case Redirect(t) =>
      if decide(t) == Next {
        assert Chase(decide, t, 0) == Next;
        ChaseStaysNext(decide, t, 0, |path| + 1);
      } else {
        ChaseSettles(decide, t);
        ChaseStaysNext(decide, t, |t| + 2, |path| + 1);
      }
    case _ =>
  }

  /** Letter case does not matter to the matcher: a signed-out user may open `/Sign-In`, and a
      volunteer on `/ONBOARDING` is sent to their dashboard. */
  lemma MixedCaseRoutes()
    ensures Decide(None, None, "/Sign-In") == Next
    ensures Decide(Some("u"), Some("volunteer"), "/ONBOARDING") == Redirect("/dashboard")
  {
    assert ToLower("/Sign-In") == "/sign-in";
    assert ToLower("/ONBOARDING") == "/onboarding";
    assert IsPortalRole("volunteer");
  }

  /** A signed-in user with a role is sent from another group's pages to their dashboard. */
  lemma CrossGroupRedirect(userId: Option<string>, role: Option<string>, path: string, g: string)
    requires SignedIn(userId) && HasRole(role)
    requires !IsPublicRoute(path) && !IsOnboardingRoute(path)
    requires g in GroupRoles && StartsWith(path, "/" + g) && g != role.value
    ensures Decide(userId, role, path) == Redirect(DashboardPath(role.value))
  {
  }

  /** A role outside the application's set can loop: `staffing` is sent to its dashboard,
      whose path starts with `/staff`, and is redirected there again. */
  lemma StaffingNotSpecial()
    ensures !IsPublicRoute("/staffing/dashboard") && !IsOnboardingRoute("/staffing/dashboard")
  {
    NotSpecial("/staffing/dashboard", [2, 2, 1, 1, 1, 1, 1]);
  }

  lemma StaffingInStaffGroup()
    ensures StartsWith("/staffing/dashboard", "/" + "staff")
  {
    assert "/staffing/dashboard"[..|"/" + "staff"|] == "/" + "staff";
  }

  lemma StaffingDashboard()
    ensures DashboardPath("staffing") == "/staffing/dashboard"
  {
    assert "staffing"[3] != "volunteer"[3] && "staffing"[3] != "caregiver"[3] && "staffing"[3] != "participant"[3];
  }

  lemma UnknownRoleCanLoop()
    ensures Decide(Some("u"), Some("staffing"), "/staffing/dashboard") == Redirect("/staffing/dashboard")
  {
    StaffingNotSpecial();
    StaffingInStaffGroup();
    StaffingDashboard();
    CrossGroupRedirect(Some("u"), Some("staffing"), "/staffing/dashboard", "staff");
  }
}
