/** The application's route table: each declared path either renders its page
    or redirects, depending only on whether there is a session. */
module Routes {
  import opened Wrappers

  /** The pages the routes render. Both user-form paths render the user form;
      `editing` tells the creation heading from the edit heading. */
  datatype Page =
    | AuthPage
    | DashboardHome
    | VehicleFormPage
    | TemplateListPage
    | TemplateUploadPage
    | TemplateDetailsPage
    | UserListPage
    | UserFormPage(editing: bool)
    | FormGeneratorPage

  /** What the router shows for a path. `inLayout` says whether the page is
      wrapped in the dashboard layout. `NoRoute` means no declared path matches. */
  datatype Outcome = Render(page: Page, inLayout: bool) | Redirect(to: string) | NoRoute

  /** A declared route: the sign-in root, or a page that needs a session. */
  datatype Route = Root | Guarded(page: Page)

  /** `path` is `prefix` followed by one non-empty segment (a `:id` parameter). */
  predicate ParamUnder(prefix: string, path: string) {
    |path| > |prefix| && path[..|prefix|] == prefix && '/' !in path[|prefix|..]
  }

  /** A parameter path under `/templates/` or `/users/` starts with that
      prefix's first letter and is longer than it, so no static path and no
      path under the other prefix is one. */
  lemma ParamPathShape(path: string)
    ensures ParamUnder("/templates/", path) ==> |path| > 11 && path[1] == 't'
    ensures ParamUnder("/users/", path) ==> |path| > 7 && path[1] == 'u'
  {
  }

  /** The guarded paths without a parameter segment. */
  const StaticGuardedPaths := ["/dashboard", "/vehicle-form", "/templates", "/templates/new", "/users", "/users/new", "/form-generator"]

  /** The declared route a path matches; a static segment is preferred over a
      `:id` parameter at the same position. */
  function MatchRoute(path: string): (r: Option<Route>)
    ensures r == Some(Root) <==> path == "/"
    ensures r.Some? && r.value.Guarded? && r.value.page.TemplateDetailsPage? ==> ParamUnder("/templates/", path) && path != "/templates/new"
    ensures r.Some? && r.value.Guarded? ==> !r.value.page.AuthPage?
    ensures path == "/dashboard" ==> r == Some(Guarded(DashboardHome))
    ensures path == "/vehicle-form" ==> r == Some(Guarded(VehicleFormPage))
    ensures path == "/templates" ==> r == Some(Guarded(TemplateListPage))
    ensures path == "/templates/new" ==> r == Some(Guarded(TemplateUploadPage))
    ensures path == "/users" ==> r == Some(Guarded(UserListPage))
    ensures path == "/users/new" ==> r == Some(Guarded(UserFormPage(false)))
    ensures path == "/form-generator" ==> r == Some(Guarded(FormGeneratorPage))
    ensures path != "/templates/new" && ParamUnder("/templates/", path) ==> r == Some(Guarded(TemplateDetailsPage))
    ensures path != "/users/new" && ParamUnder("/users/", path) ==> r == Some(Guarded(UserFormPage(true)))
    ensures r.Some? <==>
      (path == "/" || path in StaticGuardedPaths || ParamUnder("/templates/", path) || ParamUnder("/users/", path))
    ensures r == Some(Guarded(UserFormPage(true))) ==> ParamUnder("/users/", path) && path != "/users/new"
    ensures r == Some(Guarded(DashboardHome)) ==> path == "/dashboard"
    ensures r == Some(Guarded(VehicleFormPage)) ==> path == "/vehicle-form"
    ensures r == Some(Guarded(TemplateListPage)) ==> path == "/templates"
    ensures r == Some(Guarded(TemplateUploadPage)) ==> path == "/templates/new"
    ensures r == Some(Guarded(UserListPage)) ==> path == "/users"
    ensures r == Some(Guarded(UserFormPage(false))) ==> path == "/users/new"
    ensures r == Some(Guarded(FormGeneratorPage)) ==> path == "/form-generator"
  {
    ParamPathShape(path);
    if path == "/" then Some(Root)
    else if path == "/dashboard" then Some(Guarded(DashboardHome))
    else if path == "/vehicle-form" then Some(Guarded(VehicleFormPage))
    else if path == "/templates" then Some(Guarded(TemplateListPage))
    else if path == "/templates/new" then Some(Guarded(TemplateUploadPage))
    else if ParamUnder("/templates/", path) then Some(Guarded(TemplateDetailsPage))
    else if path == "/users" then Some(Guarded(UserListPage))
    else if path == "/users/new" then Some(Guarded(UserFormPage(false)))
    else if ParamUnder("/users/", path) then Some(Guarded(UserFormPage(true)))
    else if path == "/form-generator" then Some(Guarded(FormGeneratorPage))
    else None
  }

  /** The guarded element of a route: the root shows the sign-in form only
      without a session and sends a signed-in user to the dashboard; every
      other route renders its page in the dashboard layout only with a
      session and sends everyone else to the root. */
  function Resolve(path: string, hasSession: bool): (r: Outcome)
    ensures r.NoRoute? <==> MatchRoute(path).None?
    ensures r.Redirect? ==> (r.to == "/dashboard" <==> hasSession) && (r.to == "/" <==> !hasSession)
    ensures r.Render? && r.page.AuthPage? ==> path == "/" && !hasSession && !r.inLayout
    ensures r.Render? && !r.page.AuthPage? ==> hasSession && r.inLayout
  {
    match MatchRoute(path)
    case None => NoRoute
    case Some(Root) => if hasSession then Redirect("/dashboard") else Render(AuthPage, false)
    case Some(Guarded(p)) => if hasSession then Render(p, true) else Redirect("/")
  }

  /** The paths declared besides the root (with a sample id for each `:id`). */
  const GuardedPaths: seq<string> := ["/dashboard", "/vehicle-form", "/templates", "/templates/new",
    "/templates/42", "/users", "/users/new", "/users/42", "/form-generator"]

  /** The root renders the sign-in form exactly when there is no session. */
  lemma RootRoute(hasSession: bool)
    ensures Resolve("/", hasSession).Render? <==> !hasSession
    ensures !hasSession ==> Resolve("/", hasSession) == Render(AuthPage, false)
    ensures hasSession ==> Resolve("/", hasSession) == Redirect("/dashboard")
  {
  }

  /** Every other declared path renders its page inside the layout exactly
      when there is a session, and otherwise redirects to the root. */
  lemma GuardedRoutes(path: string, hasSession: bool)
    requires path in GuardedPaths
    ensures MatchRoute(path).Some? && MatchRoute(path).value.Guarded?
    ensures Resolve(path, hasSession).Render? <==> hasSession
    ensures hasSession ==> Resolve(path, hasSession) == Render(MatchRoute(path).value.page, true)
    ensures !hasSession ==> Resolve(path, hasSession) == Redirect("/")
  {
  }

  /** A redirect always lands on a route that renders, so the guards cannot loop. */
  lemma RedirectsSettle(path: string, hasSession: bool)
    ensures Resolve(path, hasSession).Redirect? ==> Resolve(Resolve(path, hasSession).to, hasSession).Render?
  {
  }

  /** Both user paths render the user form; a template id renders its details. */
  lemma UserAndTemplatePages(id: string)
    requires id != "" && id != "new" && '/' !in id
    ensures Resolve("/users/new", true) == Render(UserFormPage(false), true)
    ensures Resolve("/users/" + id, true) == Render(UserFormPage(true), true)
    ensures Resolve("/templates/" + id, true) == Render(TemplateDetailsPage, true)
  {
    var u := "/users/" + id;
    var t := "/templates/" + id;
    assert u[..7] == "/users/" && u[7..] == id;
    assert t[..11] == "/templates/" && t[11..] == id;
    assert u != "/users/new";
    assert t != "/templates/new";
    assert u != "/users" && u != "/" && u != "/dashboard" && u != "/vehicle-form" && u != "/templates" by {
      assert |u| >= 8;
      assert u[1] == 'u';
    }
    assert !ParamUnder("/templates/", u) by {
      assert u[1] == 'u';
    }
    assert t != "/" && t != "/dashboard" && t != "/vehicle-form" && t != "/templates" by {
      assert |t| >= 12;
      assert t[1] == 't';
    }
  }

  /** The session after a sequence of auth-state-change events: each event
      replaces it, so it is the last event's value, or the initial one. */
  function SessionAfter(initial: bool, events: seq<bool>): (s: bool)
    ensures |events| > 0 ==> s == events[|events| - 1]
    ensures |events| == 0 ==> s == initial
    decreases |events|
  {
    if |events| == 0 then initial else SessionAfter(events[0], events[1..])
  }
}
