/**
 * The bookkeeping of the organization end-to-end suite: the `log_test`
 * accumulator, the rules that turn what the browser saw into pass/fail
 * verdicts, the short-circuiting sweep over the protected routes, the
 * collection of page errors, the single `try` around all steps, and the
 * pass rate and exit status computed in the `finally` block. What the
 * browser sees is an input (`Observations`).
 */
module OrganizationFlows {
  import opened Maybe
  import opened Strings

  // ---------------------------------------------------------------------------
  // The results accumulator

  /** One `log_test` call: the test's name and whether it passed. */
  datatype Check = Check(name: string, passed: bool)

  /** Names of the passed checks, in call order. */
  function PassedNames(log: seq<Check>): seq<string>
  {
    if log == [] then []
    else PassedNames(log[..|log| - 1]) + (if log[|log| - 1].passed then [log[|log| - 1].name] else [])
  }

  /** Names of the failed checks, in call order. */
  function FailedNames(log: seq<Check>): seq<string>
  {
    if log == [] then []
    else FailedNames(log[..|log| - 1]) + (if log[|log| - 1].passed then [] else [log[|log| - 1].name])
  }

  /** Every check lands in exactly one of the two lists. */
  lemma {:induction false} NamesPartitionLog(log: seq<Check>)
    ensures |PassedNames(log)| + |FailedNames(log)| == |log|
  {
    if log != [] {
      NamesPartitionLog(log[..|log| - 1]);
    }
  }

  /** The lists of a log made of two runs are the lists of the runs, one after the other. */
  lemma {:induction false} NamesKeepCallOrder(a: seq<Check>, b: seq<Check>)
    ensures PassedNames(a + b) == PassedNames(a) + PassedNames(b)
    ensures FailedNames(a + b) == FailedNames(a) + FailedNames(b)
    decreases |b|
  {
    if b == [] {
      assert a + b == a;
    } else {
      assert (a + b)[..|a + b| - 1] == a + b[..|b| - 1];
      NamesKeepCallOrder(a, b[..|b| - 1]);
    }
  }

  /** A name is listed as failed exactly when some call with that name failed. */
  lemma {:induction false} FailedNamesAreFailures(log: seq<Check>, name: string)
    ensures name in FailedNames(log) <==> exists i :: 0 <= i < |log| && log[i] == Check(name, false)
  {
    if log != [] {
      var init := log[..|log| - 1];
      FailedNamesAreFailures(init, name);
      if name in FailedNames(init) {
        var i :| 0 <= i < |init| && init[i] == Check(name, false);
        assert log[i] == init[i];
      }
      if exists i :: 0 <= i < |log| && log[i] == Check(name, false) {
        var i :| 0 <= i < |log| && log[i] == Check(name, false);
        if i < |init| {
          assert init[i] == log[i];
        }
      }
    }
  }

  /** The `results` dictionary, with the sequence of calls that produced it. */
  class TestResults {
    var passed: seq<string>
    var failed: seq<string>
    var total: nat
    ghost var log: seq<Check>

    ghost predicate Valid()
      reads this
    {
      passed == PassedNames(log) && failed == FailedNames(log) && total == |log|
    }

    constructor ()
      ensures Valid() && log == []
    {
      passed, failed, total := [], [], 0;
      log := [];
    }

    /** `log_test(name, ok)`: one more test, listed under its verdict. */
    method LogTest(name: string, ok: bool)
      requires Valid()
      modifies this
      ensures Valid() && log == old(log) + [Check(name, ok)]
      ensures total == old(total) + 1
      ensures ok ==> passed == old(passed) + [name] && failed == old(failed)
      ensures !ok ==> failed == old(failed) + [name] && passed == old(passed)
    {
      total := total + 1;
      if ok {
        passed := passed + [name];
      } else {
        failed := failed + [name];
      }
      log := log + [Check(name, ok)];
      assert log[..|log| - 1] == old(log);
    }
  }

  // ---------------------------------------------------------------------------
  // What the browser saw, and the verdict rules

  /** The element queries whose `count() > 0` the suite tests. */
  datatype Selector =
    | EmailInput            // input[type="email"]
    | PasswordInput         // input[type="password"]
    | SubmitButton          // button[type="submit"]
    | SignInButton          // button:has-text("Sign in")
    | OrganizationNameInput // input[name="organizationName"]
    | OrganizationHintInput // input[placeholder*="organization"]
    | CreateButton          // button:has-text("Create")
    | TeamHeading           // h1:has-text("Team")
    | Nav                   // nav
    | Aside                 // aside
    | NavigationRole        // [role="navigation"]
    | MainElement           // main
    | MainRole              // [role="main"]

  /** A page after navigation: its URL, title, HTML and the queries that found something. */
  datatype PageView = PageView(url: string, title: string, content: string, present: set<Selector>)

  /**
   * Everything the suite observes, in the order it looks: the pages of tests
   * 1-4, the two API statuses, the team page, the dashboard after waiting,
   * the page each protected route shows, the errors each main page raises,
   * and the two build artifacts.
   */
  datatype Observations = Observations(
    home: PageView,
    login: PageView,
    dashboardUnauthenticated: PageView,
    onboarding: PageView,
    authMeStatus: int,
    organizationsStatus: int,
    team: PageView,
    dashboard: PageView,
    routeView: string -> PageView,
    pageErrors: string -> seq<string>,
    nextDirExists: bool,
    buildIdExists: bool)

  const ProtectedRoutes: seq<string> := ["/dashboard/analytics", "/dashboard/conversations", "/dashboard/settings"]
  const TestPages: seq<string> := ["/", "/login", "/dashboard", "/onboarding"]

  /** Test 1: the home page has a title and its URL does not mention an error. */
  predicate HomeLoads(v: PageView)
  {
    v.title != "" && !Contains(Lower(v.url), "error")
  }

  /** Test 2: email and password inputs and a submit or "Sign in" button. */
  predicate LoginFormComplete(v: PageView)
  {
    var hasSubmit := SubmitButton in v.present || SignInButton in v.present;
    EmailInput in v.present && PasswordInput in v.present && hasSubmit
  }

  /** Test 3: the dashboard sent the visitor to a login or auth page, or shows an email input. */
  predicate RedirectedToLogin(v: PageView)
  {
    Contains(v.url, "login") || Contains(v.url, "auth") || EmailInput in v.present
  }

  /** Test 4: an organization-name input, a create button, or the word "organization". */
  predicate OnboardingExists(v: PageView)
  {
    var hasNameInput := OrganizationNameInput in v.present || OrganizationHintInput in v.present;
    hasNameInput || CreateButton in v.present || Contains(Lower(v.content), "organization")
  }

  /** Test 5: an API endpoint responds when it answers 200 or 401. */
  predicate ApiResponds(status: int)
  {
    status in {200, 401}
  }

  /** Test 6: a team heading, or a redirect to login or onboarding. */
  predicate TeamPageAccessible(v: PageView)
  {
    TeamHeading in v.present || Contains(v.url, "login") || Contains(v.url, "onboarding")
  }

  /** Test 7: navigation or main content, or a redirect to login. */
  predicate DashboardStructured(v: PageView)
  {
    var hasNavigation := Nav in v.present || Aside in v.present || NavigationRole in v.present;
    var hasContent := MainElement in v.present || MainRole in v.present;
    hasNavigation || hasContent || Contains(v.url, "login")
  }

  /** Test 8, per route: the route led to login or onboarding, or shows an email input. */
  predicate IsProtected(v: PageView)
  {
    Contains(v.url, "login") || Contains(v.url, "onboarding") || EmailInput in v.present
  }

  /** The protection rule in terms of where the words occur in the URL. */
  lemma IsProtectedMeans(v: PageView)
    ensures IsProtected(v) <==>
      || (exists i: nat :: OccursAt(v.url, "login", i))
      || (exists i: nat :: OccursAt(v.url, "onboarding", i))
      || EmailInput in v.present
  {
    ContainsMeansOccurs(v.url, "login");
    ContainsMeansOccurs(v.url, "onboarding");
  }

  /** An API check passes for exactly the two statuses 200 and 401. */
  lemma ApiRespondsExactly(status: int)
    ensures ApiResponds(status) <==> status == 200 || status == 401
  {
  }

  predicate AllProtected(routes: seq<string>, visit: string -> PageView)
  {
    forall i :: 0 <= i < |routes| ==> IsProtected(visit(routes[i]))
  }

  /**
   * The route sweep: visits the routes in order and stops at the first one
   * that is not protected. `visited` is how many routes were opened.
   */
  method SweepProtected(routes: seq<string>, visit: string -> PageView) returns (allProtected: bool, visited: nat)
    ensures allProtected <==> AllProtected(routes, visit)
    ensures visited <= |routes|
    ensures allProtected ==> visited == |routes|
    ensures !allProtected ==>
      && 0 < visited
      && !IsProtected(visit(routes[visited - 1]))
      && forall i :: 0 <= i < visited - 1 ==> IsProtected(visit(routes[i]))
  {
    allProtected := true;
    visited := 0;
    while visited < |routes|
      invariant visited <= |routes|
      invariant forall i :: 0 <= i < visited ==> IsProtected(visit(routes[i]))
    {
      var view := visit(routes[visited]);
      visited := visited + 1;
      if !IsProtected(view) {
        allProtected := false;
        break;
      }
    }
  }

  /** The errors raised on `pages`, in visiting order. */
  function ErrorsOn(pages: seq<string>, errorsOf: string -> seq<string>): seq<string>
  {
    if pages == [] then [] else ErrorsOn(pages[..|pages| - 1], errorsOf) + errorsOf(pages[|pages| - 1])
  }

  /** No error is collected exactly when no page raised one. */
  lemma {:induction false} NoErrorsIffCleanPages(pages: seq<string>, errorsOf: string -> seq<string>)
    ensures ErrorsOn(pages, errorsOf) == [] <==> forall i :: 0 <= i < |pages| ==> errorsOf(pages[i]) == []
  {
    if pages != [] {
      var init := pages[..|pages| - 1];
      NoErrorsIffCleanPages(init, errorsOf);
      assert forall i :: 0 <= i < |init| ==> init[i] == pages[i];
    }
  }

  /** Test 9: `handle_error` appends each error of each visited page to `js_errors`. */
  method CollectPageErrors(pages: seq<string>, errorsOf: string -> seq<string>) returns (jsErrors: seq<string>)
    ensures jsErrors == ErrorsOn(pages, errorsOf)
  {
    jsErrors := [];
    for i := 0 to |pages|
      invariant jsErrors == ErrorsOn(pages[..i], errorsOf)
    {
      var errors := errorsOf(pages[i]);
      for j := 0 to |errors|
        invariant jsErrors == ErrorsOn(pages[..i], errorsOf) + errors[..j]
      {
        jsErrors := jsErrors + [errors[j]];
      }
      assert pages[..i + 1][..i] == pages[..i];
    }
    assert pages[..|pages|] == pages;
  }

  // ---------------------------------------------------------------------------
  // The suite

  /** The number of `log_test` calls in a run that raises nothing. */
  const CheckCount: nat := 11

  // The names the suite logs its tests under.
  const HomeTest: string := "Home page loads successfully"
  const LoginTest: string := "Login page has required form elements"
  const DashboardAuthTest: string := "Dashboard redirects unauthenticated users"
  const OnboardingTest: string := "Onboarding page exists with organization creation"
  const AuthMeTest: string := "API /auth/me endpoint responds"
  const OrganizationsApiTest: string := "API /organizations endpoint responds"
  const TeamPageTest: string := "Team page exists in routing"
  const DashboardStructureTest: string := "Dashboard has proper structure"
  const ProtectionTest: string := "Middleware protects all dashboard routes"
  const JavaScriptErrorsTest: string := "No JavaScript errors on main pages"
  const BuildArtifactsTest: string := "Production build artifacts exist"

  /** The `k`-th `log_test` call of the suite. */
  function CheckAt(obs: Observations, k: nat): Check
    requires k < CheckCount
  {
    if k == 0 then Check(HomeTest, HomeLoads(obs.home))
    else if k == 1 then Check(LoginTest, LoginFormComplete(obs.login))
    else if k == 2 then Check(DashboardAuthTest, RedirectedToLogin(obs.dashboardUnauthenticated))
    else if k == 3 then Check(OnboardingTest, OnboardingExists(obs.onboarding))
    else if k == 4 then Check(AuthMeTest, ApiResponds(obs.authMeStatus))
    else if k == 5 then Check(OrganizationsApiTest, ApiResponds(obs.organizationsStatus))
    else if k == 6 then Check(TeamPageTest, TeamPageAccessible(obs.team))
    else if k == 7 then Check(DashboardStructureTest, DashboardStructured(obs.dashboard))
    else if k == 8 then Check(ProtectionTest, AllProtected(ProtectedRoutes, obs.routeView))
    else if k == 9 then Check(JavaScriptErrorsTest, |ErrorsOn(TestPages, obs.pageErrors)| == 0)
    else Check(BuildArtifactsTest, obs.nextDirExists && obs.buildIdExists)
  }

  /** The first `k` calls of the suite. */
  function Checks(obs: Observations, k: nat): (log: seq<Check>)
    requires k <= CheckCount
    ensures |log| == k
    ensures forall i :: 0 <= i < k ==> log[i] == CheckAt(obs, i)
  {
    if k == 0 then [] else Checks(obs, k - 1) + [CheckAt(obs, k - 1)]
  }

  lemma ChecksStep(obs: Observations, k: nat)
    requires k < CheckCount
    ensures Checks(obs, k + 1) == Checks(obs, k) + [CheckAt(obs, k)]
  {
  }

  /**
   * How many `log_test` calls happen when an exception is raised just before
   * call `k` (`Some(k)`), or when none is raised (`None`).
   */
  function Recorded(raisesBefore: Option<nat>): (n: nat)
    ensures n <= CheckCount
  {
    match raisesBefore
    case None => CheckCount
    case Some(k) => if k < CheckCount then k else CheckCount
  }

  /** `pass_rate`: percent of tests passed, or 0 when none ran. */
  function PassRate(passedCount: nat, total: nat): (r: real)
    ensures total == 0 ==> r == 0.0
    ensures passedCount <= total ==> 0.0 <= r <= 100.0
    ensures 0 < total ==> (r == 100.0 <==> passedCount == total)
  {
    if total > 0 then (passedCount as real) / (total as real) * 100.0 else 0.0
  }

  /** The exit status: 1 when some test failed, else 0. */
  function ExitCode(failed: seq<string>): int
  {
    if |failed| > 0 then 1 else 0
  }

  /** The exit status reports a failure exactly when some recorded call failed. */
  lemma {:induction false} ExitCodeReportsFailures(log: seq<Check>)
    ensures ExitCode(FailedNames(log)) == 1 <==> exists i :: 0 <= i < |log| && !log[i].passed
    ensures ExitCode(FailedNames(log)) == 0 <==> forall i :: 0 <= i < |log| ==> log[i].passed
  {
    if log != [] {
      var init := log[..|log| - 1];
      ExitCodeReportsFailures(init);
      assert forall i :: 0 <= i < |init| ==> init[i] == log[i];
    }
  }

  /** An exception before any failure was recorded still ends in exit status 0. */
  lemma AbortWithoutFailuresExitsZero(obs: Observations, k: nat)
    requires k <= CheckCount
    requires forall i :: 0 <= i < k ==> CheckAt(obs, i).passed
    ensures ExitCode(FailedNames(Checks(obs, Recorded(Some(k))))) == 0
  {
    ExitCodeReportsFailures(Checks(obs, k));
  }

  /** Test 1: the home page loads with a title and no error in its URL. */
  method TestHomePage(results: TestResults, obs: Observations)
    requires results.Valid() && results.log == Checks(obs, 0)
    modifies results
    ensures results.Valid() && results.log == Checks(obs, 1)
  {
    results.LogTest(HomeTest, HomeLoads(obs.home));
    ChecksStep(obs, 0);
  }

  /** Test 2: the login page shows its form. */
  method TestLoginPage(results: TestResults, obs: Observations)
    requires results.Valid() && results.log == Checks(obs, 1)
    modifies results
    ensures results.Valid() && results.log == Checks(obs, 2)
  {
    results.LogTest(LoginTest, LoginFormComplete(obs.login));
    ChecksStep(obs, 1);
  }

  /** Test 3: an unauthenticated visit to the dashboard ends on the login page. */
  method TestDashboardRedirect(results: TestResults, obs: Observations)
    requires results.Valid() && results.log == Checks(obs, 2)
    modifies results
    ensures results.Valid() && results.log == Checks(obs, 3)
  {
    results.LogTest(DashboardAuthTest, RedirectedToLogin(obs.dashboardUnauthenticated));
    ChecksStep(obs, 2);
  }

  /** Test 4: the onboarding page offers organization creation. */
  method TestOnboardingPage(results: TestResults, obs: Observations)
    requires results.Valid() && results.log == Checks(obs, 3)
    modifies results
    ensures results.Valid() && results.log == Checks(obs, 4)
  {
    results.LogTest(OnboardingTest, OnboardingExists(obs.onboarding));
    ChecksStep(obs, 3);
  }

  /** Test 5, first call: `/api/auth/me` answers 200 or 401. */
  method TestAuthMeApi(results: TestResults, obs: Observations)
    requires results.Valid() && results.log == Checks(obs, 4)
    modifies results
    ensures results.Valid() && results.log == Checks(obs, 5)
  {
    results.LogTest(AuthMeTest, ApiResponds(obs.authMeStatus));
    ChecksStep(obs, 4);
  }

  /** Test 5, second call: `/api/organizations` answers 200 or 401. */
  method TestOrganizationsApi(results: TestResults, obs: Observations)
    requires results.Valid() && results.log == Checks(obs, 5)
    modifies results
    ensures results.Valid() && results.log == Checks(obs, 6)
  {
    results.LogTest(OrganizationsApiTest, ApiResponds(obs.organizationsStatus));
    ChecksStep(obs, 5);
  }

  /** Test 6: the team page is routed. */
  method TestTeamPage(results: TestResults, obs: Observations)
    requires results.Valid() && results.log == Checks(obs, 6)
    modifies results
    ensures results.Valid() && results.log == Checks(obs, 7)
  {
    results.LogTest(TeamPageTest, TeamPageAccessible(obs.team));
    ChecksStep(obs, 6);
  }

  /** Test 7: the dashboard has its structure. */
  method TestDashboardStructure(results: TestResults, obs: Observations)
    requires results.Valid() && results.log == Checks(obs, 7)
    modifies results
    ensures results.Valid() && results.log == Checks(obs, 8)
  {
    results.LogTest(DashboardStructureTest, DashboardStructured(obs.dashboard));
    ChecksStep(obs, 7);
  }

  /** Test 8: the protected-route sweep. */
  method TestRouteProtection(results: TestResults, obs: Observations)
    requires results.Valid() && results.log == Checks(obs, 8)
    modifies results
    ensures results.Valid() && results.log == Checks(obs, 9)
  {
    var allProtected, _ := SweepProtected(ProtectedRoutes, obs.routeView);
    results.LogTest(ProtectionTest, allProtected);
    ChecksStep(obs, 8);
  }

  /** Test 9: no page error was reported on the main pages. */
  method TestJavaScriptErrors(results: TestResults, obs: Observations)
    requires results.Valid() && results.log == Checks(obs, 9)
    modifies results
    ensures results.Valid() && results.log == Checks(obs, 10)
  {
    var jsErrors := CollectPageErrors(TestPages, obs.pageErrors);
    results.LogTest(JavaScriptErrorsTest, |jsErrors| == 0);
    ChecksStep(obs, 9);
  }

  /** Test 10: the production build left `.next` and `.next/BUILD_ID`. */
  method TestBuildArtifacts(results: TestResults, obs: Observations)
    requires results.Valid() && results.log == Checks(obs, 10)
    modifies results
    ensures results.Valid() && results.log == Checks(obs, 11)
  {
    var buildComplete := obs.nextDirExists && obs.buildIdExists;
    results.LogTest(BuildArtifactsTest, buildComplete);
    ChecksStep(obs, 10);
  }

  /**
   * `test_organization_flows`: the tests inside one `try`, then the
   * summary of the `finally` block. An exception raised before `log_test`
   * call `k` (`raisesBefore == Some(k)`) skips every later step.
   */
  method RunSuite(obs: Observations, raisesBefore: Option<nat>) returns (results: TestResults, passRate: real, exitCode: int)
    ensures fresh(results) && results.Valid()
    ensures results.total == Recorded(raisesBefore)
    ensures raisesBefore.None? ==> results.total == CheckCount
    ensures raisesBefore.Some? && raisesBefore.value <= CheckCount ==> results.total == raisesBefore.value
    ensures results.log == Checks(obs, results.total)
    ensures passRate == PassRate(|results.passed|, results.total)
    ensures exitCode == ExitCode(results.failed)
  {
    results := new TestResults();
    var stop := Recorded(raisesBefore);
    assert raisesBefore.None? ==> stop == CheckCount;
    assert raisesBefore.Some? && raisesBefore.value <= CheckCount ==> stop == raisesBefore.value;
    label suite: {
      if stop == 0 { break suite; }
      TestHomePage(results, obs);
      if stop == 1 { break suite; }
      TestLoginPage(results, obs);
      if stop == 2 { break suite; }
      TestDashboardRedirect(results, obs);
      if stop == 3 { break suite; }
      TestOnboardingPage(results, obs);
      if stop == 4 { break suite; }
      TestAuthMeApi(results, obs);
      if stop == 5 { break suite; }
      TestOrganizationsApi(results, obs);
      if stop == 6 { break suite; }
      TestTeamPage(results, obs);
      if stop == 7 { break suite; }
      TestDashboardStructure(results, obs);
      if stop == 8 { break suite; }
      TestRouteProtection(results, obs);
      if stop == 9 { break suite; }
      TestJavaScriptErrors(results, obs);
      if stop == 10 { break suite; }
      TestBuildArtifacts(results, obs);
    }
    passRate := PassRate(|results.passed|, results.total);
    exitCode := ExitCode(results.failed);
  }

  /** The suite exits 0 exactly when every test it recorded passed. */
  lemma SuiteExitCode(obs: Observations, raisesBefore: Option<nat>)
    ensures var n := Recorded(raisesBefore);
      ExitCode(FailedNames(Checks(obs, n))) == 0 <==> forall i :: 0 <= i < n ==> CheckAt(obs, i).passed
  {
    ExitCodeReportsFailures(Checks(obs, Recorded(raisesBefore)));
  }
}
