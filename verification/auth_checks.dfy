/** The checks that decide whether a provider session is signed in or waits for a one-time
    code: `isFreeMobileOtpRequired`, the `authenticatedGuess` of
    `getFreeMobileAuthDiagnostics`, `isNavigoAuthenticated` and `isProviderAuthenticated`. */
module AuthChecks {
  import opened Wrappers
  import opened Text
  import opened Normalize
  import opened Dom
  import opened Profiles

  /** What the checks read from the current page: `location.hostname`,
      `location.pathname`, the body's text and the document. */
  datatype Page = Page(host: string, path: string, body: string, doc: seq<Node>)

  /** `Boolean(document.querySelector(sel))` for a selector the browser accepts. */
  predicate Present(e: Engine, sel: string, p: Page) {
    QuerySelector(e, sel, p.doc).Some?
  }

  /** Some present element matches one of the selectors. */
  predicate AnyPresent(e: Engine, sels: seq<string>, p: Page) {
    exists i | 0 <= i < |sels| :: Present(e, sels[i], p)
  }

  /** The text includes one of the phrases. */
  predicate MentionsAny(text: string, phrases: seq<string>) {
    exists i | 0 <= i < |phrases| :: Contains(text, phrases[i])
  }

  // ----- one-time code -----

  /** Inputs that only a one-time-code step shows. */
  const EXPLICIT_OTP_INPUTS: seq<string> := [
    "input[autocomplete='one-time-code']", "input[name='otp']", "input[id='otp']",
    "input[name='smsCode']", "input[id='smsCode']",
    "input[name='verificationCode']", "input[id='verificationCode']"]

  /** Inputs whose name merely mentions a code or a verification. */
  const GENERIC_OTP_INPUTS: seq<string> := [
    "input[name*='otp']", "input[id*='otp']", "input[name*='verification']", "input[id*='verification']"]

  /** Phrases of a code challenge, in `normalizeText` form, accented and not. */
  const OTP_PHRASES: seq<string> := [
    "code de verification", "code de vérification", "saisissez le code", "entrer le code",
    "entrez le code", "code recu par sms", "code reçu par sms",
    "mot de passe a usage unique", "mot de passe à usage unique"]

  /** The page asks for a code in words. */
  predicate HasOtpChallengeText(body: string) {
    MentionsAny(NormalizeText(body), OTP_PHRASES)
  }

  /** `isFreeMobileOtpRequired`: a visible explicit code input alone, or a visible
      generic one together with challenge text. */
  function IsFreeMobileOtpRequired(e: Engine, p: Page): (r: bool)
    ensures QueryWithin(e, EXPLICIT_OTP_INPUTS, p.doc).Some? ==> r
    ensures r ==> QueryWithin(e, EXPLICIT_OTP_INPUTS, p.doc).Some? || QueryWithin(e, GENERIC_OTP_INPUTS, p.doc).Some?
    ensures QueryWithin(e, EXPLICIT_OTP_INPUTS, p.doc).None? && QueryWithin(e, GENERIC_OTP_INPUTS, p.doc).Some? ==>
      (r <==> HasOtpChallengeText(p.body))
  {
    QueryWithin(e, EXPLICIT_OTP_INPUTS, p.doc).Some?
    || (QueryWithin(e, GENERIC_OTP_INPUTS, p.doc).Some? && HasOtpChallengeText(p.body))
  }

  /** Only visible inputs count: a page whose code inputs are all hidden never asks for a
      code, whatever its text says. */
  lemma HiddenOtpInputsIgnored(e: Engine, p: Page)
    requires forall n | n in Flatten(p.doc) :: !n.el.visible
    ensures !IsFreeMobileOtpRequired(e, p)
  {
    forall sel: string ensures !AcceptsWithin(e, sel, p.doc) {
      if QuerySelector(e, sel, p.doc).Some? {
        assert QuerySelector(e, sel, p.doc).value in Flatten(p.doc);
      }
    }
  }

  /** The challenge text is read through `normalizeText`, so case and spacing of the page
      do not matter. */
  lemma ChallengeIgnoresLayout(body: string)
    ensures HasOtpChallengeText(NormalizeText(body)) == HasOtpChallengeText(body)
  {
    NormalizeTextIdempotent(body);
  }

  // ----- Free Mobile -----

  /** The account area's path prefix and its login route. */
  const ACCOUNT_AREA := "/account/v2"
  const LOGIN_ROUTE := "/account/v2/login"

  /** `(?:\/|$)` after position `j`. */
  predicate SegmentEndsAt(path: string, j: nat) {
    j == |path| || (j < |path| && path[j] == '/')
  }

  /** `/^\/account\/v2(?:\/|$)/.test(pathname)`. */
  predicate InAccountArea(path: string) {
    StartsAt(path, 0, ACCOUNT_AREA) && SegmentEndsAt(path, |ACCOUNT_AREA|)
  }

  /** `/\/account\/v2\/login(?:\/|$)/.test(pathname)`: anywhere in the path. */
  predicate OnLoginRoute(path: string) {
    exists i | 0 <= i <= |path| :: StartsAt(path, i, LOGIN_ROUTE) && SegmentEndsAt(path, i + |LOGIN_ROUTE|)
  }

  /** Elements only a signed-in Free Mobile page shows. */
  const FREE_MARKER_NODES: seq<string> := [
    "#user-login, #user-name, #user-msisdn", "button[aria-controls='invoices']", "#invoices"]

  /** Phrases only a signed-in Free Mobile page shows, in `normalizeText` form. */
  const FREE_MARKER_PHRASES: seq<string> := ["conso et factures", "mes factures", "deconnexion"]

  /** The login form's own fields. */
  const FREE_LOGIN_FIELDS: seq<string> := ["#login-username", "#login-password"]

  /** `hasAuthenticatedMarker`. */
  predicate HasFreeMobileMarker(e: Engine, p: Page) {
    AnyPresent(e, FREE_MARKER_NODES, p) || MentionsAny(NormalizeText(p.body), FREE_MARKER_PHRASES)
  }

  /** `authenticatedGuess`: never while a code is asked for; otherwise a signed-in marker,
      or a page of the account area that is not its login route and shows no login
      field. */
  function AuthenticatedGuess(e: Engine, p: Page): (r: bool)
    ensures IsFreeMobileOtpRequired(e, p) ==> !r
    ensures !IsFreeMobileOtpRequired(e, p) && HasFreeMobileMarker(e, p) ==> r
    ensures r && !HasFreeMobileMarker(e, p) ==>
      InAccountArea(p.path) && !OnLoginRoute(p.path) && !AnyPresent(e, FREE_LOGIN_FIELDS, p)
    ensures (!IsFreeMobileOtpRequired(e, p) && InAccountArea(p.path) && !OnLoginRoute(p.path)
             && !AnyPresent(e, FREE_LOGIN_FIELDS, p)) ==> r
  {
    !IsFreeMobileOtpRequired(e, p)
    && (HasFreeMobileMarker(e, p)
        || (InAccountArea(p.path) && !OnLoginRoute(p.path) && !AnyPresent(e, FREE_LOGIN_FIELDS, p)))
  }

  /** The login route at the root of the path is inside the account area, so the path
      alone never passes it for a signed-in page. */
  lemma LoginRouteIsNotSignedIn(e: Engine, p: Page)
    requires StartsAt(p.path, 0, LOGIN_ROUTE) && SegmentEndsAt(p.path, |LOGIN_ROUTE|)
    requires !HasFreeMobileMarker(e, p)
    ensures InAccountArea(p.path)
    ensures !AuthenticatedGuess(e, p)
  {
    assert InAccountArea(p.path) by {
      var n := |ACCOUNT_AREA|;
      assert LOGIN_ROUTE[..n] == ACCOUNT_AREA && LOGIN_ROUTE[n] == '/';
      assert p.path[..n] == p.path[..|LOGIN_ROUTE|][..n];
      assert p.path[n] == p.path[..|LOGIN_ROUTE|][n];
    }
    assert OnLoginRoute(p.path) by {
      assert StartsAt(p.path, 0, LOGIN_ROUTE) && SegmentEndsAt(p.path, 0 + |LOGIN_ROUTE|);
    }
  }

  /** A page of the account area deeper than its root and off the login route, with no
      login field and no code asked for, is guessed signed in. */
  lemma AccountPageIsSignedIn(e: Engine, p: Page, rest: string)
    requires p.path == ACCOUNT_AREA + "/" + rest
    requires !OnLoginRoute(p.path) && !AnyPresent(e, FREE_LOGIN_FIELDS, p) && !IsFreeMobileOtpRequired(e, p)
    ensures AuthenticatedGuess(e, p)
  {
    assert p.path[..|ACCOUNT_AREA|] == ACCOUNT_AREA;
    assert p.path[|ACCOUNT_AREA|] == '/';
  }

  /** The account area's root itself, `/account/v2` with nothing after it, is part of the
      area: with no login field and no code asked for it is guessed signed in. */
  lemma AccountRootIsSignedIn(e: Engine, p: Page)
    requires p.path == ACCOUNT_AREA
    requires !AnyPresent(e, FREE_LOGIN_FIELDS, p) && !IsFreeMobileOtpRequired(e, p)
    ensures !OnLoginRoute(p.path)
    ensures AuthenticatedGuess(e, p)
  {
    assert InAccountArea(p.path) by {
      assert p.path[..|ACCOUNT_AREA|] == ACCOUNT_AREA;
    }
    assert !OnLoginRoute(p.path) by {
      forall i | 0 <= i <= |p.path|
        ensures !StartsAt(p.path, i, LOGIN_ROUTE)
      {
      }
    }
  }

  /** `isFreeMobileAuthenticated`: on a Free Mobile host, with no code asked for, and
      guessed signed in. */
  function IsFreeMobileAuthenticated(e: Engine, p: Page): (r: bool)
    ensures r ==> Contains(p.host, "mobile.free.fr") && !IsFreeMobileOtpRequired(e, p)
    ensures r <==> Contains(p.host, "mobile.free.fr") && AuthenticatedGuess(e, p)
  {
    Contains(p.host, "mobile.free.fr") && !IsFreeMobileOtpRequired(e, p) && AuthenticatedGuess(e, p)
  }

  // ----- Navigo -----

  const NAVIGO_DOMAIN := "iledefrance-mobilites.fr"
  const MON_ESPACE_HOST := "mon-espace." + NAVIGO_DOMAIN
  const JEGERE_HOST := "jegeremacartenavigo." + NAVIGO_DOMAIN

  /** The identity provider's sign-in step. */
  const NAVIGO_LOGIN_PATH := "/auth/realms/connect/login-actions/authenticate"

  /** The sign-in form's fields. */
  const NAVIGO_LOGIN_FIELDS: seq<string> := ["#id-Mail", "#id-pwd", "#form-log"]

  /** Phrases of a signed-in Navigo page, compared with `normalizeComparableText`. */
  const NAVIGO_PLAIN_MARKERS: seq<string> := ["mon espace personnel", "mon navigo", "mes services", "deconnexion"]
  const NAVIGO_MARKERS: seq<string> := NAVIGO_PLAIN_MARKERS + [ACCENTED_LOGOUT]

  /** The accented spelling of the logout link. */
  const ACCENTED_LOGOUT := "déconnexion"

  /** One of the two customer hosts. */
  predicate OnNavigoCustomerHost(host: string) {
    Contains(host, MON_ESPACE_HOST) || Contains(host, JEGERE_HOST)
  }

  /** The page shows a signed-in phrase. */
  predicate ShowsNavigoMarker(body: string) {
    MentionsAny(NormalizeComparableText(body), NAVIGO_MARKERS)
  }

  /** `isNavigoAuthenticated`: on a Navigo host, with no sign-in field, off the sign-in
      path, on one of the two customer hosts, and showing a signed-in phrase. */
  function IsNavigoAuthenticated(e: Engine, p: Page): (r: bool)
    ensures r ==> OnNavigoCustomerHost(p.host) && ShowsNavigoMarker(p.body)
    ensures r ==> !AnyPresent(e, NAVIGO_LOGIN_FIELDS, p) && !Contains(p.path, NAVIGO_LOGIN_PATH)
  {
    Contains(p.host, NAVIGO_DOMAIN)
    && !AnyPresent(e, NAVIGO_LOGIN_FIELDS, p)
    && !Contains(p.path, NAVIGO_LOGIN_PATH)
    && OnNavigoCustomerHost(p.host)
    && ShowsNavigoMarker(p.body)
  }

  /** The domain test is implied by the customer-host test, so a Navigo page is signed in
      exactly when it is on a customer host, off the sign-in path, without a sign-in field,
      and shows a signed-in phrase. */
  lemma NavigoDecision(e: Engine, p: Page)
    ensures IsNavigoAuthenticated(e, p) <==>
      (OnNavigoCustomerHost(p.host) && !AnyPresent(e, NAVIGO_LOGIN_FIELDS, p)
       && !Contains(p.path, NAVIGO_LOGIN_PATH) && ShowsNavigoMarker(p.body))
  {
    NavigoHostsInDomain(p.host);
  }

  /** A text that includes `a + b` includes `b`. */
  lemma ContainsSuffix(s: string, a: string, b: string)
    requires Contains(s, a + b)
    ensures Contains(s, b)
  {
    var i :| 0 <= i <= |s| && a + b <= s[i..];
    assert b <= s[i + |a|..];
  }

  /** Both customer hosts lie in the Navigo domain, so the domain test never rejects a
      customer host. */
  lemma NavigoHostsInDomain(host: string)
    ensures Contains(host, MON_ESPACE_HOST) ==> Contains(host, NAVIGO_DOMAIN)
    ensures Contains(host, JEGERE_HOST) ==> Contains(host, NAVIGO_DOMAIN)
  {
    if Contains(host, MON_ESPACE_HOST) {
      ContainsSuffix(host, "mon-espace.", NAVIGO_DOMAIN);
    }
    if Contains(host, JEGERE_HOST) {
      ContainsSuffix(host, "jegeremacartenavigo.", NAVIGO_DOMAIN);
    }
  }

  /** A word holding a character that is not plain never occurs in a text of plain
      characters. */
  lemma NotPlainNotContained(t: string, w: string, k: nat)
    requires forall i | 0 <= i < |t| :: Plain(t[i])
    requires k < |w| && !Plain(w[k])
    ensures !Contains(t, w)
  {
  }

  /** The accented marker never matches: `normalizeComparableText` has already removed the
      accent. */
  lemma AccentedMarkerNeverMatches(body: string)
    ensures !Contains(NormalizeComparableText(body), ACCENTED_LOGOUT)
  {
    var c := ACCENTED_LOGOUT[1];
    assert c == '\U{00E9}';
    assert Decompose(c).Some?;
    NotPlainNotContained(NormalizeComparableText(body), ACCENTED_LOGOUT, 1);
  }

  /** So the unaccented markers alone decide whether a Navigo page is signed in. */
  lemma PlainMarkersDecide(body: string)
    ensures ShowsNavigoMarker(body) <==> MentionsAny(NormalizeComparableText(body), NAVIGO_PLAIN_MARKERS)
  {
    var t := NormalizeComparableText(body);
    AccentedMarkerNeverMatches(body);
    assert NAVIGO_MARKERS[4] == ACCENTED_LOGOUT;
    assert forall i | 0 <= i < 4 :: NAVIGO_MARKERS[i] == NAVIGO_PLAIN_MARKERS[i];
    if MentionsAny(t, NAVIGO_MARKERS) {
      var i :| 0 <= i < |NAVIGO_MARKERS| && Contains(t, NAVIGO_MARKERS[i]);
      assert i < 4 && Contains(t, NAVIGO_PLAIN_MARKERS[i]);
    }
    if MentionsAny(t, NAVIGO_PLAIN_MARKERS) {
      var i :| 0 <= i < |NAVIGO_PLAIN_MARKERS| && Contains(t, NAVIGO_PLAIN_MARKERS[i]);
      assert Contains(t, NAVIGO_MARKERS[i]);
    }
  }

  // ----- every provider -----

  /** What a check that may throw gives back: its value, or the `TypeError` thrown by
      `for (const selector of undefined)` when it reads a role its login profile lacks.
      The message listener turns the error into an `{ ok: false }` response. */
  datatype Thrown<T> = Returns(value: T) | TypeError

  /** The selectors of one role of a login profile; a role the profile lacks reads as no
      selectors here, and `LoginFieldShown` says when reading it throws instead. */
  function RoleSelectors(profile: Profile<seq<string>>, role: string): seq<string> {
    if role in profile then profile[role] else []
  }

  /** A profile that defines both login roles. */
  predicate HasLoginRoles(profile: Profile<seq<string>>) {
    "username" in profile && "password" in profile
  }

  /** A visible username or password field of the profile. */
  predicate HasLoginField(e: Engine, p: Page, profile: Profile<seq<string>>) {
    QueryWithin(e, RoleSelectors(profile, "username"), p.doc).Some?
    || QueryWithin(e, RoleSelectors(profile, "password"), p.doc).Some?
  }

  /** `Boolean(queryWithin(document, s.username) || queryWithin(document, s.password))`.
      The password role is only read when no username field shows, so a profile without a
      `username` role always throws, and one without a `password` role throws unless a
      username field shows. */
  function LoginFieldShown(e: Engine, p: Page, profile: Profile<seq<string>>): (r: Thrown<bool>)
    ensures r.TypeError? <==> ("username" !in profile
      || ("password" !in profile && QueryWithin(e, RoleSelectors(profile, "username"), p.doc).None?))
    ensures HasLoginRoles(profile) ==> r.Returns?
    ensures r.Returns? ==> (r.value <==> HasLoginField(e, p, profile))
  {
    if "username" !in profile then TypeError
    else if QueryWithin(e, profile["username"], p.doc).Some? then Returns(true)
    else if "password" !in profile then TypeError
    else Returns(QueryWithin(e, profile["password"], p.doc).Some?)
  }

  /** `isOrangeAuthenticated`: on the Orange customer host, and showing no login field of
      the Orange login profile (`orangeLogin`, `__EXT_SELECTORS__.orange.login`); without
      that profile the host alone decides, and a profile missing a role read throws. */
  function IsOrangeAuthenticated(e: Engine, p: Page, orangeLogin: Option<Profile<seq<string>>>): (r: Thrown<bool>)
    ensures !Contains(p.host, "espace-client.orange.fr") ==> r == Returns(false)
    ensures r == Returns(true) ==> Contains(p.host, "espace-client.orange.fr")
    ensures Contains(p.host, "espace-client.orange.fr") && orangeLogin.None? ==> r == Returns(true)
    ensures orangeLogin.Some? && HasLoginField(e, p, orangeLogin.value) ==> r != Returns(true)
    ensures Contains(p.host, "espace-client.orange.fr") && orangeLogin.Some? ==>
      (r.TypeError? <==> LoginFieldShown(e, p, orangeLogin.value).TypeError?)
    ensures (Contains(p.host, "espace-client.orange.fr") && orangeLogin.Some?
             && HasLoginRoles(orangeLogin.value) && !HasLoginField(e, p, orangeLogin.value)) ==> r == Returns(true)
    ensures Contains(p.host, "espace-client.orange.fr") && orangeLogin.Some? && "username" !in orangeLogin.value ==>
      r == TypeError
  {
    if !Contains(p.host, "espace-client.orange.fr") then Returns(false)
    else if orangeLogin.None? then Returns(true)
    else match LoginFieldShown(e, p, orangeLogin.value)
      case TypeError => TypeError
      case Returns(shown) => Returns(!shown)
  }

  /** `isProviderAuthenticated`: the provider's own check for Orange, Free Mobile and
      Navigo; for any other provider, the absence of a login field of its login
      profile, or the error when a role read is missing. */
  function IsProviderAuthenticated(e: Engine, p: Page, config: SelectorConfig<seq<string>>,
                                   orangeLogin: Option<Profile<seq<string>>>, provider: string): (r: Thrown<bool>)
    ensures provider == "orange_provider" ==> r == IsOrangeAuthenticated(e, p, orangeLogin)
    ensures provider == "free_mobile_provider" ==> r == Returns(IsFreeMobileAuthenticated(e, p))
    ensures provider == "navigo_provider" ==> r == Returns(IsNavigoAuthenticated(e, p))
    ensures provider == "free_mobile_provider" && r == Returns(true) ==> !IsFreeMobileOtpRequired(e, p)
    ensures provider == "navigo_provider" && r == Returns(true) ==> !AnyPresent(e, NAVIGO_LOGIN_FIELDS, p)
    ensures provider !in {"orange_provider", "free_mobile_provider", "navigo_provider"} ==>
      (r.TypeError? <==> LoginFieldShown(e, p, LoginSelectors(config, provider)).TypeError?)
    ensures provider !in {"orange_provider", "free_mobile_provider", "navigo_provider"} && r.Returns? ==>
      (r.value <==> !HasLoginField(e, p, LoginSelectors(config, provider)))
    ensures (provider !in {"orange_provider", "free_mobile_provider", "navigo_provider"}
             && HasLoginRoles(LoginSelectors(config, provider))) ==> r.Returns?
  {
    if provider == "orange_provider" then IsOrangeAuthenticated(e, p, orangeLogin)
    else if provider == "free_mobile_provider" then Returns(IsFreeMobileAuthenticated(e, p))
    else if provider == "navigo_provider" then Returns(IsNavigoAuthenticated(e, p))
    else match LoginFieldShown(e, p, LoginSelectors(config, provider))
      case TypeError => TypeError
      case Returns(shown) => Returns(!shown)
  }

  /** Orange, Free Mobile and Navigo are decided by their own checks, never by the
      generic login profiles; every other provider is decided by its login profile alone,
      never by the Orange one. */
  lemma OwnChecksIgnoreProfiles(e: Engine, p: Page, c1: SelectorConfig<seq<string>>, c2: SelectorConfig<seq<string>>,
                                o1: Option<Profile<seq<string>>>, o2: Option<Profile<seq<string>>>, provider: string)
    ensures provider in {"free_mobile_provider", "navigo_provider"} ==>
      IsProviderAuthenticated(e, p, c1, o1, provider) == IsProviderAuthenticated(e, p, c2, o2, provider)
    ensures provider == "orange_provider" ==>
      IsProviderAuthenticated(e, p, c1, o1, provider) == IsProviderAuthenticated(e, p, c2, o1, provider)
    ensures provider !in {"orange_provider", "free_mobile_provider", "navigo_provider"} ==>
      IsProviderAuthenticated(e, p, c1, o1, provider) == IsProviderAuthenticated(e, p, c1, o2, provider)
  {
  }
}
