/** The decisions `authProvider` takes while signing in. What it observes on the page
    (fields found, checks passed, captchas) is given as an observation record; the model
    returns the outcome and the actions taken on the page, in order. */
module AuthFlow {
  import opened Wrappers
  import opened Normalize

  /** What the sign-in observes, in the order it looks. `passwordField` is the password
      field found on the first page (awaited for the three named providers, picked at once
      for the others); `passwordAfterFirstStep` is the one awaited after the first submit
      of a two-step form; `fieldValue` is the password field's value before it is
      filled. */
  datatype AuthObs = AuthObs(
    authenticatedAtStart: bool,
    captchaAtStart: bool,
    usernameField: bool,
    authenticatedWithoutForm: bool,
    passwordField: bool,
    firstSubmit: bool,
    passwordAfterFirstStep: bool,
    fieldValue: string,
    submitButton: bool,
    otpAfterSubmit: bool,
    authenticatedAfterSubmit: bool,
    captchaAfterSubmit: bool)

  /** The outcome reported to the popup. `Authenticated(true)` is a session that was
      already open; `ManualLogin(true)` waits for an SMS code; `Failed` is a thrown
      error. */
  datatype AuthResult =
    | Authenticated(skippedLogin: bool)
    | ManualLogin(smsCode: bool)
    | CaptchaRequired
    | Failed(message: string)

  /** What the sign-in does to the page. */
  datatype Action = FillUsername | FillPassword | ClickFirstSubmit | ClickSubmit

  datatype Outcome = Outcome(result: AuthResult, actions: seq<Action>)

  /** `String(payload?.password || "").length > 0`. */
  predicate HasProvided(v: Option<string>) {
    v.Some? && v.value != ""
  }

  /** `hasInputValue`: the field holds something besides white space. */
  predicate HasInputValue(value: string) {
    Trim(value) != ""
  }

  /** No password to type and none already in the field. */
  predicate NothingToSubmit(password: Option<string>, obs: AuthObs) {
    !HasProvided(password) && !HasInputValue(obs.fieldValue)
  }

  /** The actions end with the one submit click, and a given password was typed before
      it. */
  predicate SubmitsLast(actions: seq<Action>, password: Option<string>) {
    |actions| > 0 && actions[|actions| - 1] == ClickSubmit
    && ClickSubmit !in actions[..|actions| - 1]
    && (HasProvided(password) ==> FillPassword in actions[..|actions| - 1])
  }

  /** Typing, with the password typed only when given, and no click. */
  predicate TypingOnly(actions: seq<Action>, password: Option<string>) {
    ClickSubmit !in actions && (FillPassword in actions ==> HasProvided(password))
  }

  /** Clicking submit after typing. */
  function Submit(typed: seq<Action>, password: Option<string>): (actions: seq<Action>)
    requires TypingOnly(typed, password)
    requires HasProvided(password) ==> FillPassword in typed
    ensures SubmitsLast(actions, password)
    ensures FillPassword in actions ==> HasProvided(password)
  {
    var actions := typed + [ClickSubmit];
    assert actions[..|actions| - 1] == typed;
    actions
  }

  /** The username is typed when the request carries one. */
  function UsernameStep(username: Option<string>): (a: seq<Action>)
    ensures a == [] || a == [FillUsername]
  {
    if HasProvided(username) then [FillUsername] else []
  }

  /** The password is typed when the request carries one. */
  function PasswordStep(password: Option<string>): (a: seq<Action>)
    ensures (a == [FillPassword] && HasProvided(password)) || (a == [] && !HasProvided(password))
  {
    if HasProvided(password) then [FillPassword] else []
  }

  /** Red by SFR: fill what can be filled and leave the rest to the user, who often faces
      a captcha; the form is never submitted. */
  function RedBySfrLogin(username: Option<string>, password: Option<string>, obs: AuthObs): (o: Outcome)
    ensures o.result == ManualLogin(false) && TypingOnly(o.actions, password)
  {
    var typed := if obs.usernameField then UsernameStep(username) else [];
    var filled := if obs.passwordField then PasswordStep(password) else [];
    Outcome(ManualLogin(false), typed + filled)
  }

  /** The one-page forms of Free Mobile and Navigo: username, password and submit button
      must all be found; an empty form is left to the user; after the click, a code
      request (Free Mobile only) or a failed check leaves the rest to the user. */
  function OnePageLogin(name: string, checksOtp: bool, username: Option<string>, password: Option<string>,
                        obs: AuthObs): (o: Outcome)
    ensures ClickSubmit in o.actions <==>
      obs.usernameField && obs.passwordField && obs.submitButton && !NothingToSubmit(password, obs)
    ensures o.result == Authenticated(false) ==> ClickSubmit in o.actions && obs.authenticatedAfterSubmit
    ensures o.result == ManualLogin(true) <==> checksOtp && ClickSubmit in o.actions && obs.otpAfterSubmit
    ensures ClickSubmit in o.actions ==> SubmitsLast(o.actions, password)
    ensures ClickSubmit !in o.actions ==> TypingOnly(o.actions, password)
    ensures FillPassword in o.actions ==> HasProvided(password)
  {
    if !obs.usernameField then
      if obs.authenticatedWithoutForm then Outcome(Authenticated(true), [])
      else Outcome(Failed("Could not locate " + name + " username field"), [])
    else
      var typed := UsernameStep(username);
      if !obs.passwordField then Outcome(Failed("Could not locate " + name + " password field"), typed)
      else
        var filled := typed + PasswordStep(password);
        if !obs.submitButton then Outcome(Failed("Could not locate " + name + " login button"), filled)
        else if NothingToSubmit(password, obs) then Outcome(ManualLogin(false), filled)
        else
          var clicked := Submit(filled, password);
          if checksOtp && obs.otpAfterSubmit then Outcome(ManualLogin(true), clicked)
          else if obs.authenticatedAfterSubmit then Outcome(Authenticated(false), clicked)
          else Outcome(ManualLogin(false), clicked)
  }

  /** Every other provider: a captcha stops at once; a missing password field sends the
      username page's submit first, as in a two-step form; an empty form is left to the
      user; after the final click only a captcha stands in the way. */
  function GenericLogin(username: Option<string>, password: Option<string>, obs: AuthObs): (o: Outcome)
    ensures ClickSubmit in o.actions ==> !NothingToSubmit(password, obs) && !obs.captchaAtStart
    ensures o.result == Authenticated(false) <==> ClickSubmit in o.actions && !obs.captchaAfterSubmit
    ensures ClickFirstSubmit in o.actions ==> !obs.passwordField && obs.firstSubmit
    ensures ClickSubmit in o.actions ==> SubmitsLast(o.actions, password)
    ensures ClickSubmit !in o.actions ==> TypingOnly(o.actions, password)
    ensures FillPassword in o.actions ==> HasProvided(password)
  {
    if obs.captchaAtStart then Outcome(CaptchaRequired, [])
    else if !obs.usernameField then
      if obs.authenticatedWithoutForm then Outcome(Authenticated(true), [])
      else Outcome(Failed("Could not locate provider username field"), [])
    else
      var typed := UsernameStep(username);
      var stepped := if obs.passwordField || !obs.firstSubmit then typed else typed + [ClickFirstSubmit];
      var found := obs.passwordField || obs.passwordAfterFirstStep;
      if !found then Outcome(Failed("Could not locate provider password field after username step"), stepped)
      else
        var filled := stepped + PasswordStep(password);
        if NothingToSubmit(password, obs) then Outcome(ManualLogin(false), filled)
        else if !obs.submitButton then Outcome(Failed("Could not locate provider submit button"), filled)
        else
          var clicked := Submit(filled, password);
          if obs.captchaAfterSubmit then Outcome(CaptchaRequired, clicked)
          else Outcome(Authenticated(false), clicked)
  }

  /** `authProvider`: an open session is reported at once; otherwise the provider's own
      sign-in flow runs. */
  function AuthProvider(provider: string, username: Option<string>, password: Option<string>, obs: AuthObs): (o: Outcome)
    ensures obs.authenticatedAtStart ==> o == Outcome(Authenticated(true), [])
    ensures ClickSubmit in o.actions ==> !NothingToSubmit(password, obs) && SubmitsLast(o.actions, password)
    ensures o.result == Authenticated(false) ==> ClickSubmit in o.actions
    ensures FillPassword in o.actions ==> HasProvided(password)
    ensures o.result == ManualLogin(true) ==> provider == "free_mobile_provider" && obs.otpAfterSubmit
  {
    if obs.authenticatedAtStart then Outcome(Authenticated(true), [])
    else if provider == "redbysfr_provider" then RedBySfrLogin(username, password, obs)
    else if provider == "free_mobile_provider" then OnePageLogin("Free Mobile", true, username, password, obs)
    else if provider == "navigo_provider" then OnePageLogin("Navigo", false, username, password, obs)
    else GenericLogin(username, password, obs)
  }

  /** With no password given and an empty or blank field, sign-in stops with a manual
      login before any submit click, once the form has been found. */
  lemma BlankPasswordMeansManualLogin(provider: string, username: Option<string>, password: Option<string>, obs: AuthObs)
    requires !HasProvided(password) && Trim(obs.fieldValue) == ""
    requires !obs.authenticatedAtStart && obs.usernameField && obs.passwordField && obs.submitButton
    requires provider == "free_mobile_provider" || provider == "navigo_provider" || !obs.captchaAtStart
    ensures AuthProvider(provider, username, password, obs).result == ManualLogin(false)
    ensures ClickSubmit !in AuthProvider(provider, username, password, obs).actions
  {
  }

  /** Free Mobile: a code request after the click waits for the user's SMS code, even
      when the page would otherwise pass for signed in. */
  lemma FreeMobileCodeWaitsForUser(username: Option<string>, password: Option<string>, obs: AuthObs)
    requires !obs.authenticatedAtStart && obs.usernameField && obs.passwordField && obs.submitButton
    requires !NothingToSubmit(password, obs) && obs.otpAfterSubmit
    ensures AuthProvider("free_mobile_provider", username, password, obs).result == ManualLogin(true)
  {
  }

  /** Red by SFR never submits the form and never reports a new session. */
  lemma RedBySfrIsManual(username: Option<string>, password: Option<string>, obs: AuthObs)
    ensures var o := AuthProvider("redbysfr_provider", username, password, obs);
      ClickSubmit !in o.actions && o.result in {Authenticated(true), ManualLogin(false)}
  {
  }
}
