/** The action routers of the two content scripts: `handleProviderAction` (the provider
    pages) and `handleNavanAction` (Navan), and the readiness rule of
    `checkProviderBillingReady`. The handlers themselves are modelled in their own
    modules; here an action is mapped to the handler it runs. */
module Dispatch {
  import opened Wrappers
  import opened Text
  import Profiles
  import opened Normalize
  import opened Dom
  import AuthChecks

  /** The handlers of the provider script. */
  datatype ProviderHandler = CheckSession | CheckBillingReady | Authenticate | NavigateBilling | DownloadBill

  /** A provider handler with the provider it runs for. */
  datatype ProviderCall = ProviderCall(handler: ProviderHandler, provider: string)

  /** A routed action: what runs, or the error thrown for an unknown action. */
  datatype Routed<H> = Route(call: H) | Unsupported(message: string)

  /** The action names the provider script accepts, the legacy Orange names included. */
  const PROVIDER_ACTIONS: set<string> := {
    "CHECK_PROVIDER_SESSION", "CHECK_ORANGE_SESSION", "CHECK_PROVIDER_BILLING_READY",
    "AUTH_PROVIDER", "AUTH_ORANGE", "NAVIGATE_BILLING", "DOWNLOAD_AND_EXTRACT_BILL"}

  /** `handleProviderAction`: the provider of the payload is normalized first, then the
      action picks the handler; any other action is an error naming it. */
  function DispatchProvider(action: string, provider: Option<string>): (r: Routed<ProviderCall>)
    ensures r.Unsupported? <==> action !in PROVIDER_ACTIONS
    ensures r.Unsupported? ==> r.message == "Unsupported orange action: " + action
    ensures r.Route? ==> r.call.provider == Profiles.NormalizeProvider(provider)
  {
    var p := Profiles.NormalizeProvider(provider);
    if action == "CHECK_PROVIDER_SESSION" || action == "CHECK_ORANGE_SESSION" then Route(ProviderCall(CheckSession, p))
    else if action == "CHECK_PROVIDER_BILLING_READY" then Route(ProviderCall(CheckBillingReady, p))
    else if action == "AUTH_PROVIDER" || action == "AUTH_ORANGE" then Route(ProviderCall(Authenticate, p))
    else if action == "NAVIGATE_BILLING" then Route(ProviderCall(NavigateBilling, p))
    else if action == "DOWNLOAD_AND_EXTRACT_BILL" then Route(ProviderCall(DownloadBill, p))
    else Unsupported("Unsupported orange action: " + action)
  }

  /** The current name of each handler's action. */
  function ProviderActionName(h: ProviderHandler): (name: string)
    ensures name in PROVIDER_ACTIONS
  {
    match h
    case CheckSession => "CHECK_PROVIDER_SESSION"
    case CheckBillingReady => "CHECK_PROVIDER_BILLING_READY"
    case Authenticate => "AUTH_PROVIDER"
    case NavigateBilling => "NAVIGATE_BILLING"
    case DownloadBill => "DOWNLOAD_AND_EXTRACT_BILL"
  }

  /** Every handler is reached by its action name, for whichever provider. */
  lemma ProviderRoundTrip(h: ProviderHandler, provider: Option<string>)
    ensures DispatchProvider(ProviderActionName(h), provider) == Route(ProviderCall(h, Profiles.NormalizeProvider(provider)))
  {
  }

  /** The legacy Orange names run the same handlers as the current ones. */
  lemma LegacyNamesAgree(provider: Option<string>)
    ensures DispatchProvider("CHECK_ORANGE_SESSION", provider) == DispatchProvider("CHECK_PROVIDER_SESSION", provider)
    ensures DispatchProvider("AUTH_ORANGE", provider) == DispatchProvider("AUTH_PROVIDER", provider)
  {
  }

  /** The handlers of the Navan script. */
  datatype NavanHandler = CheckNavanSession | ClickNewTransaction | AutofillTransaction | UploadDocument

  /** The action names the Navan script accepts. */
  const NAVAN_ACTIONS: set<string> := {
    "CHECK_SESSION", "CLICK_NEW_TRANSACTION", "AUTOFILL_TRANSACTION", "UPLOAD_DOCUMENT"}

  /** `handleNavanAction`: the action picks the handler; any other action is an error
      naming it. */
  function DispatchNavan(action: string): (r: Routed<NavanHandler>)
    ensures r.Unsupported? <==> action !in NAVAN_ACTIONS
    ensures r.Unsupported? ==> r.message == "Unsupported navan action: " + action
  {
    if action == "CHECK_SESSION" then Route(CheckNavanSession)
    else if action == "CLICK_NEW_TRANSACTION" then Route(ClickNewTransaction)
    else if action == "AUTOFILL_TRANSACTION" then Route(AutofillTransaction)
    else if action == "UPLOAD_DOCUMENT" then Route(UploadDocument)
    else Unsupported("Unsupported navan action: " + action)
  }

  /** The action name of each Navan handler. */
  function NavanActionName(h: NavanHandler): (name: string)
    ensures name in NAVAN_ACTIONS
  {
    match h
    case CheckNavanSession => "CHECK_SESSION"
    case ClickNewTransaction => "CLICK_NEW_TRANSACTION"
    case AutofillTransaction => "AUTOFILL_TRANSACTION"
    case UploadDocument => "UPLOAD_DOCUMENT"
  }

  /** Every Navan handler is reached by its action name. */
  lemma NavanRoundTrip(h: NavanHandler)
    ensures DispatchNavan(NavanActionName(h)) == Route(h)
  {
  }

  /** `checkProviderBillingReady`, over what the page shows: whether the provider check
      passes, whether a Red by SFR invoice heading is found, the page's normalized text,
      and whether a Navigo account-area label is found. */
  function BillingReady(provider: string, authenticated: bool, invoiceHeading: bool, text: string,
                        navigoLabel: bool): (ready: bool)
    ensures provider != "redbysfr_provider" ==> (ready ==> authenticated)
    ensures provider == "redbysfr_provider" ==>
      (ready <==> authenticated || invoiceHeading || Contains(text, "vos factures") || Contains(text, "facture fixe"))
    ensures provider == "navigo_provider" ==> (ready <==> authenticated && navigoLabel)
    ensures provider != "redbysfr_provider" && provider != "navigo_provider" ==> (ready <==> authenticated)
  {
    if provider == "redbysfr_provider" then
      invoiceHeading || Contains(text, "vos factures") || Contains(text, "facture fixe") || authenticated
    else if provider == "navigo_provider" then authenticated && navigoLabel
    else authenticated
  }

  /** The Red by SFR evidence that needs no sign-in check: an invoice heading, or the
      invoice wording in the page's normalized text. */
  predicate ShowsRedBySfrInvoices(invoiceHeading: bool, text: string) {
    invoiceHeading || Contains(text, "vos factures") || Contains(text, "facture fixe")
  }

  /** `checkProviderBillingReady` on a page: the provider check is `isProviderAuthenticated`
      and the text is the page body's `normalizeText` key. The `||` of Red by SFR stops at
      the invoice evidence, so only without it can the provider check throw. */
  function PageReady(e: Engine, p: AuthChecks.Page, config: Profiles.SelectorConfig<seq<string>>,
                     orangeLogin: Option<Profiles.Profile<seq<string>>>, provider: string,
                     invoiceHeading: bool, navigoLabel: bool): (r: AuthChecks.Thrown<bool>)
    ensures provider == "redbysfr_provider" && ShowsRedBySfrInvoices(invoiceHeading, NormalizeText(p.body))
      ==> r == AuthChecks.Returns(true)
    ensures r.TypeError? <==> (AuthChecks.IsProviderAuthenticated(e, p, config, orangeLogin, provider).TypeError?
      && !(provider == "redbysfr_provider" && ShowsRedBySfrInvoices(invoiceHeading, NormalizeText(p.body))))
    ensures AuthChecks.IsProviderAuthenticated(e, p, config, orangeLogin, provider).Returns? ==>
      r == AuthChecks.Returns(BillingReady(provider, AuthChecks.IsProviderAuthenticated(e, p, config, orangeLogin, provider).value,
                                           invoiceHeading, NormalizeText(p.body), navigoLabel))
  {
    var text := NormalizeText(p.body);
    if provider == "redbysfr_provider" && ShowsRedBySfrInvoices(invoiceHeading, text) then AuthChecks.Returns(true)
    else match AuthChecks.IsProviderAuthenticated(e, p, config, orangeLogin, provider)
      case TypeError => AuthChecks.TypeError
      case Returns(signedIn) => AuthChecks.Returns(BillingReady(provider, signedIn, invoiceHeading, text, navigoLabel))
  }

  /** Apart from Red by SFR, a page is only reported ready when the provider's own
      sign-in check passes: on the Orange customer host, past the Free Mobile one-time code,
      with no Navigo login field, or with both login roles defined and no login field of
      the provider's profile showing. */
  lemma ReadyNeedsSignIn(e: Engine, p: AuthChecks.Page, config: Profiles.SelectorConfig<seq<string>>,
                         orangeLogin: Option<Profiles.Profile<seq<string>>>, provider: string,
                         invoiceHeading: bool, navigoLabel: bool)
    requires provider != "redbysfr_provider"
    requires PageReady(e, p, config, orangeLogin, provider, invoiceHeading, navigoLabel) == AuthChecks.Returns(true)
    ensures provider == "orange_provider" ==> Contains(p.host, "espace-client.orange.fr")
    ensures provider == "free_mobile_provider" ==> !AuthChecks.IsFreeMobileOtpRequired(e, p)
    ensures provider == "navigo_provider" ==> navigoLabel && !AuthChecks.AnyPresent(e, AuthChecks.NAVIGO_LOGIN_FIELDS, p)
    ensures provider !in {"orange_provider", "free_mobile_provider", "navigo_provider"} ==>
      AuthChecks.HasLoginRoles(Profiles.LoginSelectors(config, provider))
      && !AuthChecks.HasLoginField(e, p, Profiles.LoginSelectors(config, provider))
  {
  }

  /** Red by SFR is ready on a signed-in page, and on any page that shows its invoices,
      signed in or not. */
  lemma RedBySfrReady(e: Engine, p: AuthChecks.Page, config: Profiles.SelectorConfig<seq<string>>,
                      orangeLogin: Option<Profiles.Profile<seq<string>>>, invoiceHeading: bool, navigoLabel: bool)
    ensures (AuthChecks.HasLoginRoles(Profiles.LoginSelectors(config, "redbysfr_provider"))
             && !AuthChecks.HasLoginField(e, p, Profiles.LoginSelectors(config, "redbysfr_provider")))
      ==> PageReady(e, p, config, orangeLogin, "redbysfr_provider", invoiceHeading, navigoLabel) == AuthChecks.Returns(true)
    ensures invoiceHeading || Contains(NormalizeText(p.body), "vos factures")
      ==> PageReady(e, p, config, orangeLogin, "redbysfr_provider", invoiceHeading, navigoLabel) == AuthChecks.Returns(true)
  {
  }

  /** A generic provider whose login profile has no `username` role makes the check throw
      instead of reporting a sign-in, unless Red by SFR's invoices already answered. */
  lemma MissingUsernameRoleThrows(e: Engine, p: AuthChecks.Page, config: Profiles.SelectorConfig<seq<string>>,
                                  orangeLogin: Option<Profiles.Profile<seq<string>>>, provider: string,
                                  invoiceHeading: bool, navigoLabel: bool)
    requires provider !in {"orange_provider", "free_mobile_provider", "navigo_provider"}
    requires "username" !in Profiles.LoginSelectors(config, provider)
    requires !(provider == "redbysfr_provider" && ShowsRedBySfrInvoices(invoiceHeading, NormalizeText(p.body)))
    ensures PageReady(e, p, config, orangeLogin, provider, invoiceHeading, navigoLabel) == AuthChecks.TypeError
  {
  }
}
