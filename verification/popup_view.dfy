/** What the popup shows (popup.js): the billing types offered for a provider and the one
    selected, the provider and username restored from the login cache, the instruction
    banner and the window of recent events. */
module PopupView {
  import opened Wrappers
  import opened Profiles
  import opened LoginCache
  import opened FileNames

  // ----- billing types -----

  /** An option of the billing-type list. */
  datatype BillingOption = BillingOption(value: string, caption: string)

  const DEFAULT_BILLING_OPTIONS := [
    BillingOption("home_internet", "Home internet (Offre internet)"),
    BillingOption("mobile_internet", "Mobile internet (Forfait mobile)")]

  const NAVIGO_BILLING_OPTIONS := [BillingOption("commuter_benefits", "Commuter Benefits")]

  /** `syncBillingTypeOptions`: the list offered for a provider. */
  function OptionsFor(provider: string): (options: seq<BillingOption>)
    ensures provider == "navigo_provider" <==> options == NAVIGO_BILLING_OPTIONS
    ensures provider != "navigo_provider" <==> options == DEFAULT_BILLING_OPTIONS
  {
    if provider == "navigo_provider" then NAVIGO_BILLING_OPTIONS else DEFAULT_BILLING_OPTIONS
  }

  /** `value` is one of the options. */
  predicate Offers(options: seq<BillingOption>, value: string) {
    exists k | 0 <= k < |options| :: options[k].value == value
  }

  /** `setBillingTypeOptions(options, preferred)` with the field at `current`: an empty list
      changes nothing; otherwise the preferred value (or, when there is none, the current
      one) stays selected if it is offered, and the first option is selected if not. */
  function SelectBillingOption(options: seq<BillingOption>, preferred: Option<string>, current: string): (r: string)
    ensures |options| == 0 ==> r == current
    ensures |options| > 0 ==> Offers(options, r)
    ensures |options| > 0 && Offers(options, Truthy(preferred).GetOr(current)) ==> r == Truthy(preferred).GetOr(current)
    ensures |options| > 0 && !Offers(options, Truthy(preferred).GetOr(current)) ==> r == options[0].value
  {
    if |options| == 0 then current
    else
      var previous := Truthy(preferred).GetOr(current);
      if Offers(options, previous) then previous else options[0].value
  }

  /** Selecting again what was selected keeps it, as the current value or as the
      preference: the selection is stable. */
  lemma SelectionIsStable(options: seq<BillingOption>, preferred: Option<string>, current: string, other: string)
    requires |options| > 0 && forall k | 0 <= k < |options| :: options[k].value != ""
    ensures var r := SelectBillingOption(options, preferred, current);
      SelectBillingOption(options, None, r) == r && SelectBillingOption(options, Some(r), other) == r
  {
    var r := SelectBillingOption(options, preferred, current);
    var k :| 0 <= k < |options| && options[k].value == r;
  }

  /** Switching to Navigo always selects its one billing type, and switching away from it
      falls back to home internet. */
  lemma ProviderSwitchSelects(preferred: Option<string>, current: string)
    ensures SelectBillingOption(OptionsFor("navigo_provider"), None, "commuter_benefits") == "commuter_benefits"
    ensures SelectBillingOption(OptionsFor("navigo_provider"), None, "mobile_internet") == "commuter_benefits"
    ensures SelectBillingOption(OptionsFor("orange_provider"), None, "commuter_benefits") == "home_internet"
  {
    assert Offers(NAVIGO_BILLING_OPTIONS, "commuter_benefits") by {
      assert NAVIGO_BILLING_OPTIONS[0].value == "commuter_benefits";
    }
  }

  // ----- restoring the form -----

  /** The form's username, billing type and provider. */
  datatype Form = Form(username: string, accountType: string, provider: string)

  /** The provider restored from a record: the old Free Mobile name is migrated, and no
      provider means the default one. */
  function RestoredProvider(cached: Option<CacheRecord>): (p: string)
    ensures p != "" && p != "freemobile_provider"
    ensures cached.Some? && cached.value.provider == Some("freemobile_provider") ==> p == "free_mobile_provider"
    ensures cached.None? || Truthy(cached.value.provider).None? ==> p == DEFAULT_PROVIDER
    ensures cached.Some? && Truthy(cached.value.provider).Some? && cached.value.provider != Some("freemobile_provider") ==>
      p == cached.value.provider.value
  {
    var provider := if cached.Some? && cached.value.provider == Some("freemobile_provider") then Some("free_mobile_provider")
                    else if cached.Some? then cached.value.provider else None;
    Truthy(provider).GetOr(DEFAULT_PROVIDER)
  }

  /** `loadLoginCacheIntoForm` with what `readLoginCache` returned: the provider is restored
      first, the billing types follow it with the cached type preferred, and the username
      is restored when there is a record. */
  function LoadLoginCacheIntoForm(cached: Option<CacheRecord>, form: Form): (f: Form)
    ensures f.provider == RestoredProvider(cached)
    ensures Offers(OptionsFor(f.provider), f.accountType)
    ensures cached.None? ==> f.username == form.username
    ensures cached.Some? ==> f.username == cached.value.username.GetOr("")
  {
    var provider := RestoredProvider(cached);
    var preferred := if cached.Some? then cached.value.accountType else None;
    var accountType := SelectBillingOption(OptionsFor(provider), preferred, form.accountType);
    var username := if cached.Some? then cached.value.username.GetOr("") else form.username;
    Form(username, accountType, provider)
  }

  /** A login saved from the form and restored before it expires gives back the form
      (with the billing type it offered). */
  lemma SavedFormIsRestored(store: Store, form: Form, now: int, later: int, stale: Form)
    requires form.provider != "" && form.provider != "freemobile_provider"
    requires Offers(OptionsFor(form.provider), form.accountType)
    requires now + LOGIN_CACHE_TTL_MS != 0 && later < now + LOGIN_CACHE_TTL_MS
    ensures var s := SaveLoginCache(store, Login(form.username, form.accountType, form.provider), now);
      LoadLoginCacheIntoForm(ReadLoginCache(s, later).login, stale) == form
  {
    var login := Login(form.username, form.accountType, form.provider);
    SaveThenRead(store, login, now, later);
  }

  // ----- banner and event log -----

  /** A run event as the popup receives it. */
  datatype Event = Event(timestamp: string, state: string, status: string, details: Option<string>)

  const WAITING_USER := "waiting_user"
  const DEFAULT_INSTRUCTION := "Action required from user."

  /** The index of the most recent event waiting for the user. */
  function LastWaiting(events: seq<Event>): (r: Option<nat>)
    ensures r.Some? ==> r.value < |events| && events[r.value].status == WAITING_USER
    ensures r.Some? ==> forall k | r.value < k < |events| :: events[k].status != WAITING_USER
    ensures r.None? <==> forall k | 0 <= k < |events| :: events[k].status != WAITING_USER
  {
    if |events| == 0 then None
    else if events[|events| - 1].status == WAITING_USER then Some(|events| - 1)
    else
      var r := LastWaiting(events[..|events| - 1]);
      assert forall k | 0 <= k < |events| - 1 :: events[..|events| - 1][k] == events[k];
      r
  }

  /** `updateInstructionBanner`: hidden (`None`) unless the run waits for the user and an
      event says so; the text is that most recent event's details, or a default. */
  function InstructionBanner(waitingForUser: bool, events: seq<Event>): (r: Option<string>)
    ensures r.Some? <==> waitingForUser && exists k | 0 <= k < |events| :: events[k].status == WAITING_USER
    ensures r.Some? ==> r.value != ""
  {
    if !waitingForUser then None
    else match LastWaiting(events)
      case None => None
      case Some(k) => Some(Truthy(events[k].details).GetOr(DEFAULT_INSTRUCTION))
  }

  /** The banner follows the newest waiting event: an event that does not wait leaves it
      as it was, and one that waits replaces it. */
  lemma {:induction false} BannerFollowsNewest(events: seq<Event>, ev: Event)
    ensures ev.status != WAITING_USER ==> InstructionBanner(true, events + [ev]) == InstructionBanner(true, events)
    ensures ev.status == WAITING_USER ==>
      InstructionBanner(true, events + [ev]) == Some(Truthy(ev.details).GetOr(DEFAULT_INSTRUCTION))
  {
    var all := events + [ev];
    assert all[..|all| - 1] == events;
    assert all[|all| - 1] == ev;
  }

  /** How many events the log shows. */
  const LOG_WINDOW := 8

  /** `events.slice(-8)`: the most recent events, oldest first. */
  function LogWindow(events: seq<Event>): (w: seq<Event>)
    ensures |w| == if |events| < LOG_WINDOW then |events| else LOG_WINDOW
    ensures w == events[|events| - |w|..]
  {
    if |events| <= LOG_WINDOW then events else events[|events| - LOG_WINDOW..]
  }

  /** `${timestamp} | ${state} | ${status} | ${details || ""}`. */
  function EventLine(ev: Event): string {
    ev.timestamp + " | " + ev.state + " | " + ev.status + " | " + ev.details.GetOr("")
  }

  /** The log's lines, one per event of the window, oldest first. */
  function LogLines(events: seq<Event>): (lines: seq<string>)
    ensures |lines| == |LogWindow(events)| <= LOG_WINDOW
    ensures forall k | 0 <= k < |lines| :: lines[k] == EventLine(events[|events| - |lines| + k])
  {
    var w := LogWindow(events);
    seq(|w|, k requires 0 <= k < |w| => EventLine(w[k]))
  }

  /** A new event enters the log as its last line, and the window slides by one once it
      is full. */
  lemma LogSlides(events: seq<Event>, ev: Event)
    ensures var w, w' := LogWindow(events), LogWindow(events + [ev]);
      w'[|w'| - 1] == ev
      && (|events| < LOG_WINDOW ==> w' == w + [ev])
      && (|events| >= LOG_WINDOW ==> w' == w[1..] + [ev])
  {
    var all := events + [ev];
    var w, w' := LogWindow(events), LogWindow(all);
    if |events| >= LOG_WINDOW {
      assert w' == all[|all| - LOG_WINDOW..];
      assert w[1..] + [ev] == all[|all| - LOG_WINDOW..];
    }
  }
}
