/** Which provider a request is for, and the selector profiles the content script uses on
    that provider's pages (`normalizeProvider`, `getProviderLoginSelectors`,
    `getProviderBillingSelectors`). */
module Profiles {
  import opened Wrappers
  import opened Normalize

  /** The provider assumed when a request names none. */
  const DEFAULT_PROVIDER := "orange_provider"

  /** `normalizeProvider`: the trimmed name when it is a non-blank string, else the
      default provider. */
  function NormalizeProvider(provider: Option<string>): (r: string)
    ensures r != "" && Trimmed(r)
    ensures provider.Some? && Trim(provider.value) != "" ==> r == Trim(provider.value)
    ensures r == DEFAULT_PROVIDER <==> provider.None? || Trim(provider.value) in {"", DEFAULT_PROVIDER}
  {
    if provider.Some? && Trim(provider.value) != "" then Trim(provider.value) else DEFAULT_PROVIDER
  }

  /** Normalizing a provider name twice changes nothing. */
  lemma NormalizeProviderIdempotent(provider: Option<string>)
    ensures NormalizeProvider(Some(NormalizeProvider(provider))) == NormalizeProvider(provider)
  {
    TrimFixed(NormalizeProvider(provider));
  }

  /** A selector profile: each role (a login field, the invoice links, ...) mapped to its
      selectors. */
  type Profile<V> = map<string, V>

  /** A provider's own profiles, each possibly absent. */
  datatype ProviderSelectors<V> = ProviderSelectors(login: Option<Profile<V>>, billing: Option<Profile<V>>)

  /** `window.__EXT_SELECTORS__`: the default profiles and the per-provider ones. */
  datatype SelectorConfig<V> = SelectorConfig(
    defaultLogin: Profile<V>,
    defaultBilling: Profile<V>,
    providers: map<string, ProviderSelectors<V>>)

  /** `providers?.[provider]?.login`. */
  function OwnLogin<V>(config: SelectorConfig<V>, provider: string): Option<Profile<V>> {
    if provider in config.providers then config.providers[provider].login else None
  }

  /** `providers?.[provider]?.billing`. */
  function OwnBilling<V>(config: SelectorConfig<V>, provider: string): Option<Profile<V>> {
    if provider in config.providers then config.providers[provider].billing else None
  }

  /** `getProviderLoginSelectors`: a provider's own login profile replaces the default one
      as a whole; without one, the default applies. */
  function LoginSelectors<V>(config: SelectorConfig<V>, provider: string): (r: Profile<V>)
    ensures OwnLogin(config, provider).Some? ==> r == OwnLogin(config, provider).value
    ensures OwnLogin(config, provider).None? ==> r == config.defaultLogin
  {
    OwnLogin(config, provider).GetOr(config.defaultLogin)
  }

  /** A provider with its own login profile takes no role from the defaults: changing the
      defaults does not change its profile. */
  lemma LoginIgnoresDefaults<V>(config: SelectorConfig<V>, provider: string, defaults: Profile<V>)
    requires OwnLogin(config, provider).Some?
    ensures LoginSelectors(config.(defaultLogin := defaults), provider) == LoginSelectors(config, provider)
    ensures forall role | role in config.defaultLogin && role !in OwnLogin(config, provider).value ::
      role !in LoginSelectors(config, provider)
  {
  }

  /** `{ ...defaults, ...specific }`: every role of either, the provider's selectors where
      it defines the role and the default's elsewhere. */
  function Override<V>(defaults: Profile<V>, specific: Profile<V>): (r: Profile<V>)
    ensures r.Keys == defaults.Keys + specific.Keys
    ensures forall role | role in specific :: r[role] == specific[role]
    ensures forall role | role in defaults && role !in specific :: r[role] == defaults[role]
  {
    defaults + specific
  }

  /** `getProviderBillingSelectors`: the default billing profile, overridden on the roles
      the provider defines. */
  function BillingSelectors<V>(config: SelectorConfig<V>, provider: string): (r: Profile<V>)
    ensures r.Keys == config.defaultBilling.Keys + (if OwnBilling(config, provider).Some? then OwnBilling(config, provider).value.Keys else {})
    ensures OwnBilling(config, provider).Some? ==>
      forall role | role in OwnBilling(config, provider).value :: r[role] == OwnBilling(config, provider).value[role]
    ensures forall role | role in config.defaultBilling && (OwnBilling(config, provider).None? || role !in OwnBilling(config, provider).value) ::
      r[role] == config.defaultBilling[role]
  {
    match OwnBilling(config, provider)
    case None => config.defaultBilling
    case Some(specific) => Override(config.defaultBilling, specific)
  }

  /** Overriding is idempotent: applying the provider's roles a second time changes
      nothing, and an empty override (a provider entry with an empty billing object) is
      the defaults. */
  lemma OverrideIdempotent<V>(defaults: Profile<V>, specific: Profile<V>)
    ensures Override(Override(defaults, specific), specific) == Override(defaults, specific)
    ensures Override(defaults, map[]) == defaults
  {
  }
}
