/**
 * The value `StrapiImageConfigProvider` publishes: the defaults with the
 * caller's configuration spread over them (src/StrapiImageConfigProvider.tsx).
 */
module StrapiImageConfigProvider {
  import opened StrapiImageConfigContext

  /**
   * `{...defaultConfigValue, ...config}`: every key the caller gives wins,
   * even with the value `undefined`; every other default key keeps its
   * default; values are taken whole, never merged.
   */
  function ProviderValue(config: Settings): (r: Settings)
    ensures r.Keys == DefaultConfigValue().Keys + config.Keys
    ensures forall k :: k in config ==> r[k] == config[k]
    ensures forall k :: k in DefaultConfigValue() && k !in config ==> r[k] == DefaultConfigValue()[k]
  {
    DefaultConfigValue() + config
  }

  /** An empty configuration publishes exactly the defaults. */
  lemma EmptyConfigGivesDefaults()
    ensures ProviderValue(map[]) == DefaultConfigValue()
  {
  }

  /** An explicit `undefined` removes a default rather than falling back on it. */
  lemma ExplicitUndefinedWins(config: Settings, k: Key)
    requires k in config && config[k] == Undefined
    ensures ProviderValue(config)[k] == Undefined
  {
  }
}
