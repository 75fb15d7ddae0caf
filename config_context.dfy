/**
 * The built-in configuration the components read when no option is given at
 * the call site (src/internal/ConfigContext.ts). `sizes` and `placeholder`
 * are optional; every other option always has a value.
 */
module ConfigContext {
  import opened Wrappers
  import opened MediaTypes
  import SizesAttribute

  /** `ConfigContextValue`: the options every component falls back on. */
  datatype Config = Config(
    formats: seq<string>,
    transformUrl: string -> string,
    sizes: Option<SizesAttribute.Sizes>,
    desktopFirstSizes: bool,
    disableSizesAutoSort: bool,
    placeholder: Option<Node>,
    placeholderFormat: string,
    initialLoading: bool)

  /** `defaultConfigValue`. */
  function DefaultConfigValue(): (c: Config)
    ensures c.formats == ["large", "medium", "small"]
    ensures forall url :: c.transformUrl(url) == url
    ensures c.sizes.None? && c.placeholder.None?
    ensures !c.desktopFirstSizes && !c.disableSizesAutoSort && !c.initialLoading
    ensures c.placeholderFormat == "thumbnail"
  {
    Config(["large", "medium", "small"], url => url, None, false, false, None, "thumbnail", false)
  }
}
