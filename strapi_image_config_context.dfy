/**
 * The configuration record the public provider fills in
 * (src/StrapiImageConfigContext.ts), as a JavaScript object: a map from the
 * option names it holds to their values. A key can be present with the value
 * `undefined`, which differs from the key being absent.
 */
module StrapiImageConfigContext {
  import opened MediaTypes
  import SizesAttribute

  /** The option names of `StrapiImageConfig`. */
  datatype Key =
    | Formats
    | TransformUrl
    | SizesKey
    | DesktopFirstSizes
    | DisableSizesAutoSort
    | PlaceholderKey
    | PlaceholderFormat
    | InitialLoading

  /** An option value; `Undefined` is a key present with the value `undefined`. */
  datatype Setting =
    | Undefined
    | Names(names: seq<string>)
    | Transform(f: string -> string)
    | SizesSetting(sizes: SizesAttribute.Sizes)
    | Flag(b: bool)
    | Label(s: string)
    | Content(node: Node)

  type Settings = map<Key, Setting>

  /** `defaultConfigValue`: four options, and no `sizes`, `placeholder`, `placeholderFormat` or `initialLoading`. */
  function DefaultConfigValue(): (d: Settings)
    ensures d.Keys == {Formats, TransformUrl, DesktopFirstSizes, DisableSizesAutoSort}
    ensures d[Formats] == Names(["large", "medium", "small"])
    ensures d[TransformUrl].Transform? && forall url :: d[TransformUrl].f(url) == url
    ensures d[DesktopFirstSizes] == Flag(false) && d[DisableSizesAutoSort] == Flag(false)
  {
    map[
      Formats := Names(["large", "medium", "small"]),
      TransformUrl := Transform(url => url),
      DesktopFirstSizes := Flag(false),
      DisableSizesAutoSort := Flag(false)]
  }
}
