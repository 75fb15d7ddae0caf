/**
 * The attributes `StrapiImage` gives its `<img>` (src/StrapiImage.tsx): each
 * option resolved against the configuration, `srcset` and `sizes` from the
 * media record, the alternative text, the style carrying the aspect ratio,
 * and the source URL.
 */
module StrapiImage {
  import opened Wrappers
  import opened MediaTypes
  import opened SizesAttribute
  import opened SrcSetAttribute
  import opened ImageFormatGuard
  import InternalAspectRatio
  import JsText
  import opened ConfigContext

  /** An inline style: CSS property names to their values. */
  type Style = map<string, string>

  /** The props `StrapiImage` reads; the other `<img>` props pass through untouched. */
  datatype StrapiImageProps = StrapiImageProps(
    image: MediaImage,
    formats: Option<seq<string>>,
    transformUrl: Option<string -> string>,
    sizes: Option<Sizes>,
    desktopFirstSizes: Option<bool>,
    disableSizesAutoSort: Option<bool>,
    aspectRatio: Option<string>,
    style: Option<Style>,
    alt: Option<string>)

  /** The attributes it renders; `None` leaves an attribute out. */
  datatype ImgAttributes = ImgAttributes(
    src: string,
    srcSet: Option<string>,
    sizes: Option<string>,
    alt: string,
    width: int,
    style: Option<Style>)

  /** `x || fallback` for an optional string: `undefined`, `null` and `""` fall through. */
  function OrText(x: Option<string>, fallback: string): (r: string)
    ensures x.Some? && x.value != "" ==> r == x.value
    ensures x.None? || x.value == "" ==> r == fallback
  {
    if x.Some? && x.value != "" then x.value else fallback
  }

  /** The rendition names: the caller's list whenever given (a list is truthy, even empty), otherwise the configured one. */
  function FormatsValue(props: StrapiImageProps, config: Config): (r: seq<string>)
    ensures props.formats.Some? ==> r == props.formats.value
    ensures props.formats.None? ==> r == config.formats
  {
    props.formats.GetOr(config.formats)
  }

  /** The URL transform: the caller's when given, otherwise the configured one. */
  function TransformUrlValue(props: StrapiImageProps, config: Config): (r: string -> string)
    ensures props.transformUrl.Some? ==> r == props.transformUrl.value
    ensures props.transformUrl.None? ==> r == config.transformUrl
  {
    props.transformUrl.GetOr(config.transformUrl)
  }

  /** `sizes || config.sizes`: an absent or empty-string `sizes` falls back on the configured one. */
  function SizesValue(props: StrapiImageProps, config: Config): (r: Option<Sizes>)
    ensures props.sizes.None? || props.sizes == Some(SizesText("")) ==> r == config.sizes
    ensures props.sizes.Some? && props.sizes != Some(SizesText("")) ==> r == props.sizes
  {
    if props.sizes.None? || props.sizes == Some(SizesText("")) then config.sizes else props.sizes
  }

  /** A boolean option: the caller's whenever it is a boolean, so an explicit `false` beats the configuration. */
  function FlagValue(flag: Option<bool>, configured: bool): (r: bool)
    ensures flag.Some? ==> r == flag.value
    ensures flag.None? ==> r == configured
  {
    flag.GetOr(configured)
  }

  /** The `srcset` attribute. */
  function SrcSetOf(props: StrapiImageProps, config: Config): Option<string> {
    SrcSet(props.image, Some(FormatsValue(props, config)), TransformUrlValue(props, config))
  }

  /** The `sizes` attribute: present exactly when `srcset` is. */
  function SizesOf(props: StrapiImageProps, config: Config): (r: Option<string>)
    ensures r.Some? <==> SrcSetOf(props, config).Some?
    ensures r.Some? ==> r.value == ComputeSizesValue(SizesValue(props, config),
      FlagValue(props.desktopFirstSizes, config.desktopFirstSizes),
      FlagValue(props.disableSizesAutoSort, config.disableSizesAutoSort))
  {
    if SrcSetOf(props, config).None? then None
    else Some(ComputeSizesValue(SizesValue(props, config),
      FlagValue(props.desktopFirstSizes, config.desktopFirstSizes),
      FlagValue(props.disableSizesAutoSort, config.disableSizesAutoSort)))
  }

  /** The alternative text: the caller's `alt` whenever defined, even empty; otherwise `alternativeText || caption || ""`. */
  function AltText(alt: Option<string>, image: MediaImage): (r: string)
    ensures alt.Some? ==> r == alt.value
    ensures alt.None? && image.alternativeText.Some? && image.alternativeText.value != "" ==> r == image.alternativeText.value
    ensures alt.None? && (image.alternativeText.None? || image.alternativeText.value == "")
            ==> r == OrText(image.caption, "")
  {
    if alt.Some? then alt.value
    else OrText(image.alternativeText, OrText(image.caption, ""))
  }

  /**
   * The style: the caller's, untouched, when the aspect ratio is absent or
   * empty; otherwise a copy of it (or a new style) whose `aspectRatio` is the
   * computed value, replacing the caller's.
   */
  function StyleAttribute(aspectRatio: Option<string>, style: Option<Style>): (r: Option<Style>)
    ensures aspectRatio.None? || aspectRatio.value == "" ==> r == style
    ensures aspectRatio.Some? && aspectRatio.value != "" ==>
      && r.Some?
      && "aspectRatio" in r.value && r.value["aspectRatio"] == aspectRatio.value
      && (forall p :: p in r.value && p != "aspectRatio" <==> style.Some? && p in style.value && p != "aspectRatio")
      && (forall p :: p in r.value && p != "aspectRatio" ==> r.value[p] == style.value[p])
  {
    if aspectRatio.None? || aspectRatio.value == "" then style
    else if style.None? then Some(map["aspectRatio" := aspectRatio.value])
    else Some(style.value["aspectRatio" := aspectRatio.value])
  }

  /** The component's attributes. */
  function RenderImage(props: StrapiImageProps, config: Config): (a: ImgAttributes)
    ensures a.src == TransformUrlValue(props, config)(props.image.url)
    ensures a.width == props.image.width
    ensures a.srcSet == SrcSet(props.image, Some(FormatsValue(props, config)), TransformUrlValue(props, config))
    ensures a.sizes == SizesOf(props, config)
    ensures a.alt == AltText(props.alt, props.image)
    ensures a.style == StyleAttribute(InternalAspectRatio.ComputeAspectRatio(props.image, props.aspectRatio), props.style)
  {
    var tf := TransformUrlValue(props, config);
    ImgAttributes(
      tf(props.image.url),
      SrcSetOf(props, config),
      SizesOf(props, config),
      AltText(props.alt, props.image),
      props.image.width,
      StyleAttribute(InternalAspectRatio.ComputeAspectRatio(props.image, props.aspectRatio), props.style))
  }

  /** An empty list of rendition names is honoured, not replaced by the configured one, and so leaves out `srcset` and `sizes`. */
  lemma EmptyFormatsOmitSrcSet(props: StrapiImageProps, config: Config)
    requires props.formats == Some([])
    ensures RenderImage(props, config).srcSet.None? && RenderImage(props, config).sizes.None?
  {
  }

  /** With the built-in configuration and an image whose `large`, `medium` and `small` renditions all pass the guard, `srcset` lists them in that order after the original. */
  lemma DefaultFormatsListed(props: StrapiImageProps, large: ImageFormat, medium: ImageFormat, small: ImageFormat)
    requires props.formats.None? && props.transformUrl.None?
    requires props.image.formats.Some?
    requires var m := props.image.formats.value;
      && "large" in m && AsImageFormat(m["large"]) == Some(large)
      && "medium" in m && AsImageFormat(m["medium"]) == Some(medium)
      && "small" in m && AsImageFormat(m["small"]) == Some(small)
    ensures RenderImage(props, DefaultConfigValue()).srcSet == Some(JsText.Join(", ", [
      props.image.url + " " + JsText.IntToString(props.image.width) + "w",
      large.url + " " + JsText.IntToString(large.width) + "w",
      medium.url + " " + JsText.IntToString(medium.width) + "w",
      small.url + " " + JsText.IntToString(small.width) + "w"]))
  {
    var m := props.image.formats.value;
    var tf := DefaultConfigValue().transformUrl;
    var names := ["large", "medium", "small"];
    AllRequestedPresent(m, names, [large, medium, small], tf);
    var entries := VariantEntries(m, names, tf);
    assert entries == [
      Descriptor(tf(large.url), JsText.IntToString(large.width)),
      Descriptor(tf(medium.url), JsText.IntToString(medium.width)),
      Descriptor(tf(small.url), JsText.IntToString(small.width))];
    assert entries == [
      large.url + " " + JsText.IntToString(large.width) + "w",
      medium.url + " " + JsText.IntToString(medium.width) + "w",
      small.url + " " + JsText.IntToString(small.width) + "w"];
  }
}
