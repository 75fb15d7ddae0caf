/**
 * The decisions of the `Placeholder` component (src/internal/Placeholder.tsx):
 * what it shows while the image loads — the caller's content in a wrapper, a
 * small rendition of the image, or nothing — and the attributes it gives it.
 */
module Placeholder {
  import opened Wrappers
  import opened JsValue
  import opened MediaTypes
  import opened ImageFormatGuard
  import InternalAspectRatio
  import CN = ClassNames
  import opened ConfigContext

  /** `PlaceholderProps`. `scale` is kept as the text the template literal prints. */
  datatype PlaceholderProps = PlaceholderProps(
    isActive: bool,
    image: MediaImage,
    lazy: bool,
    format: Option<string>,
    content: Option<Node>,
    scale: Option<string>,
    aspectRatio: Option<string>,
    transformUrl: Option<string -> string>,
    className: Option<string>)

  /** What the component renders; both elements are hidden from assistive technology by `role` and `aria-hidden`. */
  datatype PlaceholderView =
    | Nothing
    | Wrapper(role: string, ariaHidden: string, className: string, content: Node)
    | Img(role: string, ariaHidden: string, src: string, alt: string, loading: string, className: string,
          aspectRatio: Option<string>, transform: Option<string>)

  const Presentation := "presentation"
  const Hidden := "true"

  /** The content shown: the caller's whenever it is defined, even when falsy; otherwise the configured one. */
  function Children(props: PlaceholderProps, config: Config): (r: Option<Node>)
    ensures props.content.Some? ==> r == props.content
    ensures props.content.None? ==> r == config.placeholder
  {
    if props.content.Some? then props.content else config.placeholder
  }

  /** The rendition name: the caller's when truthy, otherwise the configured one. */
  function FormatValue(props: PlaceholderProps, config: Config): (r: string)
    ensures props.format.Some? && props.format.value != "" ==> r == props.format.value
    ensures props.format.None? || props.format.value == "" ==> r == config.placeholderFormat
  {
    if props.format.Some? && props.format.value != "" then props.format.value else config.placeholderFormat
  }

  /** The URL transform: the caller's when given, otherwise the configured one. */
  function TransformUrlValue(props: PlaceholderProps, config: Config): (r: string -> string)
    ensures props.transformUrl.Some? ==> r == props.transformUrl.value
    ensures props.transformUrl.None? ==> r == config.transformUrl
  {
    props.transformUrl.GetOr(config.transformUrl)
  }

  /** `image.formats[name]` as a rendition, when it passes the guard. */
  function Rendition(renditions: map<string, Value>, name: string): (r: Option<ImageFormat>)
    ensures r.Some? <==> name in renditions && CheckIsImageFormat(renditions[name])
  {
    AsImageFormat(Get(Object(renditions), name))
  }

  /**
   * The image source: empty when there is content or no renditions; else the
   * (transformed) URL of the chosen rendition when that passes the guard,
   * else of the `thumbnail` rendition when that passes, else empty.
   */
  function Src(children: Option<Node>, image: MediaImage, formatValue: string, transformUrl: string -> string): (r: string)
    ensures children.Some? || image.formats.None? ==> r == ""
    ensures children.None? && image.formats.Some? && formatValue != ""
            && Rendition(image.formats.value, formatValue).Some?
            ==> r == transformUrl(Rendition(image.formats.value, formatValue).value.url)
    ensures children.None? && image.formats.Some?
            && (formatValue == "" || Rendition(image.formats.value, formatValue).None?)
            && Rendition(image.formats.value, "thumbnail").Some?
            ==> r == transformUrl(Rendition(image.formats.value, "thumbnail").value.url)
    ensures children.None? && image.formats.Some?
            && (formatValue == "" || Rendition(image.formats.value, formatValue).None?)
            && Rendition(image.formats.value, "thumbnail").None?
            ==> r == ""
  {
    if children.Some? || image.formats.None? then ""
    else if formatValue != "" && Rendition(image.formats.value, formatValue).Some? then
      transformUrl(Rendition(image.formats.value, formatValue).value.url)
    else if Rendition(image.formats.value, "thumbnail").Some? then
      transformUrl(Rendition(image.formats.value, "thumbnail").value.url)
    else ""
  }

  const PlaceholderClass := "rsi-placeholder"
  const ActiveClass := "rsi-placeholder-active"
  const ImageClass := "rsi-placeholder-img"

  /** The `cx` arguments of the class list. */
  function ClassArgs(isActive: bool, showsImage: bool, className: Option<string>): seq<CN.ClassArg> {
    [ CN.Text(PlaceholderClass),
      CN.Optional(isActive, ActiveClass),
      CN.Optional(showsImage, ImageClass),
      CN.CallerArg(className) ]
  }

  /**
   * The class list: always `rsi-placeholder`, then `rsi-placeholder-active`
   * exactly when active, then `rsi-placeholder-img` exactly when the image
   * variant is shown, then the caller's classes.
   */
  function PlaceholderClassName(isActive: bool, showsImage: bool, className: Option<string>): (r: string)
    ensures r == PlaceholderClass
                 + (if isActive then " " + ActiveClass else "")
                 + (if showsImage then " " + ImageClass else "")
                 + CN.CallerSuffix(className)
  {
    ClassListLayout(isActive, showsImage, className);
    CN.ClassList(ClassArgs(isActive, showsImage, className))
  }

  lemma ClassListLayout(isActive: bool, showsImage: bool, className: Option<string>)
    ensures CN.ClassList(ClassArgs(isActive, showsImage, className))
         == PlaceholderClass
            + (if isActive then " " + ActiveClass else "")
            + (if showsImage then " " + ImageClass else "")
            + CN.CallerSuffix(className)
  {
    var args := ClassArgs(isActive, showsImage, className);
    var fixed := args[..3];
    assert args == fixed + [CN.CallerArg(className)];
    assert JsText.Trimmed(PlaceholderClass) && JsText.Trimmed(ActiveClass) && JsText.Trimmed(ImageClass);
    CN.PiecesOfThree(PlaceholderClass, ActiveClass, ImageClass, isActive, showsImage, fixed);
    CN.ClassListWithCaller(fixed, className);
    CN.JoinOfThree(PlaceholderClass, ActiveClass, ImageClass, isActive, showsImage);
  }

  /**
   * The component: with no content, the rendition image when it has a
   * source, otherwise nothing; with content, the wrapper when the content
   * is truthy, otherwise nothing.
   */
  function RenderPlaceholder(props: PlaceholderProps, config: Config): (v: PlaceholderView)
    ensures var children := Children(props, config);
      && (v.Wrapper? <==> children.Some? && children.value.truthy)
      && (!v.Nothing? ==> v.role == Presentation && v.ariaHidden == Hidden)
      && (v.Wrapper? ==>
            && v.content == children.value
            && v.className == PlaceholderClassName(props.isActive, false, props.className))
      && (v.Img? <==> children.None? && Src(children, props.image, FormatValue(props, config), TransformUrlValue(props, config)) != "")
      && (v.Img? ==>
            && v.src == Src(children, props.image, FormatValue(props, config), TransformUrlValue(props, config))
            && v.alt == ""
            && v.loading == (if props.lazy then "lazy" else "eager")
            && v.className == PlaceholderClassName(props.isActive, true, props.className)
            && v.aspectRatio == InternalAspectRatio.ComputeAspectRatio(props.image, props.aspectRatio)
            && v.transform == (if props.scale.Some? then Some("scale(" + props.scale.value + ")") else None))
  {
    var children := Children(props, config);
    var src := Src(children, props.image, FormatValue(props, config), TransformUrlValue(props, config));
    var aspectRatioValue := if children.Some? then None else InternalAspectRatio.ComputeAspectRatio(props.image, props.aspectRatio);
    var classNames := PlaceholderClassName(props.isActive, children.None?, props.className);
    if children.None? then
      if src == "" then Nothing
      else Img(Presentation, Hidden, src, "", if props.lazy then "lazy" else "eager", classNames, aspectRatioValue,
               if props.scale.Some? then Some("scale(" + props.scale.value + ")") else None)
    else if !children.value.truthy then Nothing
    else Wrapper(Presentation, Hidden, classNames, children.value)
  }

  /** A view with its class list blanked out. */
  function WithoutClass(v: PlaceholderView): PlaceholderView {
    match v
    case Nothing => Nothing
    case Wrapper(role, hidden, _, content) => Wrapper(role, hidden, "", content)
    case Img(role, hidden, src, alt, loading, _, ratio, transform) => Img(role, hidden, src, alt, loading, "", ratio, transform)
  }

  /** Being active changes the class list and nothing else: not whether, nor what, the placeholder renders. */
  lemma ActiveOnlyChangesClass(props: PlaceholderProps, config: Config)
    ensures WithoutClass(RenderPlaceholder(props.(isActive := true), config))
         == WithoutClass(RenderPlaceholder(props.(isActive := false), config))
  {
  }

  /** Without content, an image with no renditions shows nothing. */
  lemma NoRenditionsRenderNothing(props: PlaceholderProps, config: Config)
    requires props.content.None? && config.placeholder.None? && props.image.formats.None?
    ensures RenderPlaceholder(props, config) == Nothing
  {
  }

  /** Defined but falsy content (`null`, `0`, `false`, `""`) shows nothing, whatever the configured content. */
  lemma FalsyContentRendersNothing(props: PlaceholderProps, config: Config)
    requires props.content.Some? && !props.content.value.truthy
    ensures RenderPlaceholder(props, config) == Nothing
  {
  }
}
