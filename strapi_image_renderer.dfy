/**
 * `StrapiImageRenderer` (src/StrapiImageRenderer.tsx): a root element holding
 * the placeholder and the image, with a loading flag that the mount check and
 * the image's load event drive.
 */
module StrapiImageRenderer {
  import opened Wrappers
  import opened MediaTypes
  import opened SizesAttribute
  import AspectRatioOfImage = InternalAspectRatio
  import CN = ClassNames
  import JsText
  import opened ConfigContext
  import P = Placeholder
  import S = StrapiImage

  /** The `lazy` prop: absent, a boolean, or `'very'`. */
  datatype Lazy = LazyUnset | LazyFlag(b: bool) | LazyVery

  /** JavaScript truthiness of the `lazy` prop. */
  predicate IsLazy(lazy: Lazy): (r: bool)
    ensures r <==> lazy != LazyUnset && lazy != LazyFlag(false)
  {
    lazy.LazyVery? || (lazy.LazyFlag? && lazy.b)
  }

  /** `StrapiImageRendererProps`; the other `<div>` props pass through untouched. */
  datatype RendererProps = RendererProps(
    initialLoading: Option<bool>,
    lazy: Lazy,
    aspectRatio: Option<string>,
    image: MediaImage,
    formats: Option<seq<string>>,
    transformUrl: Option<string -> string>,
    sizes: Option<Sizes>,
    desktopFirstSizes: Option<bool>,
    disableSizesAutoSort: Option<bool>,
    imageAspectRatio: Option<string>,
    imageClassName: Option<string>,
    placeholder: Option<Node>,
    placeholderFormat: Option<string>,
    placeholderScale: Option<string>,
    placeholderClassName: Option<string>,
    backgroundColor: Option<string>,
    className: Option<string>,
    style: Option<S.Style>)

  /** The initial loading flag: the prop whenever it is a boolean, otherwise the configured one. */
  function InitialLoadingValue(initialLoading: Option<bool>, config: Config): (r: bool)
    ensures initialLoading.Some? ==> r == initialLoading.value
    ensures initialLoading.None? ==> r == config.initialLoading
  {
    initialLoading.GetOr(config.initialLoading)
  }

  // ---------------------------------------------------------------------------
  // The loading flag

  /** The loading flag and whether the run-once mount check has happened. */
  datatype LoadState = LoadState(isLoading: bool, mountChecked: bool)

  /**
   * What can happen to the flag: the mount check, which finds the image
   * element attached or not and its download complete or not, and the
   * image's load event.
   */
  datatype LoadEvent = MountCheck(attached: bool, complete: bool) | ImageLoaded

  /**
   * One event: the load event clears the flag; the first mount check sets it
   * to whether the attached image is still downloading, and later ones do
   * nothing.
   */
  function Step(s: LoadState, e: LoadEvent): (t: LoadState)
    ensures e.ImageLoaded? ==> !t.isLoading && t.mountChecked == s.mountChecked
    ensures e.MountCheck? && !s.mountChecked && e.attached ==> t == LoadState(!e.complete, true)
    ensures e.MountCheck? && !s.mountChecked && !e.attached ==> t == LoadState(s.isLoading, true)
    ensures e.MountCheck? && s.mountChecked ==> t == s
  {
    match e
    case ImageLoaded => s.(isLoading := false)
    case MountCheck(attached, complete) =>
      if s.mountChecked then s
      else if attached then LoadState(!complete, true)
      else s.(mountChecked := true)
  }

  /** The state after a sequence of events, in order. */
  function Run(s: LoadState, events: seq<LoadEvent>): (r: LoadState)
    ensures r.mountChecked <==> s.mountChecked || exists i :: 0 <= i < |events| && events[i].MountCheck?
  {
    if events == [] then s
    else
      var n := |events| - 1;
      assert forall i :: 0 <= i < n ==> events[..n][i] == events[i];
      Step(Run(s, events[..n]), events[n])
  }

  /** Once the mount check has happened and the image has loaded, no later event sets the flag again. */
  lemma {:induction false} LoadedStaysLoaded(s: LoadState, events: seq<LoadEvent>)
    requires s.mountChecked && !s.isLoading
    ensures Run(s, events) == s
  {
    if events != [] {
      LoadedStaysLoaded(s, events[..|events| - 1]);
    }
  }

  /** The mount check runs once: after the first, whatever else happens, none changes the flag. */
  lemma {:induction false} MountCheckRunsOnce(s: LoadState, events: seq<LoadEvent>, attached: bool, complete: bool)
    requires s.mountChecked
    ensures Run(s, events + [MountCheck(attached, complete)]) == Run(s, events)
  {
    assert (events + [MountCheck(attached, complete)])[..|events|] == events;
    StaysMountChecked(s, events);
  }

  lemma {:induction false} StaysMountChecked(s: LoadState, events: seq<LoadEvent>)
    requires s.mountChecked
    ensures Run(s, events).mountChecked
  {
    if events != [] {
      StaysMountChecked(s, events[..|events| - 1]);
    }
  }

  /** The load event clears the flag, and firing it again changes nothing. */
  lemma LoadEventIsIdempotent(s: LoadState)
    ensures !Step(s, ImageLoaded).isLoading
    ensures Step(Step(s, ImageLoaded), ImageLoaded) == Step(s, ImageLoaded)
  {
  }

  /** The mount check can set the flag again: a component that started not loading shows as loading until the image arrives. */
  lemma MountCheckCanRestartLoading()
    ensures Step(LoadState(false, false), MountCheck(true, false)).isLoading
  {
  }

  /** The component's loading state. */
  class LoadingState {
    var isLoading: bool
    var mountChecked: bool

    function State(): LoadState
      reads this
    {
      LoadState(isLoading, mountChecked)
    }

    /** `useState(initialLoadingStatue)`. */
    constructor (initialLoading: Option<bool>, config: Config)
      ensures State() == LoadState(InitialLoadingValue(initialLoading, config), false)
    {
      isLoading := InitialLoadingValue(initialLoading, config);
      mountChecked := false;
    }

    /** `handleImageLoaded`. */
    method HandleImageLoaded()
      modifies this
      ensures State() == Step(old(State()), ImageLoaded)
      ensures !isLoading
    {
      isLoading := false;
    }

    /** The run-once mount effect, given what it finds: whether the image element is attached and whether its download is complete. */
    method CheckMounted(attached: bool, complete: bool)
      modifies this
      ensures State() == Step(old(State()), MountCheck(attached, complete))
      ensures mountChecked
    {
      if mountChecked {
        return;
      }
      mountChecked := true;
      if attached {
        isLoading := !complete;
      }
    }
  }

  // ---------------------------------------------------------------------------
  // Derived values

  /** `imageAspectRatio || aspectRatioValue`: what both the placeholder and the image receive. */
  function ChildAspectRatio(imageAspectRatio: Option<string>, computed: Option<string>): (r: Option<string>)
    ensures imageAspectRatio.Some? && imageAspectRatio.value != "" ==> r == imageAspectRatio
    ensures imageAspectRatio.None? || imageAspectRatio.value == "" ==> r == computed
  {
    if imageAspectRatio.Some? && imageAspectRatio.value != "" then imageAspectRatio else computed
  }

  /** A truthy optional string. */
  predicate Present(x: Option<string>) {
    x.Some? && x.value != ""
  }

  /**
   * The root style: the caller's, untouched, when there is neither an aspect
   * ratio nor a background colour; otherwise a copy in which the aspect
   * ratio is added only where the caller set none, and the background colour
   * is set when given.
   */
  function RootStyle(aspectRatio: Option<string>, backgroundColor: Option<string>, style: Option<S.Style>): (r: Option<S.Style>)
    ensures !Present(aspectRatio) && !Present(backgroundColor) ==> r == style
    ensures Present(aspectRatio) || Present(backgroundColor) ==>
      var base := style.GetOr(map[]);
      && r.Some?
      && r.value.Keys == base.Keys
           + (if Present(aspectRatio) then {"aspectRatio"} else {})
           + (if Present(backgroundColor) then {"backgroundColor"} else {})
      && (forall p :: p in base && (p != "backgroundColor" || !Present(backgroundColor)) ==> r.value[p] == base[p])
      && ("aspectRatio" !in base && Present(aspectRatio) ==> r.value["aspectRatio"] == aspectRatio.value)
      && (Present(backgroundColor) ==> r.value["backgroundColor"] == backgroundColor.value)
  {
    if !Present(aspectRatio) && !Present(backgroundColor) then style
    else
      var result := style.GetOr(map[]);
      var withRatio := if Present(aspectRatio) && "aspectRatio" !in result then result["aspectRatio" := aspectRatio.value] else result;
      Some(if Present(backgroundColor) then withRatio["backgroundColor" := backgroundColor.value] else withRatio)
  }

  const RootClass := "rsi-root"
  const ImageClass := "rsi-img"
  const LoadingClass := "rsi-img-loading"

  /** The root's class list: `rsi-root` and then the caller's classes. */
  function RootClassName(className: Option<string>): (r: string)
    ensures r == RootClass + CN.CallerSuffix(className)
  {
    var fixed := [CN.Text(RootClass)];
    assert JsText.Trimmed(RootClass);
    CN.PiecesOfOne(RootClass);
    CN.ClassListWithCaller(fixed, className);
    assert fixed + [CN.CallerArg(className)] == [CN.Text(RootClass), CN.CallerArg(className)];
    CN.ClassList([CN.Text(RootClass), CN.CallerArg(className)])
  }

  /** The image's class list: `rsi-img`, then `rsi-img-loading` exactly while loading, then the caller's classes. */
  function ImageClassName(isLoading: bool, imageClassName: Option<string>): (r: string)
    ensures r == ImageClass + (if isLoading then " " + LoadingClass else "") + CN.CallerSuffix(imageClassName)
  {
    var fixed := [CN.Text(ImageClass), CN.Optional(isLoading, LoadingClass)];
    assert JsText.Trimmed(ImageClass) && JsText.Trimmed(LoadingClass);
    CN.PiecesOfTwo(ImageClass, LoadingClass, isLoading, fixed);
    CN.ClassListWithCaller(fixed, imageClassName);
    CN.JoinOfTwo(ImageClass, LoadingClass, isLoading);
    assert fixed + [CN.CallerArg(imageClassName)]
        == [CN.Text(ImageClass), CN.Optional(isLoading, LoadingClass), CN.CallerArg(imageClassName)];
    CN.ClassList([CN.Text(ImageClass), CN.Optional(isLoading, LoadingClass), CN.CallerArg(imageClassName)])
  }

  /** The aspect ratio of the root: the caller's override or the image's own. */
  function AspectRatioValue(props: RendererProps): (r: Option<string>)
    ensures props.aspectRatio.Some? && props.aspectRatio.value != AspectRatioOfImage.Intrinsic ==> r == props.aspectRatio
    ensures (props.aspectRatio.None? || props.aspectRatio.value == AspectRatioOfImage.Intrinsic) ==>
              (r.Some? <==> props.image.width > 0 && props.image.height > 0)
    ensures (props.aspectRatio.None? || props.aspectRatio.value == AspectRatioOfImage.Intrinsic) && r.Some? ==>
              r.value == JsText.IntToString(props.image.width) + " / " + JsText.IntToString(props.image.height)
  {
    AspectRatioOfImage.ComputeAspectRatio(props.image, props.aspectRatio)
  }

  /** The props handed to the placeholder. */
  function PlaceholderPropsOf(props: RendererProps, isLoading: bool): (r: P.PlaceholderProps)
    ensures r.isActive == isLoading
    ensures r.lazy <==> props.lazy.LazyVery?
    ensures r.aspectRatio == ChildAspectRatio(props.imageAspectRatio, AspectRatioValue(props))
    ensures r.content == props.placeholder && r.format == props.placeholderFormat
    ensures r.transformUrl == props.transformUrl && r.className == props.placeholderClassName
    ensures r.scale == props.placeholderScale && r.image == props.image
  {
    P.PlaceholderProps(isLoading, props.image, props.lazy.LazyVery?, props.placeholderFormat, props.placeholder,
      props.placeholderScale, ChildAspectRatio(props.imageAspectRatio, AspectRatioValue(props)),
      props.transformUrl, props.placeholderClassName)
  }

  /** The props handed to the image; `alt` and `style` are not among them. */
  function ImagePropsOf(props: RendererProps): (r: S.StrapiImageProps)
    ensures r.aspectRatio == ChildAspectRatio(props.imageAspectRatio, AspectRatioValue(props))
    ensures r.image == props.image && r.alt.None? && r.style.None?
    ensures r.formats == props.formats && r.transformUrl == props.transformUrl && r.sizes == props.sizes
    ensures r.desktopFirstSizes == props.desktopFirstSizes && r.disableSizesAutoSort == props.disableSizesAutoSort
  {
    S.StrapiImageProps(props.image, props.formats, props.transformUrl, props.sizes, props.desktopFirstSizes,
      props.disableSizesAutoSort, ChildAspectRatio(props.imageAspectRatio, AspectRatioValue(props)), None, None)
  }

  /** What the component renders. */
  datatype RendererView = RendererView(
    className: string,
    style: Option<S.Style>,
    placeholder: P.PlaceholderView,
    image: S.ImgAttributes,
    imageLoading: string,
    imageClassName: string)

  /** The component, for a given value of the loading flag. */
  function RenderRenderer(props: RendererProps, config: Config, isLoading: bool): (v: RendererView)
    ensures v.className == RootClass + CN.CallerSuffix(props.className)
    ensures v.imageLoading == (if IsLazy(props.lazy) then "lazy" else "eager")
    ensures v.imageClassName == ImageClass + (if isLoading then " " + LoadingClass else "") + CN.CallerSuffix(props.imageClassName)
    ensures v.style == RootStyle(AspectRatioValue(props), props.backgroundColor, props.style)
    ensures v.placeholder == P.RenderPlaceholder(PlaceholderPropsOf(props, isLoading), config)
    ensures v.image == S.RenderImage(ImagePropsOf(props), config)
  {
    RendererView(
      RootClassName(props.className),
      RootStyle(AspectRatioValue(props), props.backgroundColor, props.style),
      P.RenderPlaceholder(PlaceholderPropsOf(props, isLoading), config),
      S.RenderImage(ImagePropsOf(props), config),
      if IsLazy(props.lazy) then "lazy" else "eager",
      ImageClassName(isLoading, props.imageClassName))
  }

  /** The loading flag changes only class lists: the placeholder's activity class and the image's loading class. */
  lemma LoadingOnlyChangesClasses(props: RendererProps, config: Config)
    ensures var busy := RenderRenderer(props, config, true);
      var done := RenderRenderer(props, config, false);
      && busy.className == done.className && busy.style == done.style
      && busy.image == done.image && busy.imageLoading == done.imageLoading
      && P.WithoutClass(busy.placeholder) == P.WithoutClass(done.placeholder)
  {
    P.ActiveOnlyChangesClass(PlaceholderPropsOf(props, true), config);
    assert PlaceholderPropsOf(props, true).(isActive := false) == PlaceholderPropsOf(props, false);
  }
}
