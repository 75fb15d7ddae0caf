# react-strapi-image, modelled in Dafny

react-strapi-image renders a media-image record from the Strapi CMS as an HTML `<img>`. It fills in:

- `srcset`, listing the original file and the pre-generated renditions;
- `sizes`, built from a string or a record of breakpoints;
- the alternative text;
- an inline `aspect-ratio`.

A wrapper component, `StrapiImageRenderer`, shows a placeholder while the image loads. A provider publishes a configuration that overrides the built-in defaults.

This project models that core as Dafny functions over strings, sequences and maps, and proves what the code promises. The loading flag of the renderer is the one piece of mutable state, and it is modelled as a class.

One module per source file:

| module | source |
|---|---|
| `SizesAttribute` | `src/utils/compute-sizes-value.ts` |
| `SrcSetAttribute` | `src/utils/compute-src-set-value.ts` |
| `ImageFormatGuard` | `src/utils/check-is-image-format.ts` |
| `AspectRatio` | `src/utils/compute-aspect-ratio.ts` |
| `InternalAspectRatio` | `src/internal/utils/compute-aspect-ratio.ts` |
| `ClassNames` | `src/internal/utils/concat-class-names.ts` |
| `Placeholder` | `src/internal/Placeholder.tsx` |
| `StrapiImage` | `src/StrapiImage.tsx` |
| `StrapiImageRenderer` | `src/StrapiImageRenderer.tsx` |
| `ConfigContext` | `src/internal/ConfigContext.ts` |
| `StrapiImageConfigContext` | `src/StrapiImageConfigContext.ts` |
| `StrapiImageConfigProvider` | `src/StrapiImageConfigProvider.tsx` |

Supporting modules model the parts of JavaScript the core relies on:

- `JsText`: ECMAScript whitespace, `trim`, `Number.parseInt(s, 10)`, integer-to-text and `Array.prototype.join`.
- `JsValue`: untyped values, their truthiness and their template-literal text.
- `MediaTypes`: the record shapes of `src/types.ts`.
- `Wrappers`: an `Option` type, used for `undefined`.

Modelling choices:

- Widths, heights and parsed breakpoints are unbounded integers.
- A breakpoint record is the sequence of its entries in insertion order, which is the order `Object.entries` gives.
- The untyped `image.formats` record is a map from rendition names to JavaScript values.
- Configuration is an explicit argument rather than React context.
- `transformUrl` is an arbitrary function argument.
- A `ReactNode` is known only by whether it is present and whether it is truthy.

Behaviour worth noting:

- **Sort direction.** Auto-sorted breakpoints come out in descending order of their parsed key for mobile-first (`min-width`) and ascending order for desktop-first (`max-width`). The comparator is `sortFactor * (a.value - b.value)` with `sortFactor` = -1 for mobile-first; `src/utils/__test__/compute-sizes-value.test.ts` expects the same order.
- **Alternative text.** It falls back on `alternativeText || caption || ""`. The image's `name` is never consulted.
- **Mount check.** It sets the loading flag to `!complete`. So it can turn a flag that started `false` back to `true`; it does not only move from loading to loaded.
- **Blank caller class.** When the caller's class name is whitespace-only, `cx` ends its loop with a single trailing space before the final trim; `ClassNames.ClassListWithCaller` shows the blank name adds nothing.
- **Configuration.** The provider fills the public `StrapiImageConfigContext`, while the components read the internal `ConfigContext`. The two are modelled separately, as the code has them.

## Model

| member | source | states |
|---|---|---|
| JsText.ParseInt | src/utils/compute-sizes-value.ts:36 | `Number.parseInt(s, 10)`: a result is found only in non-empty text (leading whitespace, optional sign, longest digit prefix; no digits is NaN, i.e. `None`) |
| JsText.ParseIntOfIntToString | src/utils/compute-sizes-value.ts:36-39 | the decimal text of any integer, followed by a unit that does not start with a digit (`rem`, `px`, `w`, ` / …`), parses back to that integer |
| JsText.Trim | src/internal/utils/concat-class-names.ts:8-12 | `String.prototype.trim`: the result has no ECMAScript whitespace at either end and is no longer than the input |
| JsText.TrimStartFacts | src/internal/utils/concat-class-names.ts:12 | removing leading whitespace leaves a suffix of the input that starts with non-whitespace, and it is empty exactly when the text is all whitespace |
| JsText.TrimEndFacts | src/internal/utils/concat-class-names.ts:12 | removing trailing whitespace leaves a prefix of the input that ends with non-whitespace, and it is empty exactly when the text is all whitespace |
| JsText.TrimOfTrimmed | src/internal/utils/concat-class-names.ts:12 | trimming text that has no whitespace at either end changes nothing |
| JsText.TrimLeadingSpace | src/internal/utils/concat-class-names.ts:7-12 | a leading space, as `cx` puts before its first piece, disappears in the final trim |
| JsText.TrimTrailingSpace | src/internal/utils/concat-class-names.ts:7-12 | a trailing space disappears in the final trim |
| JsText.JoinAppend | src/utils/compute-sizes-value.ts:64-66 | `join` of a list with one more item is the old join, the separator and the item (just the item for an empty list) |
| JsText.IntToString | src/utils/compute-src-set-value.ts:19 | the text of an integer is never empty and starts with `-` exactly when the integer is negative |
| JsText.DigitsValueOfNatToString | src/utils/compute-src-set-value.ts:19 | the decimal digits of a natural number read back as that number |
| JsValue.Get | src/utils/compute-src-set-value.ts:21 | a property read gives something other than `undefined` only for an object that has the property |
| MediaTypes.ToValue | src/types.ts:3-17 | the object a rendition is sent as has exactly the properties `url`, `width` and `height` |
| ImageFormatGuard.CheckIsImageFormat | src/utils/check-is-image-format.ts:3-12 | only objects pass the guard, and whatever passes is truthy |
| ImageFormatGuard.AsImageFormat | src/utils/check-is-image-format.ts:3-12 | a value reads as a rendition exactly when it passes the guard (a non-null object with a string `url` and number `width` and `height`), and then carries those three properties |
| ImageFormatGuard.AcceptsEveryFormat | src/internal/utils/__test__/check-is-image-format.test.ts:4-9 | every rendition passes, whatever its values (empty url, zero or negative sizes) and whatever extra properties ride along, and reads back as itself |
| ImageFormatGuard.RejectsMissingField | src/internal/utils/__test__/check-is-image-format.test.ts:11-17 | an object missing `url`, `width` or `height` fails |
| ImageFormatGuard.RejectsMistypedField | src/utils/check-is-image-format.ts:7 | an object whose `url` is not a string fails |
| ImageFormatGuard.RejectsNonObjects | src/utils/check-is-image-format.ts:4-5 | strings, `null`, `undefined`, numbers and booleans fail |
| ImageFormatGuard.RejectsEmptyObject | src/internal/utils/__test__/check-is-image-format.test.ts:24-25 | an object without properties (an empty Set or array) fails |
| AspectRatio.ComputeAspectRatio | src/utils/compute-aspect-ratio.ts:4-15 | an override other than `"intrinsic"` is returned verbatim, whatever the dimensions; otherwise a ratio exists exactly when width and height are both positive, and it is `"{width} / {height}"` |
| AspectRatio.DerivedRatioRoundTrip | src/utils/compute-aspect-ratio.ts:14 | the derived ratio reads back as the image's dimensions: it parses to the width, then `" / "`, then text that parses to the height |
| InternalAspectRatio.ComputeAspectRatio | src/internal/utils/compute-aspect-ratio.ts:4-15 | the same contract as the public copy: verbatim override, absent for non-positive sizes, `"{width} / {height}"` otherwise |
| InternalAspectRatio.AgreesWithShared | src/internal/utils/compute-aspect-ratio.ts:4-15 | with both sentinels `"intrinsic"`, the internal copy agrees with src/utils/compute-aspect-ratio.ts on every image and override |
| ClassNames.Pieces | src/internal/utils/concat-class-names.ts:4-9 | the pieces of the non-empty string arguments, in argument order, are never more than the arguments |
| ClassNames.PiecesAreTrimmed | src/internal/utils/concat-class-names.ts:6-8 | every piece is trimmed, and no contributing argument means no pieces |
| ClassNames.ClassList | src/internal/utils/concat-class-names.ts:1-13 | the class list `cx` denotes has no whitespace at either end |
| ClassNames.Cx | src/internal/utils/concat-class-names.ts:1-13 | the loop that appends a space and each trimmed piece, then trims, computes exactly the class list |
| ClassNames.JoinOfTrimmedIsTrimmed | src/internal/utils/concat-class-names.ts:7-8 | space-joined non-blank trimmed pieces are trimmed, and non-empty when there is a piece |
| ClassNames.ClassListOfNonBlankPieces | src/internal/utils/concat-class-names.ts:7-12 | when no piece is blank, the class list is the pieces separated by single spaces |
| ClassNames.ClassListOfOne | src/internal/utils/concat-class-names.ts:2-12 | one string argument, the empty string included, yields that string trimmed |
| ClassNames.ClassListWithCaller | src/internal/utils/concat-class-names.ts:4-12 | a caller's class name after fixed classes adds one space and its trimmed text, or nothing when it is absent or blank |
| ClassNames.PiecesOfTwo | src/internal/utils/concat-class-names.ts:6 | a fixed class followed by `flag && name` gives the name as a piece exactly when the flag is set |
| ClassNames.PiecesOfThree | src/internal/utils/concat-class-names.ts:6 | the same for a fixed class followed by two flagged ones |
| SizesAttribute.Lookup | src/utils/compute-sizes-value.ts:57 | the value of a key is found exactly when some entry has that key, and it is the value of such an entry |
| SizesAttribute.WithoutFallback | src/utils/compute-sizes-value.ts:57 | the breakpoints are exactly the entries whose key is not `fallback` |
| SizesAttribute.KeepUsableMultiset | src/utils/compute-sizes-value.ts:39 | the filter keeps every usable entry as often as it occurs and drops every other |
| SizesAttribute.Insert | src/utils/compute-sizes-value.ts:40 | inserting adds exactly the one entry and loses none |
| SizesAttribute.InsertSorted | src/utils/compute-sizes-value.ts:40 | inserting into a list sorted by rank keeps it sorted |
| SizesAttribute.SortByRank | src/utils/compute-sizes-value.ts:40 | the sort returns a permutation of its input, sorted by rank (parsed key, negated for mobile-first) |
| SizesAttribute.BreakpointValue | src/utils/compute-sizes-value.ts:36 | the key parsed with `Number.parseInt(key, 10)`, or 0 when that is not a non-zero number: a non-zero key value is what the key parses to, and a key that does not parse gives 0 |
| SizesAttribute.IsUsable | src/utils/compute-sizes-value.ts:39 | a kept entry has a positive key value and a non-empty width |
| SizesAttribute.GetSortedBreakpoints | src/utils/compute-sizes-value.ts:13-42 | with auto-sort off the entries pass through unchanged; the result never has more entries than the record |
| SizesAttribute.MediaCondition | src/utils/compute-sizes-value.ts:59 | `max-width` exactly for desktop-first, `min-width` exactly otherwise |
| SizesAttribute.MediaQuery | src/utils/compute-sizes-value.ts:61-63 | a query is `(`, the media condition, `: `, the breakpoint key, `) ` and the width, in that order |
| SizesAttribute.MediaQueries | src/utils/compute-sizes-value.ts:61-63 | one `"(cond: key) width"` item per breakpoint, in order |
| SizesAttribute.FallbackWidth | src/utils/compute-sizes-value.ts:64 | the fallback width is never empty: the `fallback` value when truthy, else `"100vw"` |
| SizesAttribute.ComputeSizesValue | src/utils/compute-sizes-value.ts:44-55 | the attribute is never empty; absent or empty `sizes` gives `"100vw"`; any other string is passed through untouched |
| SizesAttribute.RecordLayout | src/utils/compute-sizes-value.ts:57-66 | for a record, the attribute is the `", "`-join of the media queries followed by the fallback width, or only the fallback width when no breakpoint remains |
| SizesAttribute.EmptyRecord | src/utils/compute-sizes-value.ts:57-66 | an empty record gives `"100vw"` |
| SizesAttribute.AutoSortedMultiset | src/utils/compute-sizes-value.ts:32-41 | auto-sort keeps each usable entry exactly as often as it occurs, and nothing else |
| SizesAttribute.AutoSortedMember | src/utils/compute-sizes-value.ts:32-41 | an entry survives auto-sort exactly when it came from the input, carries its own parsed key and is usable |
| SizesAttribute.FallbackIsNotABreakpoint | src/utils/compute-sizes-value.ts:57-58 | the `fallback` key never appears as a breakpoint, sorted or not |
| SizesAttribute.AutoSortKeepsExactlyUsable | src/utils/compute-sizes-value.ts:36-39 | with auto-sort on, an entry is kept exactly when its parsed key is positive and its width parses to a non-zero number |
| SizesAttribute.AutoSortOrder | src/utils/compute-sizes-value.ts:30-40 | with auto-sort on, kept entries are in ascending order of parsed key for desktop-first and descending for mobile-first, units ignored |
| SizesAttribute.DisabledSortKeepsInsertionOrder | src/utils/compute-sizes-value.ts:21-28 | with auto-sort off, every non-fallback entry appears once, in insertion order, unparsed and unfiltered |
| SizesAttribute.InsertOfRank | src/utils/compute-sizes-value.ts:40 | inserting an entry keeps the relative order of the entries of each rank |
| SizesAttribute.SortIsStable | src/utils/compute-sizes-value.ts:40 | the sort is stable: entries of equal parsed key keep their insertion order, as `Array.prototype.sort` does |
| SizesAttribute.SortedPermutationsAreEqual | src/utils/compute-sizes-value.ts:40 | two sorted permutations of the same entries with distinct parsed keys are equal |
| SizesAttribute.LookupOfDistinct | src/utils/compute-sizes-value.ts:57 | in a record with distinct keys, the lookup of a present key finds its value |
| SizesAttribute.SameFallback | src/utils/compute-sizes-value.ts:57-64 | records holding the same entries in any order have the same fallback width |
| SizesAttribute.WithoutFallbackRespectsPermutation | src/utils/compute-sizes-value.ts:57 | reordering a record reorders its breakpoints and changes nothing else |
| SizesAttribute.AutoSortIgnoresInsertionOrder | src/utils/compute-sizes-value.ts:30-41 | with auto-sort on and distinct parsed keys, the attribute does not depend on the insertion order of the record |
| SrcSetAttribute.Matches | src/utils/compute-src-set-value.ts:21-24 | a requested name matches only when the image has it, and always when its value passes the rendition guard |
| SrcSetAttribute.OriginalDescriptor | src/utils/compute-src-set-value.ts:19 | the original's candidate is its transformed URL, a space, and a width descriptor that parses back as the image's width |
| SrcSetAttribute.VariantDescriptor | src/utils/compute-src-set-value.ts:27 | a rendition's candidate is its transformed URL, a space, and a descriptor ending in `w` |
| SrcSetAttribute.MatchCount | src/utils/compute-src-set-value.ts:20-28 | the number of matching requested names is at most the number requested |
| SrcSetAttribute.VariantEntries | src/utils/compute-src-set-value.ts:20-28 | one candidate per requested name with a truthy rendition, a repeated name counting each time |
| SrcSetAttribute.EntriesEmptyIffNoMatch | src/utils/compute-src-set-value.ts:18-32 | no candidate is listed exactly when no requested name matches |
| SrcSetAttribute.SrcSet | src/utils/compute-src-set-value.ts:9-35 | the attribute is present exactly when a list of names is given, the image has renditions, and some requested name matches |
| SrcSetAttribute.ComputeSrcSetValue | src/utils/compute-src-set-value.ts:9-35 | the loop with the running text and the matched flag computes exactly that attribute, with the identity as the default transform |
| SrcSetAttribute.VariantEntriesAppend | src/utils/compute-src-set-value.ts:20-28 | requesting two lists of names in turn lists the candidates of each, in turn |
| SrcSetAttribute.VariantEntriesIgnoreOthers | src/utils/compute-src-set-value.ts:21-24 | renditions that were not requested never matter: images that agree on the requested names give the same candidates |
| SrcSetAttribute.AllRequestedPresent | src/utils/compute-src-set-value.ts:20-28 | when every requested name holds a well-formed rendition, each is listed, in request order, as its transformed URL and its width |
| SrcSetAttribute.FormatDescriptor | src/utils/compute-src-set-value.ts:27 | the candidate of a well-formed rendition is `transformUrl(url) + " " + width + "w"` |
| SrcSetAttribute.RenditionDescriptor | src/utils/compute-src-set-value.ts:12-27 | with the default transform, a rendition appears as its own URL and width |
| SrcSetAttribute.SrcSetLayout | src/utils/compute-src-set-value.ts:19-27 | a present attribute is the original file's candidate, `", "`, and the variant candidates joined by `", "` |
| Placeholder.Children | src/internal/Placeholder.tsx:32 | defined content wins, even when falsy; otherwise the configured content |
| Placeholder.TransformUrlValue | src/internal/Placeholder.tsx:34 | the caller's transform when given, otherwise the configured one |
| Placeholder.FormatValue | src/internal/Placeholder.tsx:33 | the caller's rendition name when truthy, else the configured one |
| Placeholder.Rendition | src/internal/Placeholder.tsx:40-43 | a rendition is found exactly when the name is present and its value passes the guard |
| Placeholder.Src | src/internal/Placeholder.tsx:36-47 | empty with content or without renditions; otherwise the transformed URL of the chosen rendition, else of `thumbnail`, else empty |
| Placeholder.PlaceholderClassName | src/internal/Placeholder.tsx:56-61 | `rsi-placeholder`, plus `rsi-placeholder-active` exactly when active, plus `rsi-placeholder-img` exactly when the image is shown, plus the caller's classes |
| Placeholder.ClassListLayout | src/internal/Placeholder.tsx:56-61 | the `cx` call of the component gives that class list |
| Placeholder.RenderPlaceholder | src/internal/Placeholder.tsx:63-96 | both rendered forms carry `role="presentation"` and `aria-hidden="true"`; a wrapper exactly for truthy content, without the image class; an image exactly when there is no content and a source, with `alt=""`, `loading` lazy exactly when asked, the computed aspect ratio and `scale(s)` exactly when a scale is given; nothing otherwise |
| Placeholder.ActiveOnlyChangesClass | src/internal/Placeholder.tsx:56-96 | being active changes only the class list, never whether or what the placeholder renders |
| Placeholder.NoRenditionsRenderNothing | src/internal/Placeholder.tsx:37-66 | without content, an image without renditions renders nothing |
| Placeholder.FalsyContentRendersNothing | src/internal/Placeholder.tsx:84-86 | defined but falsy content renders nothing |
| StrapiImage.OrText | src/StrapiImage.tsx:71 | `x \|\| fallback` for a string: `undefined`, `null` and `""` fall through |
| StrapiImage.FormatsValue | src/StrapiImage.tsx:38 | the caller's list of names whenever given, even empty; otherwise the configured one |
| StrapiImage.TransformUrlValue | src/StrapiImage.tsx:39 | the caller's transform when given, otherwise the configured one |
| StrapiImage.SizesValue | src/StrapiImage.tsx:40 | absent or empty-string `sizes` falls back on the configured one |
| StrapiImage.FlagValue | src/StrapiImage.tsx:41-46 | a boolean option is the caller's whenever it is a boolean, so an explicit `false` beats the configuration |
| StrapiImage.SizesOf | src/StrapiImage.tsx:56-65 | `sizes` is present exactly when `srcset` is, and is then the computed sizes value of the resolved options |
| StrapiImage.AltText | src/StrapiImage.tsx:67-72 | the caller's `alt` whenever defined, even empty; otherwise `alternativeText \|\| caption \|\| ""` |
| StrapiImage.StyleAttribute | src/StrapiImage.tsx:77-85 | with no aspect ratio the caller's style is unchanged; otherwise `aspectRatio` is set to the computed value, replacing the caller's, and every other property is kept |
| StrapiImage.RenderImage | src/StrapiImage.tsx:87-98 | `src` is the transformed URL, `width` the image's width, `srcset` the attribute of the resolved options, `sizes` the computed attribute (present exactly with `srcset`), plus the alternative text and the style |
| StrapiImage.EmptyFormatsOmitSrcSet | src/StrapiImage.tsx:38-59 | an empty list of names is honoured and leaves out both `srcset` and `sizes` |
| StrapiImage.DefaultFormatsListed | src/internal/ConfigContext.ts:12-13 | with the built-in configuration, `srcset` lists the original, then `large`, `medium` and `small`, each with its own URL and width |
| StrapiImageRenderer.InitialLoadingValue | src/StrapiImageRenderer.tsx:60-62 | the initial flag is the prop whenever it is a boolean, otherwise the configured one |
| StrapiImageRenderer.IsLazy | src/StrapiImageRenderer.tsx:127 | `loading` is lazy unless `lazy` is undefined or `false`, so `'very'` is lazy too |
| StrapiImageRenderer.Run | src/StrapiImageRenderer.tsx:65-71 | after a run of events the mount check has happened exactly when it had before or some event was a mount check |
| StrapiImageRenderer.Step | src/StrapiImageRenderer.tsx:65-71 | the load event clears the flag; the first mount check of an attached image sets it to `!complete`; later mount checks change nothing |
| StrapiImageRenderer.LoadedStaysLoaded | src/StrapiImageRenderer.tsx:66-71 | once the mount check has run and the image has loaded, no later event sets the flag again |
| StrapiImageRenderer.MountCheckRunsOnce | src/StrapiImageRenderer.tsx:67-71 | after the first mount check, another changes nothing, whatever happened in between |
| StrapiImageRenderer.StaysMountChecked | src/StrapiImageRenderer.tsx:67-71 | once the mount check has run, it stays run |
| StrapiImageRenderer.LoadEventIsIdempotent | src/StrapiImageRenderer.tsx:66 | the load event clears the flag, and firing it again changes nothing |
| StrapiImageRenderer.MountCheckCanRestartLoading | src/StrapiImageRenderer.tsx:69 | the mount check can turn a flag that started `false` back to `true` |
| StrapiImageRenderer.LoadingState.constructor | src/StrapiImageRenderer.tsx:60-65 | the flag starts at the resolved initial value, before any mount check |
| StrapiImageRenderer.LoadingState.HandleImageLoaded | src/StrapiImageRenderer.tsx:66 | the new state is one load-event step from the old |
| StrapiImageRenderer.LoadingState.CheckMounted | src/StrapiImageRenderer.tsx:67-71 | the new state is one mount-check step from the old |
| StrapiImageRenderer.AspectRatioValue | src/StrapiImageRenderer.tsx:73-75 | the root's aspect ratio is the caller's non-`intrinsic` override, or else present exactly when both dimensions are positive, and then `"{width} / {height}"` |
| StrapiImageRenderer.ChildAspectRatio | src/StrapiImageRenderer.tsx:114-126 | `imageAspectRatio` when truthy, otherwise the root's computed value |
| StrapiImageRenderer.RootStyle | src/StrapiImageRenderer.tsx:85-97 | with neither aspect ratio nor background colour, the caller's style is unchanged; otherwise the aspect ratio is added only where the caller set none, the background colour is set when given, and every other property, the caller's own `backgroundColor` when none is given included, is kept |
| StrapiImageRenderer.RootClassName | src/StrapiImageRenderer.tsx:77 | `rsi-root` followed by the caller's classes |
| StrapiImageRenderer.ImageClassName | src/StrapiImageRenderer.tsx:79-83 | `rsi-img`, plus `rsi-img-loading` exactly while loading, plus the caller's classes |
| StrapiImageRenderer.PlaceholderPropsOf | src/StrapiImageRenderer.tsx:106-116 | the placeholder is active exactly while loading, lazy exactly for `lazy === 'very'`, and gets the image, the child aspect ratio, the content, rendition name, scale, transform and class name given for the placeholder |
| StrapiImageRenderer.ImagePropsOf | src/StrapiImageRenderer.tsx:118-130 | the image gets the image record, the rendition names, transform, sizes, both sizes flags and the child aspect ratio, and neither `alt` nor `style` |
| StrapiImageRenderer.RenderRenderer | src/StrapiImageRenderer.tsx:99-132 | root class `rsi-root` plus the caller's, image `loading` lazy exactly when `lazy` is truthy, image class with `rsi-img-loading` exactly while loading; the root style is the merged style, the placeholder is the placeholder component rendered with the routed props, and the image is the image component rendered with its routed props |
| StrapiImageRenderer.LoadingOnlyChangesClasses | src/StrapiImageRenderer.tsx:79-107 | the loading flag changes only the placeholder's activity class and the image's loading class |
| ConfigContext.DefaultConfigValue | src/internal/ConfigContext.ts:11-18 | formats `large`, `medium`, `small`; the identity transform; `desktopFirstSizes`, `disableSizesAutoSort` and `initialLoading` false; `placeholderFormat` `thumbnail`; no `sizes` or `placeholder` |
| StrapiImageConfigContext.DefaultConfigValue | src/StrapiImageConfigContext.ts:9-14 | exactly four keys: formats `large`, `medium`, `small`, the identity transform, and two false flags |
| StrapiImageConfigProvider.ProviderValue | src/StrapiImageConfigProvider.tsx:14-17 | every key the caller gives wins, even with the value `undefined`; every other default key keeps its default; values are taken whole |
| StrapiImageConfigProvider.EmptyConfigGivesDefaults | src/StrapiImageConfigProvider.tsx:14-17 | an empty configuration publishes exactly the defaults |
| StrapiImageConfigProvider.ExplicitUndefinedWins | src/StrapiImageConfigProvider.tsx:14-17 | an explicit `undefined` replaces the default |

## Left out

- React machinery is left out: `memo`, `forwardRef`, `useMemo`, `useCallback`, `useRef`, context, JSX, and the props that pass through untouched. Memoised values are pure functions of their inputs. Context is an explicit configuration argument.
- The DOM is left out. Whether the image element is attached, whether its download is complete, and when its load event fires are inputs to `StrapiImageRenderer.LoadingState`. The order of events is modelled by `StrapiImageRenderer.Run`.
- `transformUrl` bodies are arbitrary function arguments. `ReactNode` content is known only by presence and truthiness.
- JavaScript numbers are modelled as integers. Non-integer widths, NaN, and the precision loss of very large `parseInt` results are not modelled.
- JavaScript object details are left out:
  - properties inherited from the prototype (a rendition named `toString`);
  - the `Object.entries` rule that lists integer-like keys first.
  A breakpoint record keeps its entries in the order given.
- `StrapiImageRenderer.RootStyle`, `StrapiImage.StyleAttribute`: a style is a map from property names to text. A property present with the value `undefined`, and numeric style values, are not modelled.
- `SrcSetAttribute.VariantDescriptor`: `transformUrl` receives the template-literal text of a rendition's `url`. The raw value is not passed, which only matters when `url` is not a string.
- `Placeholder.PlaceholderProps`: `scale` is kept as the text the template literal prints. `lazy` is a boolean, which is what the renderer passes.
- `src/StrapiImage.tsx` imports `internal/utils/compute-sizes-value` and `internal/utils/compute-src-set-value`. Neither is part of this model. Its `sizes` and `srcset` are modelled with `src/utils/compute-sizes-value.ts` and `src/utils/compute-src-set-value.ts`, whose fallback key is `fallback`. The `initial`-key expectations in `src/__test__/StrapiImage.test.tsx` belong to that unseen version.
- `src/internal/Placeholder.tsx` imports `internal/utils/check-is-image-format`, which is not part of this model. It is modelled with the guard of `src/utils/check-is-image-format.ts`.
- The `intrinsic` constant of `src/utils/compute-aspect-ratio.ts` comes from `src/constants`, which is not part of this model. Its value `"intrinsic"` is taken from `src/utils/__test__/compute-aspect-ratio.test.ts`.
- `InternalAspectRatio.Intrinsic`: the internal copy takes its sentinel from `src/internal/constants`, which is not part of this model. It is assumed to be `"intrinsic"`, as the prop type `'intrinsic' | string` of `src/StrapiImage.tsx:22` suggests, so `InternalAspectRatio.AgreesWithShared` holds by that assumption.
- Storybook stories, build configuration, `src/StrapiImageImg.tsx` (a pass-through) and the tests are not modelled.
