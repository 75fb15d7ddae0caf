/** The record shapes of src/types.ts that the core reads. */
module MediaTypes {
  import opened Wrappers
  import opened JsValue

  /** One pre-generated rendition of an image (`StrapiMediaImageFormat`). */
  datatype ImageFormat = ImageFormat(url: string, width: int, height: int)

  /** The object a CMS response holds for a rendition. */
  function ToValue(f: ImageFormat): (v: Value)
    ensures v.Object? && v.fields.Keys == {"url", "width", "height"}
  {
    Object(map["url" := Str(f.url), "width" := Number(f.width), "height" := Number(f.height)])
  }

  /**
   * A media-image record (`StrapiMediaImage`). `alternativeText` and
   * `caption` may be `null` or absent, which the core treats alike; the
   * `formats` record is untyped and keyed by rendition name.
   */
  datatype MediaImage = MediaImage(
    url: string,
    width: int,
    height: int,
    alternativeText: Option<string>,
    caption: Option<string>,
    name: Option<string>,
    formats: Option<map<string, Value>>)

  /** A renderable node (`ReactNode`), known only by its truthiness. */
  datatype Node = Node(truthy: bool)
}
