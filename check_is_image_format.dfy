/** src/utils/check-is-image-format.ts: the runtime guard for a rendition. */
module ImageFormatGuard {
  import opened Wrappers
  import opened JsValue
  import opened MediaTypes

  /** A non-null object whose `url` is a string and whose `width` and `height` are numbers. */
  predicate CheckIsImageFormat(v: Value): (r: bool)
    ensures r ==> Truthy(v)
    ensures !v.Object? ==> !r
  {
    && v.Object?
    && "url" in v.fields && v.fields["url"].Str?
    && "width" in v.fields && v.fields["width"].Number?
    && "height" in v.fields && v.fields["height"].Number?
  }

  /** The rendition a value that passes the guard stands for. */
  function AsImageFormat(v: Value): (r: Option<ImageFormat>)
    ensures r.Some? <==> CheckIsImageFormat(v)
    ensures r.Some? ==> Get(v, "url") == Str(r.value.url) && Get(v, "width") == Number(r.value.width)
                        && Get(v, "height") == Number(r.value.height)
  {
    if CheckIsImageFormat(v)
    then Some(ImageFormat(v.fields["url"].s, v.fields["width"].n, v.fields["height"].n))
    else None
  }

  /**
   * Every rendition passes, whatever its values (an empty url, zero or
   * negative sizes) and whatever other properties ride along, and reads
   * back as itself.
   */
  lemma AcceptsEveryFormat(f: ImageFormat, extra: map<string, Value>)
    ensures CheckIsImageFormat(Object(extra + ToValue(f).fields))
    ensures AsImageFormat(Object(extra + ToValue(f).fields)) == Some(f)
  {
  }

  /** An object missing any one of the three properties fails. */
  lemma RejectsMissingField(fields: map<string, Value>, key: string)
    requires key == "url" || key == "width" || key == "height"
    requires key !in fields
    ensures !CheckIsImageFormat(Object(fields))
  {
  }

  /** A property of the wrong type fails as a missing one does. */
  lemma RejectsMistypedField(fields: map<string, Value>)
    requires "url" in fields && !fields["url"].Str?
    ensures !CheckIsImageFormat(Object(fields))
  {
  }

  /** Strings, `null`, `undefined`, numbers and booleans fail. */
  lemma RejectsNonObjects(v: Value)
    requires !v.Object?
    ensures !CheckIsImageFormat(v)
  {
  }

  /** An object without properties (an empty Set or array) fails. */
  lemma RejectsEmptyObject()
    ensures !CheckIsImageFormat(Object(map[]))
  {
  }
}
