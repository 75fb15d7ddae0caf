/**
 * src/utils/compute-aspect-ratio.ts: the CSS `aspect-ratio` of an image,
 * either the caller's override or the intrinsic `"width / height"`.
 */
module AspectRatio {
  import opened Wrappers
  import opened JsText
  import opened MediaTypes

  /** The override that asks for the intrinsic ratio (src/constants, not part of this model). */
  const Intrinsic := "intrinsic"

  /** The text `"{width} / {height}"`. */
  function RatioText(width: int, height: int): string {
    IntToString(width) + " / " + IntToString(height)
  }

  function ComputeAspectRatio(image: MediaImage, value: Option<string>): (r: Option<string>)
    // an override other than the sentinel wins whatever the dimensions
    ensures value.Some? && value.value != Intrinsic ==> r == value
    // otherwise a ratio exists exactly when both dimensions are positive
    ensures (value.None? || value.value == Intrinsic) ==>
              (r.Some? <==> image.width > 0 && image.height > 0)
    ensures (value.None? || value.value == Intrinsic) && r.Some? ==>
              r.value == RatioText(image.width, image.height)
  {
    if value.Some? && value.value != Intrinsic then value
    else if image.width == 0 || image.width < 0 || image.height == 0 || image.height < 0 then None
    else Some(RatioText(image.width, image.height))
  }

  /**
   * The derived ratio reads back as the image's dimensions: the text parses
   * to the width, and what follows `" / "` parses to the height.
   */
  lemma {:induction false} DerivedRatioRoundTrip(image: MediaImage, value: Option<string>)
    requires value.None? || value.value == Intrinsic
    requires image.width > 0 && image.height > 0
    ensures var t := ComputeAspectRatio(image, value).value;
            var w := IntToString(image.width);
            && |t| == |w| + 3 + |IntToString(image.height)|
            && ParseInt(t) == Some(image.width)
            && t[|w|..|w| + 3] == " / "
            && ParseInt(t[|w| + 3..]) == Some(image.height)
  {
    var t := ComputeAspectRatio(image, value).value;
    var w := IntToString(image.width);
    var h := IntToString(image.height);
    assert t == w + (" / " + h);
    ParseIntOfIntToString(image.width, " / " + h);
    assert t[|w| + 3..] == h + "";
    ParseIntOfIntToString(image.height, "");
  }
}
