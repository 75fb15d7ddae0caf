/**
 * src/internal/utils/compute-aspect-ratio.ts: the copy the components use.
 * Its branches are those of src/utils/compute-aspect-ratio.ts; it takes its
 * `intrinsic` sentinel from src/internal/constants instead.
 */
module InternalAspectRatio {
  import opened Wrappers
  import opened JsText
  import opened MediaTypes
  import Shared = AspectRatio

  /** The sentinel of src/internal/constants, which is not part of this model; taken to be `"intrinsic"`. */
  const Intrinsic := "intrinsic"

  function ComputeAspectRatio(image: MediaImage, value: Option<string>): (r: Option<string>)
    ensures value.Some? && value.value != Intrinsic ==> r == value
    ensures (value.None? || value.value == Intrinsic) ==>
              (r.Some? <==> image.width > 0 && image.height > 0)
    ensures (value.None? || value.value == Intrinsic) && r.Some? ==>
              r.value == IntToString(image.width) + " / " + IntToString(image.height)
  {
    if value.Some? && value.value != Intrinsic then value
    else if image.width == 0 || image.width < 0 || image.height == 0 || image.height < 0 then None
    else Some(IntToString(image.width) + " / " + IntToString(image.height))
  }

  /** With the two sentinels equal, the two copies agree on every input. */
  lemma AgreesWithShared(image: MediaImage, value: Option<string>)
    ensures ComputeAspectRatio(image, value) == Shared.ComputeAspectRatio(image, value)
  {
  }
}
