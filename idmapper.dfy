/**
 * IdMapper: from the display id the record was entered on, and the number
 * of sub-images the probe counted, to the image-service info ids.
 */
module IdMapper {
  import opened Decimal

  /** `first_info_id = int(image_id) - compound_item_count` (may be negative). */
  function FirstInfoId(imageId: string, count: nat): int
    requires IsDigits(imageId)
  {
    DigitsValue(imageId) - count
  }

  /** `info_id = first_info_id + current_index`. */
  function InfoId(first: int, index: nat): int {
    first + index
  }

  /**
   * The info ids of the `count` sub-images are the contiguous ascending range
   * that ends just below the entry display id.
   */
  lemma InfoIdRange(imageId: string, count: nat, index: nat)
    requires IsDigits(imageId) && index < count
    ensures DigitsValue(imageId) - count <= InfoId(FirstInfoId(imageId, count), index) < DigitsValue(imageId)
  {
  }

  /** Entering on display id 3666 with three sub-images gives info ids 3663, 3664 and 3665. */
  lemma ThreeImageExample()
    ensures IsDigits("3666") && FirstInfoId("3666", 3) == 3663
    ensures InfoId(FirstInfoId("3666", 3), 0) == 3663
    ensures InfoId(FirstInfoId("3666", 3), 1) == 3664
    ensures InfoId(FirstInfoId("3666", 3), 2) == 3665
  {
    var s := "3666";
    assert s[..3] == "366" && "366"[..2] == "36" && "36"[..1] == "3" && "3"[..0] == "";
  }
}
