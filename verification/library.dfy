/** Names shared by the detector and the merge helper. */
module Library {

  /** An asset's `localIdentifier`, by which the photo library names it. */
  type AssetId = string
}
