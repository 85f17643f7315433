# ByeByeDupe core in Dafny

A model of the two algorithms at the centre of ByeByeDupe, a photo-library
de-duplication app, with proofs of their properties:

- **Duplicate detection** (`DuplicateDetector`). Each photo gets an
  *average hash*: every pixel of a small grayscale bitmap becomes one bit,
  set when the pixel is strictly brighter than the mean. Fingerprints are
  compared by Hamming distance over their common prefix. The scan puts each
  fingerprint into the first group whose founding key is within the
  threshold, or else founds a new group. Only groups with more than one
  member are reported.
- **Smart merge** (`SmartMergeHelper`). The image properties of every other
  member of a duplicate group are folded into the best asset's properties
  by a recursive "first populated value wins" merge. The best asset's bytes
  are then saved with the merged properties, and the whole group is deleted.

Modules:

| file | module | what it holds |
|---|---|---|
| `wrappers.dfy` | `Wrappers` | `Option`, `Min` |
| `library.dfy` | `Library` | `AssetId`, an asset's `localIdentifier` |
| `average_hash.dfy` | `AverageHash` | pixel grids, the bit emission of `generateHash`, `hammingDistance` |
| `clustering.dfy` | `Clustering` | the scan and filter of `findDuplicates`, its invariants, and the failed-render finding |
| `metadata_merge.dfy` | `MetadataMerge` | `merge(metadata1:metadata2:)`: a key-by-key reference definition and the loop as the source runs it |
| `smart_merge.dfy` | `SmartMerge` | the property fold, `mergedImageURL` and `mergeAndSave` |

Modelling choices:

- **Hashes.** A fingerprint is a `seq<bool>`, with `true` for the source's
  character "1". A failed hash is the empty sequence, like the source's `""`.
- **Mean test.** The source computes the mean as a `CGFloat` and tests
  `p > total / n`. The model uses the exact integer test `n * p > total`.
  For `n > 0` the two agree whenever the floating-point division is exact.
- **Dictionary order.** Groups live in a Swift `Dictionary`, so the order in
  which keys are scanned is unspecified. The only thing that order decides
  is which matching key is met first. `Clustering.Place` takes a `pick`
  that selects one of the matching keys, and `Clustering.PlaceCanJoinAnyMatch`
  shows every matching key can be selected. Every lemma about the scan holds
  for all picks.
- **Threshold.** `findDuplicates` defaults its threshold to 5, and its one
  caller in the app relies on that default. So the thresholds of at least
  zero that many lemmas require are the realistic domain. The negative
  thresholds the model also covers cannot arise in the app.
- **Completion order.** The property fold runs inside asynchronous
  completion callbacks. It is modelled as a sequential fold over `arrivals`,
  any rearrangement of the members other than the best asset.
- **Platform outcomes.** Image fetching, file writing and the photo-library
  commit are parameters: `Asset.image` and `Image.bitmap` for image
  fetching, `ImageData` for `getImageData`, and `written` / `committed` for
  the rest.

## Model

| member | source | states |
|---|---|---|
| AverageHash.GenerateHash | ByeByeDupe/Models/DuplicateDetector.swift:54-68 | a w×h grid gives exactly w·h bits; the bit for pixel (y, x) sits at row-major position y·w + x and is set exactly when w·h times the pixel exceeds the pixel total, i.e. the pixel is strictly above the mean |
| AverageHash.ReadPixels | ByeByeDupe/Models/DuplicateDetector.swift:58-65 | the nested loops read every pixel once, in row-major order, and the running total is the sum of the pixels read |
| AverageHash.ReadRow | ByeByeDupe/Models/DuplicateDetector.swift:59-64 | the inner loop appends one row, left to right, and keeps the total equal to the sum of what was read |
| AverageHash.GridHashBits | ByeByeDupe/Models/DuplicateDetector.swift:58-68 | the reference fingerprint of a grid has w·h bits, each set exactly when its pixel is strictly above the mean |
| AverageHash.FlattenIndex | ByeByeDupe/Models/DuplicateDetector.swift:58-63 | reading w pixels per row from every row gives (number of rows)·w pixels, with pixel (y, x) at position y·w + x |
| AverageHash.ScaledSumExceeds | ByeByeDupe/Models/DuplicateDetector.swift:67-68 | if every pixel were strictly above the mean, the total would exceed itself; so not every pixel can be |
| AverageHash.SumConstant | ByeByeDupe/Models/DuplicateDetector.swift:62 | the total of n pixels of equal value c is n·c |
| AverageHash.AverageBitsHasZero | ByeByeDupe/Models/DuplicateDetector.swift:67-68 | a non-empty pixel list always produces at least one 0 bit |
| AverageHash.GridHashHasZero | ByeByeDupe/Models/DuplicateDetector.swift:58-68 | a non-empty grid's fingerprint has w·h bits and at least one of them is 0 |
| AverageHash.FlattenConstant | ByeByeDupe/Models/DuplicateDetector.swift:58-63 | a grid whose pixels all equal c reads out as pixels that all equal c |
| AverageHash.ConstantGridHashesToZeros | ByeByeDupe/Models/DuplicateDetector.swift:58-68 | a constant grid hashes to w·h zero bits (no pixel is strictly above the mean) |
| AverageHash.Hamming | ByeByeDupe/Models/DuplicateDetector.swift:35-37 | the distance never exceeds the length of the shorter fingerprint, because only the common prefix is compared |
| AverageHash.HammingCountsMismatches | ByeByeDupe/Models/DuplicateDetector.swift:35-37 | the distance equals the number of common-prefix positions where the fingerprints differ, an independent set-based definition |
| AverageHash.MismatchesLast | ByeByeDupe/Models/DuplicateDetector.swift:36 | the differing positions of the common prefix are those before its last position, plus the last one when it differs |
| AverageHash.HammingSymmetric | ByeByeDupe/Models/DuplicateDetector.swift:35-37 | distance(a, b) = distance(b, a) |
| AverageHash.HammingZeroIffEqual | ByeByeDupe/Models/DuplicateDetector.swift:35-37 | for fingerprints of equal length, distance 0 holds exactly when they are equal |
| AverageHash.HammingSelf | ByeByeDupe/Models/DuplicateDetector.swift:35-37 | every fingerprint is at distance 0 from itself |
| AverageHash.HammingEmpty | ByeByeDupe/Models/DuplicateDetector.swift:35-37 | the empty fingerprint returned on failure is at distance 0 from every fingerprint, in either argument position |
| Clustering.HashOf | ByeByeDupe/Models/DuplicateDetector.swift:39-71 | a rendered w×h bitmap gives a w·h-bit fingerprint; the fingerprint is empty exactly when no bitmap could be produced or the bitmap has no pixels, the two ways the source ends up with "" |
| Clustering.Matches | ByeByeDupe/Models/DuplicateDetector.swift:109-110 | lists exactly the groups whose key is within the threshold of the fingerprint |
| Clustering.KeyIndex | ByeByeDupe/Models/DuplicateDetector.swift:118 | finds a group keyed exactly by the fingerprint when there is one, and reports none only when no key equals it |
| Clustering.Place | ByeByeDupe/Models/DuplicateDetector.swift:107-119 | one scan step never removes a group, never changes an existing group's key, and founds at most one new group |
| Clustering.PlaceCases | ByeByeDupe/Models/DuplicateDetector.swift:109-119 | when some key is within the threshold, the asset is appended to such a group. When none is, it founds a new group under its own fingerprint. If that fingerprint is already a key, it replaces that key's group, as a dictionary assignment does |
| Clustering.Scan | ByeByeDupe/Models/DuplicateDetector.swift:84-121 | the scan over all assets, one step per asset that passed the photo-resource check and delivered an image, ends with at most one group per asset |
| Clustering.PlaceCanJoinAnyMatch | ByeByeDupe/Models/DuplicateDetector.swift:109-113 | every key within the threshold is the one some dictionary order meets first; no matching group is ruled out |
| Clustering.PlacePicksHit | ByeByeDupe/Models/DuplicateDetector.swift:109-113 | selecting the j-th matching key appends the asset to that key's group |
| Clustering.Duplicates | ByeByeDupe/Models/DuplicateDetector.swift:123 | keeps a group exactly when it has more than one member |
| Clustering.FindDuplicates | ByeByeDupe/Models/DuplicateDetector.swift:74-129 | every reported group has at least two assets; every group of the scan with more than one member is reported; every reported group is such a group |
| Clustering.JoinPreservesWellFormed | ByeByeDupe/Models/DuplicateDetector.swift:110-111 | appending an asset within the threshold of a key keeps keys pairwise apart and every member within the threshold of its key |
| Clustering.FoundPreservesWellFormed | ByeByeDupe/Models/DuplicateDetector.swift:117-119 | founding a key that differs from every existing key and is farther than the threshold from each keeps the keys pairwise apart |
| Clustering.OverwritePreservesWellFormed | ByeByeDupe/Models/DuplicateDetector.swift:118 | replacing a key's group by a new one-member group keeps the invariant |
| Clustering.PlacePreservesWellFormed | ByeByeDupe/Models/DuplicateDetector.swift:107-119 | one scan step keeps the invariant: keys pairwise distinct and more than the threshold apart, every member within the threshold of its key |
| Clustering.ScanWellFormed | ByeByeDupe/Models/DuplicateDetector.swift:84-121 | after any number of assets, in any dictionary order, the invariant holds |
| Clustering.AllMembersJoined | ByeByeDupe/Models/DuplicateDetector.swift:111 | appending to a group adds exactly that one entry to the groups' contents |
| Clustering.PlaceAddsEntry | ByeByeDupe/Models/DuplicateDetector.swift:107-119 | with a non-negative threshold, one step adds exactly the new entry and loses none |
| Clustering.ScanPartitions | ByeByeDupe/Models/DuplicateDetector.swift:84-121 | with a non-negative threshold, every hashed asset lands in exactly one group, and nothing else is in any group: skipped assets and assets without an image appear nowhere |
| Clustering.PlaceMembersFrom | ByeByeDupe/Models/DuplicateDetector.swift:107-119 | after one step every member is the new entry or was already a member |
| Clustering.ScanMembersHashed | ByeByeDupe/Models/DuplicateDetector.swift:86-90 | for any threshold, every group member is an asset that passed the photo-resource check and delivered an image, with that asset's fingerprint |
| Clustering.ScanKeepsKeys | ByeByeDupe/Models/DuplicateDetector.swift:109-119 | a key, once founded, stays at its position with the same fingerprint for the rest of the scan |
| Clustering.ScanStepKeepsKeys | ByeByeDupe/Models/DuplicateDetector.swift:109-119 | one more asset keeps every existing group at its position under the same key |
| Clustering.ScanGroupsBound | ByeByeDupe/Models/DuplicateDetector.swift:84-119 | there are never more groups than assets that reached the fingerprinting step |
| Clustering.PlaceNegative | ByeByeDupe/Models/DuplicateDetector.swift:109-119 | with a negative threshold no key matches, so a step keeps every group a singleton |
| Clustering.NegativeThresholdSingletons | ByeByeDupe/Models/DuplicateDetector.swift:107-119 | with a negative threshold every group has exactly one member |
| Clustering.NegativeThresholdFindsNothing | ByeByeDupe/Models/DuplicateDetector.swift:123 | with a negative threshold nothing is reported |
| Clustering.NoDuplicatesAmongSingletons | ByeByeDupe/Models/DuplicateDetector.swift:123 | the filter drops every one-member group |
| Clustering.LargeThresholdOneGroup | ByeByeDupe/Models/DuplicateDetector.swift:107-119 | when the threshold is at least every fingerprint's length, at most one key is ever founded, and exactly one once any asset is hashed |
| Clustering.LargeThresholdAllInOne | ByeByeDupe/Models/DuplicateDetector.swift:107-123 | in that case, with two or more hashed assets, exactly one group is reported and it holds every hashed asset |
| Clustering.AllMembersSingle | ByeByeDupe/Models/DuplicateDetector.swift:75 | the contents of a single group are its members |
| Clustering.ZeroThresholdIdentical | ByeByeDupe/Models/DuplicateDetector.swift:110-111 | with threshold 0 and equal-length fingerprints, every member's fingerprint equals its group's key |
| Clustering.FailedRenderReportedAsDuplicate | ByeByeDupe/Models/DuplicateDetector.swift:42-52 | as written: in the two-asset library [hashed asset, asset whose bitmap could not be produced], the failed asset is reported as the hashed asset's duplicate for every non-negative threshold, including 0, and in every dictionary order |
| Clustering.FindDuplicatesOneGroup | ByeByeDupe/Models/DuplicateDetector.swift:123-126 | a scan that ends with one group of several members reports exactly that group |
| Clustering.ScanSingle | ByeByeDupe/Models/DuplicateDetector.swift:117-119 | a library of one hashed asset ends with one group, keyed by that asset's fingerprint and holding just that asset, whatever the pick |
| Clustering.ScanFailedPair | ByeByeDupe/Models/DuplicateDetector.swift:106-111 | with a non-negative threshold, an empty fingerprint joins the group of the one key present, whatever that key is and whatever the picks |
| Clustering.PlaceJoinsOnlyGroup | ByeByeDupe/Models/DuplicateDetector.swift:109-113 | with one group present, a fingerprint within the threshold of its key is appended to it, in every dictionary order |
| Clustering.EmptyKeyAbsorbsAll | ByeByeDupe/Models/DuplicateDetector.swift:106-119 | as written: when the library's first asset passes the photo-resource check but its bitmap could not be produced, its empty key is within every non-negative threshold of every later fingerprint, so the scan ends with that one group |
| Clustering.FailedFirstReportsEverything | ByeByeDupe/Models/DuplicateDetector.swift:106-123 | as written: in that case, with two or more hashed assets, the whole library is reported as one group of duplicates holding every hashed asset |
| Clustering.HashedEntryOrigin | ByeByeDupe/Models/DuplicateDetector.swift:84-106 | every fingerprinted entry comes from one input asset, with that asset's identifier and fingerprint |
| Clustering.FindDuplicatesSkippingFailed | ByeByeDupe/Models/DuplicateDetector.swift:39-129 | corrected: an asset whose fingerprint is empty is skipped like one whose image failed to load. With distinct identifiers it is never reported, and every reported group still has at least two assets |
| Clustering.SkippedNotReported | ByeByeDupe/Models/DuplicateDetector.swift:105-123 | when the assets' identifiers are distinct, no reported group of the corrected scan contains an asset whose fingerprint came out empty |
| Clustering.SkippedNotInGroup | ByeByeDupe/Models/DuplicateDetector.swift:105-111 | when the assets' identifiers are distinct, no group of the corrected scan has a member with the identifier of an asset whose fingerprint came out empty |
| MetadataMerge.MergeMetadata | ByeByeDupe/Models/SmartMergeHelper.swift:118-131 | the loop over the keys of the incoming dictionary, in any order, yields the key-by-key merge, whose keys are the union of both dictionaries' keys |
| MetadataMerge.MergedSoFarStep | ByeByeDupe/Models/SmartMergeHelper.swift:121-128 | visiting one more key changes only that key's entry; this is why the visiting order does not matter |
| MetadataMerge.MergeCases | ByeByeDupe/Models/SmartMergeHelper.swift:119-128 | the keys are the union of both sides. A key only on the left keeps its value, and a key only on the right takes its value. Two dictionaries are merged recursively. A left value that renders as empty text is replaced by the right one |
| MetadataMerge.MergeKeepsPopulated | ByeByeDupe/Models/SmartMergeHelper.swift:122-127 | every left key stays; a left value that does not render as empty is kept unless both sides hold a dictionary there |
| MetadataMerge.MergeEmptyRight | ByeByeDupe/Models/SmartMergeHelper.swift:118-131 | merging in an empty dictionary changes nothing |
| MetadataMerge.MergeEmptyLeft | ByeByeDupe/Models/SmartMergeHelper.swift:118-131 | merging into an empty dictionary copies the incoming one |
| MetadataMerge.MergeIdempotent | ByeByeDupe/Models/SmartMergeHelper.swift:118-131 | merging a dictionary with itself gives it back, at every nesting depth |
| MetadataMerge.MergeAbsorbs | ByeByeDupe/Models/SmartMergeHelper.swift:118-131 | merging the same dictionary in a second time changes nothing |
| MetadataMerge.MergeFirstWins | ByeByeDupe/Models/SmartMergeHelper.swift:125-127 | merging {"a": "1"} with {"a": "2"} keeps "1" |
| MetadataMerge.MergeEmptyStringYields | ByeByeDupe/Models/SmartMergeHelper.swift:125-126 | merging {"a": ""} with {"a": "2"} takes "2": an empty string counts as absent |
| MetadataMerge.MergeNestedDictionaries | ByeByeDupe/Models/SmartMergeHelper.swift:122-124 | merging {"a": {"x": "1"}} with {"a": {"y": "2"}} gives {"a": {"x": "1", "y": "2"}} |
| SmartMerge.WithoutBest | ByeByeDupe/Models/SmartMergeHelper.swift:24 | keeps exactly the group members whose identifier differs from the best asset's |
| SmartMerge.FoldIn | ByeByeDupe/Models/SmartMergeHelper.swift:29-34 | one completion callback adds the arriving member's keys when it delivered properties and nothing otherwise; a settled value already present is kept |
| SmartMerge.FoldMetadata | ByeByeDupe/Models/SmartMergeHelper.swift:27-35 | the callbacks in completion order never lose a key of the starting properties |
| SmartMerge.PlanMerge | ByeByeDupe/Models/SmartMergeHelper.swift:17-35 | nothing is planned exactly when the best asset's bytes or properties are missing. Otherwise the plan carries the best asset's bytes. Its property keys are the best asset's keys plus every key another member delivered, in any completion order. Every settled best-asset value is kept |
| SmartMerge.MergedImage | ByeByeDupe/Models/SmartMergeHelper.swift:16-42 | a file is produced exactly when the best asset's bytes and properties were fetched and the write succeeded. It carries the best asset's bytes and the union of keys, and every settled best-asset value is kept |
| SmartMerge.MergeAndSave | ByeByeDupe/Models/SmartMergeHelper.swift:44-91 | a change is submitted exactly when bytes, properties and the written file are all present. Success is reported exactly when a change was submitted and committed. The change creates one asset from the best asset's bytes and the union of keys, and deletes the assets of `group` exactly as passed in |
| SmartMerge.SaveCreatesMergedImage | ByeByeDupe/Models/SmartMergeHelper.swift:23-40 | `mergeAndSave` submits exactly the file `mergedImageURL` produces for the same completion order, and submits nothing when that produces nothing |
| SmartMerge.FoldKeys | ByeByeDupe/Models/SmartMergeHelper.swift:27-35 | the fold's keys are the starting keys plus every key of every arriving member that delivered properties |
| SmartMerge.ArrivalKeys | ByeByeDupe/Models/SmartMergeHelper.swift:24-29 | the keys contributed do not depend on the completion order, and the best asset never arrives |
| SmartMerge.FoldKeepsSettled | ByeByeDupe/Models/SmartMergeHelper.swift:53-67 | a starting value that is populated and not a dictionary survives every merge of the fold |
| SmartMerge.FoldWithoutMetadata | ByeByeDupe/Models/SmartMergeHelper.swift:61-64 | members that delivered no properties leave the fold unchanged |
| SmartMerge.FirstArrivalWins | ByeByeDupe/Models/SmartMergeHelper.swift:27-35 | for a key the starting properties lack, the first member to arrive carrying that key at all, when its value there is settled, fixes that key's value for the rest of the fold |
| SmartMerge.BestAloneKeepsItsMetadata | ByeByeDupe/Models/SmartMergeHelper.swift:53-67 | the fold starts from the best asset's properties and never folds in the best asset, so with no other member delivering properties the plan carries exactly the best asset's properties |
| SmartMerge.CompletionOrderMatters | ByeByeDupe/Models/SmartMergeHelper.swift:27-35 | the values, unlike the keys, depend on the completion order: of any two members that bring settled values for a key the best asset lacks, whichever arrives first wins, so swapping their arrival swaps the result |

## Left out

- Photos framework access is left out: `PHImageManager` requests, `PHAssetResource` lookups, `getImageData`, `getFileSize` and `performChanges`. Their outcomes are parameters (`Asset`, `ImageData`, `written`, `committed`).
- `resize` and the CIContext grayscale filter are left out. The model starts from an integer grayscale grid; a failure of either is `Image(None)`, which hashes to the empty fingerprint.
- The RGBA byte stride (`offset * 4`) is left out: the grid holds one gray value per pixel.
- The `CGFloat` mean is left out. The model uses the exact integer comparison `n * p > total`; floating-point rounding of the mean is not modelled.
- The size of the resized bitmap is left out. The model accepts grids of any size, because with screen scale 0.0 the 8×8 resize can yield a larger bitmap.
- `writeImageWithMetadata` (ImageIO encoding) is left out; whether it produced a file is the parameter `written`.
- Removing the temporary file after the commit is left out, because it has no effect on the outcome.
- The concurrency in `findDuplicates` is left out. The semaphore makes each image request synchronous, so the scan is modelled as a sequential fold; the queue hops are left out.
- The concurrency in the smart merge is left out. The `DispatchGroup` callbacks mutate `mergedMetadata` from whichever thread completes; the model assumes they run one at a time in some order (`arrivals`), and a data race between them is not modelled.
- The output order of `findDuplicates` is left out: the source reports dictionary values in unspecified order, and the model reports them in group order.
- Swift's `Any` values are left out: property values are modelled as strings, numbers (`real`), booleans, nested dictionaries and arrays.
- Clustering.FindDuplicates: states membership of the reported groups, not their order, because the source's order is unspecified.
- SmartMerge.PlanMerge: states the key set and the settled values, not every merged value; values depend on the completion order (`SmartMerge.CompletionOrderMatters`).
- SmartMerge.MergedImage: states the key set and the settled best-asset values, not every merged value; values depend on the completion order.
- SmartMerge.MergeAndSave: states the key set of the created asset's properties, not every value, for the same reason.

## Findings

| source | as written | input that shows it | evidently intended | confidence | as-written member | corrected member |
|---|---|---|---|---|---|---|
| ByeByeDupe/Models/DuplicateDetector.swift:42-52 | when resizing or rendering fails, `generateHash` returns `""`; `hammingDistance` over `zip` gives 0 against every key, so that asset joins the first group the scan meets | two assets with photo resources: the first renders normally, the second's bitmap cannot be created; threshold 0 | an asset without a fingerprint is skipped, as an asset without an image is at DuplicateDetector.swift:105, and is never reported as a duplicate | not executed | Clustering.FailedRenderReportedAsDuplicate | Clustering.FindDuplicatesSkippingFailed |
| ByeByeDupe/Models/DuplicateDetector.swift:117-119 | when the library's first asset has a photo resource but its fingerprint is `""`, it is stored as a key, and every later fingerprint is within distance 0 of it | a library whose first photo fails to render, followed by any number of distinct photos; threshold 0 | the same skip: a failed fingerprint never founds a group | not executed | Clustering.FailedFirstReportsEverything | Clustering.FindDuplicatesSkippingFailed |
