# SnapshotTestCase, modelled in Dafny

SnapshotTestCase is an iOS visual-regression harness. It renders a view controller under a
device and appearance configuration, then compares the render with a reference image stored
on disk. It records references in record mode. When a comparison fails, it leaves the
failing render and a `__REF` copy of the reference in a failure folder. This project
models the deterministic core of that harness and proves what it promises.

- **Pixel comparator** (`pixels.dfy`, module `PixelCompare`):
  - the packed 32-bit `Pixel` with its byte-channel getters and setters;
  - the counting loop of `compare(with:tolerance:)` as a method over two `bv32` arrays;
  - the loop's result is proved equal to a recursive count, and that count equals the number of differing positions;
  - the score lies in [0, 1], is 0 for identical images, and does not grow as the threshold grows.
- **Keys and geometry of the older `Snapshot` API** (`snapshot_keys.dfy`, module `SnapshotKeys`):
  - `Config.rawValue`, `filename`, `folder` and `imageUrl`;
  - the device sizes, the render-size closure with its 40-point margin, and the crop;
  - the tolerance decision;
  - the `[Config]` presets and their `count` extension.
- **Reference lifecycle** (`reference_store.dfy`, module `ReferenceStore`): every file-system
  step and the record/verify state machine, as transitions over a file-system value `Disk`.
  A `Disk` holds:
  - the files;
  - the existing folders;
  - the paths where the file system refuses to write, which stand for I/O errors.

  Lemmas about these transitions state the lifecycle's promises:
  - record mode never passes;
  - a missing or unreadable reference leaves the capture in the failure root;
  - a mismatch leaves the capture and the `__REF` copy;
  - a pass touches nothing;
  - recording then verifying passes;
  - verifying twice is idempotent;
  - the walk over configurations attempts every configuration and reports the first error.
- **The `Snapshot` object** (`snapshot_runner.dfy`, module `SnapshotRunner`): a class whose
  `files` and `folders` fields are the file system. Its methods do the same steps one by one
  and are proved to produce exactly the transitions of `ReferenceStore`. The multi-configuration
  `verify` collects errors in a loop.
- **Newer API values**:
  - `SnapshotConfig` and its builder (`snapshot_config.dfy`);
  - `InterfaceStyle` with its ids, `init?(id:)` and id-based equality (`interface_style.dfy`);
  - the `Device` catalog (`devices.dfy`);
  - `SnapshotImageType` (`image_type.dfy`);
  - `SnapshotError.asSnapshotError` (`errors.dfy`);
  - `LaunchEnvironment` (`launch_environment.dfy`);
  - `tryMapAsync` (`tasks.dfy`).
- **Test naming**:
  - the name pipeline and file-path handling of the newer `verifySnapshot` (`test_names.dfy`);
  - suite and name derivation and the timeout of the older one (`legacy_test_case.dfy`).
  - The Foundation string operations they rely on are in `strings.dfy`: `range(of:)`,
    `replacingOccurrences`, `split`, `joined` and the `StringExtensions` helpers.

Some behaviour of the code is easy to miss. The model follows it:
- A passing verification deletes no stale failure files: the success path of
  `Sources/SnapshotTestCase/Snapshot.swift:141-154` touches no file.
  `ReferenceStore.PassLeavesDiskUnchanged` proves it.
- When saving the capture, or copying the reference, fails on the failure path, that error is
  reported instead of the load or comparison error (`Sources/SnapshotTestCase/Snapshot.swift:131-153`).
- The older test timeout is 10 × n² × renderDelay for n configurations, not proportional to n.
  `Sources/SnapshotTest/SnapshotTestCase.swift:53` multiplies by `configs.count`, and the
  `[Config]` extension `count` at `Sources/SnapshotTestCase/Snapshot.swift:500` is
  `devices.count * styles.count`.

## Model

| member | source | states |
|---|---|---|
| PixelCompare.Pixel.WithRed | Sources/SnapshotTestCase/Extensions/UIImageExtensions.swift:99-102 | setting red reads back the new byte; green, blue and alpha are unchanged |
| PixelCompare.Pixel.WithGreen | Sources/SnapshotTestCase/Extensions/UIImageExtensions.swift:104-107 | setting green reads back the new byte; the other three channels are unchanged |
| PixelCompare.Pixel.WithBlue | Sources/SnapshotTestCase/Extensions/UIImageExtensions.swift:109-112 | setting blue reads back the new byte; the other three channels are unchanged |
| PixelCompare.Pixel.WithAlpha | Sources/SnapshotTestCase/Extensions/UIImageExtensions.swift:114-117 | setting alpha reads back the new byte; the other three channels are unchanged |
| PixelCompare.ChannelsOfPacked | Sources/SnapshotTestCase/Extensions/UIImageExtensions.swift:99-117 | the four getters read back exactly the bytes packed into the pixel |
| PixelCompare.PackedLayout | Sources/SnapshotTestCase/Extensions/UIImageExtensions.swift:97-117 | the packed value is red, green<<8, blue<<16 and alpha<<24 or-ed together |
| PixelCompare.DiffCount | Sources/SnapshotTestCase/Extensions/UIImageExtensions.swift:67-77 | the number of differing positions never exceeds the pixel count |
| PixelCompare.DiffCountIsCardinality | Sources/SnapshotTestCase/Extensions/UIImageExtensions.swift:68-76 | the count is exactly the number of indices whose packed values differ by more than the threshold |
| PixelCompare.DiffCountIdentical | Sources/SnapshotTestCase/Extensions/UIImageExtensions.swift:74 | identical buffers have no differing pixel for any threshold >= 0 |
| PixelCompare.DiffCountMonotone | Sources/SnapshotTestCase/Extensions/UIImageExtensions.swift:74 | raising the threshold never increases the count |
| PixelCompare.DiffCountSymmetric | Sources/SnapshotTestCase/Extensions/UIImageExtensions.swift:71-74 | the count is the same whichever image is the reference |
| PixelCompare.CountDifferentPixels | Sources/SnapshotTestCase/Extensions/UIImageExtensions.swift:57-77 | the loop over the two buffers returns the number of differing positions, at most the pixel count |
| PixelCompare.Score | Sources/SnapshotTestCase/Extensions/UIImageExtensions.swift:4-9 | a score exists exactly when sizes match and both images decode, and it lies in [0, 1] |
| PixelCompare.Compare | Sources/SnapshotTestCase/Extensions/UIImageExtensions.swift:4-83 | filling the two buffers and running the loop yields the score, or none when the images cannot be compared |
| PixelCompare.ScoreOfSelf | Sources/SnapshotTestCase/Extensions/UIImageExtensions.swift:74-82 | an image compared with itself scores 0 |
| PixelCompare.ScoreMonotone | Sources/SnapshotTestCase/Extensions/UIImageExtensions.swift:74-82 | the score is non-increasing in the threshold |
| PixelCompare.CarryAcrossChannelsNotCounted | Sources/SnapshotTestCase/Extensions/UIImageExtensions.swift:4 | two pixels differing in every channel but one apart as integers are not counted at the default threshold 1000 |
| UIKit.Divide | Sources/SnapshotTestCase/Snapshot.swift:524-526 | in exact arithmetic, each component of the quotient times the divisor gives back the original component |
| SnapshotKeys.Device.Size | Sources/SnapshotTestCase/Snapshot.swift:433-442 | the logical sizes are 375×667, 393×852 and 430×932 |
| SnapshotKeys.InterfaceStyle.OverrideUserInterfaceStyle | Sources/SnapshotTestCase/Snapshot.swift:444-451 | the UIKit style is dark exactly for the dark style |
| SnapshotKeys.Config.RawValue | Sources/SnapshotTestCase/Snapshot.swift:486-495 | splitting the key on "_" gives back the device, style and language raw values; the key has no "/" |
| SnapshotKeys.RawValueInjective | Sources/SnapshotTestCase/Snapshot.swift:486-495 | two configurations have the same key exactly when they are the same configuration |
| SnapshotKeys.RawValueEnding | Sources/SnapshotTestCase/Snapshot.swift:486-494 | the key ends with the last letter of a language code |
| SnapshotKeys.Devices | Sources/SnapshotTestCase/Snapshot.swift:498 | the device of each configuration, in order |
| SnapshotKeys.Styles | Sources/SnapshotTestCase/Snapshot.swift:499 | the style of each configuration, in order |
| SnapshotKeys.Count | Sources/SnapshotTestCase/Snapshot.swift:500 | `count` is the square of the number of configurations |
| SnapshotKeys.Presets | Sources/SnapshotTestCase/Snapshot.swift:502-521 | `one`, `default` and `all` have counts 1, 4 and 9 and pairwise distinct keys |
| SnapshotKeys.RenderSize | Sources/SnapshotTestCase/Snapshot.swift:301-324 | for every size case the width is the requested width and the height is the requested height plus 40 |
| SnapshotKeys.CropRestoresRequestedSize | Sources/SnapshotTestCase/Snapshot.swift:370-380 | in exact arithmetic, cropping the top 40 points off the render gives the requested size |
| SnapshotKeys.Execute | Sources/SnapshotTestCase/Snapshot.swift:281-295 | the executed test keeps suite, name and suffix and carries the configuration and capture |
| SnapshotKeys.Filename | Sources/SnapshotTestCase/Snapshot.swift:403-413 | name, then "_" and the suffix if any, then "_" and the configuration key |
| SnapshotKeys.ImageUrl | Sources/SnapshotTestCase/Snapshot.swift:266-275 | the file is `<root>/<suite>/<filename><suffix>.png` |
| SnapshotKeys.UrlAfterRoot | Sources/SnapshotTestCase/Snapshot.swift:266-275 | the path is the root followed by a tail fixed by the test and the suffix alone |
| SnapshotKeys.FilesInImagePath | Sources/SnapshotTestCase/Snapshot.swift:266-275 | the capture and its `__REF` copy both lie directly in the folder `imagePath` names |
| SnapshotKeys.UrlShape | Sources/SnapshotTestCase/Snapshot.swift:271-275 | the path is a head fixed by root, suite, name and suffix, then the key, then the extra suffix and extension |
| SnapshotKeys.UrlDistinguishesConfigs | Sources/SnapshotTestCase/Snapshot.swift:403-413 | the same test under two configurations maps to the same file exactly when the configurations are equal |
| SnapshotKeys.UrlDistinguishesRoots | Sources/SnapshotTestCase/Snapshot.swift:266-275 | the same test under two roots maps to the same file exactly when the roots are equal |
| SnapshotKeys.ReferenceCopyNeverACapture | Sources/SnapshotTestCase/Snapshot.swift:228-229 | a `__REF` copy never has the path of a capture or reference file |
| SnapshotKeys.CompareWithReference | Sources/SnapshotTestCase/Snapshot.swift:419-430 | with threshold 1,000,000: passes exactly when the score exists and is at most the tolerance; no score is `pngRepresentation`; otherwise `referenceImageNotEqual(score)` |
| SnapshotKeys.CompareWithItselfPasses | Sources/SnapshotTestCase/Snapshot.swift:419-430 | a capture compared with an identical reference passes for any tolerance >= 0 |
| SnapshotKeys.RedGreenChangeNotCounted | Sources/SnapshotTestCase/Snapshot.swift:423 | at threshold 1,000,000 a change confined to red and green is not a differing pixel |
| ReferenceStore.PngData | Sources/SnapshotTestCase/Snapshot.swift:177-179 | PNG data exists exactly for an image with a bitmap, and encodes that image |
| ReferenceStore.CreateFolder | Sources/SnapshotTestCase/Snapshot.swift:242-264 | afterwards the folder exists exactly on success; fails only when it was absent and not creatable; adds only that folder |
| ReferenceStore.SaveSnapshot | Sources/SnapshotTestCase/Snapshot.swift:173-192 | succeeds exactly when the image encodes, the folder exists or can be created and the file is writable; then writes or overwrites only that file; no encoding fails with `pngRepresentation` and changes nothing; a folder that cannot be created fails with `createFolder` and changes nothing; an unwritable file fails with `saveSnapshot` after the folder was created |
| ReferenceStore.DeleteSnapshotIfNeeded | Sources/SnapshotTestCase/Snapshot.swift:194-207 | afterwards the file is gone exactly on success; a missing file counts as deleted; fails only on a present, unremovable file, with `deleteSnapshot` |
| ReferenceStore.LoadSnapshot | Sources/SnapshotTestCase/Snapshot.swift:209-221 | missing file: `referenceImageDoesNotExist`; undecodable file: `loadSnapshot`; otherwise the stored image |
| ReferenceStore.CopySnapshot | Sources/SnapshotTestCase/Snapshot.swift:223-240 | succeeds exactly when the source exists, the destination folder exists and the `__REF` path is writable; then the `__REF` file holds the source's content and nothing else changes; an old copy that cannot be removed fails with `deleteSnapshot` and changes nothing; a failed copy fails with `copySnapshot` and leaves the old copy removed |
| ReferenceStore.OnLoadFailure | Sources/SnapshotTestCase/Snapshot.swift:131-140 | always a failure, on the file system left by saving the capture to the failure root; after a successful save the capture is stored and the load error is reported, otherwise the save error |
| ReferenceStore.OnCompareFailure | Sources/SnapshotTestCase/Snapshot.swift:141-154 | always a failure; when the save and the copy succeed the capture and the `__REF` copy are stored and the comparison error is reported, otherwise the error of the failed save or copy |
| ReferenceStore.VerifyConfig | Sources/SnapshotTestCase/Snapshot.swift:124-156 | record mode never passes; a failed render fails with its own error and changes nothing; a pass changes nothing; the refused paths stay refused |
| ReferenceStore.Failures | Sources/SnapshotTestCase/Snapshot.swift:96-103 | at most one error per configuration, each the error of a failing configuration |
| ReferenceStore.Aggregate | Sources/SnapshotTestCase/Snapshot.swift:107-114 | passes exactly when every outcome passed; a failure is one of the outcomes |
| ReferenceStore.VerifyAll | Sources/SnapshotTestCase/Snapshot.swift:92-114 | the file system is the one the walk leaves; passes exactly when every configuration passed |
| ReferenceStore.Record | Sources/SnapshotTestCase/Snapshot.swift:158-169 | outside record mode a no-op success; in record mode never a success |
| ReferenceStore.RecordAlwaysSignals | Sources/SnapshotTestCase/Snapshot.swift:128-130 | in record mode a configuration never passes; with a successful save the render is the reference and the outcome is `didRecord` |
| ReferenceStore.ReferenceProblemPersistsCapture | Sources/SnapshotTestCase/Snapshot.swift:131-140 | without a loadable reference the capture is saved to the failure root and the load error is reported, or the save error if saving failed |
| ReferenceStore.PassLeavesDiskUnchanged | Sources/SnapshotTestCase/Snapshot.swift:141-154 | a passing verification writes and deletes nothing |
| ReferenceStore.MismatchPersistsBoth | Sources/SnapshotTestCase/Snapshot.swift:141-153 | on a mismatch with a writable failure root the capture and a `__REF` copy of the reference are stored, and the comparison error is reported |
| ReferenceStore.RecordThenVerifyPasses | Sources/SnapshotTestCase/Snapshot.swift:124-169 | after recording a render, verifying the same render passes and changes nothing |
| ReferenceStore.SaveWhenStored | Sources/SnapshotTestCase/Snapshot.swift:173-192 | saving a capture already stored changes nothing |
| ReferenceStore.CopyWhenStored | Sources/SnapshotTestCase/Snapshot.swift:223-240 | copying a reference whose copy is already in place changes nothing |
| ReferenceStore.VerifyIdempotent | Sources/SnapshotTestCase/Snapshot.swift:124-156 | verifying twice gives the same outcome and the same file system as verifying once |
| ReferenceStore.VerifyEach | Sources/SnapshotTestCase/Snapshot.swift:97-106 | one outcome per configuration |
| ReferenceStore.VerifyEachAppend | Sources/SnapshotTestCase/Snapshot.swift:97-106 | running `c1 + c2` is running `c1`, then `c2` on what it left, whatever `c1`'s outcomes |
| ReferenceStore.VerifyEachStep | Sources/SnapshotTestCase/Snapshot.swift:98-103 | each configuration's outcome is that of verifying it alone on the state the earlier ones left |
| ReferenceStore.FailuresFirst | Sources/SnapshotTestCase/Snapshot.swift:100-103 | no error is collected exactly when all pass; the first collected error is that of the first failing configuration |
| ReferenceStore.FirstFailure | Sources/SnapshotTestCase/Snapshot.swift:107-114 | success exactly when no error was collected, otherwise the first collected error |
| ReferenceStore.AggregateReportsFirstFailure | Sources/SnapshotTestCase/Snapshot.swift:96-114 | the walk passes exactly when every configuration passed, and otherwise reports the first failing configuration's error |
| ReferenceStore.RecordModeWalkFails | Sources/SnapshotTestCase/Snapshot.swift:96-130 | in record mode a non-empty walk never passes |
| ReferenceStore.PassingWalkLeavesDiskUnchanged | Sources/SnapshotTestCase/Snapshot.swift:96-154 | a walk in which every configuration passes leaves the file system as it was |
| SnapshotRunner.SettingsFrom | Sources/SnapshotTestCase/Snapshot.swift:455-483 | settings exist exactly when both paths are set; record mode iff the flag is an argument; the tolerance follows the launch environment |
| SnapshotRunner.RecordFlagOnlySwitchesRecordMode | Sources/SnapshotTestCase/Snapshot.swift:473-475 | passing the record flag turns record mode on and changes no other setting |
| SnapshotRunner.Snapshot.constructor | Sources/SnapshotTestCase/Snapshot.swift:78-90 | the object holds the environment's settings; both paths must be set |
| SnapshotRunner.Snapshot.CreateFolder | Sources/SnapshotTestCase/Snapshot.swift:242-264 | the new file system and the outcome are those of `ReferenceStore.CreateFolder` |
| SnapshotRunner.Snapshot.SaveSnapshot | Sources/SnapshotTestCase/Snapshot.swift:173-192 | the new file system and the outcome are those of `ReferenceStore.SaveSnapshot` |
| SnapshotRunner.Snapshot.DeleteSnapshotIfNeeded | Sources/SnapshotTestCase/Snapshot.swift:194-207 | the new file system and the outcome are those of `ReferenceStore.DeleteSnapshotIfNeeded` |
| SnapshotRunner.Snapshot.LoadSnapshot | Sources/SnapshotTestCase/Snapshot.swift:209-221 | the result is that of `ReferenceStore.LoadSnapshot` on the current files |
| SnapshotRunner.Snapshot.CopySnapshot | Sources/SnapshotTestCase/Snapshot.swift:223-240 | the new file system and the outcome are those of `ReferenceStore.CopySnapshot` |
| SnapshotRunner.Snapshot.Compare | Sources/SnapshotTestCase/Snapshot.swift:419-430 | running the pixel loop gives the outcome of `CompareWithReference` at the object's tolerance |
| SnapshotRunner.Snapshot.Record | Sources/SnapshotTestCase/Snapshot.swift:158-169 | the new file system and the outcome are those of `ReferenceStore.Record` |
| SnapshotRunner.Snapshot.VerifyConfig | Sources/SnapshotTestCase/Snapshot.swift:124-156 | the new file system and the outcome are those of `ReferenceStore.VerifyConfig` |
| SnapshotRunner.Snapshot.VerifyAll | Sources/SnapshotTestCase/Snapshot.swift:92-114 | the loop collecting errors leaves the file system and returns the outcome of `ReferenceStore.VerifyAll` |
| Strings.RangeOf | Sources/SnapshotTestCase/Extensions/StringExtensions.swift:5 | the start of the leftmost occurrence, and none exactly when the pattern does not occur |
| Strings.ReplacingFirst | Sources/SnapshotTestCase/Extensions/StringExtensions.swift:4-10 | unchanged without an occurrence; otherwise the text before the first occurrence, the replacement, then everything after it |
| Strings.Prepending | Sources/SnapshotTestCase/Extensions/StringExtensions.swift:12-14 | the prefix followed by the receiver |
| Strings.Filename | Sources/SnapshotTestCase/Extensions/StringExtensions.swift:16-18 | the result contains neither "/" nor "." |
| Strings.FilenameOfPath | Sources/SnapshotTestCase/Extensions/StringExtensions.swift:16-18 | the base name is recovered from `<dir>/<base>.<ext>` |
| Strings.ReplacingOccurrences | Sources/SnapshotTestCase/SnapshotTestCase.swift:55-57 | unchanged when the pattern does not occur; removal never lengthens the string |
| Strings.ReplacingAtFirstOccurrence | Sources/SnapshotTestCase/SnapshotTestCase.swift:55-57 | the pass copies the text before the leftmost occurrence, emits the replacement, and continues on the text after that occurrence |
| Strings.RemovingCharacterRemovesAll | Sources/SnapshotTestCase/SnapshotTestCase.swift:56 | removing "]" leaves no "]" |
| Strings.Split | Sources/SnapshotTestCase/SnapshotTestCase.swift:59 | pieces are non-empty, contain no separator and consist of characters of the input |
| Strings.SplitJoin | Sources/SnapshotTestCase/Snapshot.swift:486-494 | splitting a join of non-empty, separator-free pieces gives back the pieces |
| Strings.FirstSeparatorSplits | Sources/SnapshotTestCase/SnapshotConfig.swift:13-15 | a separator-free head, the separator and a tail: equal joins have equal heads and equal tails |
| Strings.SplitEmptyIff | Sources/SnapshotTestCase/SnapshotTestCase.swift:59-64 | there are no pieces exactly when every character is a separator |
| SnapshotErrors.AsSnapshotError | Sources/SnapshotTestCase/SnapshotError.swift:22-30 | a `SnapshotError` is returned unchanged, any other error becomes `unknown`; the result is `unknown` only for foreign errors or an `unknown` input |
| SnapshotErrors.AsSnapshotErrorIdempotent | Sources/SnapshotTestCase/SnapshotError.swift:23-29 | converting twice equals converting once |
| SnapshotErrors.AsSnapshotErrorInjective | Sources/SnapshotTestCase/SnapshotError.swift:23-29 | two errors convert alike exactly when they are equal or one is the `unknown` wrapping of the other |
| InterfaceStyles.InterfaceStyle.Id | Sources/SnapshotTestCase/Models/InterfaceStyle.swift:10-16 | "light" exactly for light, "dark" exactly for dark, and "widget" followed by the mode's text exactly for a widget mode |
| InterfaceStyles.FromId | Sources/SnapshotTestCase/Models/InterfaceStyle.swift:18-24 | a style is found exactly for "light" and "dark", and its id is the input |
| InterfaceStyles.FromIdInvertsId | Sources/SnapshotTestCase/Models/InterfaceStyle.swift:10-24 | `init?(id:)` inverts `id` for light and dark and rejects every widget id |
| InterfaceStyles.EqualIsSameStyle | Sources/SnapshotTestCase/Models/InterfaceStyle.swift:43-46 | equality by id holds exactly for the same style |
| InterfaceStyles.OverrideUserInterfaceStyle | Sources/SnapshotTestCase/Models/InterfaceStyle.swift:32-38 | the UIKit style is light exactly for the light style; dark and every widget mode are dark |
| Devices.NewDevice | Sources/SnapshotTestCase/Device.swift:8-14 | the id is the name and, in exact arithmetic, the stored size times the resolution is the given size |
| Devices.DefaultResolutionKeepsSize | Sources/SnapshotTestCase/Device.swift:8 | at the default resolution 1 the size is stored unchanged |
| Devices.Default | Sources/SnapshotTestCase/Device.swift:22 | the default device is "6.1" |
| Devices.Catalog | Sources/SnapshotTestCase/Device.swift:18-20 | the catalog sizes are 375×667, 393×852 and 430×932, with pairwise distinct ids |
| SnapshotConfigs.Config.Id | Sources/SnapshotTestCase/SnapshotConfig.swift:13-15 | the device id, "_" and the style id |
| SnapshotConfigs.Config.Size | Sources/SnapshotTestCase/SnapshotConfig.swift:35-39 | the device's width and height |
| SnapshotConfigs.NewConfig | Sources/SnapshotTestCase/SnapshotConfig.swift:8-11 | the configuration holds the given device and style |
| SnapshotConfigs.NewConfigDefaultsToLight | Sources/SnapshotTestCase/SnapshotConfig.swift:8 | without a style the configuration is light |
| SnapshotConfigs.IdDistinguishesConfigs | Sources/SnapshotTestCase/SnapshotConfig.swift:13-15 | with "_"-free names, two ids are equal exactly when the device names and styles are |
| SnapshotConfigs.SnapshotConfig.WithConfig | Sources/SnapshotTestCase/SnapshotConfig.swift:26-32 | the count grows by one, the old configurations stay in front and the new one is last |
| SnapshotConfigs.BuildCollectsInOrder | Sources/SnapshotTestCase/SnapshotConfig.swift:20-32 | a chain of `config(_:)` calls from the empty value holds exactly its arguments in order |
| ImageTypes.PathExtension | Sources/SnapshotTestCase/SnapshotImageType.swift:8-13 | "png" for png, "jpeg" for every JPEG quality |
| ImageTypes.ExtensionIdentifiesFormat | Sources/SnapshotTestCase/SnapshotImageType.swift:8-13 | equal extensions, or equal file paths, exactly for the same format |
| LaunchEnvironment.Lookup | Sources/SnapshotTestCase/Models/LaunchEnvironment.swift:11-17 | the set value, or the default when the key is unset |
| LaunchEnvironment.RecordMode | Sources/SnapshotTestCase/Models/LaunchEnvironment.swift:19-21 | record mode exactly when some argument is "-RecordingSnapshot" |
| LaunchEnvironment.Tolerance | Sources/SnapshotTestCase/Models/LaunchEnvironment.swift:23-28 | 0 when unset or unparsable, the parsed value otherwise |
| LaunchEnvironment.SettingsAreIndependent | Sources/SnapshotTestCase/Models/LaunchEnvironment.swift:11-28 | each path reads only its own key; unset paths are "." and "../_Failures" |
| Tasks.TryMap | Sources/SnapshotTestCase/Extensions/TaskExtensions.swift:4-11 | succeeds exactly when the block succeeds on every element, and then output i is the block's value on element i |
| Tasks.Invoked | Sources/SnapshotTestCase/Extensions/TaskExtensions.swift:5-9 | the block runs on a prefix of the input |
| Tasks.SuccessInvokesAll | Sources/SnapshotTestCase/Extensions/TaskExtensions.swift:5-10 | on success the block ran on every element |
| Tasks.FailureIsFirstError | Sources/SnapshotTestCase/Extensions/TaskExtensions.swift:8-9 | a failure is the error of the first failing element, and the block ran on exactly the elements up to it |
| Tasks.LaterElementsIrrelevant | Sources/SnapshotTestCase/Extensions/TaskExtensions.swift:8-9 | elements after a failure do not change the result |
| TestNames.NameTokens | Sources/SnapshotTestCase/SnapshotTestCase.swift:54-60 | the words are non-empty and contain no space and no "]" |
| TestNames.NormalisedHasNoBracket | Sources/SnapshotTestCase/SnapshotTestCase.swift:55-58 | no "]" survives the normalisation |
| TestNames.FirstAndLast | Sources/SnapshotTestCase/SnapshotTestCase.swift:65-67 | equal first and last words give that word; otherwise the first word, "_" and the last word |
| TestNames.GetTestCaseName | Sources/SnapshotTestCase/SnapshotTestCase.swift:53-68 | a blank normalised name gives the input back; otherwise the result has no space and no "]", and is the first word when it equals the last, else the first word, "_" and the last word |
| TestNames.NoWordsIffBlank | Sources/SnapshotTestCase/SnapshotTestCase.swift:59-64 | the name falls back to the input exactly when the normalised name is blank |
| TestNames.DeletingLastPathComponent | Sources/SnapshotTestCase/SnapshotTestCase.swift:48-51 | a prefix of the path that ends in "/" (or is empty), with no "/" after it |
| TestNames.DeletingLastPathComponentOfFile | Sources/SnapshotTestCase/SnapshotTestCase.swift:48-51 | the folder of `<dir>/<file>` is `<dir>/` |
| TestNames.AssembleTestCase | Sources/SnapshotTestCase/SnapshotTestCase.swift:39-44 | the test case holds the file's folder, the derived name and the caller's render delay |
| LegacyTestCases.Suite | Sources/SnapshotTest/SnapshotTestCase.swift:60-63 | a suite, when there is one, is non-empty and has no "/" |
| LegacyTestCases.GetTestCase | Sources/SnapshotTest/SnapshotTestCase.swift:59-81 | none exactly when there is no suite or no word; otherwise the suite and the name `TestNames.GetTestCaseName` derives from the same input |
| LegacyTestCases.SuiteIsFolderBelowReferencePath | Sources/SnapshotTest/SnapshotTestCase.swift:60-63 | a file at `<referencePath>/<suite>/...` belongs to `suite` |
| LegacyTestCases.Timeout | Sources/SnapshotTest/SnapshotTestCase.swift:53 | the timeout is 10 × n² × renderDelay for n configurations |
| LegacyTestCases.DefaultTimeout | Sources/SnapshotTest/SnapshotTestCase.swift:53 | with the default configurations and delay the timeout is 16 seconds |
| LegacyTestCases.VerifySnapshot | Sources/SnapshotTest/SnapshotTestCase.swift:31-57 | a parse failure with "Was not able to parse test suite and name" exactly when no test case is derived; otherwise the test case with the caller's suffix, size and delay, the configurations and the timeout |

## Left out

- Rendering (`create`, `renderSnapshot`, the window handling of `takeSnapshot` and the bitmap side of `crop`) drives UIKit. It is the parameter `render` of the verification functions and methods. Its errors (`createView`, `invalidContext`, `takeSnapshot`, `cropSnapshot`) are whatever `render` returns.
- CoreGraphics decoding in `compare(with:tolerance:)` (contexts, colour spaces, `draw`), `pixelData` and `CIImage.cgImage` are foreign calls. An image either carries its pixel buffer or does not decode.
- PixelCompare.Comparable: image sizes are compared in pixels. The source compares point sizes, and an image and reference of equal point size but different scale would give buffers of different lengths.
- PixelCompare.Decodable: an image with a zero dimension counts as undecodable. The source would divide 0 by 0 in floating point.
- SnapshotKeys.CropRestoresRequestedSize: sizes are exact reals. `CGFloat` is a `Double`, where adding and then removing the 40-point margin can round: (0.1 + 40) - 40 is 0.10000000000000142.
- The score is a real number, not a `CGFloat`, and the difference of two packed values is taken on unbounded integers, as Swift does on 64-bit `Int`.
- The `retry(1)` on `referenceImageNotEqual` in `verify(test:with configs:)` is not modelled. The operator is not part of the shown sources.
- Combine and async plumbing (`Publishers.Serial`, `Future`, `wait`, continuations, timeout races) is left out. Configurations run in order, and the timeout is only computed, never enforced.
- `print` of saved paths and collected errors is left out.
- Errors carrying a Foundation `Error` (`saveSnapshot`, `copySnapshot`, `deleteSnapshot`, `createFolder`) carry the refused path instead. `comparison(Error)` is never raised by the shown code.
- The file system is a map of paths. There is no URL normalisation (repeated or trailing "/", ".", ".."), and writing can fail only at the refused paths.
- TestNames.DeletingLastPathComponent: models a file path without a trailing "/". URL resolution of relative paths against the working directory is not modelled.
- Strings are sequences of characters. Swift's Unicode canonical equivalence in comparisons and searches is not modelled. `Substring.string` is the identity on those sequences.
- InterfaceStyles.WidgetRenderingMode: a widget mode is represented by the text its id carries after "widget". `String.uppercasedFirst` and WidgetKit's description of the mode are not shown.
- The SwiftUI and UIKit modifiers of `InterfaceStyle.swift` (`interfaceStyle(_:)`) and `SnapshotImageType.data` (PNG/JPEG encoders) are view and encoder code. They are left out.
- Devices.NewDevice: requires a non-zero resolution. The source divides in floating point, where 0 gives infinities. Sizes are exact reals, so the `Double` rounding of the quotient is not modelled. In `Double`, width 1 at resolution 49 stores 1/49, and multiplying back gives 0.9999999999999999.
- UIKit.Divide: sizes are exact reals, so the `Double` rounding of `CGFloat` division is not modelled. The only divisions the harness makes, the catalog sizes at `Sources/SnapshotTestCase/Snapshot.swift:437-439` (750/2, 1334/2, 1179/3, 2556/3, 1290/3, 2796/3), have integer quotients and are exact in `Double` as well.
- `Double(_:)` parsing of the tolerance is the parameter `parseDouble`.
- SnapshotRunner.Snapshot.constructor: the `fatalError` for a missing path is its precondition.
- `SnapshotConfig.default` and the async `Snapshot.verify(testCase:with:)` of the newer API are not shown, so the newer `verifySnapshot` is modelled up to the test case it builds.
