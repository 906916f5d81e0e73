# Zeiss Cirrus OCT export to NIfTI, modelled in Dafny

`ZeissDicomParser.py` turns the export of a Zeiss Cirrus OCT machine into
NIfTI volumes. For each data directory and each requested scan type
(Macular Cube, Angiography 3x3 or Angiography 8x8) it does four things:

1. It finds the DICOM archives and the `.DCM` files they unpack to. It
   keeps those whose code meaning names the scan type
   (`retrieveDicomFiles`).
2. It reads the slice thickness, pixel spacing, image size and bit depth
   of every such file (`parseDicom`). Each file is checked against the
   per-type sanity rules.
3. It averages the valid, in-range files into one property set
   (`aggregateDicomProperties`).
4. It finds the single raw volume file in the IMG archive. It reshapes
   its bytes into a (width, depth, slices) volume and writes it as a
   NIfTI image with a diagonal affine (`createNifty`).

The Dafny model has one module per concern:

- `Wrappers`: `Option` and `Result`.
- `Failures`: one failure per raise site or `exit(1)` of the script.
- `Text`: Python's substring test, `str.split`, and the
  `re.sub('[^0-9.]', '', s.split('\x00')[0])` cleanup. It also models
  `float()` on the cleaned text, by a digit scanner proved equal to a
  split-at-the-dot reading.
- `ScanTypes`: the three scan types, the script's reversed substring
  tests on them, the output file names and the `-t` argument.
- `DicomProperties`: `parseDicom` on a DICOM record.
- `Aggregation`: the accept-or-break loop and the averages.
- `Volume`: the numpy reshape, moveaxis, transpose and flip chain, the
  affine and the NIfTI header.
- `FileSelection`: walking directories, the file and directory name
  tests, the "exactly one candidate" rule and the approval of DICOM files
  by code meaning.
- `Pipeline`: `retrieveDicomFiles`, `createNifty`, the list of data
  directories, and the main loop over directories and scan types.

The loops of the script are methods proved equal to specification
functions. The properties of those functions are proved as lemmas.

The filesystem is modelled as three function parameters:

- `os.walk`;
- `pydicom.dcmread`;
- `np.fromfile`.

Exceptions and `exit(1)` become `Err` values.

A slice thickness is rejected when it is exactly 0 (line 220) or above
1.0 (line 318). For a Macular Cube nothing else bounds it, so a negative
decoded value passes, although a thickness in (0, 1] mm is what the
checks aim at. For angiography the isotropy check (lines 274-275) keeps
it within 0.0005 mm of a positive pixel width, so it stays above
-0.0005 mm. The model follows the code: `Aggregation.AggregateBounds`
proves `slice <= 1.0` and the isotropy bound, not `slice > 0`.

## Model

| member | source | states |
|---|---|---|
| Text.ContainsIff | ZeissDicomParser.py:39 | Python's `p in s` holds exactly when `p` occurs in `s` at some index |
| Text.ContainsTransitive | ZeissDicomParser.py:144 | a substring of a substring is a substring |
| Text.SplitPartsFree | ZeissDicomParser.py:249 | no part of `s.split(sep)` contains the separator |
| Text.SplitCount | ZeissDicomParser.py:249 | `s.split(sep)` has one more part than `s` has separators |
| Text.JoinSplit | ZeissDicomParser.py:249 | joining the parts of a split gives back the text |
| Text.SplitJoin | ZeissDicomParser.py:249 | splitting separator-free parts joined by the separator gives back the parts |
| Text.FirstFieldIsPrefix | ZeissDicomParser.py:214 | `s.split('\x00')[0]` is the longest prefix without NUL, ending at the first NUL or at the end |
| Text.KeepNumericCounts | ZeissDicomParser.py:214 | the regex removal keeps every digit and dot, with their counts, and drops every other character |
| Text.CleanIsNumeric | ZeissDicomParser.py:212-214 | the cleaned text holds only digits and dots, and no NUL |
| Text.CleanIsSubsequence | ZeissDicomParser.py:212-214 | the cleaned text is a subsequence of the text before the first NUL |
| Text.CleanIdempotent | ZeissDicomParser.py:212-214 | cleaning cleaned text changes nothing |
| Text.ParseDecimal | ZeissDicomParser.py:213-214 | `float()` of cleaned text is never negative |
| Text.ParseDecimalBySplit | ZeissDicomParser.py:213-214 | the digit scanner equals reading the text split at its dot: whole part plus fraction over a power of ten |
| Text.ParseField | ZeissDicomParser.py:213-214 | the cleanup followed by `float()` never yields a negative number |
| Text.ParseDecimalDefined | ZeissDicomParser.py:213-214 | `float()` of cleaned text succeeds exactly when it has a digit and at most one dot |
| Text.ParseNatDigits | ZeissDicomParser.py:236-238 | an integer's decimal text survives the cleanup and `float()` as the same number |
| ScanTypes.LabelContainment | ZeissDicomParser.py:78-83 | the reversed test `scanType in "<label>"` holds exactly when the label is the scan type's own |
| ScanTypes.AngiographyTypes | ZeissDicomParser.py:274 | `"Angiography" in scanType` holds exactly for the two angiography types |
| ScanTypes.LabelsPassGuard | ZeissDicomParser.py:130-134 | every scan-type label passes the guard of `retrieveDicomFiles` |
| ScanTypes.OutputFileNameByType | ZeissDicomParser.py:77-83 | the if-chain binds the output name for every scan type, and it is the type's volume name plus `.nii` |
| ScanTypes.OutputFileNamesDistinct | ZeissDicomParser.py:77-83 | different scan types get different output names |
| ScanTypes.ExpandScanTypes | ZeissDicomParser.py:406-411 | an accepted `-t` value expands to at least one scan type, and each is named by the value itself or by `All`/`all` |
| ScanTypes.ExpandLabel | ZeissDicomParser.py:406-411 | a label given with `-t` converts exactly that scan type |
| ScanTypes.AllCoversEveryType | ZeissDicomParser.py:406-408 | `All` and `all` expand to the three types, each exactly once |
| ScanTypes.ExpandRefusesGuardFailures | ZeissDicomParser.py:130-134 | a `-t` value that fails the guard is never converted |
| DicomProperties.ReadNumber | ZeissDicomParser.py:200-217 | a missing attribute reads as -1; only text that `float()` cannot read raises, naming the attribute; decoded text is never negative |
| DicomProperties.ParseDicom | ZeissDicomParser.py:187-290 | the pixel spacings it returns are never negative, and a record it marks valid has 8 bits, non-zero sizes, a non-zero slice spacing and positive pixel spacings |
| DicomProperties.ParseDicomAsWritten | ZeissDicomParser.py:282-284 | as written, `parseDicom` returns only 8-bit records, each exactly as the corrected parser does, and raises for every readable record of another depth |
| DicomProperties.ParseDicomReturns | ZeissDicomParser.py:187-290 | `parseDicom` returns exactly when the numbers parse, PixelSpacing has two parsable parts and Rows, Columns and BitsStored exist; otherwise the first failing read decides the exception |
| DicomProperties.ParseDicomFields | ZeissDicomParser.py:246-280 | the result carries the record's own Rows, Columns and BitsStored, the cleaned PixelSpacing components (never negative) and the slice spacing as read |
| DicomProperties.ParseDicomMissingCounts | ZeissDicomParser.py:205-209 | a missing slice spacing gives -1 and an invalid record, and so does a missing frame count; neither raises |
| DicomProperties.ParseDicomValidity | ZeissDicomParser.py:219-288 | `valid` holds exactly when every check passes: both counts present, nothing zero, 128 frames for a Macular Cube, isotropy within 0.0005 mm for angiography, 8 bits |
| DicomProperties.ParseDicomAsWrittenRaisesOnOtherDepths | ZeissDicomParser.py:282-284 | as written, a readable record of any bit depth other than 8 raises a TypeError; the corrected parser marks it invalid |
| DicomProperties.ParseDicomAsWrittenAgrees | ZeissDicomParser.py:282-284 | for 8-bit records, the parser as written and as corrected agree |
| Aggregation.Scan | ZeissDicomParser.py:311-337 | every accepted record was parsed from some file, is valid and is in range, and there are no more of them than files |
| Aggregation.ScanSkipsInvalid | ZeissDicomParser.py:314 | an invalid record is skipped wherever it stands |
| Aggregation.ScanStopsAtOutOfRange | ZeissDicomParser.py:315-321 | the first valid record out of range ends the loop; nothing after it counts and no later exception is reached |
| Aggregation.MeanWithin | ZeissDicomParser.py:341-348 | `np.average` lies between the smallest and the largest bound of its elements |
| Aggregation.MeanPointwise | ZeissDicomParser.py:341-348 | averages of lists that differ by at most `c` element by element differ by at most `c` |
| Aggregation.MeanPositive | ZeissDicomParser.py:347-348 | the average of positive values is positive |
| Aggregation.AcceptedTrusted | ZeissDicomParser.py:311-337 | every accepted record passes all of `parseDicom`'s checks for its scan type |
| Aggregation.AggregateBounds | ZeissDicomParser.py:340-361 | the aggregate has slice thickness at most 1 mm, positive pixel sizes and counts, exactly 8 bits, and for angiography a mean pixel width within 0.0005 mm of the mean slice thickness |
| Aggregation.AggregateOfOne | ZeissDicomParser.py:340-361 | a single valid in-range record is its own aggregate |
| Aggregation.AggregateNoneValid | ZeissDicomParser.py:355-361 | if no record is valid, `imageWidthInPixels[0]` raises |
| Aggregation.AggregateOutcomes | ZeissDicomParser.py:340-361 | the aggregate of accepted records has a width and depth of at least one pixel; an exception other than the empty-list IndexError is one of the parse outcomes |
| Aggregation.Aggregate | ZeissDicomParser.py:293-361 | with the corrected parser, the aggregate has a width and depth of at least one pixel, and an exception other than the IndexError is raised by parsing one of the records |
| Aggregation.AggregateAsWritten | ZeissDicomParser.py:293-361 | with the parser as written, the same holds, the exception being raised by parsing one of the records as written |
| Aggregation.AggregateAsWrittenAbortsOnOtherDepth | ZeissDicomParser.py:282-284 | a leading readable record of another bit depth makes the aggregation as written raise TypeError, while the corrected one skips it and aggregates the rest |
| Aggregation.AggregateAsWrittenAgrees | ZeissDicomParser.py:293-361 | on 8-bit records the aggregation as written and as corrected agree |
| Aggregation.AggregateDicomProperties | ZeissDicomParser.py:293-361 | the loop with its `break` returns the averages of the accepted records and the first one's size, or the first exception, with the corrected parser |
| Volume.Reshape | ZeissDicomParser.py:100 | `np.reshape` gives a (slices, depth, width) grid |
| Volume.MoveAxis0ToEnd | ZeissDicomParser.py:101 | `np.moveaxis(data, 0, -1)` gives (depth, width, slices) |
| Volume.Transpose01 | ZeissDicomParser.py:102 | `np.transpose(data, (1, 0, 2))` swaps the first two axes |
| Volume.Flip1 | ZeissDicomParser.py:103 | `np.flip(data, 1)` keeps the shape |
| Volume.FlipTwice | ZeissDicomParser.py:103 | flipping twice restores the grid |
| Volume.AssembleVolumeSucceeds | ZeissDicomParser.py:99-103 | the chain succeeds exactly when width and depth are positive and the file holds whole slices |
| Volume.AssembleVolumeIndex | ZeissDicomParser.py:99-103 | the volume has shape (width, depth, slices), and voxel (w, d, s) is byte `s*D*W + (D-1-d)*W + w` |
| Volume.AssembleVolumeCovers | ZeissDicomParser.py:99-103 | every byte of the file lands in exactly the voxel its offset names |
| Volume.AffineScalesVoxels | ZeissDicomParser.py:111 | the diagonal sform maps voxel (w, d, s) to (w*pixelWidth, d*pixelDepth, s*slice) millimetres |
| Volume.BuildNifti | ZeissDicomParser.py:99-112 | the image is built exactly when width and depth are positive and the file holds whole slices, and its header shape is the data's shape |
| Volume.BuildNiftiHeader | ZeissDicomParser.py:99-112 | the image has positive width and depth, its header has the volume's shape, uint8 data and mm/sec units, and its affine is `diag(pixelWidth, pixelDepth, slice, 1)` |
| FileSelection.EntryHitsIff | ZeissDicomParser.py:38-41 | a name is collected from a directory exactly when it is listed there and passes the test |
| FileSelection.WalkHitsIff | ZeissDicomParser.py:37-41 | a (dirpath, name) pair is collected exactly when some walked directory lists the name and the name passes the test |
| FileSelection.CollectHits | ZeissDicomParser.py:37-41 | the nested walk loops collect exactly the hits of the walk, in order |
| FileSelection.ImgZipIsNotDicomZip | ZeissDicomParser.py:144 | an IMG export archive is never taken for a DICOM archive |
| FileSelection.RawFileMatchByType | ZeissDicomParser.py:65-67 | a raw file matches exactly when it names the type's raw marker (`cube_raw` or `FlowCube_raw`) and its label |
| FileSelection.SelectOne | ZeissDicomParser.py:43-47 | one candidate is taken; several stop the script and none raises IndexError |
| FileSelection.Approve | ZeissDicomParser.py:176-182 | the approved files are drawn from the listed files and are no more than them; the only exception is the missing code meaning |
| FileSelection.ApproveFailureSticks | ZeissDicomParser.py:178-180 | once a file without a code meaning raises, later files do not matter |
| FileSelection.ApproveIff | ZeissDicomParser.py:176-182 | approval returns exactly when every file has a code meaning, and keeps exactly the files whose code meaning mentions the label |
| FileSelection.ApproveDicomFiles | ZeissDicomParser.py:176-184 | the approval loop keeps the approved files in order, or stops at the first missing code meaning |
| Pipeline.ExtractionDirectoryOfZip | ZeissDicomParser.py:155 | an archive whose name ends in `.zip` unpacks into `/tmp/` plus its name without `.zip`, and adding `.zip` back gives `/tmp/` plus the name |
| Pipeline.DicomFiles | ZeissDicomParser.py:120-184 | `retrieveDicomFiles` creates one extraction folder per DICOM archive, and every file it returns was listed in those folders |
| Pipeline.HitPathsIff | ZeissDicomParser.py:174 | a listed path is exactly `dirpath + "/" + name` of some hit |
| Pipeline.DicomPathsIff | ZeissDicomParser.py:168-174 | a path is collected exactly when the walk of some extraction folder lists it as a `.DCM` file |
| Pipeline.DicomFilesApproved | ZeissDicomParser.py:120-184 | every returned file is a listed `.DCM` file with a code meaning naming the scan type, every such file is returned, and every folder comes from a DICOM archive |
| Pipeline.CollectExtractionDirectories | ZeissDicomParser.py:150-158 | the unpacking loop yields one extraction folder per DICOM archive, in order |
| Pipeline.CollectDicomPaths | ZeissDicomParser.py:168-174 | the listing loop yields every `.DCM` file of every extraction folder, folder by folder |
| Pipeline.RetrieveDicomFiles | ZeissDicomParser.py:120-184 | the method returns the extraction folders and approved files of the specification |
| Pipeline.Nifti | ZeissDicomParser.py:24-117 | a saved image is written at the type's output path, and only for properties of positive width and depth |
| Pipeline.NiftiSaved | ZeissDicomParser.py:24-117 | a saved image comes from the only IMG archive and its only raw file of the type, is written as `<dir>/<volume name>.nii`, and carries the aggregated sizes and spacings |
| Pipeline.OutputPathIsScriptName | ZeissDicomParser.py:77-86 | the if-chain always binds a name, and the saved path is the data directory, a separator and that name |
| Pipeline.NiftiPathsDistinct | ZeissDicomParser.py:77-86 | two scan types converted in one directory never overwrite each other's image |
| Pipeline.CreateNifty | ZeissDicomParser.py:24-117 | the method returns the image, path and extraction folder of the specification, or its failure |
| Pipeline.SubdirectoryPathNamesDirectory | ZeissDicomParser.py:417-420 | the joined path of a listed subdirectory names that subdirectory and starts with its root |
| Pipeline.RideDirectoryPathAgreesIff | ZeissDicomParser.py:420 | the path as written and the joined path agree exactly when the walk root is empty or ends in `/`, as only the top of the walk does |
| Pipeline.RideDirectoryPathAsWrittenMergesNames | ZeissDicomParser.py:420 | one level down, the path as written names `ARIDE_1` where the folder is `RIDE_1` |
| Pipeline.DataDirectories | ZeissDicomParser.py:413-420 | without `-r` only the input directory is converted; with `-r` every directory path, joined as corrected, ends in a separator |
| Pipeline.DataDirectoriesAsWritten | ZeissDicomParser.py:413-420 | the directory list as line 420 writes it: the input directory alone, or `RIDE_` paths that each end in a separator |
| Pipeline.DataDirectoriesAsWrittenDiffer | ZeissDicomParser.py:417-420 | as written and as corrected, the lists have the same length, and a folder's path agrees exactly when its walk root is empty or ends in `/` |
| Pipeline.DataDirectoriesAreRideFolders | ZeissDicomParser.py:413-420 | in recursive mode, every visited directory is a `RIDE_` folder listed by the walk, below its listed root |
| Pipeline.CollectDataDirectories | ZeissDicomParser.py:413-420 | the method returns the input directory, or with `-r` every `RIDE_` folder in walk order, its path joined as corrected |
| Pipeline.Convert | ZeissDicomParser.py:424-431 | one scan's image is saved at its type's output path in the data directory |
| Pipeline.ConvertSaved | ZeissDicomParser.py:424-431 | a converted scan is written under its type's name, with a well-formed volume of positive width and depth |
| Pipeline.ConvertScan | ZeissDicomParser.py:424-431 | retrieve, aggregate and build, stopping at the first failure |
| Pipeline.SavedUntilFailure | ZeissDicomParser.py:422-433 | images are saved for the scan types before the first failure, and that failure is the next outcome |
| Pipeline.ConvertDirectoriesPaths | ZeissDicomParser.py:422-433 | every saved image sits in a data directory under the name of a requested scan type |
| Pipeline.ConvertDirectory | ZeissDicomParser.py:422-433 | the scan-type loop of one directory saves exactly the images before the first failure |
| Pipeline.RunConverter | ZeissDicomParser.py:413-433 | the main loop saves, directory by directory, the images of every directory, over the corrected directory paths and parser |

## Left out

- Opening and extracting archives, `os.makedirs`, `nibabel.save` and
  `cleanUpTempFolders` (lines 364-377) are filesystem effects. Walking an
  extraction folder is taken to list what the archive held.
- The archive is opened as `zipPath + zipFilename` (lines 56 and 163).
  This path has no separator below the top level, the same way as the
  `RIDE_` path under Findings. It is not modelled, because extraction is
  taken as done.
- Option parsing with `getopt`, `help()`, the messages printed and the
  exit codes are left out. Only the `-t` expansion is modelled, and the
  `-i` directory is a parameter.
- Reals are exact. Three things are not modelled:
  - IEEE rounding in `float()` and in `np.average`;
  - the float division in `int(len(data) / D / W)`, which is taken as
    exact floor division;
  - NaN from averaging an empty list, because the script raises on the
    empty size list right after.
- DicomProperties.ReadNumber: a slice spacing pydicom cannot decode is
  given as the text after `": "` in its ValueError message. The message
  itself is not modelled. For NumberOfFrames the script has no ValueError
  handler, and the model cleans such text as it does a `str` value.
- DicomProperties.DicomRecord keeps PixelSpacing as the text
  `str(dcm.PixelSpacing)`. pydicom's MultiValue formatting is not
  modelled.
- Python's value types are collapsed: DSfloat, `str` and `int` become
  `NumberField`.
- ScanTypes.ExpandScanTypes accepts only a label or `All`/`all`. A `-t`
  value that merely contains a label passes the guard of
  `retrieveDicomFiles`, and the script would go on with it. The model
  refuses such values.
- Aggregation.PropertySet keeps the averaged bit depth, which
  `createNifty` never uses (line 95).
- Aggregation.Aggregate, Aggregation.AggregateDicomProperties: use the
  corrected `ParseDicom` from "## Findings", so a readable record of
  another bit depth is skipped as invalid. As written, the script raises
  there and omits the directory. `Aggregation.AggregateAsWritten` models
  that, and `AggregateAsWrittenAbortsOnOtherDepth` shows the difference.
- Pipeline.Convert, Pipeline.ConvertScan, Pipeline.ConvertDirectory,
  Pipeline.RunConverter: build on `Aggregation.Aggregate`, so they use the
  corrected parser too.
- Pipeline.DataDirectories, Pipeline.CollectDataDirectories,
  Pipeline.RunConverter: join `RIDE_` paths with the corrected
  `SubdirectoryPath` from "## Findings". As written, the script visits
  `root + subdir + "/"`. `Pipeline.DataDirectoriesAsWritten` models that,
  and `DataDirectoriesAsWrittenDiffer` shows where the two differ.
- `malaria.py` is not part of this model.

## Findings

| source | as written | input that shows it | evidently intended | confidence | as-written member | corrected member |
|---|---|---|---|---|---|---|
| ZeissDicomParser.py:417-420 | `root + subdir + "/"` with `root` from `os.walk`. Only the top root ends in `/`. | `-r -i data` with `data/A/RIDE_1`: the walk gives root `data/A` and subdir `RIDE_1`, so the path is `data/ARIDE_1/` | `os.path.join(root, subdir) + "/"`, so that nested `RIDE_` folders are visited | high (not executed) | Pipeline.RideDirectoryPathAsWrittenMergesNames | Pipeline.SubdirectoryPathNamesDirectory |
| ZeissDicomParser.py:282-284 | `"..." + bitDepth + " found."` adds an `int` to a `str` and raises TypeError | any readable record with BitsStored 12: the bare `except` then omits the whole directory | print the warning and mark the record invalid | high (not executed) | DicomProperties.ParseDicomAsWrittenRaisesOnOtherDepths | DicomProperties.ParseDicomValidity |
