/**
 * What the script does instead of returning a value: a Python exception
 * or an `exit(1)`. Each raise site becomes one kind of failure.
 */
module Failures {

  /** The DICOM attributes the parser reads. */
  datatype Field =
    | SpacingBetweenSlices
    | NumberOfFrames
    | PixelSpacing
    | Rows
    | Columns
    | BitsStored
    | CodeMeaning

  /** The files the converter needs to find exactly once. */
  datatype Source = ImageArchive | RawVolumeFile

  datatype Failure =
    | UnparsableNumber(field: Field)   // float() raises ValueError on the cleaned text
    | PixelSpacingUnbound              // no PixelSpacing: the width is used before it is bound
    | PixelSpacingTooFewParts          // `pixelSpacing[1]` raises IndexError
    | FieldMissing(field: Field)       // an attribute read without a handler is absent
    | BitDepthNotEight(bits: nat)      // building the warning adds a str to an int: TypeError
    | NoAcceptedRecords                // `imageWidthInPixels[0]` on an empty list: IndexError
    | Ambiguous(source: Source)        // more than one candidate file: exit(1)
    | NotFound(source: Source)         // no candidate file: `[0]` raises IndexError
    | ZeroPixelDimension               // division by a zero width or depth
    | ReshapeMismatch                  // np.reshape cannot fill (slices, depth, width) exactly
}
