/**
 * `parseDicom`: the six geometry properties of one DICOM record, with
 * the validity flag the script computes from its sanity checks.
 */
module DicomProperties {
  import opened Wrappers
  import opened Text
  import opened ScanTypes
  import opened Failures

  /**
   * A numeric DICOM attribute as the parser meets it: absent
   * (AttributeError), decoded to a number (DSfloat, int), or available
   * only as text to be cleaned (a str value, or the text pydicom puts in
   * a ValueError when it cannot decode the value).
   */
  datatype NumberField = Absent | Number(value: real) | Text(text: string)

  /**
   * The attributes of one DICOM record the converter reads. PixelSpacing
   * is kept as the text `str(dcm.PixelSpacing)` (or the ValueError text)
   * that the parser splits on commas; Rows, Columns and BitsStored are
   * unsigned DICOM integers; the code meaning is the text under
   * (0040,0260)[0] (0008,0104).
   */
  datatype DicomRecord = DicomRecord(
    spacingBetweenSlices: NumberField,
    numberOfFrames: NumberField,
    pixelSpacing: Option<string>,
    rows: Option<nat>,
    columns: Option<nat>,
    bitsStored: Option<nat>,
    codeMeaning: Option<string>)

  /**
   * The tuple `(valid, sliceThicknessInMM, pixelWidthInMM,
   * pixelDepthInMM, imageWidthInPixels, imageDepthInPixels, bitDepth)`.
   */
  datatype Properties = Properties(
    valid: bool,
    slice: real,
    pixelWidth: real,
    pixelDepth: real,
    width: nat,
    depth: nat,
    bits: nat)

  /** The value stored for an absent slice spacing or frame count. */
  const MissingValue: real := -1.0
  /** A Macular Cube acquisition always has this many frames. */
  const MacularCubeFrames: real := 128.0
  /** Largest accepted difference between pixel width and slice thickness for angiography. */
  const IsotropyTolerance: real := 0.0005
  /** The only bit depth the converter handles. */
  const RequiredBitDepth: nat := 8

  function Abs(x: real): real { if x < 0.0 then -x else x }

  /** The value of a numeric attribute, or the ValueError `float()` raises on its text. */
  function ReadNumber(f: NumberField, field: Field): (r: Result<real, Failure>)
    ensures f.Absent? ==> r == Ok(MissingValue)
    ensures r.Err? <==> !Readable(f)
    ensures r.Err? ==> r.error == UnparsableNumber(field)
    ensures f.Text? && r.Ok? ==> r.value >= 0.0
  {
    match f
    case Absent => Ok(MissingValue)
    case Number(x) => Ok(x)
    case Text(s) => if ParseField(s).Some? then Ok(ParseField(s).value) else Err(UnparsableNumber(field))
  }

  /** A numeric attribute that can be read without an exception. */
  predicate Readable(f: NumberField) {
    !f.Text? || ParseField(f.text).Some?
  }

  /** PixelSpacing text that splits into two parsable components. */
  predicate PixelSpacingReadable(ps: Option<string>) {
    ps.Some? && |Split(ps.value, ',')| >= 2
    && ParseField(Split(ps.value, ',')[0]).Some?
    && ParseField(Split(ps.value, ',')[1]).Some?
  }

  /** The frame count read from the record, when it has one. */
  function FrameCount(rec: DicomRecord): Option<real>
  {
    if rec.numberOfFrames.Absent? then None
    else match ReadNumber(rec.numberOfFrames, NumberOfFrames)
      case Ok(n) => Some(n)
      case Err(_) => None
  }

  /**
   * The checks a record must pass to be marked valid, stated per scan
   * type: both counts present, no zero measurement, 128 frames for a
   * Macular Cube, isotropic voxels for angiography, 8 bits per sample.
   */
  predicate PassesChecks(t: ScanType, rec: DicomRecord, p: Properties) {
    !rec.spacingBetweenSlices.Absent?
    && FrameCount(rec).Some?
    && p.slice != 0.0
    && p.pixelWidth > 0.0 && p.pixelDepth > 0.0
    && p.width > 0 && p.depth > 0
    && p.bits == RequiredBitDepth
    && (t == MacularCube ==> FrameCount(rec) == Some(MacularCubeFrames))
    && (t != MacularCube ==> Abs(p.pixelWidth - p.slice) <= IsotropyTolerance)
  }

  /**
   * `parseDicom(scanType, dicomFilename)` on the record the file holds,
   * with a bit depth other than 8 clearing `valid` as the script means it
   * to (`ParseDicomAsWritten` raises instead). Missing slice spacing or
   * frame count only clears `valid`; a missing PixelSpacing or text
   * `float()` cannot read raise instead of returning. The test `scanType in "Macular Cube"`
   * holds exactly for a Macular Cube (`ScanTypes.LabelContainment`) and
   * `"Angiography" in scanType` exactly for the other two types
   * (`ScanTypes.AngiographyTypes`), so both are written on the type here.
   */
  function ParseDicom(t: ScanType, rec: DicomRecord): (r: Result<Properties, Failure>)
    ensures r.Ok? ==> r.value.pixelWidth >= 0.0 && r.value.pixelDepth >= 0.0
    ensures r.Ok? && r.value.valid ==>
      r.value.bits == RequiredBitDepth && r.value.width > 0 && r.value.depth > 0
      && r.value.slice != 0.0 && r.value.pixelWidth > 0.0 && r.value.pixelDepth > 0.0
  {
    match ReadNumber(rec.spacingBetweenSlices, SpacingBetweenSlices)
    case Err(e) => Err(e)
    case Ok(slice) =>
      match ReadNumber(rec.numberOfFrames, NumberOfFrames)
      case Err(e) => Err(e)
      case Ok(frames) =>
        if rec.pixelSpacing.None? then Err(PixelSpacingUnbound)
        else
          var parts := Split(rec.pixelSpacing.value, ',');
          if |parts| < 2 then Err(PixelSpacingTooFewParts)
          else if ParseField(parts[0]).None? || ParseField(parts[1]).None? then Err(UnparsableNumber(PixelSpacing))
          else if rec.rows.None? then Err(FieldMissing(Rows))
          else if rec.columns.None? then Err(FieldMissing(Columns))
          else if rec.bitsStored.None? then Err(FieldMissing(BitsStored))
          else
            var pixelWidth := ParseField(parts[0]).value;
            var pixelDepth := ParseField(parts[1]).value;
            var width, depth, bits := rec.rows.value, rec.columns.value, rec.bitsStored.value;
            var valid :=
              !rec.spacingBetweenSlices.Absent? && slice != 0.0
              && !rec.numberOfFrames.Absent?
              && !(t == MacularCube && frames != MacularCubeFrames)
              && pixelWidth != 0.0 && pixelDepth != 0.0
              && !(t != MacularCube && Abs(pixelWidth - slice) > IsotropyTolerance)
              && bits == RequiredBitDepth
              && width != 0 && depth != 0 && bits != 0;
            Ok(Properties(valid, slice, pixelWidth, pixelDepth, width, depth, bits))
  }

  /**
   * `parseDicom` returns exactly when every numeric text parses, the
   * PixelSpacing has two parsable components and Rows, Columns and
   * BitsStored are present, whatever the bit depth. The first failing
   * step decides the exception, in the order the script reads the
   * attributes: slice spacing, frame count, PixelSpacing, then the sizes.
   */
  lemma ParseDicomReturns(t: ScanType, rec: DicomRecord)
    ensures ParseDicom(t, rec).Ok? <==>
      Readable(rec.spacingBetweenSlices) && Readable(rec.numberOfFrames)
      && PixelSpacingReadable(rec.pixelSpacing)
      && rec.rows.Some? && rec.columns.Some? && rec.bitsStored.Some?
    ensures !Readable(rec.spacingBetweenSlices) ==> ParseDicom(t, rec) == Err(UnparsableNumber(SpacingBetweenSlices))
    ensures Readable(rec.spacingBetweenSlices) && !Readable(rec.numberOfFrames) ==> ParseDicom(t, rec) == Err(UnparsableNumber(NumberOfFrames))
    ensures Readable(rec.spacingBetweenSlices) && Readable(rec.numberOfFrames) && rec.pixelSpacing.None?
      ==> ParseDicom(t, rec) == Err(PixelSpacingUnbound)
  {
  }

  /** The returned tuple carries the record's own sizes and pixel spacing components. */
  lemma ParseDicomFields(t: ScanType, rec: DicomRecord)
    requires ParseDicom(t, rec).Ok?
    ensures rec.rows == Some(ParseDicom(t, rec).value.width) && rec.columns == Some(ParseDicom(t, rec).value.depth)
    ensures rec.bitsStored == Some(ParseDicom(t, rec).value.bits)
    ensures Some(ParseDicom(t, rec).value.pixelWidth) == ParseField(Split(rec.pixelSpacing.value, ',')[0])
    ensures Some(ParseDicom(t, rec).value.pixelDepth) == ParseField(Split(rec.pixelSpacing.value, ',')[1])
    ensures ParseDicom(t, rec).value.pixelWidth >= 0.0 && ParseDicom(t, rec).value.pixelDepth >= 0.0
    ensures ReadNumber(rec.spacingBetweenSlices, SpacingBetweenSlices) == Ok(ParseDicom(t, rec).value.slice)
  {
  }

  /** A missing slice spacing or frame count is recorded, not raised: the record is only marked invalid. */
  lemma ParseDicomMissingCounts(t: ScanType, rec: DicomRecord)
    requires ParseDicom(t, rec).Ok?
    ensures rec.spacingBetweenSlices.Absent? ==> ParseDicom(t, rec).value.slice == MissingValue && !ParseDicom(t, rec).value.valid
    ensures rec.numberOfFrames.Absent? ==> !ParseDicom(t, rec).value.valid
  {
  }

  /** The validity flag is exactly the conjunction of the per-type checks. */
  lemma ParseDicomValidity(t: ScanType, rec: DicomRecord)
    requires ParseDicom(t, rec).Ok?
    ensures ParseDicom(t, rec).value.valid <==> PassesChecks(t, rec, ParseDicom(t, rec).value)
  {
  }

  /**
   * `parseDicom` as written: the bit-depth message concatenates text with
   * the integer BitsStored, which raises a TypeError, so a record of any
   * other depth aborts the scan instead of being marked invalid.
   */
  function ParseDicomAsWritten(t: ScanType, rec: DicomRecord): (r: Result<Properties, Failure>)
    ensures r.Ok? ==> r == ParseDicom(t, rec) && r.value.bits == RequiredBitDepth
    ensures r.Err? <==> ParseDicom(t, rec).Err? || ParseDicom(t, rec).value.bits != RequiredBitDepth
  {
    match ParseDicom(t, rec)
    case Err(e) => Err(e)
    case Ok(p) => if p.bits != RequiredBitDepth then Err(BitDepthNotEight(p.bits)) else Ok(p)
  }

  /**
   * Where the two differ: a record that reads cleanly but stores any bit
   * depth other than 8 is an exception as written and an invalid record
   * as intended.
   */
  lemma ParseDicomAsWrittenRaisesOnOtherDepths(t: ScanType, rec: DicomRecord)
    requires ParseDicom(t, rec).Ok? && rec.bitsStored.Some? && rec.bitsStored.value != RequiredBitDepth
    ensures ParseDicomAsWritten(t, rec) == Err(BitDepthNotEight(rec.bitsStored.value))
    ensures !ParseDicom(t, rec).value.valid
  {
  }

  /** Everywhere else the script as written and as intended agree. */
  lemma ParseDicomAsWrittenAgrees(t: ScanType, rec: DicomRecord)
    requires rec.bitsStored == Some(RequiredBitDepth)
    ensures ParseDicomAsWritten(t, rec) == ParseDicom(t, rec)
  {
  }
}
