/**
 * `aggregateDicomProperties`: the properties of every DICOM record of a
 * scan reduced to one trusted set. Invalid records are skipped, the first
 * valid record out of range ends the scan (the loop breaks), the four
 * real-valued properties are averaged, and the image size is the first
 * accepted record's.
 */
module Aggregation {
  import opened Wrappers
  import opened ScanTypes
  import opened Failures
  import opened DicomProperties

  /**
   * The reconciled property set: `(sliceThicknessInMM, pixelWidthInMM,
   * pixelDepthInMM, imageWidthInPixels, imageDepthInPixels, bitDepth)`.
   * The bit depth is an average and so a real number.
   */
  datatype PropertySet = PropertySet(
    slice: real,
    pixelWidth: real,
    pixelDepth: real,
    width: nat,
    depth: nat,
    bits: real)

  /** The range check that breaks the loop: slices thicker than 1 mm, an empty image, too few bits. */
  predicate OutOfRange(p: Properties) {
    p.slice > 1.0 || p.width < 1 || p.depth < 1 || p.bits < 4
  }

  /** `acc` put in front of the samples of a scan that has not failed. */
  function Prepend(acc: seq<Properties>, r: Result<seq<Properties>, Failure>): Result<seq<Properties>, Failure>
  {
    match r
    case Ok(ps) => Ok(acc + ps)
    case Err(e) => Err(e)
  }

  lemma PrependStep(acc: seq<Properties>, p: Properties, r: Result<seq<Properties>, Failure>)
    ensures Prepend(acc, Prepend([p], r)) == Prepend(acc + [p], r)
  {
    if r.Ok? {
      assert acc + ([p] + r.value) == (acc + [p]) + r.value;
    }
  }

  /** What `parseDicom` gives for each record, in order. */
  function ParseAll(t: ScanType, records: seq<DicomRecord>): (outcomes: seq<Result<Properties, Failure>>)
    ensures |outcomes| == |records|
    ensures forall i :: 0 <= i < |records| ==> outcomes[i] == ParseDicom(t, records[i])
  {
    seq(|records|, i requires 0 <= i < |records| => ParseDicom(t, records[i]))
  }

  /**
   * The samples the loop accepts from the parse outcomes, in order: the
   * failure of the first record that raises, otherwise the valid
   * in-range records met before the first valid out-of-range record.
   */
  function Scan(outcomes: seq<Result<Properties, Failure>>): (r: Result<seq<Properties>, Failure>)
    ensures r.Ok? ==> |r.value| <= |outcomes|
    ensures r.Ok? ==> forall i :: 0 <= i < |r.value| ==> r.value[i].valid && !OutOfRange(r.value[i])
    ensures r.Ok? ==> forall i :: 0 <= i < |r.value| ==> Ok(r.value[i]) in outcomes
    ensures r.Err? ==> Err(r.error) in outcomes
    decreases |outcomes|
  {
    if outcomes == [] then Ok([])
    else match outcomes[0]
      case Err(e) => Err(e)
      case Ok(p) =>
        if !p.valid then Scan(outcomes[1..])
        else if OutOfRange(p) then Ok([])
        else Prepend([p], Scan(outcomes[1..]))
  }

  /** An invalid record is skipped wherever it stands. */
  lemma {:induction false} ScanSkipsInvalid(before: seq<Result<Properties, Failure>>, p: Properties, after: seq<Result<Properties, Failure>>)
    requires !p.valid
    ensures Scan(before + [Ok(p)] + after) == Scan(before + after)
    decreases |before|
  {
    if before == [] {
      assert (before + [Ok(p)] + after)[1..] == after;
      assert before + after == after;
    } else {
      ScanSkipsInvalid(before[1..], p, after);
      assert (before + [Ok(p)] + after)[1..] == before[1..] + [Ok(p)] + after;
      assert (before + after)[1..] == before[1..] + after;
    }
  }

  /**
   * The first valid record out of range ends the scan: neither it nor
   * any later record contributes, and a later record that would raise
   * is never reached.
   */
  lemma {:induction false} ScanStopsAtOutOfRange(before: seq<Result<Properties, Failure>>, p: Properties, after: seq<Result<Properties, Failure>>)
    requires p.valid && OutOfRange(p)
    ensures Scan(before + [Ok(p)] + after) == Scan(before)
    decreases |before|
  {
    if before != [] {
      ScanStopsAtOutOfRange(before[1..], p, after);
      assert (before + [Ok(p)] + after)[1..] == before[1..] + [Ok(p)] + after;
    }
  }

  function Sum(xs: seq<real>): real
    decreases |xs|
  {
    if xs == [] then 0.0 else xs[0] + Sum(xs[1..])
  }

  /** `np.average` of a non-empty list. */
  function Mean(xs: seq<real>): real
    requires |xs| > 0
  {
    Sum(xs) / (|xs| as real)
  }

  function Slices(ps: seq<Properties>): (xs: seq<real>)
    ensures |xs| == |ps| && forall i :: 0 <= i < |ps| ==> xs[i] == ps[i].slice
  {
    seq(|ps|, i requires 0 <= i < |ps| => ps[i].slice)
  }

  function PixelWidths(ps: seq<Properties>): (xs: seq<real>)
    ensures |xs| == |ps| && forall i :: 0 <= i < |ps| ==> xs[i] == ps[i].pixelWidth
  {
    seq(|ps|, i requires 0 <= i < |ps| => ps[i].pixelWidth)
  }

  function PixelDepths(ps: seq<Properties>): (xs: seq<real>)
    ensures |xs| == |ps| && forall i :: 0 <= i < |ps| ==> xs[i] == ps[i].pixelDepth
  {
    seq(|ps|, i requires 0 <= i < |ps| => ps[i].pixelDepth)
  }

  function BitDepths(ps: seq<Properties>): (xs: seq<real>)
    ensures |xs| == |ps| && forall i :: 0 <= i < |ps| ==> xs[i] == ps[i].bits as real
  {
    seq(|ps|, i requires 0 <= i < |ps| => ps[i].bits as real)
  }

  function Widths(ps: seq<Properties>): (xs: seq<nat>)
    ensures |xs| == |ps| && forall i :: 0 <= i < |ps| ==> xs[i] == ps[i].width
  {
    seq(|ps|, i requires 0 <= i < |ps| => ps[i].width)
  }

  function Depths(ps: seq<Properties>): (xs: seq<nat>)
    ensures |xs| == |ps| && forall i :: 0 <= i < |ps| ==> xs[i] == ps[i].depth
  {
    seq(|ps|, i requires 0 <= i < |ps| => ps[i].depth)
  }

  /** Accepting one more record appends its value to every list. */
  lemma AcceptOne(ps: seq<Properties>, p: Properties)
    ensures Slices(ps + [p]) == Slices(ps) + [p.slice]
    ensures PixelWidths(ps + [p]) == PixelWidths(ps) + [p.pixelWidth]
    ensures PixelDepths(ps + [p]) == PixelDepths(ps) + [p.pixelDepth]
    ensures BitDepths(ps + [p]) == BitDepths(ps) + [p.bits as real]
    ensures Widths(ps + [p]) == Widths(ps) + [p.width]
    ensures Depths(ps + [p]) == Depths(ps) + [p.depth]
  {
  }

  /** The property set built from the accepted samples. */
  function Reduce(ps: seq<Properties>): PropertySet
    requires |ps| > 0
  {
    PropertySet(Mean(Slices(ps)), Mean(PixelWidths(ps)), Mean(PixelDepths(ps)),
                ps[0].width, ps[0].depth, Mean(BitDepths(ps)))
  }

  lemma {:induction false} SumAtMost(xs: seq<real>, hi: real)
    requires forall i :: 0 <= i < |xs| ==> xs[i] <= hi
    ensures Sum(xs) <= (|xs| as real) * hi
    decreases |xs|
  {
    if xs != [] {
      SumAtMost(xs[1..], hi);
      assert (|xs| as real) * hi == hi + ((|xs| - 1) as real) * hi;
    }
  }

  lemma {:induction false} SumAtLeast(xs: seq<real>, lo: real)
    requires forall i :: 0 <= i < |xs| ==> lo <= xs[i]
    ensures (|xs| as real) * lo <= Sum(xs)
    decreases |xs|
  {
    if xs != [] {
      SumAtLeast(xs[1..], lo);
      assert (|xs| as real) * lo == lo + ((|xs| - 1) as real) * lo;
    }
  }

  lemma {:induction false} SumPositive(xs: seq<real>)
    requires |xs| > 0 && forall i :: 0 <= i < |xs| ==> xs[i] > 0.0
    ensures Sum(xs) > 0.0
    decreases |xs|
  {
    if |xs| > 1 {
      SumPositive(xs[1..]);
    }
  }

  /** Sums of two lists whose elements differ by at most `c` differ by at most `c` per element. */
  lemma {:induction false} SumPointwise(xs: seq<real>, ys: seq<real>, c: real)
    requires |xs| == |ys|
    requires forall i :: 0 <= i < |xs| ==> xs[i] <= ys[i] + c
    ensures Sum(xs) <= Sum(ys) + (|xs| as real) * c
    decreases |xs|
  {
    if xs != [] {
      SumPointwise(xs[1..], ys[1..], c);
      assert (|xs| as real) * c == c + ((|xs| - 1) as real) * c;
    }
  }

  lemma DivideMonotone(a: real, b: real, n: real)
    requires n > 0.0 && a <= b
    ensures a / n <= b / n
  {
  }

  lemma DivideProduct(n: real, x: real)
    requires n > 0.0
    ensures (n * x) / n == x
  {
  }

  /** An average is no larger than the largest element, no smaller than the smallest. */
  lemma MeanWithin(xs: seq<real>, lo: real, hi: real)
    requires |xs| > 0
    requires forall i :: 0 <= i < |xs| ==> lo <= xs[i] <= hi
    ensures lo <= Mean(xs) <= hi
  {
    var n := |xs| as real;
    SumAtMost(xs, hi);
    SumAtLeast(xs, lo);
    DivideMonotone(Sum(xs), n * hi, n);
    DivideMonotone(n * lo, Sum(xs), n);
    DivideProduct(n, hi);
    DivideProduct(n, lo);
  }

  lemma MeanAtMost(xs: seq<real>, hi: real)
    requires |xs| > 0
    requires forall i :: 0 <= i < |xs| ==> xs[i] <= hi
    ensures Mean(xs) <= hi
  {
    var n := |xs| as real;
    SumAtMost(xs, hi);
    DivideMonotone(Sum(xs), n * hi, n);
    DivideProduct(n, hi);
  }

  lemma MeanPositive(xs: seq<real>)
    requires |xs| > 0 && forall i :: 0 <= i < |xs| ==> xs[i] > 0.0
    ensures Mean(xs) > 0.0
  {
    SumPositive(xs);
  }

  /** The averages of two lists that differ by at most `c` element by element differ by at most `c`. */
  lemma MeanPointwise(xs: seq<real>, ys: seq<real>, c: real)
    requires |xs| == |ys| > 0
    requires forall i :: 0 <= i < |xs| ==> xs[i] <= ys[i] + c
    ensures Mean(xs) <= Mean(ys) + c
  {
    var n := |xs| as real;
    SumPointwise(xs, ys, c);
    DivideMonotone(Sum(xs), Sum(ys) + n * c, n);
    assert (Sum(ys) + n * c) / n == Sum(ys) / n + (n * c) / n;
    DivideProduct(n, c);
  }

  /** A record the loop accepts: valid, in range, and so passing every per-type check. */
  ghost predicate Trusted(t: ScanType, p: Properties) {
    p.valid && !OutOfRange(p)
    && p.slice <= 1.0 && p.slice != 0.0
    && p.pixelWidth > 0.0 && p.pixelDepth > 0.0
    && p.width >= 1 && p.depth >= 1 && p.bits == RequiredBitDepth
    && (t != MacularCube ==> Abs(p.pixelWidth - p.slice) <= IsotropyTolerance)
  }

  lemma AcceptedTrusted(t: ScanType, records: seq<DicomRecord>)
    requires Scan(ParseAll(t, records)).Ok?
    ensures forall i :: 0 <= i < |Scan(ParseAll(t, records)).value| ==> Trusted(t, Scan(ParseAll(t, records)).value[i])
  {
    var outcomes := ParseAll(t, records);
    var ps := Scan(outcomes).value;
    forall i | 0 <= i < |ps|
      ensures Trusted(t, ps[i])
    {
      var j :| 0 <= j < |outcomes| && outcomes[j] == Ok(ps[i]);
      ParseDicomValidity(t, records[j]);
    }
  }

  /**
   * The aggregated set keeps the bounds every accepted record met:
   * slices no thicker than 1 mm, positive pixel sizes and counts, exactly
   * 8 bits, and for angiography a mean pixel width within 0.0005 mm of
   * the mean slice thickness.
   */
  lemma AggregateBounds(t: ScanType, records: seq<DicomRecord>)
    requires Aggregate(t, records).Ok?
    ensures var p := Aggregate(t, records).value;
      p.slice <= 1.0 && p.pixelWidth > 0.0 && p.pixelDepth > 0.0
      && p.width >= 1 && p.depth >= 1 && p.bits == RequiredBitDepth as real
    ensures var p := Aggregate(t, records).value;
      t != MacularCube ==> Abs(p.pixelWidth - p.slice) <= IsotropyTolerance
  {
    var ps := Scan(ParseAll(t, records)).value;
    AcceptedTrusted(t, records);
    assert Trusted(t, ps[0]);
    MeanAtMost(Slices(ps), 1.0);
    MeanPositive(PixelWidths(ps));
    MeanPositive(PixelDepths(ps));
    MeanWithin(BitDepths(ps), RequiredBitDepth as real, RequiredBitDepth as real);
    if t != MacularCube {
      MeanPointwise(PixelWidths(ps), Slices(ps), IsotropyTolerance);
      MeanPointwise(Slices(ps), PixelWidths(ps), IsotropyTolerance);
    }
  }

  lemma MeanOfOne(x: real)
    ensures Mean([x]) == x
  {
    assert [x][1..] == [];
    assert Sum([x]) == x + Sum([]);
  }

  /** A single valid in-range record is its own aggregate. */
  lemma AggregateOfOne(t: ScanType, rec: DicomRecord)
    requires ParseDicom(t, rec).Ok? && ParseDicom(t, rec).value.valid && !OutOfRange(ParseDicom(t, rec).value)
    ensures var p := ParseDicom(t, rec).value;
      Aggregate(t, [rec]) == Ok(PropertySet(p.slice, p.pixelWidth, p.pixelDepth, p.width, p.depth, p.bits as real))
  {
    var p := ParseDicom(t, rec).value;
    var outcomes := ParseAll(t, [rec]);
    assert outcomes == [Ok(p)];
    assert outcomes[1..] == [];
    assert Scan(outcomes) == Ok([p] + []);
    assert [p] + [] == [p];
    assert Aggregate(t, [rec]) == Ok(Reduce([p]));
    assert Slices([p]) == [p.slice] && PixelWidths([p]) == [p.pixelWidth];
    assert PixelDepths([p]) == [p.pixelDepth] && BitDepths([p]) == [p.bits as real];
    MeanOfOne(p.slice);
    MeanOfOne(p.pixelWidth);
    MeanOfOne(p.pixelDepth);
    MeanOfOne(p.bits as real);
  }

  /** Records that all parse but none of which is valid leave nothing to average: the script fails. */
  lemma AggregateNoneValid(t: ScanType, records: seq<DicomRecord>)
    requires forall i :: 0 <= i < |records| ==> ParseDicom(t, records[i]).Ok? && !ParseDicom(t, records[i]).value.valid
    ensures Aggregate(t, records) == Err(NoAcceptedRecords)
  {
    ScanAllInvalid(ParseAll(t, records));
  }

  lemma {:induction false} ScanAllInvalid(outcomes: seq<Result<Properties, Failure>>)
    requires forall i :: 0 <= i < |outcomes| ==> outcomes[i].Ok? && !outcomes[i].value.valid
    ensures Scan(outcomes) == Ok([])
    decreases |outcomes|
  {
    if outcomes != [] {
      ScanAllInvalid(outcomes[1..]);
    }
  }

  /** One record's effect on the scan, given what the loop accepted before it. */
  lemma ScanStep(outcomes: seq<Result<Properties, Failure>>, i: nat, accepted: seq<Properties>)
    requires i < |outcomes|
    requires Scan(outcomes) == Prepend(accepted, Scan(outcomes[i..]))
    ensures outcomes[i].Err? ==> Scan(outcomes) == Err(outcomes[i].error)
    ensures outcomes[i].Ok? && !outcomes[i].value.valid ==> Scan(outcomes) == Prepend(accepted, Scan(outcomes[i + 1..]))
    ensures outcomes[i].Ok? && outcomes[i].value.valid && OutOfRange(outcomes[i].value) ==> Scan(outcomes) == Ok(accepted)
    ensures outcomes[i].Ok? && outcomes[i].value.valid && !OutOfRange(outcomes[i].value) ==>
      Scan(outcomes) == Prepend(accepted + [outcomes[i].value], Scan(outcomes[i + 1..]))
  {
    assert outcomes[i..][1..] == outcomes[i + 1..];
    assert accepted + [] == accepted;
    if outcomes[i].Ok? {
      PrependStep(accepted, outcomes[i].value, Scan(outcomes[i + 1..]));
    }
  }

  /**
   * The end of `aggregateDicomProperties` for the given parse outcomes:
   * the scan's exception, the IndexError of an empty size list, or the
   * averages of the accepted records.
   */
  function AggregateOutcomes(outcomes: seq<Result<Properties, Failure>>): (r: Result<PropertySet, Failure>)
    ensures r.Ok? ==> r.value.width >= 1 && r.value.depth >= 1
    ensures r.Err? && r.error != NoAcceptedRecords ==> Err(r.error) in outcomes
  {
    match Scan(outcomes)
    case Err(e) => Err(e)
    case Ok(ps) => if |ps| == 0 then Err(NoAcceptedRecords) else Ok(Reduce(ps))
  }

  /**
   * What `aggregateDicomProperties` returns or raises, with the corrected
   * `parseDicom`: an exception comes from one of the records.
   */
  function Aggregate(t: ScanType, records: seq<DicomRecord>): (r: Result<PropertySet, Failure>)
    ensures r.Ok? ==> r.value.width >= 1 && r.value.depth >= 1
    ensures r.Err? && r.error != NoAcceptedRecords ==>
      exists i :: 0 <= i < |records| && ParseDicom(t, records[i]) == Err(r.error)
  {
    AggregateOutcomes(ParseAll(t, records))
  }

  /** What `parseDicom` as written gives for each record, in order. */
  function ParseAllAsWritten(t: ScanType, records: seq<DicomRecord>): (outcomes: seq<Result<Properties, Failure>>)
    ensures |outcomes| == |records|
    ensures forall i :: 0 <= i < |records| ==> outcomes[i] == ParseDicomAsWritten(t, records[i])
  {
    seq(|records|, i requires 0 <= i < |records| => ParseDicomAsWritten(t, records[i]))
  }

  /** `aggregateDicomProperties` over `parseDicom` as written, which raises on other bit depths. */
  function AggregateAsWritten(t: ScanType, records: seq<DicomRecord>): (r: Result<PropertySet, Failure>)
    ensures r.Ok? ==> r.value.width >= 1 && r.value.depth >= 1
    ensures r.Err? && r.error != NoAcceptedRecords ==>
      exists i :: 0 <= i < |records| && ParseDicomAsWritten(t, records[i]) == Err(r.error)
  {
    AggregateOutcomes(ParseAllAsWritten(t, records))
  }

  /**
   * Where the two differ: a leading record that reads cleanly but stores
   * another bit depth aborts the whole aggregation as written, while the
   * corrected parser skips it as invalid and aggregates the rest.
   */
  lemma AggregateAsWrittenAbortsOnOtherDepth(t: ScanType, rec: DicomRecord, rest: seq<DicomRecord>)
    requires ParseDicom(t, rec).Ok? && rec.bitsStored.Some? && rec.bitsStored.value != RequiredBitDepth
    ensures AggregateAsWritten(t, [rec] + rest) == Err(BitDepthNotEight(rec.bitsStored.value))
    ensures Aggregate(t, [rec] + rest) == Aggregate(t, rest)
  {
    ParseDicomAsWrittenRaisesOnOtherDepths(t, rec);
    var outcomes := ParseAll(t, [rec] + rest);
    assert outcomes[1..] == ParseAll(t, rest);
    assert Scan(outcomes) == Scan(ParseAll(t, rest));
    assert ParseAllAsWritten(t, [rec] + rest)[0] == Err(BitDepthNotEight(rec.bitsStored.value));
  }

  /** On 8-bit records the aggregation as written and as corrected agree. */
  lemma AggregateAsWrittenAgrees(t: ScanType, records: seq<DicomRecord>)
    requires forall i :: 0 <= i < |records| ==> records[i].bitsStored == Some(RequiredBitDepth)
    ensures AggregateAsWritten(t, records) == Aggregate(t, records)
  {
    forall i | 0 <= i < |records|
      ensures ParseAllAsWritten(t, records)[i] == ParseAll(t, records)[i]
    {
      ParseDicomAsWrittenAgrees(t, records[i]);
    }
    assert ParseAllAsWritten(t, records) == ParseAll(t, records);
  }

  /** The aggregate, once the scan is known to have accepted `accepted`. */
  lemma AggregateOfAccepted(t: ScanType, records: seq<DicomRecord>, accepted: seq<Properties>)
    requires Scan(ParseAll(t, records)) == Ok(accepted)
    ensures Aggregate(t, records) == if |accepted| == 0 then Err(NoAcceptedRecords) else Ok(Reduce(accepted))
  {
  }

  /**
   * The loop of `aggregateDicomProperties`: six lists appended to per
   * accepted record, a `break` at the first valid record out of range,
   * then the averages and the first width and depth.
   */
  method AggregateDicomProperties(t: ScanType, records: seq<DicomRecord>) returns (r: Result<PropertySet, Failure>)
    ensures r == Aggregate(t, records)
  {
    var slices: seq<real> := [];
    var pixelWidths: seq<real> := [];
    var pixelDepths: seq<real> := [];
    var widths: seq<nat> := [];
    var depths: seq<nat> := [];
    var bitDepths: seq<real> := [];
    ghost var accepted: seq<Properties> := [];
    ghost var outcomes := ParseAll(t, records);
    assert outcomes[0..] == outcomes;
    assert Scan(outcomes).Ok? ==> [] + Scan(outcomes).value == Scan(outcomes).value;
    var i := 0;
    while i < |records|
      invariant 0 <= i <= |records|
      invariant Scan(outcomes) == Prepend(accepted, Scan(outcomes[i..]))
      invariant slices == Slices(accepted) && pixelWidths == PixelWidths(accepted)
      invariant pixelDepths == PixelDepths(accepted) && bitDepths == BitDepths(accepted)
      invariant widths == Widths(accepted) && depths == Depths(accepted)
    {
      var parsed := ParseDicom(t, records[i]);
      ScanStep(outcomes, i, accepted);
      if parsed.Err? {
        return Err(parsed.error);
      }
      var p := parsed.value;
      if p.valid {
        if OutOfRange(p) {
          break;
        }
        AcceptOne(accepted, p);
        slices := slices + [p.slice];
        pixelWidths := pixelWidths + [p.pixelWidth];
        pixelDepths := pixelDepths + [p.pixelDepth];
        widths := widths + [p.width];
        depths := depths + [p.depth];
        bitDepths := bitDepths + [p.bits as real];
        accepted := accepted + [p];
      }
      i := i + 1;
    }
    if i == |records| {
      assert outcomes[i..] == [];
      assert accepted + [] == accepted;
    }
    AggregateOfAccepted(t, records, accepted);
    if |widths| == 0 {
      return Err(NoAcceptedRecords);
    }
    r := Ok(PropertySet(Mean(slices), Mean(pixelWidths), Mean(pixelDepths), widths[0], depths[0], Mean(bitDepths)));
  }
}
