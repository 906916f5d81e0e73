/**
 * The file selection of the converter: directory walks reduced to the
 * listings they produce, the loops that collect matching names, the
 * name tests applied to them, the single-match requirement and the
 * code-meaning approval of DICOM files.
 */
module FileSelection {
  import opened Wrappers
  import opened Text
  import opened ScanTypes
  import opened Failures
  import opened DicomProperties

  /** One `(dirpath, dirnames, filenames)` triple of `os.walk`. */
  datatype WalkEntry = WalkEntry(dirpath: string, dirnames: seq<string>, filenames: seq<string>)

  /** Which names of a walk entry a loop looks at. */
  datatype Listing = Files | Subdirectories

  function Names(e: WalkEntry, l: Listing): seq<string>
  {
    match l
    case Files => e.filenames
    case Subdirectories => e.dirnames
  }

  /** A name accepted by a loop, with the directory it was listed in. */
  datatype Hit = Hit(dirpath: string, name: string)

  // ---------------------------------------------------------------------
  // Collecting matches from a walk
  // ---------------------------------------------------------------------

  /** The names of one directory that pass `keep`, in listing order. */
  function EntryHits(dirpath: string, names: seq<string>, keep: string -> bool): seq<Hit>
    decreases |names|
  {
    if names == [] then []
    else
      var last := names[|names| - 1];
      EntryHits(dirpath, names[..|names| - 1], keep) + (if keep(last) then [Hit(dirpath, last)] else [])
  }

  /** The matches of a whole walk, directory by directory in walk order. */
  function WalkHits(walk: seq<WalkEntry>, l: Listing, keep: string -> bool): seq<Hit>
    decreases |walk|
  {
    if walk == [] then []
    else
      var last := walk[|walk| - 1];
      WalkHits(walk[..|walk| - 1], l, keep) + EntryHits(last.dirpath, Names(last, l), keep)
  }

  lemma {:induction false} EntryHitsIff(dirpath: string, names: seq<string>, keep: string -> bool, h: Hit)
    ensures h in EntryHits(dirpath, names, keep) <==> h.dirpath == dirpath && h.name in names && keep(h.name)
    decreases |names|
  {
    if names != [] {
      var init := names[..|names| - 1];
      EntryHitsIff(dirpath, init, keep, h);
      assert names == init + [names[|names| - 1]];
    }
  }

  /** A walk yields exactly the accepted names of every directory it lists. */
  lemma {:induction false} WalkHitsIff(walk: seq<WalkEntry>, l: Listing, keep: string -> bool, h: Hit)
    ensures h in WalkHits(walk, l, keep) <==>
      keep(h.name) && exists i :: 0 <= i < |walk| && walk[i].dirpath == h.dirpath && h.name in Names(walk[i], l)
    decreases |walk|
  {
    if walk != [] {
      var init := walk[..|walk| - 1];
      var last := walk[|walk| - 1];
      WalkHitsIff(init, l, keep, h);
      EntryHitsIff(last.dirpath, Names(last, l), keep, h);
      if h in WalkHits(walk, l, keep) && h !in EntryHits(last.dirpath, Names(last, l), keep) {
        var i :| 0 <= i < |init| && init[i].dirpath == h.dirpath && h.name in Names(init[i], l);
        assert walk[i] == init[i];
      }
      if keep(h.name) && h !in EntryHits(last.dirpath, Names(last, l), keep) {
        if i :| 0 <= i < |walk| && walk[i].dirpath == h.dirpath && h.name in Names(walk[i], l) {
          assert i < |init| && init[i] == walk[i];
        }
      }
    }
  }

  lemma EntryHitsStep(dirpath: string, names: seq<string>, j: nat, keep: string -> bool)
    requires j < |names|
    ensures EntryHits(dirpath, names[..j + 1], keep)
      == EntryHits(dirpath, names[..j], keep) + (if keep(names[j]) then [Hit(dirpath, names[j])] else [])
  {
    assert names[..j + 1][..j] == names[..j];
  }

  lemma WalkHitsStep(walk: seq<WalkEntry>, i: nat, l: Listing, keep: string -> bool)
    requires i < |walk|
    ensures WalkHits(walk[..i + 1], l, keep) == WalkHits(walk[..i], l, keep) + EntryHits(walk[i].dirpath, Names(walk[i], l), keep)
  {
    assert walk[..i + 1][..i] == walk[..i];
  }

  /**
   * The nested `for (dirpath, dirnames, filenames) in walk(...)` /
   * `for filename in filenames` loops that append every accepted name.
   */
  method CollectHits(walk: seq<WalkEntry>, l: Listing, keep: string -> bool) returns (hits: seq<Hit>)
    ensures hits == WalkHits(walk, l, keep)
  {
    hits := [];
    var i := 0;
    while i < |walk|
      invariant 0 <= i <= |walk|
      invariant hits == WalkHits(walk[..i], l, keep)
    {
      var entry := walk[i];
      var names := Names(entry, l);
      var j := 0;
      while j < |names|
        invariant 0 <= j <= |names|
        invariant hits == WalkHits(walk[..i], l, keep) + EntryHits(entry.dirpath, names[..j], keep)
      {
        EntryHitsStep(entry.dirpath, names, j, keep);
        if keep(names[j]) {
          hits := hits + [Hit(entry.dirpath, names[j])];
        }
        j := j + 1;
      }
      assert names[..j] == names;
      WalkHitsStep(walk, i, l, keep);
      i := i + 1;
    }
    assert walk[..i] == walk;
  }

  /** `dirpath + "/" + filename` for every match. */
  function HitPaths(hits: seq<Hit>): (paths: seq<string>)
    ensures |paths| == |hits|
  {
    seq(|hits|, i requires 0 <= i < |hits| => hits[i].dirpath + "/" + hits[i].name)
  }

  // ---------------------------------------------------------------------
  // The name tests
  // ---------------------------------------------------------------------

  /** The archive holding the raw volume: `"IMGExportFiles.zip" in filename`. */
  predicate ImgZipName(name: string) {
    Contains(name, "IMGExportFiles.zip")
  }

  /** A DICOM archive: `".zip" in filename and "ExportFiles" not in filename`. */
  predicate DicomZipName(name: string) {
    Contains(name, ".zip") && !Contains(name, "ExportFiles")
  }

  /** The raw-volume archive is never unpacked as a DICOM archive. */
  lemma ImgZipIsNotDicomZip(name: string)
    requires ImgZipName(name)
    ensures !DicomZipName(name)
  {
    var marker := "IMGExportFiles.zip";
    assert marker[3..][..11] == "ExportFiles";
    assert Contains(marker[3..], "ExportFiles");
    assert Contains(marker[2..], "ExportFiles");
    assert Contains(marker[1..], "ExportFiles");
    ContainsTransitive(name, marker, "ExportFiles");
  }

  /** A DICOM file inside an unpacked archive: `".DCM" in filename`. */
  predicate DicomFileName(name: string) {
    Contains(name, ".DCM")
  }

  /** A patient directory for the recursive mode: `"RIDE_" in subdir`. */
  predicate RideDirectory(name: string) {
    Contains(name, "RIDE_")
  }

  /**
   * The raw-volume test, as the script writes it: a `cube_raw` file
   * named after the scan type for a Macular Cube, a `FlowCube_raw` file
   * named after it for either angiography type.
   */
  predicate RawFileMatch(t: ScanType, name: string) {
    (Contains(name, "cube_raw") && Contains(name, Label(t)) && Contains("Macular Cube", Label(t)))
    || (Contains(name, "FlowCube_raw") && Contains(name, Label(t)) && Contains(Label(t), "Angiography 8x8"))
    || (Contains(name, "FlowCube_raw") && Contains(name, Label(t)) && Contains(Label(t), "Angiography 3x3"))
  }

  /** The raw file's marker for each scan type. */
  function RawMarker(t: ScanType): string
  {
    if t == MacularCube then "cube_raw" else "FlowCube_raw"
  }

  /** Per scan type, the raw-volume test asks for the type's marker and its label. */
  lemma RawFileMatchByType(t: ScanType, name: string)
    ensures RawFileMatch(t, name) <==> Contains(name, RawMarker(t)) && Contains(name, Label(t))
  {
    LabelContainment(t, MacularCube);
    LabelContainment(Angiography8x8, t);
    LabelContainment(Angiography3x3, t);
  }

  /** `scanType in codeMeaning`, the approval of a DICOM file. */
  predicate Approved(t: ScanType, codeMeaning: string) {
    Contains(codeMeaning, Label(t))
  }

  // ---------------------------------------------------------------------
  // Exactly one match
  // ---------------------------------------------------------------------

  /**
   * The use of a match list: more than one entry stops the script
   * (`exit(1)`), none makes the `[0]` index raise.
   */
  function SelectOne<T>(xs: seq<T>, source: Source): (r: Result<T, Failure>)
    ensures r.Ok? <==> |xs| == 1
    ensures r.Ok? ==> xs == [r.value]
    ensures |xs| > 1 ==> r == Err(Ambiguous(source))
    ensures |xs| == 0 ==> r == Err(NotFound(source))
  {
    if |xs| > 1 then Err(Ambiguous(source))
    else if |xs| == 0 then Err(NotFound(source))
    else Ok(xs[0])
  }

  // ---------------------------------------------------------------------
  // Code-meaning approval
  // ---------------------------------------------------------------------

  /**
   * The DICOM files whose code meaning mentions the scan type, in order;
   * a file without the code-meaning sequence raises (KeyError) and the
   * first such file decides the failure.
   */
  function Approve(t: ScanType, paths: seq<string>, records: string -> DicomRecord): (r: Result<seq<string>, Failure>)
    ensures r.Ok? ==> |r.value| <= |paths| && forall p :: p in r.value ==> p in paths
    ensures r.Err? ==> r.error == FieldMissing(CodeMeaning)
    decreases |paths|
  {
    if paths == [] then Ok([])
    else
      var last := paths[|paths| - 1];
      match Approve(t, paths[..|paths| - 1], records)
      case Err(e) => Err(e)
      case Ok(approved) =>
        match records(last).codeMeaning
        case None => Err(FieldMissing(CodeMeaning))
        case Some(meaning) => Ok(approved + (if Approved(t, meaning) then [last] else []))
  }

  /** A failure on a prefix of the files is the failure of all of them. */
  lemma {:induction false} ApproveFailureSticks(t: ScanType, paths: seq<string>, records: string -> DicomRecord, i: nat)
    requires i <= |paths| && Approve(t, paths[..i], records).Err?
    ensures Approve(t, paths, records) == Approve(t, paths[..i], records)
    decreases |paths| - i
  {
    if i < |paths| {
      assert paths[..i + 1][..i] == paths[..i];
      ApproveFailureSticks(t, paths, records, i + 1);
    } else {
      assert paths[..i] == paths;
    }
  }

  /**
   * Approval succeeds exactly when every file has a code meaning, and
   * then keeps exactly the files whose code meaning mentions the scan type.
   */
  lemma {:induction false} ApproveIff(t: ScanType, paths: seq<string>, records: string -> DicomRecord, p: string)
    ensures Approve(t, paths, records).Ok? <==> forall q :: q in paths ==> records(q).codeMeaning.Some?
    ensures Approve(t, paths, records).Ok? ==>
      (p in Approve(t, paths, records).value <==> p in paths && Approved(t, records(p).codeMeaning.value))
    decreases |paths|
  {
    if paths != [] {
      var init := paths[..|paths| - 1];
      var last := paths[|paths| - 1];
      ApproveIff(t, init, records, p);
      assert paths == init + [last];
      if Approve(t, init, records).Err? {
        var q :| q in init && records(q).codeMeaning.None?;
        assert q in paths;
      }
    }
  }

  lemma ApproveStep(t: ScanType, paths: seq<string>, records: string -> DicomRecord, i: nat, approved: seq<string>)
    requires i < |paths| && Approve(t, paths[..i], records) == Ok(approved)
    ensures records(paths[i]).codeMeaning.None? ==> Approve(t, paths[..i + 1], records) == Err(FieldMissing(CodeMeaning))
    ensures records(paths[i]).codeMeaning.Some? ==>
      Approve(t, paths[..i + 1], records)
        == Ok(approved + (if Approved(t, records(paths[i]).codeMeaning.value) then [paths[i]] else []))
  {
    assert paths[..i + 1][..i] == paths[..i];
  }

  /**
   * The loop that reads every DICOM file's code meaning and keeps the
   * files that mention the scan type.
   */
  method ApproveDicomFiles(t: ScanType, paths: seq<string>, records: string -> DicomRecord) returns (r: Result<seq<string>, Failure>)
    ensures r == Approve(t, paths, records)
  {
    var approved: seq<string> := [];
    var i := 0;
    while i < |paths|
      invariant 0 <= i <= |paths|
      invariant Approve(t, paths[..i], records) == Ok(approved)
    {
      var path := paths[i];
      ApproveStep(t, paths, records, i, approved);
      var meaning := records(path).codeMeaning;
      if meaning.None? {
        ApproveFailureSticks(t, paths, records, i + 1);
        return Err(FieldMissing(CodeMeaning));
      }
      if Approved(t, meaning.value) {
        approved := approved + [path];
      } else {
        assert approved + [] == approved;
      }
      i := i + 1;
    }
    assert paths[..i] == paths;
    r := Ok(approved);
  }
}
