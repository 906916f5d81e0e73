/**
 * The converter's steps put together: finding and approving the DICOM
 * files of a scan (`retrieveDicomFiles`), building the NIfTI image from
 * the raw volume (`createNifty`), the list of data directories the
 * script visits, and the per-scan conversion the main loop runs.
 */
module Pipeline {
  import opened Wrappers
  import opened Text
  import opened ScanTypes
  import opened Failures
  import opened DicomProperties
  import opened Aggregation
  import opened Volume
  import opened FileSelection

  /**
   * The files the script reads, as the functions they amount to:
   * `os.walk(top)`, `pydicom.dcmread(path)` and `np.fromfile(path,
   * dtype='uint8')`. Unpacking an archive is taken to have happened:
   * walking its extraction folder lists its contents.
   */
  datatype Filesystem = Filesystem(
    walk: string -> seq<WalkEntry>,
    records: string -> DicomRecord,
    bytes: string -> seq<Byte>)

  const TmpDir: string := "/tmp/"

  /** `name[:-4]`: the name without its last four characters (empty when shorter). */
  function WithoutExtension(name: string): string
  {
    if |name| >= 4 then name[..|name| - 4] else []
  }

  /** `tmpDir + zipFilename[:-4]`: the folder an archive is unpacked into. */
  function ExtractionDirectory(zipName: string): string
  {
    TmpDir + WithoutExtension(zipName)
  }

  /** An archive named `*.zip` unpacks into `/tmp/` plus its name without the `.zip`. */
  lemma ExtractionDirectoryOfZip(zipName: string)
    requires |zipName| >= 4 && zipName[|zipName| - 4..] == ".zip"
    ensures ExtractionDirectory(zipName) == TmpDir + zipName[..|zipName| - 4]
    ensures ExtractionDirectory(zipName) + ".zip" == TmpDir + zipName
  {
    assert zipName == zipName[..|zipName| - 4] + ".zip";
  }

  // ---------------------------------------------------------------------
  // retrieveDicomFiles
  // ---------------------------------------------------------------------

  /** The extraction folders of the DICOM archives, in the order they were found. */
  function ZipDirectories(hits: seq<Hit>): (dirs: seq<string>)
    ensures |dirs| == |hits|
    ensures forall i :: 0 <= i < |hits| ==> dirs[i] == ExtractionDirectory(hits[i].name)
  {
    seq(|hits|, i requires 0 <= i < |hits| => ExtractionDirectory(hits[i].name))
  }

  lemma ZipDirectoriesStep(hits: seq<Hit>, i: nat)
    requires i < |hits|
    ensures ZipDirectories(hits[..i + 1]) == ZipDirectories(hits[..i]) + [ExtractionDirectory(hits[i].name)]
  {
  }

  /** The `.DCM` files of the extraction folders, folder by folder. */
  function DicomPaths(dirs: seq<string>, fs: Filesystem): seq<string>
    decreases |dirs|
  {
    if dirs == [] then []
    else DicomPaths(dirs[..|dirs| - 1], fs) + HitPaths(WalkHits(fs.walk(dirs[|dirs| - 1]), Files, DicomFileName))
  }

  lemma DicomPathsStep(dirs: seq<string>, k: nat, fs: Filesystem)
    requires k < |dirs|
    ensures DicomPaths(dirs[..k + 1], fs) == DicomPaths(dirs[..k], fs) + HitPaths(WalkHits(fs.walk(dirs[k]), Files, DicomFileName))
  {
    assert dirs[..k + 1][..k] == dirs[..k];
  }

  /** What `retrieveDicomFiles` returns: the folders it created and the approved DICOM files. */
  function DicomFiles(t: ScanType, dataDirectory: string, fs: Filesystem): (r: Result<(seq<string>, seq<string>), Failure>)
    ensures r.Ok? ==> |r.value.0| == |WalkHits(fs.walk(dataDirectory), Files, DicomZipName)|
    ensures r.Ok? ==> forall p :: p in r.value.1 ==> p in DicomPaths(r.value.0, fs)
  {
    var dirs := ZipDirectories(WalkHits(fs.walk(dataDirectory), Files, DicomZipName));
    match Approve(t, DicomPaths(dirs, fs), fs.records)
    case Err(e) => Err(e)
    case Ok(approved) => Ok((dirs, approved))
  }

  /** `p` is the path of a `.DCM` file the walk of `dir` lists. */
  ghost predicate ListedDicomFile(dir: string, fs: Filesystem, p: string) {
    exists h :: h in WalkHits(fs.walk(dir), Files, DicomFileName) && p == h.dirpath + "/" + h.name
  }

  lemma HitPathsIff(hits: seq<Hit>, p: string)
    ensures p in HitPaths(hits) <==> exists h :: h in hits && p == h.dirpath + "/" + h.name
  {
    if p in HitPaths(hits) {
      var j :| 0 <= j < |hits| && HitPaths(hits)[j] == p;
      assert hits[j] in hits;
    }
    if exists h :: h in hits && p == h.dirpath + "/" + h.name {
      var h :| h in hits && p == h.dirpath + "/" + h.name;
      var j :| 0 <= j < |hits| && hits[j] == h;
      assert HitPaths(hits)[j] == p;
    }
  }

  /** `p` is listed in one of the folders `dirs`. */
  ghost predicate ListedInSome(dirs: seq<string>, fs: Filesystem, p: string) {
    exists k :: 0 <= k < |dirs| && ListedDicomFile(dirs[k], fs, p)
  }

  lemma ListedInSomeInit(dirs: seq<string>, fs: Filesystem, p: string)
    requires dirs != [] && ListedInSome(dirs[..|dirs| - 1], fs, p)
    ensures ListedInSome(dirs, fs, p)
  {
    var init := dirs[..|dirs| - 1];
    var k :| 0 <= k < |init| && ListedDicomFile(init[k], fs, p);
    assert dirs[k] == init[k];
  }

  lemma ListedInSomeLast(dirs: seq<string>, fs: Filesystem, p: string)
    requires dirs != [] && ListedDicomFile(dirs[|dirs| - 1], fs, p)
    ensures ListedInSome(dirs, fs, p)
  {
  }

  lemma ListedInSomeSplit(dirs: seq<string>, fs: Filesystem, p: string)
    requires dirs != [] && ListedInSome(dirs, fs, p)
    ensures ListedInSome(dirs[..|dirs| - 1], fs, p) || ListedDicomFile(dirs[|dirs| - 1], fs, p)
  {
    var init := dirs[..|dirs| - 1];
    var k :| 0 <= k < |dirs| && ListedDicomFile(dirs[k], fs, p);
    if k < |init| {
      assert init[k] == dirs[k];
    }
  }

  lemma ListedInSomeStep(dirs: seq<string>, fs: Filesystem, p: string)
    requires dirs != []
    ensures ListedInSome(dirs, fs, p) <==>
      ListedInSome(dirs[..|dirs| - 1], fs, p) || ListedDicomFile(dirs[|dirs| - 1], fs, p)
  {
    if ListedInSome(dirs[..|dirs| - 1], fs, p) {
      ListedInSomeInit(dirs, fs, p);
    }
    if ListedDicomFile(dirs[|dirs| - 1], fs, p) {
      ListedInSomeLast(dirs, fs, p);
    }
    if ListedInSome(dirs, fs, p) {
      ListedInSomeSplit(dirs, fs, p);
    }
  }

  lemma {:induction false} DicomPathsIff(dirs: seq<string>, fs: Filesystem, p: string)
    ensures p in DicomPaths(dirs, fs) <==> ListedInSome(dirs, fs, p)
    decreases |dirs|
  {
    if dirs != [] {
      var init, last := dirs[..|dirs| - 1], dirs[|dirs| - 1];
      var lastHits := WalkHits(fs.walk(last), Files, DicomFileName);
      DicomPathsIff(init, fs, p);
      HitPathsIff(lastHits, p);
      ListedInSomeStep(dirs, fs, p);
      assert DicomPaths(dirs, fs) == DicomPaths(init, fs) + HitPaths(lastHits);
    }
  }

  /**
   * Every file `retrieveDicomFiles` returns is a `.DCM` file listed in
   * the extraction folder of a DICOM archive, with a code meaning that
   * mentions the scan type, and every such file is returned.
   */
  lemma DicomFilesApproved(t: ScanType, dataDirectory: string, fs: Filesystem, p: string)
    requires DicomFiles(t, dataDirectory, fs).Ok?
    ensures var (dirs, approved) := DicomFiles(t, dataDirectory, fs).value;
      p in approved <==>
        ListedInSome(dirs, fs, p)
        && fs.records(p).codeMeaning.Some? && Approved(t, fs.records(p).codeMeaning.value)
    ensures forall d :: d in DicomFiles(t, dataDirectory, fs).value.0 ==>
      exists h :: h in WalkHits(fs.walk(dataDirectory), Files, DicomZipName) && d == ExtractionDirectory(h.name)
  {
    var zips := WalkHits(fs.walk(dataDirectory), Files, DicomZipName);
    var dirs := ZipDirectories(zips);
    var paths := DicomPaths(dirs, fs);
    ApproveIff(t, paths, fs.records, p);
    DicomPathsIff(dirs, fs, p);
    if p in paths {
      ApproveIff(t, paths, fs.records, p);
    }
    forall d | d in dirs
      ensures exists h :: h in zips && d == ExtractionDirectory(h.name)
    {
      var k :| 0 <= k < |dirs| && dirs[k] == d;
      assert zips[k] in zips;
    }
  }

  /** The unpacking loop of `retrieveDicomFiles`: one extraction folder per archive, in order. */
  method CollectExtractionDirectories(zips: seq<Hit>) returns (directoriesToCreate: seq<string>)
    ensures directoriesToCreate == ZipDirectories(zips)
  {
    directoriesToCreate := [];
    for idx := 0 to |zips|
      invariant directoriesToCreate == ZipDirectories(zips[..idx])
    {
      ZipDirectoriesStep(zips, idx);
      directoriesToCreate := directoriesToCreate + [ExtractionDirectory(zips[idx].name)];
    }
    assert zips[..|zips|] == zips;
  }

  /** The listing loop of `retrieveDicomFiles`: the `.DCM` files of every folder, folder by folder. */
  method CollectDicomPaths(dirs: seq<string>, fs: Filesystem) returns (dcmFilenames: seq<string>)
    ensures dcmFilenames == DicomPaths(dirs, fs)
  {
    dcmFilenames := [];
    for k := 0 to |dirs|
      invariant dcmFilenames == DicomPaths(dirs[..k], fs)
    {
      var hits := CollectHits(fs.walk(dirs[k]), Files, DicomFileName);
      DicomPathsStep(dirs, k, fs);
      dcmFilenames := dcmFilenames + HitPaths(hits);
    }
    assert dirs[..|dirs|] == dirs;
  }

  /**
   * `retrieveDicomFiles`: the DICOM archives of the data directory, the
   * folders they are unpacked into, the `.DCM` files in those folders and
   * the ones whose code meaning mentions the scan type.
   */
  method RetrieveDicomFiles(t: ScanType, dataDirectory: string, fs: Filesystem) returns (r: Result<(seq<string>, seq<string>), Failure>)
    ensures r == DicomFiles(t, dataDirectory, fs)
  {
    var zips := CollectHits(fs.walk(dataDirectory), Files, DicomZipName);
    var directoriesToCreate := CollectExtractionDirectories(zips);
    var dcmFilenames := CollectDicomPaths(directoriesToCreate, fs);
    var approved := ApproveDicomFiles(t, dcmFilenames, fs.records);
    if approved.Err? {
      return Err(approved.error);
    }
    r := Ok((directoriesToCreate, approved.value));
  }

  // ---------------------------------------------------------------------
  // createNifty
  // ---------------------------------------------------------------------

  /** The raw-volume test for one scan type, as a name filter. */
  function RawFileTest(t: ScanType): string -> bool
  {
    name => RawFileMatch(t, name)
  }

  /**
   * Where the image is saved: the data directory, a separator and the
   * type's volume name with `.nii`, which is the name the script's
   * if-chain binds (`OutputPathIsScriptName`).
   */
  function OutputPath(t: ScanType, dataDirectory: string): string
  {
    dataDirectory + "/" + VolumeName(t) + ".nii"
  }

  /** `dataDirectory + "/" + outputFileFullyQualifiedName`, the name always bound. */
  lemma OutputPathIsScriptName(t: ScanType, dataDirectory: string)
    ensures OutputFileName(t).Some?
    ensures OutputPath(t, dataDirectory) == dataDirectory + "/" + OutputFileName(t).value
  {
    OutputFileNameByType(t);
    assert dataDirectory + "/" + (VolumeName(t) + ".nii") == dataDirectory + "/" + VolumeName(t) + ".nii";
  }

  /** The image `createNifty` saves, the path it saves it at, and the folder it unpacked. */
  datatype NiftiOutput = NiftiOutput(image: NiftiImage, path: string, extracted: string)

  /** What `createNifty` returns or raises for the aggregated properties `p`. */
  function Nifti(t: ScanType, dataDirectory: string, p: PropertySet, fs: Filesystem): (r: Result<NiftiOutput, Failure>)
    ensures r.Ok? ==> r.value.path == OutputPath(t, dataDirectory) && p.width > 0 && p.depth > 0
  {
    match SelectOne(WalkHits(fs.walk(dataDirectory), Files, ImgZipName), ImageArchive)
    case Err(e) => Err(e)
    case Ok(zip) =>
      var dir := ExtractionDirectory(zip.name);
      match SelectOne(WalkHits(fs.walk(dir), Files, RawFileTest(t)), RawVolumeFile)
      case Err(e) => Err(e)
      case Ok(raw) =>
        match BuildNifti(fs.bytes(raw.dirpath + "/" + raw.name), p.pixelWidth, p.pixelDepth, p.slice, p.width, p.depth)
        case Err(e) => Err(e)
        case Ok(img) => Ok(NiftiOutput(img, OutputPath(t, dataDirectory), dir))
  }

  /**
   * A saved image comes from the only raw-volume archive and the only raw
   * file of the scan type in it, is saved under the type's own name in
   * the data directory, and carries the aggregated sizes and spacings.
   */
  lemma NiftiSaved(t: ScanType, dataDirectory: string, p: PropertySet, fs: Filesystem)
    requires Nifti(t, dataDirectory, p, fs).Ok?
    ensures |WalkHits(fs.walk(dataDirectory), Files, ImgZipName)| == 1
    ensures var zip := WalkHits(fs.walk(dataDirectory), Files, ImgZipName)[0];
      |WalkHits(fs.walk(ExtractionDirectory(zip.name)), Files, RawFileTest(t))| == 1
    ensures var out := Nifti(t, dataDirectory, p, fs).value;
      out.path == dataDirectory + "/" + VolumeName(t) + ".nii"
      && out.image.header.shape.0 == p.width && out.image.header.shape.1 == p.depth
      && p.width > 0 && p.depth > 0
      && HasShape(out.image.data, out.image.header.shape.0, out.image.header.shape.1, out.image.header.shape.2)
      && out.image.affine == Diag([p.pixelWidth, p.pixelDepth, p.slice, 1.0])
  {
    var zip := WalkHits(fs.walk(dataDirectory), Files, ImgZipName)[0];
    var raw := WalkHits(fs.walk(ExtractionDirectory(zip.name)), Files, RawFileTest(t))[0];
    BuildNiftiHeader(fs.bytes(raw.dirpath + "/" + raw.name), p.pixelWidth, p.pixelDepth, p.slice, p.width, p.depth);
  }

  lemma PrefixCancels(prefix: string, x: string, y: string)
    requires prefix + x == prefix + y
    ensures x == y
  {
    assert x == (prefix + x)[|prefix|..];
    assert y == (prefix + y)[|prefix|..];
  }

  /** Two scan types converted in the same directory never overwrite each other's image. */
  lemma NiftiPathsDistinct(a: ScanType, b: ScanType, dataDirectory: string)
    requires a != b
    ensures OutputPath(a, dataDirectory) != OutputPath(b, dataDirectory)
  {
    OutputFileNamesDistinct(a, b);
    OutputPathIsScriptName(a, dataDirectory);
    OutputPathIsScriptName(b, dataDirectory);
    if OutputPath(a, dataDirectory) == OutputPath(b, dataDirectory) {
      PrefixCancels(dataDirectory + "/", OutputFileName(a).value, OutputFileName(b).value);
    }
  }

  /**
   * `createNifty`: the raw-volume archive of the data directory (exactly
   * one), the raw file of the scan type in its extraction folder (exactly
   * one), its bytes turned into the image.
   */
  method CreateNifty(t: ScanType, dataDirectory: string, p: PropertySet, fs: Filesystem) returns (r: Result<NiftiOutput, Failure>)
    ensures r == Nifti(t, dataDirectory, p, fs)
  {
    var zips := CollectHits(fs.walk(dataDirectory), Files, ImgZipName);
    var zip := SelectOne(zips, ImageArchive);
    if zip.Err? {
      return Err(zip.error);
    }
    var directoryToCreate := ExtractionDirectory(zip.value.name);
    var raws := CollectHits(fs.walk(directoryToCreate), Files, RawFileTest(t));
    var raw := SelectOne(raws, RawVolumeFile);
    if raw.Err? {
      return Err(raw.error);
    }
    var outputPath := OutputPath(t, dataDirectory);
    var data := fs.bytes(raw.value.dirpath + "/" + raw.value.name);
    var image := BuildNifti(data, p.pixelWidth, p.pixelDepth, p.slice, p.width, p.depth);
    if image.Err? {
      return Err(image.error);
    }
    r := Ok(NiftiOutput(image.value, outputPath, directoryToCreate));
  }

  // ---------------------------------------------------------------------
  // The data directories
  // ---------------------------------------------------------------------

  /** `os.path.join(a, b)` for a name `b` without separators. */
  function JoinPath(a: string, b: string): string
  {
    if a == [] || a[|a| - 1] == '/' then a + b else a + "/" + b
  }

  /** The text after the last separator. */
  function LastComponent(path: string): string
    decreases |path|
  {
    if path == [] || path[|path| - 1] == '/' then [] else LastComponent(path[..|path| - 1]) + [path[|path| - 1]]
  }

  /** The name of the directory a path ending in a separator denotes. */
  function DirectoryName(path: string): string
  {
    if path != [] && path[|path| - 1] == '/' then LastComponent(path[..|path| - 1]) else LastComponent(path)
  }

  lemma {:induction false} LastComponentOfName(prefix: string, name: string)
    requires prefix == [] || prefix[|prefix| - 1] == '/'
    requires forall i :: 0 <= i < |name| ==> name[i] != '/'
    ensures LastComponent(prefix + name) == name
    decreases |name|
  {
    if name == [] {
      assert prefix + name == prefix;
    } else {
      var path := prefix + name;
      var init, last := name[..|name| - 1], name[|name| - 1];
      assert forall i :: 0 <= i < |init| ==> init[i] == name[i];
      LastComponentOfName(prefix, init);
      assert path[|path| - 1] == last && last != '/';
      assert path[..|path| - 1] == prefix + init;
      assert LastComponent(path) == LastComponent(prefix + init) + [last];
      assert init + [last] == name;
    }
  }

  /** The path the script builds for a `RIDE_` directory: `root + subdir + "/"`. */
  function RideDirectoryPathAsWritten(h: Hit): string
  {
    h.dirpath + h.name + "/"
  }

  /** The path of a subdirectory listed under `h.dirpath`: `os.path.join(root, subdir) + "/"`. */
  function SubdirectoryPath(h: Hit): string
  {
    JoinPath(h.dirpath, h.name) + "/"
  }

  /** The path of a listed subdirectory names that subdirectory, inside the listed root. */
  lemma SubdirectoryPathNamesDirectory(h: Hit)
    requires forall i :: 0 <= i < |h.name| ==> h.name[i] != '/'
    ensures DirectoryName(SubdirectoryPath(h)) == h.name
    ensures h.dirpath <= SubdirectoryPath(h)
  {
    var joined := JoinPath(h.dirpath, h.name);
    var prefix := if h.dirpath == [] || h.dirpath[|h.dirpath| - 1] == '/' then h.dirpath else h.dirpath + "/";
    assert joined == prefix + h.name;
    LastComponentOfName(prefix, h.name);
    assert SubdirectoryPath(h)[..|SubdirectoryPath(h)| - 1] == joined;
  }

  /**
   * The two paths agree exactly when the root is empty or ends in a
   * separator, as the top of the walk does; below it they differ.
   */
  lemma RideDirectoryPathAgreesIff(h: Hit)
    ensures RideDirectoryPathAsWritten(h) == SubdirectoryPath(h) <==> h.dirpath == [] || h.dirpath[|h.dirpath| - 1] == '/'
  {
    if !(h.dirpath == [] || h.dirpath[|h.dirpath| - 1] == '/') {
      assert |SubdirectoryPath(h)| == |RideDirectoryPathAsWritten(h)| + 1;
    }
  }

  /**
   * One level further down `os.walk` gives the root without a trailing
   * separator, and the script's path runs the parent and the `RIDE_`
   * folder together into one name.
   */
  lemma RideDirectoryPathAsWrittenMergesNames()
    ensures DirectoryName(RideDirectoryPathAsWritten(Hit("data/A", "RIDE_1"))) == "ARIDE_1"
    ensures DirectoryName(SubdirectoryPath(Hit("data/A", "RIDE_1"))) == "RIDE_1"
  {
    SubdirectoryPathNamesDirectory(Hit("data/A", "RIDE_1"));
    var merged := RideDirectoryPathAsWritten(Hit("data/A", "RIDE_1"));
    assert merged == "data/ARIDE_1/";
    assert merged[..|merged| - 1] == "data/" + "ARIDE_1";
    LastComponentOfName("data/", "ARIDE_1");
  }

  /** The `RIDE_` folder paths, in walk order. */
  function RidePaths(hits: seq<Hit>): (paths: seq<string>)
    ensures |paths| == |hits|
    ensures forall i :: 0 <= i < |hits| ==> paths[i] == SubdirectoryPath(hits[i])
  {
    seq(|hits|, i requires 0 <= i < |hits| => SubdirectoryPath(hits[i]))
  }

  lemma RidePathsStep(hits: seq<Hit>, i: nat)
    requires i < |hits|
    ensures RidePaths(hits[..i + 1]) == RidePaths(hits[..i]) + [SubdirectoryPath(hits[i])]
  {
  }

  /**
   * The directories the main loop converts: the input one, or every
   * `RIDE_` folder below it, each path ending in a separator.
   */
  function DataDirectories(dataDirectory: string, recursive: bool, fs: Filesystem): (dirs: seq<string>)
    ensures !recursive ==> dirs == [dataDirectory]
    ensures recursive ==> forall i :: 0 <= i < |dirs| ==> |dirs[i]| > 0 && dirs[i][|dirs[i]| - 1] == '/'
  {
    if !recursive then [dataDirectory]
    else RidePaths(WalkHits(fs.walk(dataDirectory), Subdirectories, RideDirectory))
  }

  /** The directories as line 420 writes their paths, `root + subdir + "/"`. */
  function DataDirectoriesAsWritten(dataDirectory: string, recursive: bool, fs: Filesystem): (dirs: seq<string>)
    ensures !recursive ==> dirs == [dataDirectory]
    ensures recursive ==> forall i :: 0 <= i < |dirs| ==> |dirs[i]| > 0 && dirs[i][|dirs[i]| - 1] == '/'
  {
    if !recursive then [dataDirectory]
    else
      var hits := WalkHits(fs.walk(dataDirectory), Subdirectories, RideDirectory);
      seq(|hits|, i requires 0 <= i < |hits| => RideDirectoryPathAsWritten(hits[i]))
  }

  /**
   * The script as written visits as many directories as the corrected
   * one, and the `i`-th agrees exactly when its walk root is empty or ends
   * in a separator: every `RIDE_` folder below the top is misnamed.
   */
  lemma DataDirectoriesAsWrittenDiffer(dataDirectory: string, fs: Filesystem, i: nat)
    requires i < |WalkHits(fs.walk(dataDirectory), Subdirectories, RideDirectory)|
    ensures |DataDirectoriesAsWritten(dataDirectory, true, fs)| == |DataDirectories(dataDirectory, true, fs)|
    ensures var root := WalkHits(fs.walk(dataDirectory), Subdirectories, RideDirectory)[i].dirpath;
      DataDirectoriesAsWritten(dataDirectory, true, fs)[i] == DataDirectories(dataDirectory, true, fs)[i]
      <==> root == [] || root[|root| - 1] == '/'
  {
    RideDirectoryPathAgreesIff(WalkHits(fs.walk(dataDirectory), Subdirectories, RideDirectory)[i]);
  }

  /** In recursive mode every visited directory is a `RIDE_` folder listed by the walk, named as listed. */
  lemma DataDirectoriesAreRideFolders(dataDirectory: string, fs: Filesystem, d: string)
    requires d in DataDirectories(dataDirectory, true, fs)
    requires forall e, n :: e in fs.walk(dataDirectory) && n in e.dirnames ==> forall i :: 0 <= i < |n| ==> n[i] != '/'
    ensures RideDirectory(DirectoryName(d))
    ensures exists e :: e in fs.walk(dataDirectory) && DirectoryName(d) in e.dirnames && e.dirpath <= d
  {
    var walk := fs.walk(dataDirectory);
    var hits := WalkHits(walk, Subdirectories, RideDirectory);
    var k :| 0 <= k < |hits| && RidePaths(hits)[k] == d;
    var h := hits[k];
    WalkHitsIff(walk, Subdirectories, RideDirectory, h);
    var i :| 0 <= i < |walk| && walk[i].dirpath == h.dirpath && h.name in Names(walk[i], Subdirectories);
    assert walk[i] in walk;
    SubdirectoryPathNamesDirectory(h);
  }

  /**
   * The directory list of the main block: the input directory alone, or
   * with `-r` every `RIDE_` folder the walk lists.
   */
  method CollectDataDirectories(dataDirectory: string, recursive: bool, fs: Filesystem) returns (dirs: seq<string>)
    ensures dirs == DataDirectories(dataDirectory, recursive, fs)
  {
    if !recursive {
      return [dataDirectory];
    }
    var hits := CollectHits(fs.walk(dataDirectory), Subdirectories, RideDirectory);
    dirs := [];
    for i := 0 to |hits|
      invariant dirs == RidePaths(hits[..i])
    {
      RidePathsStep(hits, i);
      dirs := dirs + [SubdirectoryPath(hits[i])];
    }
    assert hits[..|hits|] == hits;
  }

  // ---------------------------------------------------------------------
  // One scan of one directory
  // ---------------------------------------------------------------------

  /** The records of the approved files, as `parseDicom` reads them. */
  function RecordsOf(paths: seq<string>, fs: Filesystem): (records: seq<DicomRecord>)
    ensures |records| == |paths|
    ensures forall i :: 0 <= i < |paths| ==> records[i] == fs.records(paths[i])
  {
    seq(|paths|, i requires 0 <= i < |paths| => fs.records(paths[i]))
  }

  /** What the body of the main loop produces for one scan type in one directory. */
  function Convert(t: ScanType, dataDirectory: string, fs: Filesystem): (r: Result<NiftiOutput, Failure>)
    ensures r.Ok? ==> r.value.path == OutputPath(t, dataDirectory)
  {
    match DicomFiles(t, dataDirectory, fs)
    case Err(e) => Err(e)
    case Ok(found) =>
      match Aggregate(t, RecordsOf(found.1, fs))
      case Err(e) => Err(e)
      case Ok(p) => Nifti(t, dataDirectory, p, fs)
  }

  /**
   * A converted scan has positive pixel counts, so its image is a
   * well-formed (width, depth, slices) volume of the scan's own file.
   */
  lemma ConvertSaved(t: ScanType, dataDirectory: string, fs: Filesystem)
    requires Convert(t, dataDirectory, fs).Ok?
    ensures var out := Convert(t, dataDirectory, fs).value;
      out.path == dataDirectory + "/" + VolumeName(t) + ".nii"
      && out.image.header.shape.0 > 0 && out.image.header.shape.1 > 0
      && HasShape(out.image.data, out.image.header.shape.0, out.image.header.shape.1, out.image.header.shape.2)
  {
    var found := DicomFiles(t, dataDirectory, fs).value;
    var p := Aggregate(t, RecordsOf(found.1, fs)).value;
    assert Convert(t, dataDirectory, fs) == Nifti(t, dataDirectory, p, fs);
    NiftiSaved(t, dataDirectory, p, fs);
  }

  /**
   * The scan of one directory: retrieve the DICOM files, aggregate their
   * properties, build and save the image.
   */
  method ConvertScan(t: ScanType, dataDirectory: string, fs: Filesystem) returns (r: Result<NiftiOutput, Failure>)
    ensures r == Convert(t, dataDirectory, fs)
  {
    var found := RetrieveDicomFiles(t, dataDirectory, fs);
    if found.Err? {
      return Err(found.error);
    }
    var records := RecordsOf(found.value.1, fs);
    var properties := AggregateDicomProperties(t, records);
    if properties.Err? {
      return Err(properties.error);
    }
    r := CreateNifty(t, dataDirectory, properties.value, fs);
  }

  // ---------------------------------------------------------------------
  // The main loop
  // ---------------------------------------------------------------------

  /**
   * The images saved from a sequence of scan outcomes: every image up to
   * the first failure, none after it.
   */
  function SavedUntilFailure(outcomes: seq<Result<NiftiOutput, Failure>>): (saved: seq<NiftiOutput>)
    ensures |saved| <= |outcomes|
    ensures forall j :: 0 <= j < |saved| ==> outcomes[j] == Ok(saved[j])
    ensures |saved| < |outcomes| ==> outcomes[|saved|].Err?
    decreases |outcomes|
  {
    if outcomes == [] then []
    else match outcomes[0]
      case Err(_) => []
      case Ok(out) => [out] + SavedUntilFailure(outcomes[1..])
  }

  lemma SavedStep(outcomes: seq<Result<NiftiOutput, Failure>>, k: nat)
    requires k < |outcomes|
    ensures outcomes[k].Err? ==> SavedUntilFailure(outcomes[k..]) == []
    ensures outcomes[k].Ok? ==> SavedUntilFailure(outcomes[k..]) == [outcomes[k].value] + SavedUntilFailure(outcomes[k + 1..])
  {
    assert outcomes[k..][1..] == outcomes[k + 1..];
  }

  /** What each scan type gives in one directory. */
  function ConvertOutcomes(types: seq<ScanType>, dataDirectory: string, fs: Filesystem): (outcomes: seq<Result<NiftiOutput, Failure>>)
    ensures |outcomes| == |types|
    ensures forall j :: 0 <= j < |types| ==> outcomes[j] == Convert(types[j], dataDirectory, fs)
  {
    seq(|types|, j requires 0 <= j < |types| => Convert(types[j], dataDirectory, fs))
  }

  /**
   * The images saved for one directory: one per scan type, in order, up
   * to the first scan that fails; the bare `except` then omits the rest
   * of that directory.
   */
  function ConvertTypes(types: seq<ScanType>, dataDirectory: string, fs: Filesystem): seq<NiftiOutput>
  {
    SavedUntilFailure(ConvertOutcomes(types, dataDirectory, fs))
  }

  /** The images saved over all data directories, directory by directory. */
  function ConvertDirectories(dirs: seq<string>, types: seq<ScanType>, fs: Filesystem): seq<NiftiOutput>
    decreases |dirs|
  {
    if dirs == [] then []
    else ConvertDirectories(dirs[..|dirs| - 1], types, fs) + ConvertTypes(types, dirs[|dirs| - 1], fs)
  }

  lemma ConvertDirectoriesStep(dirs: seq<string>, i: nat, types: seq<ScanType>, fs: Filesystem)
    requires i < |dirs|
    ensures ConvertDirectories(dirs[..i + 1], types, fs) == ConvertDirectories(dirs[..i], types, fs) + ConvertTypes(types, dirs[i], fs)
  {
    assert dirs[..i + 1][..i] == dirs[..i];
  }

  /** Every saved image sits in one of the data directories, under the name of one of the scan types. */
  lemma {:induction false} ConvertDirectoriesPaths(dirs: seq<string>, types: seq<ScanType>, fs: Filesystem, out: NiftiOutput)
    requires out in ConvertDirectories(dirs, types, fs)
    ensures exists d, t :: d in dirs && t in types && out.path == d + "/" + VolumeName(t) + ".nii"
    decreases |dirs|
  {
    var init, last := dirs[..|dirs| - 1], dirs[|dirs| - 1];
    if out in ConvertDirectories(init, types, fs) {
      ConvertDirectoriesPaths(init, types, fs, out);
      var d, t :| d in init && t in types && out.path == d + "/" + VolumeName(t) + ".nii";
      assert d in dirs;
    } else {
      var saved := ConvertTypes(types, last, fs);
      var j :| 0 <= j < |saved| && saved[j] == out;
      assert Convert(types[j], last, fs) == Ok(out);
      ConvertSaved(types[j], last, fs);
      assert types[j] in types;
    }
  }

  /** The scans of one directory, stopping at the first failure. */
  method ConvertDirectory(types: seq<ScanType>, dataDirectory: string, fs: Filesystem) returns (saved: seq<NiftiOutput>)
    ensures saved == ConvertTypes(types, dataDirectory, fs)
  {
    ghost var outcomes := ConvertOutcomes(types, dataDirectory, fs);
    assert outcomes[0..] == outcomes;
    saved := [];
    var k := 0;
    while k < |types|
      invariant 0 <= k <= |types|
      invariant SavedUntilFailure(outcomes) == saved + SavedUntilFailure(outcomes[k..])
    {
      var r := ConvertScan(types[k], dataDirectory, fs);
      SavedStep(outcomes, k);
      if r.Err? {
        break;
      }
      saved := saved + [r.value];
      k := k + 1;
    }
    assert saved + [] == saved;
  }

  /**
   * The main block after option parsing: the data directories, then
   * every scan type in each of them.
   */
  method RunConverter(dataDirectory: string, recursive: bool, types: seq<ScanType>, fs: Filesystem) returns (saved: seq<NiftiOutput>)
    ensures saved == ConvertDirectories(DataDirectories(dataDirectory, recursive, fs), types, fs)
  {
    var dirs := CollectDataDirectories(dataDirectory, recursive, fs);
    saved := [];
    for i := 0 to |dirs|
      invariant saved == ConvertDirectories(dirs[..i], types, fs)
    {
      var dirSaved := ConvertDirectory(types, dirs[i], fs);
      ConvertDirectoriesStep(dirs, i, types, fs);
      saved := saved + dirSaved;
    }
    assert dirs[..|dirs|] == dirs;
  }
}
