/**
 * The three acquisition types the converter supports, their labels, and
 * the tests the script applies to them: the scan-type guard, the
 * "Angiography" test, the output file name and the `All` expansion.
 */
module ScanTypes {
  import opened Wrappers
  import opened Text

  datatype ScanType = MacularCube | Angiography3x3 | Angiography8x8

  /** The label used on the command line and inside the DICOM code meaning. */
  function Label(t: ScanType): (s: string)
    ensures |s| >= 12
  {
    match t
    case MacularCube => "Macular Cube"
    case Angiography3x3 => "Angiography 3x3"
    case Angiography8x8 => "Angiography 8x8"
  }

  /**
   * The script writes reversed containment tests such as
   * `scanType in "Macular Cube"`; between the three labels such a test
   * holds exactly when the two scan types are the same.
   */
  lemma LabelContainment(a: ScanType, b: ScanType)
    ensures Contains(Label(b), Label(a)) <==> a == b
  {
    ContainsSelf(Label(a));
    if a != b {
      if a == MacularCube {
        assert Label(a)[0] == 'M';
        MissingFirstChar(Label(b), Label(a));
      } else if b == MacularCube {
        ShorterNeverContains(Label(b), Label(a));
      } else {
        assert Label(b)[12] != Label(a)[12];
        SameLengthDistinct(Label(b), Label(a));
      }
    }
  }

  /** `"Angiography" in scanType`, the test that selects the isotropy check. */
  predicate IsAngiography(t: ScanType) {
    Contains(Label(t), "Angiography")
  }

  lemma AngiographyTypes(t: ScanType)
    ensures IsAngiography(t) <==> t != MacularCube
  {
    if t == MacularCube {
      MissingFirstChar(Label(t), "Angiography");
    } else {
      assert Label(t)[..11] == "Angiography";
    }
  }

  /**
   * The guard at the head of the DICOM search: a scan-type string is
   * accepted when one of the three labels occurs in it.
   */
  predicate PassesScanTypeGuard(s: string) {
    Contains(s, "Macular Cube") || Contains(s, "Angiography 8x8") || Contains(s, "Angiography 3x3")
  }

  lemma LabelsPassGuard(t: ScanType)
    ensures PassesScanTypeGuard(Label(t))
  {
    ContainsSelf(Label(t));
  }

  /**
   * The output file name chosen by three successive `if scanType in
   * "<label>"` statements; `None` stands for the name left unbound.
   */
  function OutputFileName(t: ScanType): Option<string>
  {
    var afterCube := if Contains("Macular Cube", Label(t)) then Some("macularCube.nii") else None;
    var after3x3 := if Contains("Angiography 3x3", Label(t)) then Some("angiography3x3.nii") else afterCube;
    if Contains("Angiography 8x8", Label(t)) then Some("angiography8x8.nii") else after3x3
  }

  /** The deterministic per-type volume name the converter promises. */
  function VolumeName(t: ScanType): string
  {
    match t
    case MacularCube => "macularCube"
    case Angiography3x3 => "angiography3x3"
    case Angiography8x8 => "angiography8x8"
  }

  /** Every scan type gets its own name, its volume name plus `.nii`. */
  lemma OutputFileNameByType(t: ScanType)
    ensures OutputFileName(t) == Some(VolumeName(t) + ".nii")
  {
    match t
    case MacularCube => OutputFileNameCube();
    case Angiography3x3 => OutputFileName3x3();
    case Angiography8x8 => OutputFileName8x8();
  }

  lemma OutputFileNameCube()
    ensures OutputFileName(MacularCube) == Some(VolumeName(MacularCube) + ".nii")
  {
    assert "macularCube" + ".nii" == "macularCube.nii";
    LabelContainment(MacularCube, Angiography3x3);
    LabelContainment(MacularCube, Angiography8x8);
    ContainsSelf(Label(MacularCube));
  }

  lemma OutputFileName3x3()
    ensures OutputFileName(Angiography3x3) == Some(VolumeName(Angiography3x3) + ".nii")
  {
    assert "angiography3x3" + ".nii" == "angiography3x3.nii";
    LabelContainment(Angiography3x3, Angiography8x8);
    ContainsSelf(Label(Angiography3x3));
  }

  lemma OutputFileName8x8()
    ensures OutputFileName(Angiography8x8) == Some(VolumeName(Angiography8x8) + ".nii")
  {
    assert "angiography8x8" + ".nii" == "angiography8x8.nii";
    ContainsSelf(Label(Angiography8x8));
  }

  /** Two scan types never write to the same file. */
  lemma OutputFileNamesDistinct(a: ScanType, b: ScanType)
    requires a != b
    ensures OutputFileName(a) != OutputFileName(b)
  {
    OutputFileNameByType(a);
    OutputFileNameByType(b);
    assert VolumeName(a) != VolumeName(b) by {
      assert VolumeName(a)[|VolumeName(a)| - 1] != VolumeName(b)[|VolumeName(b)| - 1] || |VolumeName(a)| != |VolumeName(b)|;
    }
    assert (VolumeName(a) + ".nii")[..|VolumeName(a)|] == VolumeName(a);
    assert (VolumeName(b) + ".nii")[..|VolumeName(b)|] == VolumeName(b);
  }

  /** The scan types `-t All` (or `all`) stands for, in the order the script runs them. */
  const AllScanTypes: seq<ScanType> := [MacularCube, Angiography8x8, Angiography3x3]

  /**
   * The `-t` argument turned into the list of scan types to convert:
   * `All`/`all` expands to the three types, a label names its own type,
   * and any other text is refused (the guard stops the script on it).
   */
  function ExpandScanTypes(arg: string): (r: Option<seq<ScanType>>)
    ensures r.Some? ==> r.value != [] && forall t :: t in r.value ==> arg == "All" || arg == "all" || arg == Label(t)
  {
    if arg == "All" || arg == "all" then Some(AllScanTypes)
    else if arg == Label(MacularCube) then Some([MacularCube])
    else if arg == Label(Angiography3x3) then Some([Angiography3x3])
    else if arg == Label(Angiography8x8) then Some([Angiography8x8])
    else None
  }

  /** A label names exactly its own scan type. */
  lemma ExpandLabel(t: ScanType)
    ensures ExpandScanTypes(Label(t)) == Some([t])
  {
    assert Label(t) != "All" && Label(t) != "all";
  }

  /** Each scan type is converted exactly once under `All`. */
  lemma AllCoversEveryType(t: ScanType)
    ensures ExpandScanTypes("All") == ExpandScanTypes("all") == Some(AllScanTypes)
    ensures multiset(AllScanTypes)[t] == 1
  {
  }

  /** Text that fails the guard is never expanded into a scan type. */
  lemma ExpandRefusesGuardFailures(arg: string)
    requires !PassesScanTypeGuard(arg) && arg != "All" && arg != "all"
    ensures ExpandScanTypes(arg) == None
  {
    ContainsSelf(arg);
  }
}
