/** The scan upload dialog: which files it accepts, the scan name it derives from a file name, and
    its form state (the chosen file, the scan name and date, the drag highlight and the
    upload-in-progress flag). CSV parsing and the insert into the store are outside the model; the
    upload's outcome is an input of `FinishUpload`. */
module Upload {
  import opened Base
  import opened JsStrings

  /** The browser `File`, as far as the dialog uses it. */
  datatype FileInfo = FileInfo(name: string, size: nat)

  /** What the dialog asks the store to insert: `name`, `scan_date` and `file_name`. */
  datatype UploadRequest = UploadRequest(name: string, scanDate: string, fileName: string)

  const CsvSuffix := ".csv"

  /** `name.toLowerCase().endsWith('.csv')`. */
  predicate IsCsv(name: string) {
    EndsWith(ToLower(name), CsvSuffix)
  }

  /** The extension test ignores case: a name is accepted exactly when its last four characters
      are a dot followed by `c`, `s` and `v` in either case. */
  lemma IsCsvIgnoresCase(name: string)
    ensures IsCsv(name) <==> (|name| >= 4
      && name[|name| - 4] == '.'
      && (name[|name| - 3] == 'c' || name[|name| - 3] == 'C')
      && (name[|name| - 2] == 's' || name[|name| - 2] == 'S')
      && (name[|name| - 1] == 'v' || name[|name| - 1] == 'V'))
  {
    var l := ToLower(name);
    if |name| >= 4 {
      assert l[|l| - 4..] == [l[|l| - 4], l[|l| - 3], l[|l| - 2], l[|l| - 1]];
    }
  }

  /** An accepted name is never empty. */
  lemma CsvNameNonEmpty(name: string)
    requires IsCsv(name)
    ensures |name| >= 4
  {
  }

  /** `name.replace('.csv', '').replace(/[-_]/g, ' ')`: the first case-sensitive `.csv` removed,
      then every dash and underscore turned into a space. */
  function DeriveName(fileName: string): (r: string)
    ensures '-' !in r && '_' !in r
    ensures IndexOf(fileName, CsvSuffix).None? ==> |r| == |fileName|
    ensures IndexOf(fileName, CsvSuffix).Some? ==> |r| == |fileName| - |CsvSuffix|
  {
    DashesToSpaces(ReplaceFirst(fileName, CsvSuffix, ""))
  }

  /** Replacing the first occurrence of `t` by the empty string cuts out exactly the characters of
      that occurrence. */
  lemma RemoveFirstAt(s: string, t: string, i: nat)
    requires IndexOf(s, t) == Some(i)
    ensures ReplaceFirst(s, t, "") == s[..i] + s[i + |t|..]
    ensures |ReplaceFirst(s, t, "")| == |s| - |t|
  {
  }

  /** The usual case: a stem without dots followed by `.csv` becomes the stem with its dashes and
      underscores spaced out. */
  lemma DeriveNameOfStem(stem: string)
    requires '.' !in stem
    ensures DeriveName(stem + CsvSuffix) == DashesToSpaces(stem)
  {
    var s := stem + CsvSuffix;
    assert OccursAt(s, CsvSuffix, |stem|) by {
      assert s[|stem|..|stem| + 4] == CsvSuffix;
    }
    forall j: nat | j < |stem|
      ensures !OccursAt(s, CsvSuffix, j)
    {
      assert s[j] == stem[j] && stem[j] in stem;
      if j + 4 <= |s| {
        assert s[j..j + 4][0] == s[j];
      }
    }
    assert IndexOf(s, CsvSuffix) == Some(|stem|);
    assert s[..|stem|] == stem;
    assert s[|stem| + 4..] == [];
    assert s[..|stem|] + s[|stem| + 4..] == stem;
  }

  /** The extension test ignores case but the name derivation does not: `A.CSV` is accepted and
      keeps its extension in the derived name. */
  lemma UpperCaseExtensionKept()
    ensures IsCsv("A.CSV")
    ensures DeriveName("A.CSV") == "A.CSV"
  {
    var s := "A.CSV";
    assert ToLower(s) == "a.csv" by {
      assert LowerChar('A') == 'a' && LowerChar('.') == '.' && LowerChar('C') == 'c';
      assert LowerChar('S') == 's' && LowerChar('V') == 'v';
    }
    assert ToLower(s)[|s| - 4..] == ".csv";
    forall j: nat
      ensures !OccursAt(s, CsvSuffix, j)
    {
      if j == 0 {
        assert s[0..4][0] == 'A';
      } else if j == 1 {
        assert s[1..5][1] == 'C';
      }
    }
    assert ReplaceFirst(s, CsvSuffix, "") == s;
    assert DashesToSpaces(s) == s;
  }

  /** Only the first `.csv` goes: `a.csv.csv` is named `a.csv`. */
  lemma OnlyFirstSuffixRemoved()
    ensures DeriveName("a.csv.csv") == "a.csv"
  {
    var s := "a.csv.csv";
    assert OccursAt(s, CsvSuffix, 1) by {
      assert s[1..5] == CsvSuffix;
    }
    assert !OccursAt(s, CsvSuffix, 0) by {
      assert s[0..4][0] == 'a';
    }
    assert IndexOf(s, CsvSuffix) == Some(1);
    assert s[..1] + s[5..] == "a.csv";
    assert DashesToSpaces("a.csv") == "a.csv";
  }

  /** `scanName || file.name`: the name stored with the scan. */
  function StoredName(scanName: string, fileName: string): (r: string)
    ensures scanName != "" ==> r == scanName
    ensures scanName == "" ==> r == fileName
    ensures r == "" <==> scanName == "" && fileName == ""
  {
    if scanName != "" then scanName else fileName
  }

  /** A scan uploaded from an accepted file always gets a non-empty name. */
  lemma StoredNameOfCsvNonEmpty(scanName: string, fileName: string)
    requires IsCsv(fileName)
    ensures StoredName(scanName, fileName) != ""
  {
  }

  /** The dialog's state while it is mounted. */
  class UploadModal {
    var file: Option<FileInfo>
    var scanName: string
    var scanDate: string
    var isDragging: bool
    var isUploading: bool

    /** The only file the dialog ever holds is one it accepted. */
    ghost predicate Valid()
      reads this
    {
      file.Some? ==> IsCsv(file.value.name)
    }

    /** The initial state: no file, no name, today's date, neither dragging nor uploading. */
    constructor(today: string)
      ensures Valid()
      ensures file == None && scanName == "" && scanDate == today
      ensures !isDragging && !isUploading
    {
      file := None;
      scanName := "";
      scanDate := today;
      isDragging := false;
      isUploading := false;
    }

    /** The effect run when the dialog opens: every field back to its initial value. */
    method Open(today: string)
      modifies this
      ensures Valid()
      ensures file == None && scanName == "" && scanDate == today
      ensures !isDragging && !isUploading
    {
      file := None;
      scanName := "";
      scanDate := today;
      isDragging := false;
      isUploading := false;
    }

    method DragOver()
      modifies this
      ensures isDragging
      ensures file == old(file) && scanName == old(scanName) && scanDate == old(scanDate)
      ensures isUploading == old(isUploading)
    {
      isDragging := true;
    }

    method DragLeave()
      modifies this
      ensures !isDragging
      ensures file == old(file) && scanName == old(scanName) && scanDate == old(scanDate)
      ensures isUploading == old(isUploading)
    {
      isDragging := false;
    }

    /** `handleFileProcess`: an accepted file becomes the chosen file and, when no name has been
        typed yet, names the scan; any other file is refused and changes nothing. */
    method ProcessFile(f: FileInfo)
      requires Valid()
      modifies this
      ensures Valid()
      ensures IsCsv(f.name) ==> (file == Some(f)
        && scanName == (if old(scanName) == "" then DeriveName(f.name) else old(scanName)))
      ensures !IsCsv(f.name) ==> file == old(file) && scanName == old(scanName)
      ensures scanDate == old(scanDate) && isDragging == old(isDragging)
      ensures isUploading == old(isUploading)
    {
      if IsCsv(f.name) {
        file := Some(f);
        if scanName == "" {
          scanName := DeriveName(f.name);
        }
      }
    }

    /** `handleDrop`: the highlight always goes off; the first dropped file, if any, is processed
        unless an upload is running. */
    method Drop(dropped: Option<FileInfo>)
      requires Valid()
      modifies this
      ensures Valid()
      ensures !isDragging
      ensures dropped.None? || old(isUploading) ==> file == old(file) && scanName == old(scanName)
      ensures dropped.Some? && !old(isUploading) && IsCsv(dropped.value.name) ==>
        file == dropped && scanName == (if old(scanName) == "" then DeriveName(dropped.value.name) else old(scanName))
      ensures dropped.Some? && !IsCsv(dropped.value.name) ==> file == old(file) && scanName == old(scanName)
      ensures scanDate == old(scanDate) && isUploading == old(isUploading)
    {
      isDragging := false;
      if dropped.Some? {
        if isUploading {
          return;
        }
        ProcessFile(dropped.value);
      }
    }

    /** `handleFileSelect`: nothing at all happens while an upload runs; otherwise the first
        selected file, if any, is processed. */
    method Select(selected: Option<FileInfo>)
      requires Valid()
      modifies this
      ensures Valid()
      ensures selected.None? || old(isUploading) ==> file == old(file) && scanName == old(scanName)
      ensures selected.Some? && !old(isUploading) && IsCsv(selected.value.name) ==>
        file == selected && scanName == (if old(scanName) == "" then DeriveName(selected.value.name) else old(scanName))
      ensures selected.Some? && !IsCsv(selected.value.name) ==> file == old(file) && scanName == old(scanName)
      ensures scanDate == old(scanDate) && isDragging == old(isDragging) && isUploading == old(isUploading)
    {
      if isUploading {
        return;
      }
      if selected.Some? {
        ProcessFile(selected.value);
      }
    }

    /** Typing in the name field; the field is disabled during an upload. */
    method SetScanName(name: string)
      requires Valid()
      modifies this
      ensures Valid()
      ensures scanName == if old(isUploading) then old(scanName) else name
      ensures file == old(file) && scanDate == old(scanDate)
      ensures isDragging == old(isDragging) && isUploading == old(isUploading)
    {
      if !isUploading {
        scanName := name;
      }
    }

    /** Picking a date; the field is disabled during an upload. */
    method SetScanDate(date: string)
      requires Valid()
      modifies this
      ensures Valid()
      ensures scanDate == if old(isUploading) then old(scanDate) else date
      ensures file == old(file) && scanName == old(scanName)
      ensures isDragging == old(isDragging) && isUploading == old(isUploading)
    {
      if !isUploading {
        scanDate := date;
      }
    }

    /** The start button is enabled exactly when a file is chosen and no upload runs. */
    predicate CanUpload()
      reads this
    {
      file.Some? && !isUploading
    }

    /** A click on the start button: nothing when it is disabled; otherwise the upload starts and
        the request carries the stored name, the date and the file's name. */
    method BeginUpload() returns (req: Option<UploadRequest>)
      requires Valid()
      modifies this
      ensures Valid()
      ensures req.Some? <==> old(CanUpload())
      ensures old(CanUpload()) ==> (isUploading && file.Some? && req.value ==
        UploadRequest(StoredName(scanName, file.value.name), scanDate, file.value.name))
      ensures req.Some? ==> req.value.name != ""
      ensures !old(CanUpload()) ==> isUploading == old(isUploading)
      ensures file == old(file) && scanName == old(scanName) && scanDate == old(scanDate)
      ensures isDragging == old(isDragging)
    {
      if !CanUpload() {
        return None;
      }
      isUploading := true;
      var f := file.value;
      StoredNameOfCsvNonEmpty(scanName, f.name);
      req := Some(UploadRequest(StoredName(scanName, f.name), scanDate, f.name));
    }

    /** The end of an upload, whether parsing or the insert failed or it succeeded: the flag goes
        off, and only a success asks the dialog to close. */
    method FinishUpload(succeeded: bool) returns (close: bool)
      requires Valid()
      modifies this
      ensures Valid()
      ensures !isUploading
      ensures close == succeeded
      ensures file == old(file) && scanName == old(scanName) && scanDate == old(scanDate)
      ensures isDragging == old(isDragging)
    {
      isUploading := false;
      close := succeeded;
    }
  }

  /** While an upload runs the form is frozen: selecting a file, typing a name or picking a date
      changes neither the file nor the name nor the date. */
  method FrozenWhileUploading(m: UploadModal, f: FileInfo, name: string, date: string)
    requires m.Valid() && m.isUploading
    modifies m
    ensures m.file == old(m.file) && m.scanName == old(m.scanName) && m.scanDate == old(m.scanDate)
    ensures m.isUploading
  {
    m.Select(Some(f));
    m.SetScanName(name);
    m.SetScanDate(date);
  }

  /** A name typed before choosing a file survives the choice of an accepted file. */
  method TypedNameSurvives(m: UploadModal, name: string, f: FileInfo)
    requires m.Valid() && !m.isUploading && name != "" && IsCsv(f.name)
    modifies m
    ensures m.file == Some(f) && m.scanName == name
  {
    m.SetScanName(name);
    m.Select(Some(f));
  }
}
