/** The upload page: the list of CV files (added by extension and de-duplicated
    by name, removed by name), the job-description source, the checks run
    before submitting, the form that is sent, and the colour bands of a
    score. */
module Page {
  import opened Types
  import opened Strings
  import ExtractText
  import Route

  /** The page accepts a file whose name ends in ".pdf" or ".docx", with
      exactly that case. */
  predicate IsAcceptedName(name: string) {
    EndsWith(name, ".pdf") || EndsWith(name, ".docx")
  }

  /** `new Set(files.map(f => f.name))`. */
  function Names(files: seq<File>): (names: set<string>)
    ensures forall f :: f in files ==> f.name in names
    ensures forall n :: n in names ==> exists f :: f in files && f.name == n
  {
    set f | f in files :: f.name
  }

  /** Which names the page takes, by example: only the exact lower-case
      suffixes, anywhere in the name's tail. */
  lemma AcceptedNameExamples()
    ensures IsAcceptedName("cv.pdf") && IsAcceptedName("Jane Doe.docx")
    ensures !IsAcceptedName("CV.PDF") && !IsAcceptedName("cv.doc") && !IsAcceptedName("pdf")
  {
    assert "cv.pdf"[2..] == ".pdf";
    assert "Jane Doe.docx"[8..] == ".docx";
    assert "CV.PDF"[2..] != ".pdf" by { assert "CV.PDF"[3] != ".pdf"[1]; }
    assert "CV.PDF"[1..] != ".docx" by { assert "CV.PDF"[2] != ".docx"[1]; }
    assert "cv.doc"[2..] != ".pdf" by { assert "cv.doc"[3] != ".pdf"[1]; }
  }

  /** The incoming files `addFiles` keeps, in incoming order: an accepted
      name not among `existing`. */
  function Added(incoming: seq<File>, existing: set<string>): (r: seq<File>)
    ensures |r| <= |incoming|
    ensures forall f :: f in r <==> f in incoming && IsAcceptedName(f.name) && f.name !in existing
  {
    if incoming == [] then []
    else
      var head := if IsAcceptedName(incoming[0].name) && incoming[0].name !in existing then [incoming[0]] else [];
      head + Added(incoming[1..], existing)
  }

  /** `Added` keeps the order of the incoming list: it splits over
      concatenation. */
  lemma {:induction false} AddedConcat(a: seq<File>, b: seq<File>, existing: set<string>)
    ensures Added(a + b, existing) == Added(a, existing) + Added(b, existing)
    decreases |a|
  {
    if a == [] {
      assert a + b == b;
    } else {
      assert (a + b)[1..] == a[1..] + b;
      AddedConcat(a[1..], b, existing);
    }
  }

  /** Two copies of one new, accepted file in a single batch are both kept. */
  lemma BatchDuplicatesKept(f: File, existing: set<string>)
    requires IsAcceptedName(f.name) && f.name !in existing
    ensures Added([f, f], existing) == [f, f]
  {
    AddedConcat([f], [f], existing);
    assert [f] + [f] == [f, f];
  }

  /** The new file list after `addFiles(incoming)`: nothing changes for a
      null list; otherwise the previous list is kept as it was and followed
      by the accepted incoming files whose names it did not hold. */
  function AddFiles(prev: seq<File>, incoming: Option<seq<File>>): (r: seq<File>)
    ensures incoming.None? ==> r == prev
    ensures |prev| <= |r| && r[..|prev|] == prev
    ensures incoming.Some? ==> forall f :: f in r[|prev|..] <==>
      f in incoming.value && IsAcceptedName(f.name) && f.name !in Names(prev)
    ensures incoming.Some? ==> r[|prev|..] == Added(incoming.value, Names(prev))
  {
    match incoming
    case None => prev
    case Some(list) =>
      var r := prev + Added(list, Names(prev));
      assert r[|prev|..] == Added(list, Names(prev));
      r
  }

  /** Nothing is added when every accepted incoming name already exists. */
  lemma {:induction false} AddedNothingNew(incoming: seq<File>, existing: set<string>)
    requires forall f :: f in incoming && IsAcceptedName(f.name) ==> f.name in existing
    ensures Added(incoming, existing) == []
    decreases |incoming|
  {
    if incoming != [] {
      assert incoming[0] in incoming;
      AddedNothingNew(incoming[1..], existing);
    }
  }

  /** Adding the same batch a second time changes nothing: every name it
      could add is now present. */
  lemma {:induction false} AddFilesIdempotent(prev: seq<File>, incoming: Option<seq<File>>)
    ensures AddFiles(AddFiles(prev, incoming), incoming) == AddFiles(prev, incoming)
  {
    var once := AddFiles(prev, incoming);
    if incoming.Some? {
      forall f | f in incoming.value && IsAcceptedName(f.name) ensures f.name in Names(once) {
        if f.name in Names(prev) {
          var g :| g in prev && g.name == f.name;
          assert g in once[..|prev|];
        } else {
          assert f in once[|prev|..];
        }
      }
      AddedNothingNew(incoming.value, Names(once));
      assert once + [] == once;
    }
  }

  /** No two files share a name. */
  predicate UniqueNames(files: seq<File>) {
    forall i, j :: 0 <= i < j < |files| ==> files[i].name != files[j].name
  }

  lemma {:induction false} UniqueConcat(a: seq<File>, b: seq<File>)
    requires UniqueNames(a) && UniqueNames(b)
    requires forall f :: f in b ==> f.name !in Names(a)
    ensures UniqueNames(a + b)
  {
    var s := a + b;
    forall i, j | 0 <= i < j < |s| ensures s[i].name != s[j].name {
      if i < |a| && j >= |a| {
        assert s[i] == a[i] && a[i] in a;
        assert s[j] == b[j - |a|] && b[j - |a|] in b;
      }
    }
  }

  lemma {:induction false} AddedUnique(incoming: seq<File>, existing: set<string>)
    requires UniqueNames(incoming)
    ensures UniqueNames(Added(incoming, existing))
    decreases |incoming|
  {
    if incoming != [] {
      var head := if IsAcceptedName(incoming[0].name) && incoming[0].name !in existing then [incoming[0]] else [];
      var rest := Added(incoming[1..], existing);
      assert UniqueNames(incoming[1..]) by {
        forall i, j | 0 <= i < j < |incoming[1..]| ensures incoming[1..][i].name != incoming[1..][j].name {
          assert incoming[1..][i] == incoming[i + 1] && incoming[1..][j] == incoming[j + 1];
        }
      }
      AddedUnique(incoming[1..], existing);
      forall f | f in rest ensures f.name !in Names(head) {
        var k :| 0 <= k < |incoming[1..]| && incoming[1..][k] == f;
        assert f == incoming[k + 1];
      }
      UniqueConcat(head, rest);
    }
  }

  /** De-duplication by name: a list of distinct names stays so after adding
      a batch of distinct names. */
  lemma {:induction false} AddFilesKeepsNamesUnique(prev: seq<File>, incoming: seq<File>)
    requires UniqueNames(prev) && UniqueNames(incoming)
    ensures UniqueNames(AddFiles(prev, Some(incoming)))
  {
    AddedUnique(incoming, Names(prev));
    UniqueConcat(prev, Added(incoming, Names(prev)));
  }

  /** `prev.filter(f => f.name !== name)`. */
  function WithoutName(files: seq<File>, name: string): (r: seq<File>)
    ensures |r| <= |files|
    ensures forall f :: f in r <==> f in files && f.name != name
    ensures name !in Names(r)
  {
    if files == [] then []
    else (if files[0].name == name then [] else [files[0]]) + WithoutName(files[1..], name)
  }

  /** Removing keeps the others in their order: it splits over
      concatenation. */
  lemma {:induction false} WithoutNameConcat(a: seq<File>, b: seq<File>, name: string)
    ensures WithoutName(a + b, name) == WithoutName(a, name) + WithoutName(b, name)
    decreases |a|
  {
    if a == [] {
      assert a + b == b;
    } else {
      var head := if a[0].name == name then [] else [a[0]];
      calc {
        WithoutName(a + b, name);
        { assert (a + b)[0] == a[0] && (a + b)[1..] == a[1..] + b; }
        head + WithoutName(a[1..] + b, name);
        { WithoutNameConcat(a[1..], b, name); }
        head + (WithoutName(a[1..], name) + WithoutName(b, name));
        (head + WithoutName(a[1..], name)) + WithoutName(b, name);
      }
    }
  }

  /** Removing a name the list does not hold leaves the list as it was. */
  lemma {:induction false} WithoutAbsentName(files: seq<File>, name: string)
    requires name !in Names(files)
    ensures WithoutName(files, name) == files
    decreases |files|
  {
    if files != [] {
      assert files[0] in files;
      assert Names(files[1..]) <= Names(files) by {
        forall n | n in Names(files[1..]) ensures n in Names(files) {
          var f :| f in files[1..] && f.name == n;
          assert f in files;
        }
      }
      WithoutAbsentName(files[1..], name);
      assert [files[0]] + files[1..] == files;
    }
  }

  /** The file dropped on the job-description area is taken only when it is
      the first one dropped and its name is accepted. */
  function DroppedJdFile(dropped: seq<File>): (r: Option<File>)
    ensures r.Some? <==> |dropped| > 0 && IsAcceptedName(dropped[0].name)
    ensures r.Some? ==> r.value == dropped[0]
  {
    if |dropped| > 0 && IsAcceptedName(dropped[0].name) then Some(dropped[0]) else None
  }

  datatype JdMode = TextMode | FileMode

  const EnterJd := "Please enter a job description."
  const UploadJd := "Please upload a job description file."
  const UploadCv := "Please upload at least one CV."

  /** The checks `handleAnalyze` runs before sending anything, in order:
      blank text in text mode, no file in file mode, no CV. */
  function Precheck(mode: JdMode, jd: string, jdFile: Option<File>, files: seq<File>): (problem: Option<string>)
    ensures mode == TextMode && Trim(jd) == "" ==> problem == Some(EnterJd)
    ensures mode == FileMode && jdFile.None? ==> problem == Some(UploadJd)
    ensures problem.None? <==>
      (mode == TextMode ==> Trim(jd) != "") && (mode == FileMode ==> jdFile.Some?) && files != []
    ensures (mode == TextMode ==> Trim(jd) != "") && (mode == FileMode ==> jdFile.Some?) && files == [] ==>
      problem == Some(UploadCv)
  {
    if mode == TextMode && Trim(jd) == "" then Some(EnterJd)
    else if mode == FileMode && jdFile.None? then Some(UploadJd)
    else if files == [] then Some(UploadCv)
    else None
  }

  /** The form `handleAnalyze` sends: the job-description file in file mode
      when one is chosen, the `jd` text otherwise, and every CV under "cvs"
      in list order. */
  function FormFor(mode: JdMode, jd: string, jdFile: Option<File>, files: seq<File>): (form: FormData)
    ensures form.cvs == files
    ensures mode == FileMode && jdFile.Some? ==> form.jdFile == [jdFile.value] && form.jd == []
    ensures !(mode == FileMode && jdFile.Some?) ==> form.jd == [jd] && form.jdFile == []
  {
    var start := if mode == FileMode && jdFile.Some? then FormData([], [jdFile.value], []) else FormData([jd], [], []);
    start.(cvs := files)
  }

  /** A form that passed the page's checks also passes the route's CV check
      and, in text mode, its job-description checks: the route trims the
      same text the page found non-blank. Only a job-description file whose
      extraction fails or yields no text can still be refused. */
  lemma {:induction false} CheckedFormIsAdmitted(mode: JdMode, jd: string, jdFile: Option<File>, files: seq<File>, key: string, ex: ExtractText.Extractors)
    requires Precheck(mode, jd, jdFile, files).None?
    requires key != ""
    ensures var form := FormFor(mode, jd, jdFile, files);
      var verdict := Route.Admit(Route.Request(Some(key), Some(form)), ex);
      && (mode == TextMode ==> verdict == Route.Admitted(Trim(jd), files))
      && (verdict.Rejected? ==>
            mode == FileMode && (Route.ResolveJd(form, ex).Fail? || Route.ResolveJd(form, ex) == Ok("")))
  {
    var form := FormFor(mode, jd, jdFile, files);
    if mode == TextMode {
      assert Route.ResolveJd(form, ex) == Ok(Trim(jd));
    }
  }

  datatype Band = Green | Yellow | Red

  /** The colour band of a score: green from 70, yellow from 40, red below. */
  function ScoreBand(score: int): (b: Band)
    ensures b == Green <==> score >= 70
    ensures b == Yellow <==> 40 <= score < 70
    ensures b == Red <==> score < 40
  {
    if score >= 70 then Green else if score >= 40 then Yellow else Red
  }

  function BadgeClass(b: Band): string {
    match b
    case Green => "bg-green-100 text-green-800 border-green-300"
    case Yellow => "bg-yellow-100 text-yellow-800 border-yellow-300"
    case Red => "bg-red-100 text-red-800 border-red-300"
  }

  function BarClass(b: Band): string {
    match b
    case Green => "bg-green-500"
    case Yellow => "bg-yellow-500"
    case Red => "bg-red-500"
  }

  /** `ScoreBadge`'s colour: the band of the score. */
  function BadgeColor(score: int): (c: string)
    ensures c == BadgeClass(ScoreBand(score))
  {
    if score >= 70 then "bg-green-100 text-green-800 border-green-300"
    else if score >= 40 then "bg-yellow-100 text-yellow-800 border-yellow-300"
    else "bg-red-100 text-red-800 border-red-300"
  }

  /** `ScoreBar`'s colour: the band of the score, by the same thresholds as
      the badge. */
  function BarColor(score: int): (c: string)
    ensures c == BarClass(ScoreBand(score))
  {
    if score >= 70 then "bg-green-500" else if score >= 40 then "bg-yellow-500" else "bg-red-500"
  }

  /** The page's state that the analysis depends on. */
  class Home {
    var jdMode: JdMode
    var jd: string
    var jdFile: Option<File>
    var files: seq<File>
    var results: seq<CandidateResult>
    var loading: bool
    var error: string

    constructor ()
      ensures jdMode == TextMode && jd == "" && jdFile == None && files == []
      ensures results == [] && !loading && error == ""
    {
      jdMode, jd, jdFile, files := TextMode, "", None, [];
      results, loading, error := [], false, "";
    }

    /** `addFiles(incoming)`. */
    method AddIncoming(incoming: Option<seq<File>>)
      modifies this`files
      ensures files == AddFiles(old(files), incoming)
    {
      if incoming.None? {
        return;
      }
      var existing := Names(files);
      files := files + Added(incoming.value, existing);
    }

    /** `removeFile(name)`. */
    method RemoveFile(name: string)
      modifies this`files
      ensures files == WithoutName(old(files), name)
    {
      files := WithoutName(files, name);
    }

    /** The "Paste text" button: text mode, and any chosen file forgotten. */
    method ChooseTextMode()
      modifies this`jdMode, this`jdFile
      ensures jdMode == TextMode && jdFile == None
    {
      jdMode := TextMode;
      jdFile := None;
    }

    /** The "Upload file" button: file mode, and the typed text cleared. */
    method ChooseFileMode()
      modifies this`jdMode, this`jd
      ensures jdMode == FileMode && jd == ""
    {
      jdMode := FileMode;
      jd := "";
    }

    /** A drop on the job-description area. */
    method DropJdFile(dropped: seq<File>)
      modifies this`jdFile
      ensures DroppedJdFile(dropped).Some? ==> jdFile == DroppedJdFile(dropped)
      ensures DroppedJdFile(dropped).None? ==> jdFile == old(jdFile)
    {
      if |dropped| > 0 && IsAcceptedName(dropped[0].name) {
        jdFile := Some(dropped[0]);
      }
    }

    /** The job-description file picker: its first file, with no name check. */
    method PickJdFile(picked: seq<File>)
      modifies this`jdFile
      ensures |picked| > 0 ==> jdFile == Some(picked[0])
      ensures |picked| == 0 ==> jdFile == old(jdFile)
    {
      if |picked| > 0 {
        jdFile := Some(picked[0]);
      }
    }

    /** `handleAnalyze` up to the request: a failed check sets its message
      and sends nothing; otherwise the error is cleared, loading starts, the
      old results are dropped and the form is assembled. */
    method HandleAnalyze() returns (sent: Option<FormData>)
      modifies this`error, this`loading, this`results
      ensures var problem := Precheck(jdMode, jd, jdFile, files);
        && (problem.Some? ==>
              sent.None? && error == problem.value && loading == old(loading) && results == old(results))
        && (problem.None? ==>
              sent == Some(FormFor(jdMode, jd, jdFile, files)) && error == "" && loading && results == [])
    {
      if jdMode == TextMode && Trim(jd) == "" {
        error := EnterJd;
        return None;
      }
      if jdMode == FileMode && jdFile.None? {
        error := UploadJd;
        return None;
      }
      if |files| == 0 {
        error := UploadCv;
        return None;
      }
      error := "";
      loading := true;
      results := [];
      var form := EmptyForm;
      if jdMode == FileMode && jdFile.Some? {
        form := form.(jdFile := form.jdFile + [jdFile.value]);
      } else {
        form := form.(jd := form.jd + [jd]);
      }
      var i := 0;
      while i < |files|
        invariant 0 <= i <= |files|
        invariant form.cvs == files[..i]
        invariant form == FormFor(jdMode, jd, jdFile, files).(cvs := files[..i])
      {
        form := form.(cvs := form.cvs + [files[i]]);
        i := i + 1;
      }
      assert files[..i] == files;
      return Some(form);
    }
  }
}
