/** The analysis endpoint: batch-level checks in a fixed order, then one
    independent pipeline per CV (extract, length floor, model call, reply
    repair) whose failures become that CV's error result, then the ranking.
    The per-CV tasks share nothing, so the concurrent map is modelled as a
    sequential, order-preserving one. */
module Route {
  import opened Types
  import opened Strings
  import opened ExtractText
  import opened Reply
  import opened Ranking

  /** Everything outside the route that it calls: the two extraction
      libraries and the model (with the JSON parser). */
  datatype Services = Services(extractors: Extractors, model: ModelServices)

  const UnreadableText := "Could not extract readable text from this file. Ensure it is not a scanned image."
  const ProcessFallback := "Failed to process this file."
  const MissingKey := "ANTHROPIC_API_KEY is not configured. Add it to your .env.local file."
  const InvalidForm := "Invalid form data."
  const JdFilePrefix := "Could not extract text from JD file: "
  const JdFallback := "Unknown error"
  const JdRequired := "Job description is required."
  const CvRequired := "At least one CV file is required."

  /** Shortest CV text, in UTF-16 code units, worth sending to the model. */
  const MinTextLength := 50

  /** The negation of `!cvText || cvText.length < 50`. */
  predicate Readable(text: string): (b: bool)
    ensures b ==> 2 * |text| >= MinTextLength
    ensures |text| >= MinTextLength ==> b
  {
    text != "" && Utf16Length(text) >= MinTextLength
  }

  /** The per-file task of `POST`: one result, carrying the file's name, for
      every file. A thrown error becomes the error variant with its message;
      text too short to be a CV is rejected before the model is asked. */
  function ProcessFile(jd: string, file: File, svc: Services): (r: CandidateResult)
    ensures r.filename == file.name
    ensures Extract(file.content, file.name, svc.extractors).Fail? ==>
      r == ErrorResult(file.name, MessageOf(Extract(file.content, file.name, svc.extractors).thrown, ProcessFallback))
    ensures Extract(file.content, file.name, svc.extractors).Ok? && !Readable(Extract(file.content, file.name, svc.extractors).value) ==>
      r == ErrorResult(file.name, UnreadableText)
    ensures r.error.None? ==>
      && Extract(file.content, file.name, svc.extractors).Ok?
      && Readable(Extract(file.content, file.name, svc.extractors).value)
      && AnalyzeCV(jd, Extract(file.content, file.name, svc.extractors).value, svc.model).Ok?
    ensures Extract(file.content, file.name, svc.extractors).Ok? && Readable(Extract(file.content, file.name, svc.extractors).value) ==>
      var a := AnalyzeCV(jd, Extract(file.content, file.name, svc.extractors).value, svc.model);
      && (a.Fail? ==> r == ErrorResult(file.name, MessageOf(a.thrown, ProcessFallback)))
      && (a.Ok? ==> r == CandidateResult(file.name, a.value.score, a.value.strengths, a.value.gaps, a.value.summary, None))
    ensures r.error.None? ==> 0 <= r.score <= 100 && |r.strengths| <= 4 && |r.gaps| <= 4
    ensures r.error.Some? ==> r.score == 0 && r.strengths == [] && r.gaps == [] && r.summary == ""
  {
    match Extract(file.content, file.name, svc.extractors)
    case Fail(t) => ErrorResult(file.name, MessageOf(t, ProcessFallback))
    case Ok(cvText) =>
      if !Readable(cvText) then ErrorResult(file.name, UnreadableText)
      else
        match AnalyzeCV(jd, cvText, svc.model)
        case Fail(t) => ErrorResult(file.name, MessageOf(t, ProcessFallback))
        case Ok(a) => CandidateResult(file.name, a.score, a.strengths, a.gaps, a.summary, None)
  }

  /** A CV whose text is shorter than the floor never reaches the model: its
      result is the same whatever the model and the parser would answer. */
  lemma {:induction false} ShortTextSkipsModel(jd: string, file: File, ex: Extractors, m1: ModelServices, m2: ModelServices)
    requires Extract(file.content, file.name, ex).Ok?
    requires Utf16Length(Extract(file.content, file.name, ex).value) < MinTextLength
    ensures ProcessFile(jd, file, Services(ex, m1)) == ProcessFile(jd, file, Services(ex, m2))
    ensures ProcessFile(jd, file, Services(ex, m1)) == ErrorResult(file.name, UnreadableText)
  {
  }

  /** Text of exactly the floor's length is analysed: the model's answer,
      repaired, is the result. */
  lemma {:induction false} FloorLengthIsAnalysed(jd: string, file: File, svc: Services)
    requires Extract(file.content, file.name, svc.extractors).Ok?
    requires Utf16Length(Extract(file.content, file.name, svc.extractors).value) == MinTextLength
    requires AnalyzeCV(jd, Extract(file.content, file.name, svc.extractors).value, svc.model).Ok?
    ensures var a := AnalyzeCV(jd, Extract(file.content, file.name, svc.extractors).value, svc.model).value;
      ProcessFile(jd, file, svc) == CandidateResult(file.name, a.score, a.strengths, a.gaps, a.summary, None)
  {
  }

  /** The results of all files, in upload order. */
  function ProcessAll(jd: string, cvs: seq<File>, svc: Services): (rs: seq<CandidateResult>)
    ensures |rs| == |cvs|
    ensures forall i :: 0 <= i < |cvs| ==> rs[i].filename == cvs[i].name
  {
    seq(|cvs|, i requires 0 <= i < |cvs| => ProcessFile(jd, cvs[i], svc))
  }

  /** The decoded request: the environment's API key and the multipart
      form, absent when it could not be read. */
  datatype Request = Request(apiKey: Option<string>, form: Option<FormData>)

  datatype Body = ErrorBody(error: string) | ResultsBody(results: seq<CandidateResult>)

  datatype Response = Response(status: int, body: Body)

  /** `!process.env.ANTHROPIC_API_KEY` is false. */
  predicate HasApiKey(req: Request) {
    req.apiKey.Some? && req.apiKey.value != ""
  }

  /** An unset key and an empty key are both falsy: either way the request
      is refused with 500 before the form is looked at. */
  lemma MissingOrEmptyKeyRefused(form: Option<FormData>, ex: Extractors)
    ensures Admit(Request(None, form), ex) == Rejected(Response(500, ErrorBody(MissingKey)))
    ensures Admit(Request(Some(""), form), ex) == Rejected(Response(500, ErrorBody(MissingKey)))
    ensures forall key :: key != "" ==> Admit(Request(Some(key), form), ex) != Rejected(Response(500, ErrorBody(MissingKey)))
  {
  }

  /** The job description: the `jd` text, trimmed, unless a `jdFile` is
      present, whose extracted text then takes its place. */
  function ResolveJd(form: FormData, ex: Extractors): (r: Attempt<string>)
    ensures |form.jdFile| > 0 ==> r == Extract(form.jdFile[0].content, form.jdFile[0].name, ex)
    ensures |form.jdFile| == 0 && |form.jd| > 0 ==> r == Ok(Trim(form.jd[0]))
    ensures |form.jdFile| == 0 && |form.jd| == 0 ==> r == Ok("")
    ensures r.Ok? ==> IsTrimmed(r.value)
  {
    var jd := if |form.jd| > 0 then Trim(form.jd[0]) else "";
    if |form.jdFile| > 0 then Extract(form.jdFile[0].content, form.jdFile[0].name, ex) else Ok(jd)
  }

  datatype Admission = Rejected(response: Response) | Admitted(jd: string, cvs: seq<File>)

  /** The batch-level checks of `POST`, in order: API key (500), readable
      form (400), job-description file extraction (400), non-empty job
      description (400), at least one CV (400). */
  function Admit(req: Request, ex: Extractors): (r: Admission)
    ensures !HasApiKey(req) ==> r == Rejected(Response(500, ErrorBody(MissingKey)))
    ensures HasApiKey(req) && req.form.None? ==> r == Rejected(Response(400, ErrorBody(InvalidForm)))
    ensures HasApiKey(req) && req.form.Some? && ResolveJd(req.form.value, ex).Fail? ==>
      r == Rejected(Response(400, ErrorBody(JdFilePrefix + MessageOf(ResolveJd(req.form.value, ex).thrown, JdFallback))))
    ensures HasApiKey(req) && req.form.Some? && ResolveJd(req.form.value, ex) == Ok("") ==>
      r == Rejected(Response(400, ErrorBody(JdRequired)))
    ensures (HasApiKey(req) && req.form.Some? && ResolveJd(req.form.value, ex).Ok? && ResolveJd(req.form.value, ex).value != "" &&
             |req.form.value.cvs| == 0) ==> r == Rejected(Response(400, ErrorBody(CvRequired)))
    ensures r.Rejected? ==> r.response.body.ErrorBody? && (r.response.status == 500 <==> !HasApiKey(req))
    ensures r.Rejected? ==> r.response.status == 500 || r.response.status == 400
    ensures r.Admitted? <==>
      && HasApiKey(req) && req.form.Some?
      && ResolveJd(req.form.value, ex).Ok? && ResolveJd(req.form.value, ex).value != ""
      && |req.form.value.cvs| > 0
    ensures r.Admitted? ==> r.jd == ResolveJd(req.form.value, ex).value && r.cvs == req.form.value.cvs
  {
    if !HasApiKey(req) then Rejected(Response(500, ErrorBody(MissingKey)))
    else if req.form.None? then Rejected(Response(400, ErrorBody(InvalidForm)))
    else
      var form := req.form.value;
      match ResolveJd(form, ex)
      case Fail(t) => Rejected(Response(400, ErrorBody(JdFilePrefix + MessageOf(t, JdFallback))))
      case Ok(jd) =>
        if jd == "" then Rejected(Response(400, ErrorBody(JdRequired)))
        else if |form.cvs| == 0 then Rejected(Response(400, ErrorBody(CvRequired)))
        else Admitted(jd, form.cvs)
  }

  /** The checks never look at the CV files themselves: with the same number
      of CVs present (none, or some), any other CVs get the same verdict, and
      a rejection is the same response. */
  lemma {:induction false} AdmitIgnoresCvFiles(apiKey: Option<string>, form: FormData, cvs: seq<File>, ex: Extractors)
    requires (|cvs| == 0) == (|form.cvs| == 0)
    ensures var r1 := Admit(Request(apiKey, Some(form)), ex);
      var r2 := Admit(Request(apiKey, Some(form.(cvs := cvs))), ex);
      r1.Rejected? == r2.Rejected? && (r1.Rejected? ==> r1 == r2)
  {
    assert ResolveJd(form, ex) == ResolveJd(form.(cvs := cvs), ex);
  }

  /** `POST(req)`: the response is the first failed batch check, or status
      200 with one result per CV, ranked: every success before every error,
      successes by non-increasing score. */
  method Post(req: Request, svc: Services) returns (resp: Response)
    ensures Admit(req, svc.extractors).Rejected? ==> resp == Admit(req, svc.extractors).response
    ensures Admit(req, svc.extractors).Admitted? ==>
      && resp.status == 200 && resp.body.ResultsBody?
      && Ranked(resp.body.results)
      && multiset(resp.body.results) == multiset(ProcessAll(Admit(req, svc.extractors).jd, Admit(req, svc.extractors).cvs, svc))
  {
    if !HasApiKey(req) {
      return Response(500, ErrorBody(MissingKey));
    }
    if req.form.None? {
      return Response(400, ErrorBody(InvalidForm));
    }
    var form := req.form.value;
    var jd := if |form.jd| > 0 then Trim(form.jd[0]) else "";
    if |form.jdFile| > 0 {
      var jdFile := form.jdFile[0];
      var extracted := Extract(jdFile.content, jdFile.name, svc.extractors);
      if extracted.Fail? {
        return Response(400, ErrorBody(JdFilePrefix + MessageOf(extracted.thrown, JdFallback)));
      }
      jd := extracted.value;
    }
    assert ResolveJd(form, svc.extractors) == Ok(jd);
    if jd == "" {
      return Response(400, ErrorBody(JdRequired));
    }
    var files := form.cvs;
    if |files| == 0 {
      return Response(400, ErrorBody(CvRequired));
    }
    assert Admit(req, svc.extractors) == Admitted(jd, files);
    var results := ProcessFiles(jd, files, svc);
    Rank(results);
    return Response(200, ResultsBody(results[..]));
  }

  /** The `files.map` of `POST`, run one file after another into a new
      array: entry `i` is the result of file `i`. */
  method ProcessFiles(jd: string, files: seq<File>, svc: Services) returns (results: array<CandidateResult>)
    ensures fresh(results)
    ensures results[..] == ProcessAll(jd, files, svc)
  {
    results := new CandidateResult[|files|];
    var i := 0;
    while i < |files|
      invariant 0 <= i <= |files|
      invariant forall k :: 0 <= k < i ==> results[k] == ProcessFile(jd, files[k], svc)
    {
      results[i] := ProcessFile(jd, files[i], svc);
      i := i + 1;
    }
  }

  /** Whatever order the ranking leaves, each result is the outcome of one
      uploaded file, and there are as many results as files. */
  lemma {:induction false} RankedResultsComeFromFiles(results: seq<CandidateResult>, jd: string, cvs: seq<File>, svc: Services)
    requires multiset(results) == multiset(ProcessAll(jd, cvs, svc))
    ensures |results| == |cvs|
    ensures forall r :: r in results ==> exists i :: 0 <= i < |cvs| && r == ProcessFile(jd, cvs[i], svc)
  {
    var all := ProcessAll(jd, cvs, svc);
    assert |multiset(results)| == |multiset(all)|;
    forall r | r in results ensures exists i :: 0 <= i < |cvs| && r == ProcessFile(jd, cvs[i], svc) {
      assert r in multiset(results);
      assert r in multiset(all);
      assert r in all;
      var i :| 0 <= i < |all| && all[i] == r;
      assert r == ProcessFile(jd, cvs[i], svc);
    }
  }
}
