/** Text extraction: dispatch on the file name's suffix to the PDF or the
    DOCX library, and trim what the library returns. The two libraries are
    parameters: each takes the raw bytes and returns text or throws. */
module ExtractText {
  import opened Types
  import opened Strings

  datatype Extractors = Extractors(pdf: Bytes -> Attempt<string>, docx: Bytes -> Attempt<string>)

  const UnsupportedPrefix := "Unsupported file type: "

  /** Which extractor a file name selects. */
  datatype Kind = Pdf | Docx | Unsupported

  /** The dispatch rule on the lower-cased name: ".pdf" first, then ".docx". */
  function KindOf(filename: string): (k: Kind)
    ensures k == Pdf <==> EndsWith(Lower(filename), ".pdf")
    ensures k == Docx <==> !EndsWith(Lower(filename), ".pdf") && EndsWith(Lower(filename), ".docx")
    ensures k == Unsupported <==> !EndsWith(Lower(filename), ".pdf") && !EndsWith(Lower(filename), ".docx")
  {
    var lower := Lower(filename);
    if EndsWith(lower, ".pdf") then Pdf
    else if EndsWith(lower, ".docx") then Docx
    else Unsupported
  }

  /** Trim whatever text a library produced; pass its failure through. */
  function TrimmedText(outcome: Attempt<string>): (r: Attempt<string>)
    ensures outcome.Fail? ==> r == outcome
    ensures outcome.Ok? ==> r.Ok? && IsTrimmed(r.value)
    ensures outcome.Ok? && IsTrimmed(outcome.value) ==> r == outcome
  {
    match outcome
    case Ok(text) =>
      TrimmedIsFixed(text);
      Ok(Trim(text))
    case Fail(t) => Fail(t)
  }

  /** `extractTextFromPDF`: the PDF library's text, trimmed. */
  function ExtractTextFromPdf(buffer: Bytes, ex: Extractors): (r: Attempt<string>)
    ensures ex.pdf(buffer).Fail? ==> r == ex.pdf(buffer)
    ensures ex.pdf(buffer).Ok? ==> r.Ok? && IsTrimmed(r.value) && r.value == Trim(ex.pdf(buffer).value)
  {
    TrimmedText(ex.pdf(buffer))
  }

  /** `extractTextFromDOCX`: the DOCX library's raw text, trimmed. */
  function ExtractTextFromDocx(buffer: Bytes, ex: Extractors): (r: Attempt<string>)
    ensures ex.docx(buffer).Fail? ==> r == ex.docx(buffer)
    ensures ex.docx(buffer).Ok? ==> r.Ok? && IsTrimmed(r.value) && r.value == Trim(ex.docx(buffer).value)
  {
    TrimmedText(ex.docx(buffer))
  }

  /** `extractText(buffer, filename)`. */
  function Extract(buffer: Bytes, filename: string, ex: Extractors): (r: Attempt<string>)
    ensures KindOf(filename) == Pdf ==> r == ExtractTextFromPdf(buffer, ex)
    ensures KindOf(filename) == Docx ==> r == ExtractTextFromDocx(buffer, ex)
    ensures KindOf(filename) == Unsupported ==> r == Fail(ErrorValue(UnsupportedPrefix + filename))
    ensures r.Ok? ==> IsTrimmed(r.value)
  {
    var lower := Lower(filename);
    if EndsWith(lower, ".pdf") then ExtractTextFromPdf(buffer, ex)
    else if EndsWith(lower, ".docx") then ExtractTextFromDocx(buffer, ex)
    else Fail(ErrorValue(UnsupportedPrefix + filename))
  }

  /** The suffix test ignores case: "CV.PDF" goes to the PDF library and
      "Resume.DocX" to the DOCX library. */
  lemma UpperCaseSuffixes()
    ensures KindOf("CV.PDF") == Pdf
    ensures KindOf("Resume.DocX") == Docx
  {
    assert Lower("CV.PDF")[2..] == ".pdf";
    var lower := Lower("Resume.DocX");
    assert lower[10] == 'x';
    assert lower[6..] == ".docx";
  }

  /** The message of an unsupported file keeps the name as it was given,
      not its lower-cased form. */
  lemma UnsupportedKeepsOriginalName(buffer: Bytes, ex: Extractors)
    ensures Extract(buffer, "NOTES.TXT", ex) == Fail(ErrorValue("Unsupported file type: NOTES.TXT"))
  {
    var lower := Lower("NOTES.TXT");
    assert lower[8] == 't';
    assert !EndsWith(lower, ".pdf") && !EndsWith(lower, ".docx") by {
      assert lower[|lower| - 1] != ".pdf"[3];
    }
    assert KindOf("NOTES.TXT") == Unsupported;
    assert UnsupportedPrefix + "NOTES.TXT" == "Unsupported file type: NOTES.TXT";
  }

  /** The extractor chosen depends on the name alone: the same name with any
      two contents and library pairs takes the same branch, and an
      unsupported name fails the same way whatever the content. */
  lemma {:induction false} DispatchIgnoresContent(b1: Bytes, b2: Bytes, filename: string, e1: Extractors, e2: Extractors)
    ensures KindOf(filename) == Unsupported ==> Extract(b1, filename, e1) == Extract(b2, filename, e2)
    ensures KindOf(filename) == Pdf && e1.pdf(b1) == e2.pdf(b2) ==> Extract(b1, filename, e1) == Extract(b2, filename, e2)
    ensures KindOf(filename) == Docx && e1.docx(b1) == e2.docx(b2) ==> Extract(b1, filename, e1) == Extract(b2, filename, e2)
  {
  }

  /** Every name the page lets through (a case-sensitive ".pdf" or ".docx"
      ending) is one the server knows how to extract. */
  lemma {:induction false} PageSuffixIsSupported(name: string)
    requires EndsWith(name, ".pdf") || EndsWith(name, ".docx")
    ensures KindOf(name) != Unsupported
    ensures EndsWith(name, ".pdf") ==> KindOf(name) == Pdf
  {
    assert Lower(".pdf") == ".pdf";
    assert Lower(".docx") == ".docx";
    if EndsWith(name, ".pdf") {
      EndsWithLower(name, ".pdf");
    } else {
      EndsWithLower(name, ".docx");
    }
  }
}
