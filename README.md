# CV shortlister — a Dafny model of its deterministic core

The CV shortlister takes a job description (JD) and a batch of CV files and
returns a ranked match score for each CV. The score itself comes from a
language model. Around that call sits a small set of deterministic rules, and
this project models and proves them:

- **Text extraction** (`ExtractText`, `extract_text.dfy`): a file goes to the
  PDF or the DOCX library according to the lower-cased suffix of its name, and
  any other name fails with `Unsupported file type: <name>`. Both libraries'
  text is trimmed the way JavaScript's `trim` does it (`Strings`, `text.dfy`).
- **Reply repair** (`Reply`, `analyze_reply.dfy`): `analyzeCV` strips
  markdown fences from the model's reply and trims it. A reply that does not
  parse becomes the fixed format error. A parsed reply is repaired: the score
  is rounded and clamped to [0, 100], strengths and gaps keep at most their
  first four entries, and the summary defaults to "".
- **Per-CV pipeline and batch checks** (`Route`, `analyze_route.dfy`): `POST`
  runs its batch checks in a fixed order. Then each CV independently yields
  exactly one result. Text shorter than 50 UTF-16 code units never reaches the
  model. Every thrown error becomes that CV's error result.
- **Ranking** (`Ranking`, `ranking.dfy`): the results are sorted in place.
  Every success comes before every error, and successes are in non-increasing
  score order.
- **Upload page** (`Page`, `page.dfy`): the `Home` component's file list
  (filtered by extension, de-duplicated by name, removed by name), the JD
  source, the pre-submit checks, the form that is sent, and the score colour
  bands. One lemma connects the page to the route: a form that passes the
  page's checks also passes the route's CV check, and in text mode it passes
  the route's JD checks too.

The extraction libraries, the model call and `JSON.parse` are parameters
(function-typed fields of the `Extractors`, `ModelServices` and `Services`
datatypes). Thrown values are data: `Attempt<T> = Ok(value) | Fail(thrown)`,
where `thrown` is an `Error` with a message or some other value.

Two behaviours of the code a reader may not expect:

- The score is passed to `Math.round` as `JSON.parse` left it, so a score
  that is not a JSON number is converted by ECMAScript's ToNumber: `null`,
  `""` and `[]` give 0, `true` gives 1, `"87"` and `[87]` give 87, and only
  `undefined`, non-numeric strings and objects give `NaN`. The model covers
  numeric scores only.
- The "error" test is JavaScript truthiness (`IsError`). An error result whose
  message is the empty string therefore ranks as a success with score 0.

## Model

| member | source | states |
|---|---|---|
| `Strings.Trim` | lib/extractText.ts:5 | `trim` returns a trimmed slice of its input, and everything it drops at either end is white space |
| `Strings.TrimPadded` | lib/extractText.ts:5 | trimming a trimmed text padded with white space gives back exactly that text |
| `Strings.TrimmedIsFixed` | lib/extractText.ts:5 | a text with no white space at either end is left as it is by `trim` |
| `Strings.TrimIdempotent` | lib/extractText.ts:11 | trimming twice is the same as trimming once |
| `Strings.LowerChar` | lib/extractText.ts:15 | an ASCII capital moves 32 code points up, to its lower-case letter; every other character is kept |
| `Strings.Lower` | lib/extractText.ts:15 | `toLowerCase` keeps the length and lower-cases each character in place |
| `Strings.EndsWithIsConcat` | lib/extractText.ts:16-17 | `endsWith(suffix)` holds exactly when the string is some prefix followed by the suffix |
| `Strings.Utf16Length` | app/api/analyze/route.ts:108 | JavaScript `length` lies between the code-point count and twice that count, and it is 0 only for "" |
| `ExtractText.KindOf` | lib/extractText.ts:15-18 | ".pdf" on the lower-cased name selects PDF; ".docx" without ".pdf" selects DOCX; anything else is unsupported; the three cases are exclusive |
| `ExtractText.ExtractTextFromPdf` | lib/extractText.ts:1-6 | the PDF library's failure passes through; its text comes back trimmed |
| `ExtractText.ExtractTextFromDocx` | lib/extractText.ts:8-12 | the DOCX library's failure passes through; its raw text comes back trimmed |
| `ExtractText.Extract` | lib/extractText.ts:14-19 | dispatch follows `KindOf`; an unsupported name fails with "Unsupported file type: " plus the name as given; extracted text is always trimmed |
| `ExtractText.UpperCaseSuffixes` | lib/extractText.ts:15-17 | "CV.PDF" goes to the PDF library and "Resume.DocX" goes to the DOCX library |
| `ExtractText.UnsupportedKeepsOriginalName` | lib/extractText.ts:18 | the message for "NOTES.TXT" names "NOTES.TXT", not its lower-cased form |
| `ExtractText.DispatchIgnoresContent` | lib/extractText.ts:14-18 | the branch depends only on the name; an unsupported name fails the same way whatever the content |
| `ExtractText.PageSuffixIsSupported` | app/page.tsx:123-125 | every name the page accepts (case-sensitive ".pdf"/".docx") is one the server can extract |
| `Page.AcceptedNameExamples` | app/page.tsx:124 | "cv.pdf" and "Jane Doe.docx" are accepted; "CV.PDF", "cv.doc" and "pdf" are not, since the page's suffix test is case-sensitive |
| `Reply.StripFences` | app/api/analyze/route.ts:47 | after removing every "```" leftmost-first, no "```" is left |
| `Reply.StripTaggedFences` | app/api/analyze/route.ts:47 | the first replace never lengthens the reply and leaves a reply without backquotes unchanged |
| `Reply.TaggedFenceAtFront` | app/api/analyze/route.ts:47 | a leading "```" is removed together with the "json" tag (any case) after it |
| `Reply.KeptPrefix` | app/api/analyze/route.ts:47 | text with no backquote is passed over unchanged by the first replace, which then goes on with the rest |
| `Reply.TaggedFenceRemoved` | app/api/analyze/route.ts:47 | text before the first backquote is kept, and a "```" there is removed together with a following "json" tag in any case |
| `Reply.TrimKeepsNoFence` | app/api/analyze/route.ts:47 | the final `trim` cannot create a "```" |
| `Reply.NoFenceUnchanged` | app/api/analyze/route.ts:47 | text holding no "```" passes both replaces unchanged |
| `Reply.ClosingFenceRemoved` | app/api/analyze/route.ts:47 | a closing "```" after fence-free text that does not end in a backquote is removed, and the text is kept |
| `Reply.CleanReply` | app/api/analyze/route.ts:47 | the cleaned reply holds no "```" and is trimmed |
| `Reply.UnfencedReplyIsTrimmed` | app/api/analyze/route.ts:47 | a reply that holds no "```" (single backquotes allowed) cleans to its trimmed self |
| `Reply.FencedReplyCleansToBody` | app/api/analyze/route.ts:47 | "```" + a "json" tag in any case + body + "```" cleans to the trimmed body, when the body has no backquote |
| `Reply.UntaggedFenceCleansToBody` | app/api/analyze/route.ts:47 | "```" + body + "```" with no tag cleans to the trimmed body, when the body has no backquote and does not start with "json" in any case |
| `Reply.FencedObjectCleansToObject` | app/api/analyze/route.ts:47 | "```json\n" + object + "\n```" (tag in any case) cleans to the object text itself, when the object is trimmed and holds no "```"; single backquotes inside it are kept |
| `Reply.Round` | app/api/analyze/route.ts:52 | `Math.round` gives the integer n with n <= x + 1/2 < n + 1 (halves round up) |
| `Reply.Clamp` | app/api/analyze/route.ts:52 | the score lies in [0, 100]; an in-range score is kept; a negative score becomes 0; a score above 100 becomes 100 |
| `Reply.NormaliseScore` | app/api/analyze/route.ts:52 | the score is in [0, 100]; a model score in [-0.5, 100.5) becomes its nearest integer; below that it becomes 0, above it 100 |
| `Reply.IntegralScore` | app/api/analyze/route.ts:52 | an integer score s is normalised to min(100, max(0, s)) |
| `Reply.FirstFour` | app/api/analyze/route.ts:53-54 | an array field keeps its first min(4, length) entries in order; any other field gives [] |
| `Reply.Normalise` | app/api/analyze/route.ts:51-56 | the repaired analysis has its score in [0, 100], at most 4 strengths and gaps taken as prefixes, and the summary or "" |
| `Reply.NormaliseIdempotent` | app/api/analyze/route.ts:51-56 | repairing an already repaired reply changes nothing |
| `Reply.AnalyzeCV` | app/api/analyze/route.ts:14-60 | a model failure propagates; an unparseable reply fails with exactly "Claude returned an unexpected response format."; a reply that parses always succeeds, with its repaired analysis (bounded score and lists) |
| `Ranking.CompareAsWritten` | app/api/analyze/route.ts:135 | the comparator is positive exactly when its first argument is out of order before the second; it is zero exactly for two successes with equal scores |
| `Ranking.ErrorsCompareInconsistently` | app/api/analyze/route.ts:135 | for two errors the comparator answers -1 in both argument orders |
| `Ranking.Compare` | app/api/analyze/route.ts:135 | the corrected comparator asks for a swap exactly when the original does |
| `Ranking.CompareAntisymmetric` | app/api/analyze/route.ts:135 | the corrected comparator flips sign when its arguments are swapped |
| `Ranking.Rank` | app/api/analyze/route.ts:134-135 | the in-place sort leaves the array ranked (successes before errors, scores non-increasing) and a permutation of the input |
| `Ranking.Insert` | app/api/analyze/route.ts:135 | one insertion step: with the first `i` entries ranked, moving entry `i` left leaves the first `i + 1` ranked and the array a permutation |
| `Ranking.Swap` | app/api/analyze/route.ts:135 | exchanging two entries moves nothing else and keeps the same results |
| `Ranking.RankedSplits` | app/api/analyze/route.ts:134-135 | a ranked list is a run of successes in non-increasing score order, followed only by errors |
| `Types.MessageOf` | app/api/analyze/route.ts:128 | an `Error` yields its message and any other thrown value yields the fallback text |
| `Types.ErrorResult` | app/api/analyze/route.ts:122-129 | the error variant carries the file name and the message, with score 0 and empty strengths, gaps and summary |
| `Route.ProcessFile` | app/api/analyze/route.ts:103-131 | one result per file, carrying its name; an extraction failure gives an error with the thrown message; text shorter than 50 gives the fixed unreadable-text error; for readable text, an `analyzeCV` failure gives an error with its message (or "Failed to process this file.") and a clean analysis is copied into the result with no error |
| `Route.Readable` | app/api/analyze/route.ts:108 | text of 50 or more characters is readable, and readable text has at least 25 characters (a code point is at most two code units) |
| `Route.ShortTextSkipsModel` | app/api/analyze/route.ts:108-117 | for text shorter than 50 code units, the result is the same whatever the model answers, and it is the unreadable-text error |
| `Route.FloorLengthIsAnalysed` | app/api/analyze/route.ts:108-120 | text of exactly 50 code units is analysed, and the result carries the repaired analysis |
| `Route.ProcessAll` | app/api/analyze/route.ts:102-132 | one result per uploaded file, in upload order, carrying that file's name |
| `Route.ProcessFiles` | app/api/analyze/route.ts:102-132 | the loop fills a new array whose contents are exactly `ProcessAll` of the files |
| `Route.ResolveJd` | app/api/analyze/route.ts:77-90 | a JD file, when present, replaces the trimmed `jd` text with its extraction; the resolved text is always trimmed |
| `Route.MissingOrEmptyKeyRefused` | app/api/analyze/route.ts:63-68 | an unset key and an empty key both give the 500 response, whatever the form; any non-empty key gets past that check |
| `Route.Admit` | app/api/analyze/route.ts:63-99 | checks run in order, each with its own message: missing key gives 500; unreadable form gives 400; JD file failure gives 400 with its message; empty JD gives 400 "Job description is required."; no CV gives 400 "At least one CV file is required.". A batch is admitted exactly when all checks pass |
| `Route.AdmitIgnoresCvFiles` | app/api/analyze/route.ts:63-99 | the checks never read the CV files: other CVs (equally empty or non-empty) get the same verdict and the same rejection |
| `Route.Post` | app/api/analyze/route.ts:62-138 | a rejected batch gets the first failing check's response; an admitted batch gets status 200 with the per-file results, ranked and as a permutation |
| `Route.RankedResultsComeFromFiles` | app/api/analyze/route.ts:102-135 | after ranking, there are as many results as files, and each result is the outcome of one uploaded file |
| `Page.Added` | app/page.tsx:123-128 | an incoming file is kept exactly when its name is accepted and not already listed |
| `Page.Names` | app/page.tsx:127 | the set holds every listed file's name and nothing else |
| `Page.AddedConcat` | app/page.tsx:126-129 | the kept files follow incoming order: filtering splits over concatenation |
| `Page.BatchDuplicatesKept` | app/page.tsx:128 | two copies of one new accepted file in a single batch are both added |
| `Page.AddFiles` | app/page.tsx:121-130 | a null list changes nothing; the previous list stays as a prefix; what follows is `Added` of the batch: the accepted incoming files with new names, in incoming order and with in-batch duplicates kept (`AddedConcat`, `BatchDuplicatesKept`) |
| `Page.AddFilesIdempotent` | app/page.tsx:126-129 | adding the same batch twice is the same as adding it once |
| `Page.AddFilesKeepsNamesUnique` | app/page.tsx:127-128 | a list with distinct names keeps distinct names after adding a batch with distinct names |
| `Page.WithoutName` | app/page.tsx:132-133 | exactly the files with other names remain, and the removed name is gone |
| `Page.WithoutNameConcat` | app/page.tsx:133 | removal keeps the order of the rest: it splits over concatenation |
| `Page.WithoutAbsentName` | app/page.tsx:133 | removing a name that is not listed leaves the list unchanged |
| `Page.DroppedJdFile` | app/page.tsx:227-228 | a JD drop takes the first dropped file, and only if its name is accepted |
| `Page.Precheck` | app/page.tsx:145-147 | checks in order, each with its own message: blank trimmed text in text mode gives "Please enter a job description."; no file in file mode gives "Please upload a job description file."; otherwise no CV gives "Please upload at least one CV.". Nothing is refused exactly when all three pass |
| `Page.FormFor` | app/page.tsx:153-159 | the form has `jdFile` only in file mode with a file, and `jd` otherwise; every CV appears under "cvs" in list order |
| `Page.CheckedFormIsAdmitted` | app/page.tsx:145-159 | a form that passes the page's checks is admitted by the route in text mode (with the trimmed text); in file mode it is refused only when the JD file fails or yields no text |
| `Page.ScoreBand` | app/page.tsx:15-18 | green when the score is 70 or more, yellow from 40 to 69, red below 40 |
| `Page.BadgeColor` | app/page.tsx:15-18 | the badge colour is the badge style of the score's band |
| `Page.BarColor` | app/page.tsx:28 | the bar colour is the bar style of the same band, by the same thresholds |
| `Page.Home.constructor` | app/page.tsx:109-117 | text mode, empty JD, no JD file, no files, no results, not loading, no error |
| `Page.Home.AddIncoming` | app/page.tsx:121-130 | the file list becomes `AddFiles` of the old list, and nothing else changes |
| `Page.Home.RemoveFile` | app/page.tsx:132-133 | the file list becomes `WithoutName` of the old list, and nothing else changes |
| `Page.Home.ChooseTextMode` | app/page.tsx:191 | text mode, and any chosen JD file is forgotten |
| `Page.Home.ChooseFileMode` | app/page.tsx:197 | file mode, and the typed JD text is cleared |
| `Page.Home.DropJdFile` | app/page.tsx:224-229 | the JD file becomes the accepted dropped file; otherwise it is unchanged |
| `Page.Home.PickJdFile` | app/page.tsx:237-240 | the file picker takes its first file with no name check |
| `Page.Home.HandleAnalyze` | app/page.tsx:144-159 | a failed check sets its message and sends nothing; otherwise the error is cleared, loading starts, results are emptied, and the assembled form is sent |

## Findings

| source | as written | input that shows it | evidently intended | confidence | as-written member | corrected member |
|---|---|---|---|---|---|---|
| app/api/analyze/route.ts:135 | the comparator returns -1 whenever `b` is an error, so for two errors it answers -1 in both orders; `Array.prototype.sort` then leaves the order implementation-defined | any two results that both carry an error | two errors compare as equal (0), which keeps the comparator consistent and still puts errors last | medium; not executed | `Ranking.ErrorsCompareInconsistently` | `Ranking.CompareAntisymmetric` |

`Ranking.Rank` sorts with the corrected `Ranking.Compare`. That comparator
asks for a swap exactly where the original does, so the ranking guarantees
are those the original intends.

## Left out

- The prompt text and the Anthropic SDK call (app/api/analyze/route.ts:15-44) are a network call. They and the choice of the first text content block are the `complete` parameter. A missing content block fails like any other model error.
- `pdf-parse` and `mammoth` are foreign libraries. They are the `pdf` and `docx` parameters, from bytes to text or a thrown value.
- `JSON.parse` is the `parse` parameter. Its result is read loosely: a numeric score, two fields that are or are not string arrays, and an optional string summary. A `null` value counts as a parse failure. Non-string array entries, a non-string summary and non-object JSON values are not modelled.
- A score that is not a JSON number is converted by ToNumber in the source (which may give `NaN`); only numeric scores are modelled, as real numbers rounded the way `Math.round` does.
- `toLowerCase` is modelled for ASCII letters only. `trim` uses the ECMAScript white-space and line-terminator set.
- `Promise.all` runs the per-CV tasks concurrently. The tasks share no state, so they are modelled as a sequential map that keeps order.
- The environment variable is the `apiKey` field of the request. `req.formData()` is the `form` field, which is absent when the form cannot be read. Form fields of the wrong kind (a file under `jd`, text under `jdFile` or `cvs`) are not modelled.
- `handleAnalyze` is modelled up to the request it sends. The `fetch` call and the handling of its response (app/page.tsx:161-173) are network I/O.
- Rendering, drag-highlight flags, the expand toggle, the textarea binding and the results views of app/page.tsx are UI. app/layout.tsx has no logic.
- Ranking.Rank: states the partition, the score order and the permutation, but not the order among errors or among equal scores, because the source does not fix it.
- Route.Post: states its results up to the ranking's permutation, not their exact order, for the same reason.
