# docling-serve core, modelled in Dafny

docling-serve is a document-conversion service built on docling. Clients
submit URLs or uploaded files. A worker takes tasks off a queue and runs the
steps of a conversion:

1. The sources are normalised.
2. PDFs may be pre-processed with OCRmyPDF.
3. The documents are converted.
4. The result may be run through an Arabic OCR-correction pass backed by an
   Ollama chat model.

Around this core sit:

- **Service helpers**:
  - the synchronous endpoints' wait loop and error mapping;
  - the websocket subscriber bookkeeping;
  - the progress callback.
- **Language-code utilities**: they translate EasyOCR codes and English
  language names into Tesseract codes.
- **Two further middlewares**:
  - an AI-vision OCR pipeline that retries each page;
  - a PDF analysis that decides between `skip`, `redo` and `force` OCR.
- **Two text tools**:
  - a Markdown post-processor that wraps runs of Arabic lines in an RTL
    `<div>` and reverses them;
  - a line mirror.
- **The Gradio UI's pure helpers and validators.**

The model has one Dafny module per source file:

| module | file | source |
|---|---|---|
| `Worker` | `worker.dfy` | `docling_serve/engines/async_local/worker.py` |
| `App` | `app.dfy` | `docling_serve/app.py` |
| `OcrLanguage` | `ocr_language.dfy` | `docling_serve/ocr_language_utils.py` |
| `OcrMyPdf` | `ocrmypdf_middleware.dfy` | `docling_serve/ocrmypdf_middleware.py` |
| `ArabicCorrection` | `arabic_correction.dfy` | `docling_serve/arabic_correction_middleware.py` |
| `AiVision` | `ai_vision.dfy` | `docling_serve/ai_vision_middleware.py` |
| `PdfAnalysis` | `pdf_analysis.dfy` | `docling_serve/pdf_analysis.py` |
| `Bidi` | `bidi.dfy` | `docling_serve/post_processing_bidi.py` |
| `Mirror` | `mirror_lines.dfy` | `mirror_lines.py` |
| `GradioUi` | `gradio_ui.dfy` | `docling_serve/gradio_ui.py` |

Two shared modules support them:

- `Wrappers` holds `Option` and `Result`.
- `Text` holds the Python string operations the source relies on:
  - `lower`, `isspace`, `strip`;
  - `split` and `join`;
  - `splitlines` with and without `keepends`;
  - the `pathlib` suffix;
  - integer formatting.

Every call into a library the model cannot see becomes a function
parameter. A call that raises is `None`, or a `Failure` carrying a
name for the error: the Python class name where the code raises or
names one (`AttributeError`, `RuntimeError`, `ValueError`), and
`RenderError` for a page render that fails inside the renderer. Such calls include:

- the Ollama chat and model listing;
- `langdetect`;
- `ocrmypdf.ocr`;
- pdfplumber and pikepdf;
- `pdf2image`;
- `unicodedata.category`;
- `bidi.algorithm.get_display`;
- `convert_documents` together with `process_results`;
- `FileSource.to_document_stream`;
- the HTTP post of the UI.

How each kind of code is modelled:

- **Loops that build lists** are methods with loop invariants, proved equal
  to a reference function. The reference function's properties are then
  proved as lemmas.
- **Objects whose fields change** are classes. These are:
  - the worker's orchestrator state;
  - the websocket subscriber table;
  - the RTL block and the Markdown processor.

## Model

| member | source | states |
|---|---|---|
| OcrLanguage.ConvertOne | docling_serve/ocr_language_utils.py:151-172 | an entry that normalises to a Tesseract code is kept as is, a mapped code or name becomes its mapped value, anything else (and the empty entry) contributes nothing |
| OcrLanguage.ConvertToTesseractCodes | docling_serve/ocr_language_utils.py:129-181 | the conversion loop and the de-duplication loop compute the reference conversion; `None` or an empty list gives `[]`; the result has no duplicates and holds only Tesseract codes or mapped values |
| OcrLanguage.ConvertedCodesKnown | docling_serve/ocr_language_utils.py:151-172 | every code the first loop collects is a Tesseract code or a value of `LANGUAGE_MAPPING` |
| OcrLanguage.ConvertedLength | docling_serve/ocr_language_utils.py:151-172 | each entry contributes at most one code |
| OcrLanguage.DedupProperties | docling_serve/ocr_language_utils.py:174-178 | de-duplication leaves no duplicates and keeps exactly the same set of codes |
| OcrLanguage.DedupFirstOccurrenceOrder | docling_serve/ocr_language_utils.py:174-178 | de-duplication keeps first-occurrence order: codes come out in the order of their first appearance in the input |
| OcrLanguage.MappedCodesOutsideTesseract | docling_serve/ocr_language_utils.py:8-126 | some values of `LANGUAGE_MAPPING` (`cos`, `jbo`, `tlh`) are not in `TESSERACT_CODES`, so the conversion can yield codes Tesseract does not list; case and surrounding blanks are ignored |
| OcrLanguage.FormatForOcrmypdf | docling_serve/ocr_language_utils.py:184-194 | no codes give `""`, one code gives itself |
| OcrLanguage.FormatRoundTrip | docling_serve/ocr_language_utils.py:184-194 | splitting the formatted string on `+` recovers the codes when none holds a `+` |
| OcrLanguage.ValidOnlyProperties | docling_serve/ocr_language_utils.py:227-235 | every returned code is in the table, and the result is never longer than the input |
| OcrLanguage.ValidOnlyIsFilter | docling_serve/ocr_language_utils.py:227-235 | validation is the filter of the normalised inputs by the table, defined independently from the front: every valid input is kept, in input order, with duplicates, and nothing else is added |
| OcrLanguage.ValidOnlyMembers | docling_serve/ocr_language_utils.py:227-235 | a code is returned exactly when it is in the table and some input normalises to it |
| OcrLanguage.ValidOnlyKeepsAllValid | docling_serve/ocr_language_utils.py:227-235 | when every normalised input is valid, all of them come back in order, duplicates included |
| OcrLanguage.ValidateLanguageCodes | docling_serve/ocr_language_utils.py:197-235 | the validation loop equals the reference filter over the table the target format selects (Tesseract for an unknown format) |
| OcrLanguage.GetSupportedLanguages | docling_serve/ocr_language_utils.py:238-253 | case-insensitive engine name: Tesseract table, EasyOCR table, else the empty set |
| OcrLanguage.ValidationMatchesSupported | docling_serve/ocr_language_utils.py:219-225 | validation and the supported-language query agree for the two known engines; for any other name validation still uses the Tesseract table while the query reports nothing |
| OcrMyPdf.ArgumentsForProperties | docling_serve/ocrmypdf_middleware.py:54-74 | `deskew`/`clean` pass through, OCR is forced and redone, text is never skipped; a language string is present exactly when conversion yields codes, and splitting it on `+` gives those codes back |
| OcrMyPdf.Middleware.ShouldPreprocessFile | docling_serve/ocrmypdf_middleware.py:17-23 | true exactly when enabled and the lower-cased name ends in `.pdf` |
| OcrMyPdf.Middleware.Preprocessed | docling_serve/ocrmypdf_middleware.py:25-95 | a file that is not preprocessed, or an engine failure, gives the input bytes back; otherwise the engine's output |
| OcrMyPdf.Middleware.PreprocessFile | docling_serve/ocrmypdf_middleware.py:25-95 | the method computes `Preprocessed` for the arguments it builds |
| OcrMyPdf.Middleware.PreprocessDocumentStreams | docling_serve/ocrmypdf_middleware.py:97-129 | disabled (either flag) returns the list unchanged; otherwise one stream per source, in order, same names, each stream preprocessed or kept on failure |
| ArabicCorrection.DetectionSample | docling_serve/arabic_correction_middleware.py:29 | a text without words gives the empty sample; a text of at most 100 words gives all its words joined by single blanks |
| ArabicCorrection.Middleware.ShouldCorrectText | docling_serve/arabic_correction_middleware.py:23-34 | raises exactly for an enabled middleware given a truthy non-string; says yes only when enabled, on a string whose stripped length is at least ten; for such a string the answer is exactly whether detection of its sample reports `ar`, a detection error counting as no |
| ArabicCorrection.Middleware.CorrectArabicText | docling_serve/arabic_correction_middleware.py:36-52 | disabled, client-less or failing chat gives the text back; a changed text came from the chat and is stripped |
| ArabicCorrection.Middleware.ProcessDocument | docling_serve/arabic_correction_middleware.py:71-89 | the copy-and-overwrite steps compute the reference `ProcessedDocument` |
| ArabicCorrection.Middleware.CorrectField | docling_serve/arabic_correction_middleware.py:75-87 | fails with `AttributeError` exactly when the field's correction fails, otherwise overwrites, in the copy, that one field with its correction when it is present, non-empty and `should_correct_text` accepts it, and leaves every other field |
| ArabicCorrection.Middleware.ProcessedDocuments | docling_serve/arabic_correction_middleware.py:65-67 | a list of documents is processed element by element in order; it fails exactly when some document fails |
| ArabicCorrection.Middleware.ProcessedDocumentsFailurePersists | docling_serve/arabic_correction_middleware.py:65-67 | once a prefix of the list fails, the whole list fails with that first error |
| ArabicCorrection.Middleware.ProcessConversionResult | docling_serve/arabic_correction_middleware.py:54-69 | disabled gives the result unchanged; otherwise same keys, every key other than `document`/`documents` untouched, `document` processed in preference to a list-valued `documents` |
| ArabicCorrection.Create | docling_serve/arabic_correction_middleware.py:10-12 | a client exists exactly when the middleware is enabled |
| ArabicCorrection.ShortOrBlankTextNotCorrected | docling_serve/arabic_correction_middleware.py:25-26 | a text shorter than ten characters or made of white space only is never corrected |
| ArabicCorrection.OnlyCorrectedKeysChange | docling_serve/arabic_correction_middleware.py:71-89 | processing a document keeps every key and every field other than `text_content` and `md_content`; a field that changed was corrected by the chat |
| ArabicCorrection.NoArabicNoChange | docling_serve/arabic_correction_middleware.py:71-89 | when detection never reports Arabic the document comes back unchanged |
| AiVision.Middleware.IsSupportedFile | docling_serve/ai_vision_middleware.py:30-35 | without settings no file is supported |
| AiVision.Create | docling_serve/ai_vision_middleware.py:13-28 | enabled only with settings that say so; the settings are kept |
| AiVision.DefaultSupportsPdfOnly | docling_serve/ai_vision_middleware.py:30-35 | with the default extensions a file is supported exactly when its name ends in `.pdf` in any case after at least one other character |
| AiVision.AttemptsFrom | docling_serve/ai_vision_middleware.py:154-164 | a page uses between one and `max_retries` model calls |
| AiVision.EntriesOnePerPage | docling_serve/ai_vision_middleware.py:143-164 | with a positive retry count every page yields exactly one entry, in page order; with none allowed there are no entries |
| AiVision.RetryOutcome | docling_serve/ai_vision_middleware.py:154-164 | a page's entry is the text of the first successful attempt, or its error entry when every attempt failed |
| AiVision.ProcessPage | docling_serve/ai_vision_middleware.py:154-164 | the retry loop appends the page's entry and stops at the first success |
| AiVision.ProcessPages | docling_serve/ai_vision_middleware.py:143-164 | the batch loops produce the entries of all pages, numbered from 1, whatever the positive batch size |
| AiVision.ProcessDocument | docling_serve/ai_vision_middleware.py:125-177 | `RuntimeError` when disabled, `ValueError` for an unsupported file, a render failure propagates, otherwise the entries joined by the page-break marker or a blank line |
| AiVision.ValidateEnvironment | docling_serve/ai_vision_middleware.py:179-225 | `disabled` exactly when not enabled; `healthy` exactly when packages import and the model is listed; `error` exactly when there is an issue; never a warning |
| PdfAnalysis.Stride | docling_serve/pdf_analysis.py:65 | the sampling stride is at least one |
| PdfAnalysis.Truncate | docling_serve/pdf_analysis.py:66 | a sample is a prefix of at most 2000 characters |
| PdfAnalysis.SamplesBounded | docling_serve/pdf_analysis.py:58-66 | no more samples than pages; every sample non-empty and at most 2000 characters |
| PdfAnalysis.SamplesExact | docling_serve/pdf_analysis.py:58-66 | there is a sample exactly when some sampled page has text |
| PdfAnalysis.UnsampledPageIgnored | docling_serve/pdf_analysis.py:57-65 | whatever text an unsampled page holds (one at index 5 or beyond that is not a multiple of the stride), the samples are the same |
| PdfAnalysis.TextOnUnsampledPageIgnored | docling_serve/pdf_analysis.py:65 | example: twenty pages with text only on page 5 give no sample |
| PdfAnalysis.EscapeCount | docling_serve/pdf_analysis.py:92 | each escape match takes three characters |
| PdfAnalysis.BlankMatchesCoverBlanks | docling_serve/pdf_analysis.py:99-104 | the `[ ]{1,10}` matches cover every blank once, and there is a match exactly when there is a blank |
| PdfAnalysis.DecisionTable | docling_serve/pdf_analysis.py:128-141 | `skip` exactly for tagged text of acceptable quality, `force` exactly when there is no text or it is poor, `redo` otherwise |
| PdfAnalysis.HasTextIffSampled | docling_serve/pdf_analysis.py:69-119 | text is found exactly when some sampled page has text; poor exactly when indicators exceed four fifths of the samples |
| PdfAnalysis.AnalyzePdf | docling_serve/pdf_analysis.py:10-149 | the page, sample and indicator loops compute the reference analysis |
| PdfAnalysis.AnalyzePdfForForceOcr | docling_serve/pdf_analysis.py:171-212 | as written the answer is always false |
| PdfAnalysis.ForceOcrIntended | docling_serve/pdf_analysis.py:193-204 | force OCR exactly when there is no text or the text is poor |
| PdfAnalysis.ForceOcrDiscrepancy | docling_serve/pdf_analysis.py:184-212 | a PDF without text needs forced OCR, which the function as written never reports |
| PdfAnalysis.ShouldAnalyzeFileForForceOcr | docling_serve/pdf_analysis.py:214-217 | true exactly for a lower-cased `.pdf` suffix |
| Bidi.Line.IsRtl | docling_serve/post_processing_bidi.py:14-18 | a line is right-to-left exactly when the search for a character of U+0600..U+06FF finds one |
| Bidi.FirstArabic | docling_serve/post_processing_bidi.py:14-18 | the search result is the leftmost Arabic character, and no result means the line has none |
| Bidi.Line.Reversed | docling_serve/post_processing_bidi.py:20-36 | the reversed line starts with the line's marker prefix and ends with its newline |
| Bidi.PrefixLength | docling_serve/post_processing_bidi.py:22-27 | the Markdown prefix: leading white space followed by 1-6 hashes and white space, a bullet and white space, or `>`; no prefix when the first non-space character is no marker |
| Bidi.Decompose | docling_serve/post_processing_bidi.py:22-29 | every line is exactly prefix + body + optional final newline, and the body holds no newline |
| Bidi.ReversedPermutes | docling_serve/post_processing_bidi.py:20-36 | with the identity display, a reversed line keeps its prefix and is a permutation of the line |
| Bidi.ReversedHeading | docling_serve/post_processing_bidi.py:20-36 | example, with the identity display: `## بتx\n` becomes `## xتب\n`; the general property is `Bidi.ReversedPermutes` |
| Bidi.ReversedLines | docling_serve/post_processing_bidi.py:49-50 | one reversed line per line, in order |
| Bidi.RTLBlock.constructor | docling_serve/post_processing_bidi.py:41-42 | a new block has no lines |
| Bidi.RTLBlock.AddLine | docling_serve/post_processing_bidi.py:44-45 | the line is appended |
| Bidi.RTLBlock.Render | docling_serve/post_processing_bidi.py:47-52 | the render loop produces the opening div, the reversed lines and the closing div |
| Bidi.GroupKeepsLines | docling_serve/post_processing_bidi.py:68-80 | grouping loses, duplicates and reorders no line |
| Bidi.GroupWellFormed | docling_serve/post_processing_bidi.py:68-80 | plain pieces hold non-RTL lines, blocks are non-empty runs of RTL lines, and no two blocks are adjacent |
| Bidi.SourceLinesMatch | docling_serve/post_processing_bidi.py:61-62 | every line from `splitlines(keepends=True)` holds a newline only at its end |
| Bidi.MarkdownProcessor.constructor | docling_serve/post_processing_bidi.py:61-62 | the lines are those of `splitlines(keepends=True)` |
| Bidi.MarkdownProcessor.Process | docling_serve/post_processing_bidi.py:64-82 | the loop's output is the rendering of the grouped lines |
| Bidi.NoArabicUnchanged | docling_serve/post_processing_bidi.py:55-82 | a text without Arabic characters comes out unchanged |
| Mirror.MirrorTextLines | mirror_lines.py:1-7 | the mirrored text is as long as the lines of the text joined by `\n` |
| Mirror.MirroredLines | mirror_lines.py:6 | one reversed line per line |
| Mirror.MirroredLinesOfMirror | mirror_lines.py:5-7 | splitting the mirrored text gives the mirrored lines when the last line is not empty |
| Mirror.MirrorTwice | mirror_lines.py:5-7 | mirroring twice gives the lines back joined by `\n` |
| Mirror.MirrorSmall | mirror_lines.py:5-7 | the empty text mirrors to itself; a single line mirrors to its reverse |
| Worker.FirstHeadersFirst | docling_serve/engines/async_local/worker.py:79-80 | the headers used are those of the first HTTP source that has any, or none |
| Worker.NormalisedFails | docling_serve/engines/async_local/worker.py:72-80 | normalisation fails exactly when some file source cannot be turned into a stream |
| Worker.NormalisedOneToOne | docling_serve/engines/async_local/worker.py:72-80 | without unknown sources there is one convert source per task source, in order |
| Worker.NormaliseSources | docling_serve/engines/async_local/worker.py:70-80 | the loop computes the reference normalisation and the first headers |
| Worker.PreprocessSources | docling_serve/engines/async_local/worker.py:89-120 | one source per input, each the preprocessed form of its input |
| Worker.PreprocessedSourceKeepsShape | docling_serve/engines/async_local/worker.py:89-120 | URLs pass unchanged, streams keep their names and are preprocessed or kept on failure |
| Worker.ArabicCorrected | docling_serve/engines/async_local/worker.py:139-147 | the response is unchanged unless correction is requested and enabled on an inline response; a failing correction is swallowed |
| Worker.OcrStepSources | docling_serve/engines/async_local/worker.py:83-120 | the step keeps the number of sources, and does nothing unless requested and the middleware is loaded and enabled |
| Worker.Converted | docling_serve/engines/async_local/worker.py:69-157 | a conversion succeeds exactly when normalisation and the converter succeed |
| Worker.RunConversion | docling_serve/engines/async_local/worker.py:69-157 | the method computes the reference conversion |
| Worker.RemoveFirst | docling_serve/engines/async_local/worker.py:51 | `list.remove` takes exactly one occurrence away |
| Worker.RemoveFirstSplits | docling_serve/engines/async_local/worker.py:51 | the occurrence taken is the first one, and everything before and after it keeps its order |
| Worker.Orchestrator.Step | docling_serve/engines/async_local/worker.py:47-195 | an empty queue blocks; the id is popped and removed from `queue_list` (`ValueError` if absent), `RuntimeError` for an unknown task, otherwise the task and events are updated and validity is kept |
| Worker.AfterRun | docling_serve/engines/async_local/worker.py:171-190 | success stores the result and clears sources and options; failure only sets the status |
| Worker.AfterRunKeepsValid | docling_serve/engines/async_local/worker.py:171-190 | every succeeded task keeps a result and no sources or options |
| Worker.RunEventsOnce | docling_serve/engines/async_local/worker.py:58-65 | `STARTED` first, subscribers notified twice, `task_done` exactly once and last, final status success exactly when the conversion succeeded |
| Worker.LoadAsWritten | docling_serve/engines/async_local/worker.py:31-39 | loading the module fails whether or not the import succeeds |
| Worker.LoadIntended | docling_serve/engines/async_local/worker.py:31-39 | the middleware is present exactly when the import succeeds, enabled as configured |
| Worker.LoadDiscrepancy | docling_serve/engines/async_local/worker.py:31-39 | the written and intended loading differ for every input |
| App.UploadName | docling_serve/app.py:332-335 | a named upload keeps its name; an unnamed one is `file.pdf` at position 1 and `file_<i>.pdf` elsewhere |
| App.EnqueFile | docling_serve/app.py:323-345 | one stream per upload, in order, named by `UploadName` |
| App.UploadNameIntended | docling_serve/app.py:332-335 | the naming by upload count: `file.pdf` for a single unnamed upload, `file_<i>.pdf` when there are several |
| App.UploadNameQuirk | docling_serve/app.py:332-335 | the source names by position, not by count: a single unnamed upload is named `file_0.pdf`, and position 1 of two is `file.pdf` |
| App.EnqueSource | docling_serve/app.py:269-321 | the request's sources in order, nothing for another request type; the default options when none are given |
| App.WaitTaskComplete | docling_serve/app.py:347-358 | the loop polls every 5 time units and returns true at the first completed poll, or false once the elapsed time exceeds the maximum |
| App.FirstPollNoSleep | docling_serve/app.py:351-354 | a task already complete returns true without sleeping |
| App.WaitContractUnique | docling_serve/app.py:347-358 | the wait contract determines the answer and the number of sleeps |
| App.LateCompletionTimesOut | docling_serve/app.py:355-358 | a wait limit under five units times out after one sleep even though the task is complete at the next poll |
| App.SyncReply | docling_serve/app.py:405-428 | a timeout returns a 504 object instead of raising; a missing result raises 404; correction applies only when requested and enabled |
| App.SyncReplyIntended | docling_serve/app.py:405-410 | the evident intent raises 504 and is otherwise the same |
| App.TimeoutReplyDiscrepancy | docling_serve/app.py:405-410 | on a timeout the written endpoint returns its exception while the intended one raises it |
| App.SyncReplyCorrects | docling_serve/app.py:421-426 | correction of a file response raises 500; an inline response is replaced by its corrected fields |
| App.ProcessedConversionKeepsKeys | docling_serve/app.py:421-426 | a corrected inline response has the same keys |
| App.Subscriptions.TaskStatusWs | docling_serve/app.py:618-678 | an unknown id sends an error and closes; otherwise the socket is added, one connection and one update per received message are sent, and the socket is removed at the end |
| App.ResubscribedSocketRemoved | docling_serve/app.py:640-678 | after a session on a known task (the effect `AfterSession` that `Subscriptions.TaskStatusWs` ensures), the socket is not among that task's subscribers even if it was subscribed before; every other task keeps exactly its subscribers |
| App.CallbackTaskProgress | docling_serve/app.py:713-725 | ack exactly on success, 404 exactly for an unknown task, 400 with the message exactly for an invalid payload, other errors propagate |
| GradioUi.AutoSetReturnAsFile | docling_serve/gradio_ui.py:644-657 | true exactly when the URL text holds a comma, more than one file is given, or images are referenced |
| GradioUi.ChangeOcrLang | docling_serve/gradio_ui.py:660-668 | the four known engines get their defaults, the two Tesseract engines the same ones, any other engine `None` |
| GradioUi.DefaultLanguagePieces | docling_serve/gradio_ui.py:660-668 | the Tesseract defaults split into `eng, fra, deu, spa` and the EasyOCR ones into `en, fr, de, es` |
| GradioUi.ClearOutputs | docling_serve/gradio_ui.py:614-633 | nine empty outputs |
| GradioUi.MissingName | docling_serve/gradio_ui.py:247 | the missing package is the quote-free text after the first quote, `unknown package` without a quote |
| GradioUi.AvailableModels | docling_serve/gradio_ui.py:280-284 | the loop names every entry by its non-empty `model`, else its non-empty `name`, else its text |
| GradioUi.ServiceIssue | docling_serve/gradio_ui.py:252-319 | no issue exactly when the health check answers 200, the models can be listed and the configured model is among them |
| GradioUi.ModelWarning | docling_serve/gradio_ui.py:293-306 | the smoke test warns only once the model was found, and stays silent exactly when it got a truthy answer |
| GradioUi.DetectionWarning | docling_serve/gradio_ui.py:321-330 | no warning exactly when the sample is detected as `ar` |
| GradioUi.ValidateArabicEnvironment | docling_serve/gradio_ui.py:224-336 | disabled short-circuits with no issue; a missing package gives one issue and `error`; otherwise the issues and warnings of the checks, and `error`/`warning`/`healthy` by issues then warnings |
| GradioUi.NothingReportedIff | docling_serve/gradio_ui.py:252-333 | nothing is reported exactly when the health check answers 200, the model is listed, the smoke test answers, and detection says `ar` |
| GradioUi.Details | docling_serve/gradio_ui.py:347-351 | the shown details are a prefix of all entries joined, everything when there are at most `n`, and start with the first entry |
| GradioUi.StatusLine | docling_serve/gradio_ui.py:338-355 | the line is tagged with the colour and icon of the status and opens with what `Opening` names: the first issue of an error, the first warning of a warning, `Ready (<model>)` when healthy; it ends with the closing tag |
| GradioUi.CheckOllama | docling_serve/gradio_ui.py:252-319 | the issues are exactly the one `ServiceIssue` names and the warnings exactly the one `ModelWarning` names: each check only runs once the previous one passed |
| GradioUi.CheckDetection | docling_serve/gradio_ui.py:321-330 | appends exactly the detection warning, which is absent exactly when the sample is detected as `ar` |
| GradioUi.ErrorLineShowsFirstIssues | docling_serve/gradio_ui.py:346-348 | the error line starts with the first issue, shows all of two or fewer, and exactly the first two of more |
| GradioUi.SettingsIssues | docling_serve/gradio_ui.py:558-565 | an issue exactly for a non-positive timeout, a non-positive size limit, or no extensions, each once |
| GradioUi.SettingsWarnings | docling_serve/gradio_ui.py:568-572 | a warning exactly for a timeout under 60 or a size limit over 500, each once |
| GradioUi.ValidateOcrmypdfEnvironment | docling_serve/gradio_ui.py:538-587 | not installed, a failing probe, legacy configuration and settings-based configuration each give their status, issues, warnings and info |
| GradioUi.CheckSettings | docling_serve/gradio_ui.py:557-572 | the issues and warnings are those of `SettingsIssues` and `SettingsWarnings`, each present exactly when its condition holds |
| GradioUi.SettingsChecks | docling_serve/gradio_ui.py:553-572 | the defaults are clean; a non-positive timeout also warns; clean exactly for timeout at least 60, size in 1..500 and some extension |
| GradioUi.Submitted | docling_serve/gradio_ui.py:773-791 | the task id exactly when the post answers 200; otherwise an error message |
| GradioUi.UrlRequestFor | docling_serve/gradio_ui.py:741-765 | one URL per comma piece, and joining them with commas gives the input back; Arabic gated by configuration, OCRmyPDF forwarded ungated |
| GradioUi.FirstPieceEmpty | docling_serve/gradio_ui.py:766-770 | the first URL piece is empty exactly for an empty input or one starting with a comma |
| GradioUi.ProcessUrl | docling_serve/gradio_ui.py:766-791 | an empty first piece is refused before posting; otherwise the outcome of posting the request |
| GradioUi.FileRequestFor | docling_serve/gradio_ui.py:826-860 | one file source per file, in order, named by its path with its encoded bytes; both Arabic and OCRmyPDF gated by configuration |
| GradioUi.ProcessFile | docling_serve/gradio_ui.py:823-881 | an empty selection is refused before posting; otherwise the outcome of posting the request |

## Left out

- I/O and the outside world: temporary files and their clean-up, reading uploads, scratch-directory removal, HTTP clients, logging, and the module-level `main` of the two text tools.
- Concurrency: the worker pool, `asyncio.Queue` blocking, `to_thread`, websocket timing and task cancellation. One worker iteration and one wait loop are modelled sequentially, with an integer clock.
- The orchestrator's own operations (enqueue, queue positions, results, progress merging) are not part of this model. Its subscriber notifications are recorded as events that cannot fail, and a missing subscriber set counts as empty.
- Settings and configuration loading become plain records with their defaults.
- Python `str.lower` is modelled for ASCII letters only. `pathlib` suffixes follow the usual rule for the last path component. `Text.BaseName` does not drop a trailing `/` as `pathlib` does, so a name such as `a.pdf/` has no suffix in the model but `.pdf` in Python. Upload and source names never end in `/`.
- Float computations are left out: image resizing, temperature, and the logged coverage ratio. The `pdf_analysis` ratio thresholds are exact integer cross-multiplications.
- `check_pdf_is_tagged` (docling_serve/pdf_analysis.py:151-168) is left out. It duplicates the tag probe that `analyze_pdf` performs, which the model receives as a parameter.
- The raw shapes of the Ollama model list (dict, attribute or tuple) are left out: `GradioUi.AvailableModels` receives entries already normalised.
- GradioUi.ValidateOcrmypdfEnvironment: an exception after the version line was recorded (inside the settings checks) is not distinguished from one before it.
- GradioUi.ProcessUrl: only the Arabic, OCRmyPDF, deskew, clean, language and return-as-file options are modelled. The other options are forwarded unchanged.
- `get_display` (the Unicode bidirectional algorithm) is a parameter of `Bidi.Line.Reversed`. `Bidi.PrefixLength` follows the prefix pattern for lines whose only newline is the last character, which is the case for every line `splitlines(keepends=True)` yields.
- AiVision.ProcessDocument: the vision model receives the attempt number as an extra argument, so that a retry may succeed after an earlier failure.
- PdfAnalysis.AnalyzePdf: pdfplumber's absence and its errors are collapsed into one `None`.
- Worker.Orchestrator.Step: the construction `OCRMyPDFMiddleware(settings=...)` at docling_serve/engines/async_local/worker.py:34 and docling_serve/app.py:99 raises `TypeError`. `Step` therefore takes the middleware as an optional parameter, and the failure is shown by `Worker.LoadAsWritten`.

## Findings

| source | as written | input that shows it | evidently intended | confidence | as-written member | corrected member |
|---|---|---|---|---|---|---|
| docling_serve/pdf_analysis.py:184-212 | `tempfile` is never imported, so creating the temporary file raises `NameError`, which the handler turns into `False` | any PDF, e.g. a scan without text | force OCR when the analysis recommends `force` or the text is poor | high (not executed) | PdfAnalysis.AnalyzePdfForForceOcr | PdfAnalysis.ForceOcrIntended |
| docling_serve/engines/async_local/worker.py:31-39 | `OCRMyPDFMiddleware(settings=...)` raises `TypeError`, which `except ImportError` does not catch; on `ImportError` the handler uses `_log` before it is defined | importing the module, with or without ocrmypdf installed | load the middleware when the import succeeds, enabled per settings | high (not executed) | Worker.LoadAsWritten | Worker.LoadIntended |
| docling_serve/app.py:405-410 | the 504 `HTTPException` is returned as the response body instead of raised | a conversion that exceeds the maximum wait | raise the 504 | high (not executed) | App.SyncReply | App.SyncReplyIntended |
