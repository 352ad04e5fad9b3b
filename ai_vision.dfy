/** The AI-vision middleware (docling_serve/ai_vision_middleware.py): a
    document is rendered to page images, each page is sent to a vision
    model with a bounded number of retries, and the page texts are joined.
    Rendering and the model are function parameters; the model also
    receives the attempt number, so that a retry may succeed where an
    earlier attempt failed. `None` stands for a call that raised. */
module AiVision {
  import opened Wrappers
  import opened Text

  type Bytes = seq<bv8>

  /** A rendered page. */
  datatype Image = Image(pixels: Bytes)

  /** The settings the middleware reads. */
  datatype Settings = Settings(
    enabled: bool,
    modelName: string,
    maxRetries: int,
    supportedExtensions: seq<string>,
    pagesPerBatch: int,
    includePageBreaks: bool,
    pageBreakMarker: string)

  /** The defaults of `AIVisionSettings`. */
  const DefaultSettings := Settings(false, "qwen2.5-vl:32b", 3, [".pdf"], 5, true, "\n\n---\n\n")

  /** What `validate_environment` reports. */
  datatype Validation = Validation(status: string, issues: seq<string>, warnings: seq<string>, info: seq<string>)

  /** `AIVisionMiddleware` after construction. */
  datatype Middleware = Middleware(settings: Option<Settings>, enabled: bool) {

    /** `is_supported_file`: the lower-cased path suffix is one of the
        supported extensions; always false without settings. */
    function IsSupportedFile(filename: string): (r: bool)
      ensures settings.None? ==> !r
    {
      settings.Some? && Lower(Suffix(filename)) in settings.value.supportedExtensions
    }
  }

  /** The middleware as constructed: enabled only with settings that say
      so and a client that could be created. */
  function Create(settings: Option<Settings>, clientCreated: bool): (m: Middleware)
    ensures m.enabled ==> settings.Some? && settings.value.enabled
    ensures m.settings == settings
  {
    Middleware(settings, settings.Some? && settings.value.enabled && clientCreated)
  }

  /** With the default extensions a file is supported exactly when its
      name ends in `.pdf`, in any letter case, after at least one other
      character of its final component. */
  lemma DefaultSupportsPdfOnly(m: Middleware, filename: string)
    requires m.settings == Some(DefaultSettings)
    ensures m.IsSupportedFile(filename) <==> EndsWith(Lower(filename), ".pdf") && |BaseName(filename)| >= 5
  {
    PdfSuffix(filename);
  }

  /** The entry for a page whose every attempt failed. */
  function ErrorEntry(pageNumber: nat): string {
    "[Error processing page " + NatToString(pageNumber) + "]"
  }

  /** The outcome of attempts `attempt`, `attempt + 1`, ... on one page:
      the first successful text, or the error entry once the last attempt
      has failed. */
  function RetryFrom(image: Image, pageNumber: nat, attempt: nat, maxRetries: nat,
                     vision: (Image, nat, nat) -> Option<string>): string
    requires attempt < maxRetries
    decreases maxRetries - attempt
  {
    match vision(image, pageNumber, attempt)
    case Some(text) => text
    case None => if attempt == maxRetries - 1 then ErrorEntry(pageNumber)
                 else RetryFrom(image, pageNumber, attempt + 1, maxRetries, vision)
  }

  /** How many calls `RetryFrom` makes. */
  function AttemptsFrom(image: Image, pageNumber: nat, attempt: nat, maxRetries: nat,
                        vision: (Image, nat, nat) -> Option<string>): (n: nat)
    requires attempt < maxRetries
    ensures 1 <= n <= maxRetries - attempt
    decreases maxRetries - attempt
  {
    if vision(image, pageNumber, attempt).Some? || attempt == maxRetries - 1 then 1
    else 1 + AttemptsFrom(image, pageNumber, attempt + 1, maxRetries, vision)
  }

  /** The entries one page contributes: one, or none at all when no
      attempt is allowed. */
  function PageEntries(image: Image, pageNumber: nat, maxRetries: int,
                       vision: (Image, nat, nat) -> Option<string>): seq<string> {
    if maxRetries <= 0 then [] else [RetryFrom(image, pageNumber, 0, maxRetries, vision)]
  }

  /** The entries of a list of pages, numbered from 1. */
  function Entries(images: seq<Image>, maxRetries: int, vision: (Image, nat, nat) -> Option<string>): seq<string>
    decreases |images|
  {
    if images == [] then []
    else Entries(images[..|images| - 1], maxRetries, vision) +
         PageEntries(images[|images| - 1], |images|, maxRetries, vision)
  }

  /** How the entries are joined. */
  function Combine(settings: Settings, entries: seq<string>): string {
    if settings.includePageBreaks && |entries| > 1 then Join(settings.pageBreakMarker, entries)
    else Join("\n\n", entries)
  }

  /** With at least one attempt allowed, every page yields exactly one
      entry, in page order: the first successful text or the page's error
      entry; with none allowed there are no entries. */
  lemma {:induction false} EntriesOnePerPage(images: seq<Image>, maxRetries: int, vision: (Image, nat, nat) -> Option<string>)
    ensures maxRetries <= 0 ==> Entries(images, maxRetries, vision) == []
    ensures maxRetries > 0 ==>
              |Entries(images, maxRetries, vision)| == |images| &&
              forall k :: 0 <= k < |images| ==>
                Entries(images, maxRetries, vision)[k] == RetryFrom(images[k], k + 1, 0, maxRetries, vision)
    decreases |images|
  {
    if images != [] {
      var prefix := images[..|images| - 1];
      EntriesOnePerPage(prefix, maxRetries, vision);
      if maxRetries > 0 {
        forall k | 0 <= k < |images|
          ensures Entries(images, maxRetries, vision)[k] == RetryFrom(images[k], k + 1, 0, maxRetries, vision)
        {
          if k < |prefix| {
            assert prefix[k] == images[k];
          }
        }
      }
    }
  }

  /** A page's entry is the text of the last attempt made, which is the
      first success, or its error entry when every allowed attempt failed. */
  lemma {:induction false} RetryOutcome(image: Image, pageNumber: nat, attempt: nat, maxRetries: nat,
                                        vision: (Image, nat, nat) -> Option<string>)
    requires attempt < maxRetries
    ensures var last := attempt + AttemptsFrom(image, pageNumber, attempt, maxRetries, vision) - 1;
      (forall a :: attempt <= a < last ==> vision(image, pageNumber, a).None?) &&
      (match vision(image, pageNumber, last)
       case Some(text) => RetryFrom(image, pageNumber, attempt, maxRetries, vision) == text
       case None => last == maxRetries - 1 && RetryFrom(image, pageNumber, attempt, maxRetries, vision) == ErrorEntry(pageNumber))
    decreases maxRetries - attempt
  {
    if vision(image, pageNumber, attempt).None? && attempt < maxRetries - 1 {
      RetryOutcome(image, pageNumber, attempt + 1, maxRetries, vision);
    }
  }

  /** One page: the retry loop of `process_document`, which stops at the
      first success. Returns the entries it appends and, as a ghost, the
      number of model calls it made. */
  method ProcessPage(image: Image, pageNumber: nat, maxRetries: int, vision: (Image, nat, nat) -> Option<string>)
    returns (entries: seq<string>, ghost calls: nat)
    ensures entries == PageEntries(image, pageNumber, maxRetries, vision)
    ensures maxRetries > 0 ==> calls == AttemptsFrom(image, pageNumber, 0, maxRetries, vision)
    ensures maxRetries <= 0 ==> calls == 0
  {
    entries := [];
    calls := 0;
    var attempt := 0;
    while attempt < maxRetries && entries == []
      invariant 0 <= attempt
      invariant entries == [] ==> calls == attempt
      invariant maxRetries <= 0 ==> attempt == 0 && entries == []
      invariant entries == [] && attempt < maxRetries ==>
                  RetryFrom(image, pageNumber, 0, maxRetries, vision) == RetryFrom(image, pageNumber, attempt, maxRetries, vision) &&
                  AttemptsFrom(image, pageNumber, 0, maxRetries, vision) == attempt + AttemptsFrom(image, pageNumber, attempt, maxRetries, vision)
      invariant entries == [] && maxRetries > 0 ==> attempt < maxRetries
      invariant entries != [] ==> maxRetries > 0 && entries == [RetryFrom(image, pageNumber, 0, maxRetries, vision)] &&
                                  calls == AttemptsFrom(image, pageNumber, 0, maxRetries, vision)
      decreases maxRetries - attempt
    {
      calls := calls + 1;
      var pageContent := vision(image, pageNumber, attempt);
      if pageContent.Some? {
        entries := [pageContent.value];
      } else if attempt == maxRetries - 1 {
        entries := [ErrorEntry(pageNumber)];
      }
      attempt := attempt + 1;
    }
  }

  /** The batch loops of `process_document` for a positive batch size:
      batches `[i, i + pagesPerBatch)` clipped to the page count, pages
      numbered `i + j + 1`. */
  method ProcessPages(images: seq<Image>, pagesPerBatch: int, maxRetries: int, vision: (Image, nat, nat) -> Option<string>)
    returns (allPagesContent: seq<string>)
    requires pagesPerBatch > 0
    ensures allPagesContent == Entries(images, maxRetries, vision)
  {
    allPagesContent := [];
    var totalPages := |images|;
    var i := 0;
    while i < totalPages
      invariant 0 <= i
      invariant allPagesContent == Entries(images[..if i < totalPages then i else totalPages], maxRetries, vision)
      decreases totalPages - i
    {
      var batchEnd := if i + pagesPerBatch < totalPages then i + pagesPerBatch else totalPages;
      for j := 0 to batchEnd - i
        invariant allPagesContent == Entries(images[..i + j], maxRetries, vision)
      {
        var pageEntries, _ := ProcessPage(images[i + j], i + j + 1, maxRetries, vision);
        assert images[..i + j + 1][..i + j] == images[..i + j];
        allPagesContent := allPagesContent + pageEntries;
      }
      i := i + pagesPerBatch;
    }
    assert images[..totalPages] == images;
  }

  /** `process_document`. The checks come in order: not enabled
      (`RuntimeError`), unsupported file (`ValueError`), rendering failure,
      and a zero batch size, which `range` rejects (`ValueError`); a
      negative batch size visits no page. */
  method ProcessDocument(m: Middleware, stream: Bytes, filename: string,
                         render: Bytes -> Option<seq<Image>>, vision: (Image, nat, nat) -> Option<string>)
    returns (r: Result<string>)
    ensures !m.enabled ==> r == Failure("RuntimeError")
    ensures m.enabled && !m.IsSupportedFile(filename) ==> r == Failure("ValueError")
    ensures m.enabled && m.IsSupportedFile(filename) && render(stream).None? ==> r == Failure("RenderError")
    ensures m.enabled && m.IsSupportedFile(filename) && render(stream).Some? ==>
              var s := m.settings.value;
              if s.pagesPerBatch == 0 then r == Failure("ValueError")
              else if s.pagesPerBatch < 0 then r == Success("")
              else r == Success(Combine(s, Entries(render(stream).value, s.maxRetries, vision)))
  {
    if !m.enabled {
      return Failure("RuntimeError");
    }
    if !m.IsSupportedFile(filename) {
      return Failure("ValueError");
    }
    var rendered := render(stream);
    if rendered.None? {
      return Failure("RenderError");
    }
    var images := rendered.value;
    var s := m.settings.value;
    if s.pagesPerBatch == 0 {
      return Failure("ValueError");
    }
    var allPagesContent: seq<string> := [];
    if s.pagesPerBatch > 0 {
      allPagesContent := ProcessPages(images, s.pagesPerBatch, s.maxRetries, vision);
    }
    r := Success(Combine(s, allPagesContent));
  }

  /** `validate_environment`. `importError` is the message of a failed
      import, if any; `listModels` the names the model server lists, or the
      message of the error the listing raised. */
  method ValidateEnvironment(m: Middleware, importError: Option<string>, listModels: Result<seq<string>>)
    returns (r: Validation)
    requires m.enabled ==> m.settings.Some?
    ensures r.status == "disabled" <==> !m.enabled
    ensures !m.enabled ==> r.issues == [] && |r.info| == 1
    ensures r.status == "healthy" <==>
              m.enabled && importError.None? && listModels.Success? && m.settings.value.modelName in listModels.value
    ensures r.status == "error" <==> r.issues != []
    ensures |r.issues| <= 1 && r.warnings == []
    ensures r.status in {"disabled", "healthy", "error"}
  {
    r := Validation("unknown", [], [], []);
    if !m.enabled {
      r := r.(status := "disabled", info := r.info + ["AI Vision is disabled in configuration"]);
      return;
    }
    if importError.Some? {
      var message := importError.value;
      SplitCountIff(message, '\'');
      var missing := if '\'' in message then Split(message, '\'')[1] else "unknown package";
      r := r.(issues := r.issues + ["Missing required package: " + missing], status := "error");
      return;
    }
    r := r.(info := r.info + ["Required packages (pdf2image, PIL, ollama) are available"]);
    var modelName := m.settings.value.modelName;
    match listModels {
      case Success(available) =>
        if modelName in available {
          r := r.(info := r.info + ["Vision model '" + modelName + "' is available"], status := "healthy");
        } else {
          r := r.(issues := r.issues + ["Vision model '" + modelName + "' not found in Ollama"], status := "error");
        }
      case Failure(message) =>
        var shown := if |message| <= 100 then message else message[..100];
        r := r.(issues := r.issues + ["Failed to connect to Ollama: " + shown], status := "error");
    }
  }
}
