/** The pure helpers, the two environment validators and the request
    building of the Gradio user interface (docling_serve/gradio_ui.py).
    The HTTP post, base64 encoding, the `_to_list_of_strings` helper and
    the Ollama, langdetect and OCRmyPDF probes are parameters. */
module GradioUi {
  import opened Wrappers
  import opened Text
  import OcrMyPdf
  import Worker

  // ---------------------------------------------------------------------
  // auto_set_return_as_file, change_ocr_lang, clear_outputs
  // ---------------------------------------------------------------------

  /** Whether the UI switches "return as file" on: several URLs (the URL
      text splits on a comma into more than one piece), several files, or
      referenced images. `fileInput` is `None` when no file was chosen. */
  function AutoSetReturnAsFile(urlInput: string, fileInput: Option<seq<string>>, imageExportMode: string): (r: bool)
    ensures r <==> ',' in urlInput || (fileInput.Some? && |fileInput.value| > 1) || imageExportMode == "referenced"
  {
    SplitCountIff(urlInput, ',');
    |Split(urlInput, ',')| > 1 || (fileInput.Some? && |fileInput.value| > 1) || imageExportMode == "referenced"
  }

  const EasyOcrDefaults: string := "en,fr,de,es"
  const TesseractDefaults: string := "eng,fra,deu,spa"
  const RapidOcrDefaults: string := "english,chinese"

  /** The default language text shown for an OCR engine; `None` (Python's
      implicit `None`) for any other engine. */
  function ChangeOcrLang(engine: string): (r: Option<string>)
    ensures r.Some? <==> engine == "easyocr" || engine == "tesseract_cli" || engine == "tesseract" || engine == "rapidocr"
    ensures engine == "tesseract" || engine == "tesseract_cli" ==> r == Some(TesseractDefaults)
    ensures engine == "easyocr" ==> r == Some(EasyOcrDefaults)
    ensures engine == "rapidocr" ==> r == Some(RapidOcrDefaults)
  {
    if engine == "easyocr" then Some(EasyOcrDefaults)
    else if engine == "tesseract_cli" then Some(TesseractDefaults)
    else if engine == "tesseract" then Some(TesseractDefaults)
    else if engine == "rapidocr" then Some(RapidOcrDefaults)
    else None
  }

  /** The two Tesseract engines get the same four Tesseract codes, one per
      comma-separated piece, and the EasyOCR defaults are four other codes. */
  lemma DefaultLanguagePieces()
    ensures Split(TesseractDefaults, ',') == ["eng", "fra", "deu", "spa"]
    ensures Split(EasyOcrDefaults, ',') == ["en", "fr", "de", "es"]
    ensures ChangeOcrLang("tesseract") == ChangeOcrLang("tesseract_cli")
  {
    TesseractDefaultPieces();
    EasyOcrDefaultPieces();
  }

  lemma TesseractDefaultPieces()
    ensures Split(TesseractDefaults, ',') == ["eng", "fra", "deu", "spa"]
  {
    var t := ["eng", "fra", "deu", "spa"];
    JoinFour(",", t);
    assert "eng" + "," + "fra" + "," + "deu" + "," + "spa" == TesseractDefaults;
    SplitJoin(t, ',');
  }

  lemma EasyOcrDefaultPieces()
    ensures Split(EasyOcrDefaults, ',') == ["en", "fr", "de", "es"]
  {
    var e := ["en", "fr", "de", "es"];
    JoinFour(",", e);
    assert "en" + "," + "fr" + "," + "de" + "," + "es" == EasyOcrDefaults;
    SplitJoin(e, ',');
  }

  /** A join of four pieces, written out. */
  lemma JoinFour(sep: string, ps: seq<string>)
    requires |ps| == 4
    ensures Join(sep, ps) == ps[0] + sep + ps[1] + sep + ps[2] + sep + ps[3]
  {
    assert Join(sep, ps[3..]) == ps[3];
    assert Join(sep, ps[2..]) == ps[2] + sep + ps[3];
    assert Join(sep, ps[1..]) == ps[1] + sep + (ps[2] + sep + ps[3]);
  }

  /** The nine output fields the UI resets: task id, markdown (twice),
      json, rendered json, html (twice), text and doctags. */
  function ClearOutputs(): (r: seq<string>)
    ensures |r| == 9
    ensures forall i :: 0 <= i < |r| ==> r[i] == ""
  {
    seq(9, i => "")
  }

  // ---------------------------------------------------------------------
  // validate_arabic_correction_environment
  // ---------------------------------------------------------------------

  /** What `get_arabic_correction_config` returns. */
  datatype ArabicConfig = ArabicConfig(enabled: bool, host: string, model: string)

  /** One entry of the Ollama model list: its `model` and `name`
      attributes (when present) and its `str()`. */
  datatype ModelEntry = ModelEntry(model: Option<string>, name: Option<string>, text: string)

  /** The answer of the health endpoint `GET {host}/api/tags`. */
  datatype HealthProbe = Reply(statusCode: nat) | TimedOut | ConnectionRefused | ProbeRaised(error: string)

  /** The model listing: the normalised entries, or the exception raised
      while listing them. */
  datatype ModelListing = Listed(entries: seq<ModelEntry>) | ListRaised(error: string)

  /** The one-token chat smoke test: whether its answer was truthy, or the
      exception it raised. */
  datatype SmokeTest = Answered(truthy: bool) | SmokeRaised(error: string)

  /** `detect("هذا نص تجريبي")`: the language found, or the exception. */
  datatype Detection = Detected(language: string) | DetectRaised(error: string)

  /** Everything the validator learns from the outside world, in the order
      it asks: the `ImportError` text when `ollama` or `langdetect` is
      missing, the health check, the model list, the smoke test and the
      language detection test. */
  datatype ArabicProbes = ArabicProbes(
    missingImport: Option<string>,
    health: HealthProbe,
    listing: ModelListing,
    smoke: SmokeTest,
    detection: Detection)

  /** The `status` strings `disabled`, `error`, `warning` and `healthy`. */
  datatype ArabicStatus = ArabicDisabled | ArabicError | ArabicWarning | ArabicHealthy

  datatype ArabicValidation = ArabicValidation(issues: seq<string>, warnings: seq<string>, status: ArabicStatus)

  const DisabledWarning: string := "Arabic correction is disabled via configuration"

  /** Python's `s[:n]`. */
  function Clip(s: string, n: nat): (r: string)
    ensures |r| <= n && r <= s
    ensures |s| <= n ==> r == s
  {
    if |s| <= n then s else s[..n]
  }

  /** The package named in an `ImportError` text: the piece after the
      first quote, or `unknown package` when the text has no quote. */
  function MissingName(message: string): (r: string)
    ensures '\'' !in message ==> r == "unknown package"
    ensures '\'' in message ==> '\'' !in r
  {
    if '\'' in message then
      SplitCountIff(message, '\'');
      SplitPiecesFree(message, '\'');
      Split(message, '\'')[1]
    else "unknown package"
  }

  /** `getattr(e, "model", None) or getattr(e, "name", None) or str(e)`:
      an empty string is falsy, so it is passed over like a missing one. */
  function EntryName(e: ModelEntry): string {
    if e.model.Some? && e.model.value != "" then e.model.value
    else if e.name.Some? && e.name.value != "" then e.name.value
    else e.text
  }

  /** The names the validator compares the configured model against. */
  function ModelNames(entries: seq<ModelEntry>): (r: seq<string>)
    ensures |r| == |entries|
    ensures forall i :: 0 <= i < |entries| ==> r[i] == EntryName(entries[i])
  {
    seq(|entries|, i requires 0 <= i < |entries| => EntryName(entries[i]))
  }

  /** The loop that builds `available_models`. */
  method AvailableModels(entries: seq<ModelEntry>) returns (names: seq<string>)
    ensures names == ModelNames(entries)
  {
    names := [];
    for i := 0 to |entries|
      invariant names == ModelNames(entries[..i])
    {
      names := names + [EntryName(entries[i])];
    }
    assert entries[..|entries|] == entries;
  }

  /** The one issue of the Ollama check, if any: the service could not be
      reached, answered with a status other than 200, could not list its
      models, or does not list the configured model. */
  function ServiceIssue(config: ArabicConfig, probes: ArabicProbes): (r: Option<string>)
    ensures r.None? <==>
              probes.health == Reply(200) && probes.listing.Listed?
              && config.model in ModelNames(probes.listing.entries)
  {
    match probes.health
    case TimedOut => Some("Timeout connecting to Ollama at " + config.host + " (>10s)")
    case ConnectionRefused => Some("Cannot connect to Ollama at " + config.host + " - is Ollama running?")
    case ProbeRaised(e) => Some("Error checking Ollama connectivity: " + Clip(e, 100))
    case Reply(code) =>
      if code != 200 then Some("Ollama service at " + config.host + " returned " + NatToString(code))
      else
        match probes.listing
        case ListRaised(e) => Some("Failed to check models in Ollama: " + Clip(e, 100))
        case Listed(entries) =>
          if config.model !in ModelNames(entries) then
            Some("Required model '" + config.model + "' not found in Ollama")
          else None
  }

  /** The smoke-test warning, if any; the test only runs once the model was
      found, so it never comes with a service issue. */
  function ModelWarning(config: ArabicConfig, probes: ArabicProbes): (r: Option<string>)
    ensures r.Some? ==> ServiceIssue(config, probes).None?
    ensures r.None? <==> ServiceIssue(config, probes).Some? || probes.smoke == Answered(true)
  {
    if ServiceIssue(config, probes).Some? then None
    else
      match probes.smoke
      case Answered(truthy) =>
        if truthy then None else Some("Model '" + config.model + "' loaded but did not respond")
      case SmokeRaised(e) => Some("Model '" + config.model + "' test failed: " + Clip(e, 100))
  }

  /** The language-detection warning, if any: it is absent exactly when
      the Arabic sample is detected as `ar`. */
  function DetectionWarning(detection: Detection): (r: Option<string>)
    ensures r.None? <==> detection == Detected("ar")
  {
    match detection
    case Detected(language) =>
      if language != "ar" then Some("Language detection test failed (detected: " + language + ")") else None
    case DetectRaised(e) => Some("Language detection test failed: " + Clip(e, 50))
  }

  function OptionToSeq(o: Option<string>): (r: seq<string>)
    ensures |r| <= 1
    ensures r == [] <==> o.None?
  {
    match o
    case Some(v) => [v]
    case None => []
  }

  /** The validator, appending to `issues` and `warnings` as it goes.
      Disabled configuration short-circuits with no issue; a missing
      package returns straight away with one issue; otherwise the issues
      come from the Ollama check and the warnings from the smoke test and
      the detection test, and the status is `error` when there is an issue,
      else `warning` when there is a warning, else `healthy`. */
  method ValidateArabicEnvironment(config: ArabicConfig, probes: ArabicProbes) returns (v: ArabicValidation)
    ensures !config.enabled ==> v == ArabicValidation([], [DisabledWarning], ArabicDisabled)
    ensures config.enabled && probes.missingImport.Some? ==>
              v == ArabicValidation(["Missing required package: " + MissingName(probes.missingImport.value)], [], ArabicError)
    ensures config.enabled && probes.missingImport.None? ==>
              v.issues == OptionToSeq(ServiceIssue(config, probes))
              && v.warnings == OptionToSeq(ModelWarning(config, probes)) + OptionToSeq(DetectionWarning(probes.detection))
    ensures v.status == ArabicDisabled <==> !config.enabled
    ensures config.enabled ==>
              (v.status == ArabicError <==> v.issues != [])
              && (v.status == ArabicWarning <==> v.issues == [] && v.warnings != [])
              && (v.status == ArabicHealthy <==> v.issues == [] && v.warnings == [])
  {
    if !config.enabled {
      return ArabicValidation([], [DisabledWarning], ArabicDisabled);
    }
    if probes.missingImport.Some? {
      return ArabicValidation(["Missing required package: " + MissingName(probes.missingImport.value)], [], ArabicError);
    }
    var issues, warnings := CheckOllama(config, probes);
    warnings := CheckDetection(probes.detection, warnings);
    var status := if issues != [] then ArabicError else if warnings != [] then ArabicWarning else ArabicHealthy;
    v := ArabicValidation(issues, warnings, status);
  }

  /** The Ollama part of the validator: connectivity, the model listing and
      the smoke test, each step only reached when the previous one passed. */
  method CheckOllama(config: ArabicConfig, probes: ArabicProbes) returns (issues: seq<string>, warnings: seq<string>)
    ensures issues == OptionToSeq(ServiceIssue(config, probes))
    ensures warnings == OptionToSeq(ModelWarning(config, probes))
  {
    issues, warnings := [], [];
    match probes.health {
      case TimedOut =>
        issues := issues + ["Timeout connecting to Ollama at " + config.host + " (>10s)"];
      case ConnectionRefused =>
        issues := issues + ["Cannot connect to Ollama at " + config.host + " - is Ollama running?"];
      case ProbeRaised(e) =>
        issues := issues + ["Error checking Ollama connectivity: " + Clip(e, 100)];
      case Reply(code) =>
        if code != 200 {
          issues := issues + ["Ollama service at " + config.host + " returned " + NatToString(code)];
        } else {
          match probes.listing {
            case ListRaised(e) =>
              issues := issues + ["Failed to check models in Ollama: " + Clip(e, 100)];
            case Listed(entries) =>
              var available := AvailableModels(entries);
              if config.model !in available {
                issues := issues + ["Required model '" + config.model + "' not found in Ollama"];
              } else {
                match probes.smoke {
                  case Answered(truthy) =>
                    if !truthy {
                      warnings := warnings + ["Model '" + config.model + "' loaded but did not respond"];
                    }
                  case SmokeRaised(e) =>
                    warnings := warnings + ["Model '" + config.model + "' test failed: " + Clip(e, 100)];
                }
              }
          }
        }
    }
  }

  /** The language-detection part of the validator, appending its warning. */
  method CheckDetection(detection: Detection, warnings: seq<string>) returns (w: seq<string>)
    ensures w == warnings + OptionToSeq(DetectionWarning(detection))
  {
    w := warnings;
    match detection {
      case Detected(language) =>
        if language != "ar" {
          w := w + ["Language detection test failed (detected: " + language + ")"];
        }
      case DetectRaised(e) =>
        w := w + ["Language detection test failed: " + Clip(e, 50)];
    }
  }

  /** With the packages installed, the validator reports nothing exactly
      when Ollama answers 200, lists the configured model, the model
      answers the smoke test, and the sample is detected as Arabic. */
  lemma NothingReportedIff(config: ArabicConfig, probes: ArabicProbes)
    ensures OptionToSeq(ServiceIssue(config, probes)) == []
            && OptionToSeq(ModelWarning(config, probes)) + OptionToSeq(DetectionWarning(probes.detection)) == []
            <==>
            probes.health == Reply(200) && probes.listing.Listed?
            && config.model in ModelNames(probes.listing.entries)
            && probes.smoke == Answered(true) && probes.detection == Detected("ar")
  {
    var a := OptionToSeq(ModelWarning(config, probes));
    var b := OptionToSeq(DetectionWarning(probes.detection));
    assert a + b == [] <==> a == [] && b == [] by {
      if a + b == [] {
        assert |a + b| == |a| + |b|;
      }
    }
  }

  // ---------------------------------------------------------------------
  // get_arabic_correction_status_with_validation
  // ---------------------------------------------------------------------

  /** `"; ".join(xs[:n])`. */
  function Details(xs: seq<string>, n: nat): (r: string)
    ensures r <= Join("; ", xs)
    ensures |xs| <= n ==> r == Join("; ", xs)
    ensures n >= 1 && |xs| >= 1 ==> xs[0] <= r
  {
    var k := if n < |xs| then n else |xs|;
    JoinPrefix("; ", xs, k);
    assert xs[..|xs|] == xs;
    Join("; ", xs[..k])
  }

  /** Joining the first `k` parts gives a prefix of joining them all, which
      starts with the first part. */
  lemma {:induction false} JoinPrefix(sep: string, xs: seq<string>, k: nat)
    requires k <= |xs|
    ensures Join(sep, xs[..k]) <= Join(sep, xs)
    ensures k >= 1 ==> xs[0] <= Join(sep, xs[..k])
    decreases k
  {
    if k == 1 {
      assert xs[..1] == [xs[0]];
      if |xs| > 1 {
        assert Join(sep, xs) == xs[0] + sep + Join(sep, xs[1..]);
      }
    } else if k >= 2 {
      JoinPrefix(sep, xs[1..], k - 1);
      assert xs[..k][1..] == xs[1..][..k - 1];
      assert Join(sep, xs[..k]) == xs[0] + sep + Join(sep, xs[1..][..k - 1]);
      assert Join(sep, xs) == xs[0] + sep + Join(sep, xs[1..]);
    }
  }

  /** The colour of the status line for each status. */
  function Colour(status: ArabicStatus): string
  {
    match status
    case ArabicDisabled => "gray"
    case ArabicError => "red"
    case ArabicWarning => "orange"
    case ArabicHealthy => "green"
  }

  /** The opening of the status line: the coloured tag and the icon. */
  function Lead(status: ArabicStatus): string
  {
    var icon := match status
      case ArabicDisabled => "⚪"
      case ArabicError => "✗"
      case ArabicWarning => "⚠"
      case ArabicHealthy => "✓";
    "<small style='color: " + Colour(status) + ";'>" + icon + " Arabic correction: "
  }

  /** What the status line promises to show right after its lead: the
      first issue of an error, the first warning of a warning, and the
      model of a healthy environment. */
  function Opening(v: ArabicValidation, config: ArabicConfig): string
  {
    match v.status
    case ArabicDisabled => "Disabled in configuration"
    case ArabicError => if v.issues != [] then v.issues[0] else ""
    case ArabicWarning => if v.warnings != [] then v.warnings[0] else ""
    case ArabicHealthy => "Ready (" + config.model + ")"
  }

  /** The text between the lead and the closing tag. */
  function Message(v: ArabicValidation, config: ArabicConfig): (r: string)
    ensures Opening(v, config) <= r
  {
    match v.status
    case ArabicDisabled => "Disabled in configuration"
    case ArabicError => Details(v.issues, 2)
    case ArabicWarning => Details(v.warnings, 1)
    case ArabicHealthy => "Ready (" + config.model + ")"
  }

  /** The status line: tagged with the colour and icon of the status and
      opening with what `Opening` names. */
  function StatusLine(v: ArabicValidation, config: ArabicConfig): (r: string)
    ensures Lead(v.status) + Opening(v, config) <= r
    ensures Lead(v.status) <= r && EndsWith(r, "</small>")
  {
    var m := Message(v, config);
    PrefixWithin(Lead(v.status), Opening(v, config), m, "</small>");
    Lead(v.status) + m + "</small>"
  }

  /** An error line names the first issue and shows all issues when there
      are at most two; with three or more it drops every issue after the
      second. */
  lemma ErrorLineShowsFirstIssues(v: ArabicValidation, config: ArabicConfig)
    requires v.status == ArabicError && v.issues != []
    ensures v.issues[0] <= Details(v.issues, 2) <= Join("; ", v.issues)
    ensures |v.issues| <= 2 ==> Details(v.issues, 2) == Join("; ", v.issues)
    ensures |v.issues| > 2 ==> Details(v.issues, 2) == v.issues[0] + "; " + v.issues[1]
  {
    if |v.issues| > 2 {
      var p := v.issues[..2];
      assert p[1..] == [v.issues[1]];
      assert Join("; ", p) == p[0] + "; " + Join("; ", p[1..]);
    }
  }

  // ---------------------------------------------------------------------
  // validate_ocrmypdf_environment
  // ---------------------------------------------------------------------

  /** The fields of `OCRMyPDFSettings` the validator reads. */
  datatype OcrSettings = OcrSettings(enabled: bool, timeout: int, maxFileSizeMb: int, supportedExtensions: seq<string>)

  /** The default settings: disabled, 600 seconds, 200 MB, `.pdf` only. */
  const DefaultOcrSettings: OcrSettings := OcrSettings(false, 600, 200, [".pdf"])

  /** `import ocrmypdf` and reading its version: the package is missing,
      reading it raised, or the installed version. */
  datatype OcrProbe = NotInstalled | ProbeFailed(error: string) | Installed(version: string)

  /** The `status` strings `not_installed`, `error`, `enabled`, `disabled`. */
  datatype OcrStatus = OcrNotInstalled | OcrError | OcrEnabled | OcrDisabled

  datatype OcrValidation = OcrValidation(status: OcrStatus, issues: seq<string>, warnings: seq<string>, info: seq<string>)

  const TimeoutIssue: string := "Invalid timeout value - must be positive"
  const SizeIssue: string := "Invalid max file size - must be positive"
  const ExtensionsIssue: string := "No supported file extensions configured"
  const TimeoutWarning: string := "Timeout is very short - may cause processing failures"
  const SizeWarning: string := "Very large max file size - may cause memory issues"

  /** The issues settings raise, in the order they are checked. */
  function SettingsIssues(s: OcrSettings): (r: seq<string>)
    ensures forall m :: m in r <==>
              (m == TimeoutIssue && s.timeout <= 0)
              || (m == SizeIssue && s.maxFileSizeMb <= 0)
              || (m == ExtensionsIssue && s.supportedExtensions == [])
    ensures forall i, j :: 0 <= i < j < |r| ==> r[i] != r[j]
  {
    (if s.timeout <= 0 then [TimeoutIssue] else [])
    + (if s.maxFileSizeMb <= 0 then [SizeIssue] else [])
    + (if s.supportedExtensions == [] then [ExtensionsIssue] else [])
  }

  /** The warnings settings raise, in the order they are checked. */
  function SettingsWarnings(s: OcrSettings): (r: seq<string>)
    ensures forall m :: m in r <==>
              (m == TimeoutWarning && s.timeout < 60) || (m == SizeWarning && s.maxFileSizeMb > 500)
    ensures forall i, j :: 0 <= i < j < |r| ==> r[i] != r[j]
  {
    (if s.timeout < 60 then [TimeoutWarning] else [])
    + (if s.maxFileSizeMb > 500 then [SizeWarning] else [])
  }

  /** The validator. Without the settings module it falls back to the
      legacy `enabled` flag and warns about it. */
  method ValidateOcrmypdfEnvironment(probe: OcrProbe, settings: Option<OcrSettings>, legacyEnabled: bool)
    returns (v: OcrValidation)
    ensures probe.NotInstalled? ==> v == OcrValidation(OcrNotInstalled, ["OCRMyPDF package not installed"], [], [])
    ensures probe.ProbeFailed? ==> v == OcrValidation(OcrError, ["Configuration error: " + probe.error], [], [])
    ensures probe.Installed? && settings.None? ==>
              v == OcrValidation(if legacyEnabled then OcrEnabled else OcrDisabled, [],
                                 ["Using legacy configuration - consider upgrading"],
                                 ["OCRMyPDF version " + probe.version + " is installed"])
    ensures probe.Installed? && settings.Some? ==>
              v == OcrValidation(if settings.value.enabled then OcrEnabled else OcrDisabled,
                                 SettingsIssues(settings.value), SettingsWarnings(settings.value),
                                 ["OCRMyPDF version " + probe.version + " is installed",
                                  "Using modern settings-based configuration"])
  {
    match probe {
      case NotInstalled =>
        v := OcrValidation(OcrNotInstalled, ["OCRMyPDF package not installed"], [], []);
      case ProbeFailed(e) =>
        v := OcrValidation(OcrError, ["Configuration error: " + e], [], []);
      case Installed(version) =>
        var info := ["OCRMyPDF version " + version + " is installed"];
        if settings.Some? {
          var s := settings.value;
          var issues, warnings := CheckSettings(s);
          v := OcrValidation(if s.enabled then OcrEnabled else OcrDisabled, issues, warnings,
                             info + ["Using modern settings-based configuration"]);
        } else {
          v := OcrValidation(if legacyEnabled then OcrEnabled else OcrDisabled, [],
                             ["Using legacy configuration - consider upgrading"], info);
        }
    }
  }

  /** The settings checks of the validator, each appending when it fails. */
  method CheckSettings(s: OcrSettings) returns (issues: seq<string>, warnings: seq<string>)
    ensures issues == SettingsIssues(s) && warnings == SettingsWarnings(s)
  {
    issues, warnings := [], [];
    if s.timeout <= 0 {
      issues := issues + [TimeoutIssue];
    }
    if s.maxFileSizeMb <= 0 {
      issues := issues + [SizeIssue];
    }
    if s.supportedExtensions == [] {
      issues := issues + [ExtensionsIssue];
    }
    if s.timeout < 60 {
      warnings := warnings + [TimeoutWarning];
    }
    if s.maxFileSizeMb > 500 {
      warnings := warnings + [SizeWarning];
    }
  }

  /** The default settings raise neither an issue nor a warning, and a
      non-positive timeout always comes with the short-timeout warning. */
  lemma SettingsChecks(s: OcrSettings)
    ensures SettingsIssues(DefaultOcrSettings) == [] && SettingsWarnings(DefaultOcrSettings) == []
    ensures TimeoutIssue in SettingsIssues(s) ==> TimeoutWarning in SettingsWarnings(s)
    ensures SettingsIssues(s) == [] && SettingsWarnings(s) == [] <==>
              60 <= s.timeout && 0 < s.maxFileSizeMb <= 500 && s.supportedExtensions != []
  {
    if SettingsIssues(s) == [] && SettingsWarnings(s) == [] {
      assert TimeoutWarning !in SettingsWarnings(s);
      assert SizeIssue !in SettingsIssues(s);
      assert ExtensionsIssue !in SettingsIssues(s);
      assert SizeWarning !in SettingsWarnings(s);
    }
  }

  // ---------------------------------------------------------------------
  // process_url / process_file
  // ---------------------------------------------------------------------

  /** The UI controls the model follows; the other options are forwarded
      unchanged and are not modelled. */
  datatype UiFlags = UiFlags(
    ocrLang: string,
    returnAsFile: bool,
    enableArabic: bool,
    enableOcrmypdf: bool,
    deskew: bool,
    clean: bool)

  datatype ApiOptions = ApiOptions(
    ocrLang: seq<string>,
    returnAsFile: bool,
    enableArabic: bool,
    enableOcrmypdf: bool,
    deskew: bool,
    clean: bool)

  /** The JSON body posted to `/v1alpha/convert/source/async`. */
  datatype ApiRequest =
    | UrlRequest(httpSources: seq<string>, options: ApiOptions)
    | FileRequest(fileSources: seq<Worker.FileSource>, options: ApiOptions)

  /** The post: it raised, or answered with a status code, the `detail` of
      the body and its `task_id`. */
  datatype PostOutcome = PostRaised(error: string) | Posted(statusCode: nat, detail: Option<string>, taskId: string)

  /** A file chosen in the UI: its temporary path and its bytes. */
  datatype ChosenFile = ChosenFile(path: string, content: OcrMyPdf.Bytes)

  const NoSources: string := "No input sources provided."
  const NoFiles: string := "No files provided."

  /** The task id from a successful post, or the `gr.Error` text. */
  function Submitted(request: ApiRequest, post: ApiRequest -> PostOutcome, raisedPrefix: string): (r: Result<string>)
    ensures r.Failure? ==> |r.error| > 0 && r.error[0] == 'E'
    ensures r.Success? <==> post(request).Posted? && post(request).statusCode == 200
    ensures r.Success? ==> r.value == post(request).taskId
  {
    match post(request)
    case PostRaised(e) => Failure("Error " + raisedPrefix + e)
    case Posted(code, detail, taskId) =>
      if code != 200 then Failure("Error processing file: " + detail.GetOr("An unknown error occurred."))
      else Success(taskId)
  }

  /** The URL request: one source per comma-separated piece, the Arabic
      flag gated by the configuration, the OCRmyPDF flag forwarded as the
      UI set it. */
  function UrlRequestFor(input: string, flags: UiFlags, arabicConfigured: bool,
                         toList: string -> seq<string>): (r: ApiRequest)
    ensures r.UrlRequest?
    ensures Join([','], r.httpSources) == input
    ensures forall u :: u in r.httpSources ==> ',' !in u
    ensures r.options.enableArabic <==> flags.enableArabic && arabicConfigured
    ensures r.options.enableOcrmypdf == flags.enableOcrmypdf
    ensures r.options.ocrLang == toList(flags.ocrLang)
  {
    JoinSplit(input, ',');
    SplitPiecesFree(input, ',');
    UrlRequest(Split(input, ','),
      ApiOptions(toList(flags.ocrLang), flags.returnAsFile, flags.enableArabic && arabicConfigured,
                 flags.enableOcrmypdf, flags.deskew, flags.clean))
  }

  /** The first URL piece is empty exactly when the text is empty or starts
      with a comma. */
  lemma FirstPieceEmpty(input: string)
    ensures Split(input, ',')[0] == "" <==> input == "" || input[0] == ','
  {
  }

  /** `process_url`: text whose first comma-separated piece is empty is
      refused before anything is posted. */
  function ProcessUrl(input: string, flags: UiFlags, arabicConfigured: bool,
                      toList: string -> seq<string>, post: ApiRequest -> PostOutcome): (r: Result<string>)
    ensures r == Failure(NoSources) <==> input == "" || input[0] == ','
    ensures input != "" && input[0] != ',' ==>
              r == Submitted(UrlRequestFor(input, flags, arabicConfigured, toList), post, "processing URL: ")
  {
    FirstPieceEmpty(input);
    var request := UrlRequestFor(input, flags, arabicConfigured, toList);
    if request.httpSources[0] == "" then Failure(NoSources)
    else Submitted(request, post, "processing URL: ")
  }

  /** The file request: one source per chosen file, in order, named by its
      path and carrying its encoded bytes; both the Arabic and the OCRmyPDF
      flag are gated by their configuration. */
  function FileRequestFor(files: seq<ChosenFile>, flags: UiFlags, arabicConfigured: bool, ocrmypdfConfigured: bool,
                          toList: string -> seq<string>, encode: OcrMyPdf.Bytes -> string): (r: ApiRequest)
    ensures r.FileRequest?
    ensures |r.fileSources| == |files|
    ensures forall i :: 0 <= i < |files| ==>
              r.fileSources[i] == Worker.FileSource(files[i].path, encode(files[i].content))
    ensures r.options.enableArabic <==> flags.enableArabic && arabicConfigured
    ensures r.options.enableOcrmypdf <==> flags.enableOcrmypdf && ocrmypdfConfigured
    ensures r.options.ocrLang == toList(flags.ocrLang)
  {
    FileRequest(
      seq(|files|, i requires 0 <= i < |files| => Worker.FileSource(files[i].path, encode(files[i].content))),
      ApiOptions(toList(flags.ocrLang), flags.returnAsFile, flags.enableArabic && arabicConfigured,
                 flags.enableOcrmypdf && ocrmypdfConfigured, flags.deskew, flags.clean))
  }

  /** `process_file`: an empty selection is refused before anything is
      encoded or posted. */
  function ProcessFile(files: seq<ChosenFile>, flags: UiFlags, arabicConfigured: bool, ocrmypdfConfigured: bool,
                       toList: string -> seq<string>, encode: OcrMyPdf.Bytes -> string,
                       post: ApiRequest -> PostOutcome): (r: Result<string>)
    ensures r == Failure(NoFiles) <==> files == []
    ensures files != [] ==>
              r == Submitted(FileRequestFor(files, flags, arabicConfigured, ocrmypdfConfigured, toList, encode),
                             post, "processing file(s): ")
  {
    if files == [] then Failure(NoFiles)
    else Submitted(FileRequestFor(files, flags, arabicConfigured, ocrmypdfConfigured, toList, encode),
                   post, "processing file(s): ")
  }

  /** The two paths treat the OCRmyPDF flag differently: with it set in
      the UI but off in the configuration, a URL request still asks for
      the preprocessing and a file request does not. */
  lemma OcrmypdfGatingDiffers(input: string, files: seq<ChosenFile>, flags: UiFlags, arabicConfigured: bool,
                              toList: string -> seq<string>, encode: OcrMyPdf.Bytes -> string)
    requires flags.enableOcrmypdf
    ensures UrlRequestFor(input, flags, arabicConfigured, toList).options.enableOcrmypdf
    ensures !FileRequestFor(files, flags, arabicConfigured, false, toList, encode).options.enableOcrmypdf
  {
  }
}
