/** The OCRmyPDF pre-processing middleware
    (docling_serve/ocrmypdf_middleware.py): a PDF filter in front of an
    external OCR engine that falls back to the original bytes whenever the
    engine fails, and a list-preserving map over document streams.
    The engine (`ocrmypdf.ocr` together with the temporary files it reads
    and writes) is a function parameter: `None` stands for any exception. */
module OcrMyPdf {
  import opened Wrappers
  import opened Text
  import opened OcrLanguage

  type Bytes = seq<bv8>

  /** A named in-memory document, docling's `DocumentStream`. */
  datatype DocumentStream = DocumentStream(name: string, stream: Bytes)

  /** The keyword arguments handed to the OCR engine, without the two
      temporary file paths. */
  datatype OcrArguments = OcrArguments(
    deskew: bool,
    clean: bool,
    optimize: int,
    colorConversionStrategy: string,
    oversample: int,
    removeBackground: bool,
    threshold: bool,
    forceOcr: bool,
    skipText: bool,
    redoOcr: bool,
    progressBar: bool,
    quiet: bool,
    language: Option<string>)

  /** The fixed, accuracy-oriented arguments, before the optional language. */
  function BaseArguments(deskew: bool, clean: bool): OcrArguments {
    OcrArguments(deskew, clean, 1, "RGB", 300, true, true, true, false, true, false, true, None)
  }

  /** The arguments the engine receives for the given options. */
  function ArgumentsFor(deskew: bool, clean: bool, ocrLanguages: Option<seq<string>>): OcrArguments {
    var codes := TesseractCodesOf(ocrLanguages);
    if codes != [] then BaseArguments(deskew, clean).(language := Some(FormatForOcrmypdf(codes)))
    else BaseArguments(deskew, clean)
  }

  /** `deskew` and `clean` pass through; OCR is always forced and redone,
      existing text is never skipped; a language string is present exactly
      when the conversion yields codes, and splitting it on `+` gives the
      codes back. */
  lemma ArgumentsForProperties(deskew: bool, clean: bool, ocrLanguages: Option<seq<string>>)
    ensures var a := ArgumentsFor(deskew, clean, ocrLanguages);
      a.deskew == deskew && a.clean == clean &&
      a.forceOcr && a.redoOcr && !a.skipText && a.optimize == 1 && a.oversample == 300
    ensures ArgumentsFor(deskew, clean, ocrLanguages).language.Some? <==> TesseractCodesOf(ocrLanguages) != []
    ensures (forall c :: c in TesseractCodesOf(ocrLanguages) ==> '+' !in c) &&
            ArgumentsFor(deskew, clean, ocrLanguages).language.Some? ==>
              Split(ArgumentsFor(deskew, clean, ocrLanguages).language.value, '+') == TesseractCodesOf(ocrLanguages)
  {
    var codes := TesseractCodesOf(ocrLanguages);
    if codes != [] && forall c :: c in codes ==> '+' !in c {
      FormatRoundTrip(codes);
    }
  }

  /** `OCRMyPDFMiddleware`: only the `enabled` flag, which is never changed
      after construction. */
  datatype Middleware = Middleware(enabled: bool) {

    /** `should_preprocess_file`: enabled, and the name ends in `.pdf` in
        any letter case. */
    function ShouldPreprocessFile(filename: string): (r: bool)
      ensures r <==> enabled && |filename| >= 4 && Lower(filename[|filename| - 4..]) == ".pdf"
    {
      var lowered := Lower(filename);
      assert |filename| >= 4 ==> lowered[|lowered| - 4..] == Lower(filename[|filename| - 4..]);
      enabled && EndsWith(lowered, ".pdf")
    }

    /** The bytes `preprocess_file` hands back. */
    function Preprocessed(
      stream: Bytes, filename: string, deskew: bool, clean: bool,
      ocrLanguages: Option<seq<string>>, ocr: (Bytes, OcrArguments) -> Option<Bytes>): (r: Bytes)
      ensures !ShouldPreprocessFile(filename) ==> r == stream
      ensures ocr(stream, ArgumentsFor(deskew, clean, ocrLanguages)).None? ==> r == stream
      ensures ShouldPreprocessFile(filename) && ocr(stream, ArgumentsFor(deskew, clean, ocrLanguages)).Some? ==>
                r == ocr(stream, ArgumentsFor(deskew, clean, ocrLanguages)).value
    {
      if !ShouldPreprocessFile(filename) then stream
      else ocr(stream, ArgumentsFor(deskew, clean, ocrLanguages)).GetOr(stream)
    }

    /** `preprocess_file`: builds the argument record, inserting the
        language string only when the conversion yields codes, and runs
        the engine on a PDF; anything else, or a failing engine, gives the
        input back. */
    method PreprocessFile(
      stream: Bytes, filename: string, deskew: bool, clean: bool,
      ocrLanguages: Option<seq<string>>, ocr: (Bytes, OcrArguments) -> Option<Bytes>)
      returns (r: Bytes)
      ensures r == Preprocessed(stream, filename, deskew, clean, ocrLanguages, ocr)
    {
      if !ShouldPreprocessFile(filename) {
        return stream;
      }
      var codes := ConvertToTesseractCodes(ocrLanguages);
      var args := BaseArguments(deskew, clean);
      if codes != [] {
        args := args.(language := Some(FormatForOcrmypdf(codes)));
      }
      assert args == ArgumentsFor(deskew, clean, ocrLanguages);
      var processed := ocr(stream, args);
      if processed.None? {
        return stream;
      }
      r := processed.value;
    }

    /** One stream of `preprocess_document_streams`: the same name, and
        the bytes `preprocess_file` gives for it. */
    function PreprocessedStream(
      source: DocumentStream, deskew: bool, clean: bool,
      ocrLanguages: Option<seq<string>>, ocr: (Bytes, OcrArguments) -> Option<Bytes>): (r: DocumentStream)
      ensures r.name == source.name
      ensures (!ShouldPreprocessFile(source.name) ||
               ocr(source.stream, ArgumentsFor(deskew, clean, ocrLanguages)).None?) ==> r == source
      ensures r.stream == Preprocessed(source.stream, source.name, deskew, clean, ocrLanguages, ocr)
    {
      DocumentStream(source.name, Preprocessed(source.stream, source.name, deskew, clean, ocrLanguages, ocr))
    }

    /** Every stream of `sources` preprocessed, in order. */
    function PreprocessedStreams(
      sources: seq<DocumentStream>, deskew: bool, clean: bool,
      ocrLanguages: Option<seq<string>>, ocr: (Bytes, OcrArguments) -> Option<Bytes>): (r: seq<DocumentStream>)
      ensures |r| == |sources|
    {
      if sources == [] then []
      else PreprocessedStreams(sources[..|sources| - 1], deskew, clean, ocrLanguages, ocr) +
           [PreprocessedStream(sources[|sources| - 1], deskew, clean, ocrLanguages, ocr)]
    }

    /** Stream `i` of the result is stream `i` of the input preprocessed. */
    lemma {:induction false} PreprocessedStreamsAt(
      sources: seq<DocumentStream>, deskew: bool, clean: bool,
      ocrLanguages: Option<seq<string>>, ocr: (Bytes, OcrArguments) -> Option<Bytes>, i: nat)
      requires i < |sources|
      ensures PreprocessedStreams(sources, deskew, clean, ocrLanguages, ocr)[i] ==
              PreprocessedStream(sources[i], deskew, clean, ocrLanguages, ocr)
      decreases |sources|
    {
      if i < |sources| - 1 {
        PreprocessedStreamsAt(sources[..|sources| - 1], deskew, clean, ocrLanguages, ocr, i);
      }
    }

    /** `preprocess_document_streams`. */
    method PreprocessDocumentStreams(
      sources: seq<DocumentStream>, enablePreprocessing: bool, deskew: bool, clean: bool,
      ocrLanguages: Option<seq<string>>, ocr: (Bytes, OcrArguments) -> Option<Bytes>)
      returns (r: seq<DocumentStream>)
      ensures !enablePreprocessing || !enabled ==> r == sources
      ensures |r| == |sources|
      ensures forall i :: 0 <= i < |r| ==> r[i].name == sources[i].name
      ensures forall i :: 0 <= i < |r| ==>
                !ShouldPreprocessFile(sources[i].name) ||
                ocr(sources[i].stream, ArgumentsFor(deskew, clean, ocrLanguages)).None? ==>
                  r[i] == sources[i]
      ensures enablePreprocessing && enabled ==>
                forall i :: 0 <= i < |r| ==>
                  r[i].stream == Preprocessed(sources[i].stream, sources[i].name, deskew, clean, ocrLanguages, ocr)
    {
      if !enablePreprocessing || !enabled {
        return sources;
      }
      var processed: seq<DocumentStream> := [];
      for i := 0 to |sources|
        invariant |processed| == i
        invariant processed == PreprocessedStreams(sources[..i], deskew, clean, ocrLanguages, ocr)
      {
        var stream := PreprocessFile(sources[i].stream, sources[i].name, deskew, clean, ocrLanguages, ocr);
        processed := processed + [DocumentStream(sources[i].name, stream)];
        assert sources[..i + 1][..i] == sources[..i];
      }
      assert sources[..|sources|] == sources;
      forall i | 0 <= i < |sources|
        ensures processed[i] == PreprocessedStream(sources[i], deskew, clean, ocrLanguages, ocr)
      {
        PreprocessedStreamsAt(sources, deskew, clean, ocrLanguages, ocr, i);
      }
      r := processed;
    }
  }
}
