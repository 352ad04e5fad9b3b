/** The OCR-mode decision for PDFs (docling_serve/pdf_analysis.py): which
    pages are sampled, the language-agnostic indicators of poor extracted
    text, and the table that turns tagging, text and quality into `skip`,
    `redo` or `force`. The PDF libraries are abstracted: `TagProbe` is what
    opening the file with pikepdf found, `pages` the stripped-before text of
    every page as pdfplumber extracted it (`None` when pdfplumber is missing
    or raised), and `category` gives the first letter of a character's
    Unicode general category. The float thresholds are stated in exact
    integer form. */
module PdfAnalysis {
  import opened Wrappers
  import opened Text

  datatype Quality = Unknown | Good | Poor
  datatype Mode = Force | Redo | Skip

  /** The result dictionary of `analyze_pdf`. */
  datatype Analysis = Analysis(needsOcr: bool, hasText: bool, isTagged: bool, textQuality: Quality, recommendedMode: Mode)

  /** The result before any evidence, and on an analysis error. */
  const DefaultAnalysis := Analysis(true, false, false, Unknown, Force)

  /** What the pikepdf step found: whether `/MarkInfo /Marked` is set, that
      pikepdf is not installed, or that opening the file raised. */
  datatype TagProbe = Tagged(marked: bool) | NoPikepdf | OpenFailed

  const SampleLength: nat := 2000
  const AlwaysSampledPages: nat := 5

  /** The sampling stride `max(1, int(pages_total / 10))`. */
  function Stride(pagesTotal: nat): (r: nat)
    ensures r >= 1
  {
    if pagesTotal / 10 < 1 then 1 else pagesTotal / 10
  }

  /** Whether page `pageNum` (from 0) of `pagesTotal` is sampled when it
      has text. */
  predicate Sampled(pageNum: nat, pagesTotal: nat) {
    pageNum < AlwaysSampledPages || pageNum % Stride(pagesTotal) == 0
  }

  /** `text[:2000]`. */
  function Truncate(text: string): (r: string)
    ensures |r| <= SampleLength && |r| <= |text|
    ensures r == text[..|r|]
  {
    if |text| <= SampleLength then text else text[..SampleLength]
  }

  /** The samples taken from the first pages of `texts`, in page order. */
  function Samples(texts: seq<string>, pagesTotal: nat): seq<string>
    decreases |texts|
  {
    if texts == [] then []
    else
      var k := |texts| - 1;
      var pageText := Strip(texts[k]);
      Samples(texts[..k], pagesTotal) +
        (if |pageText| > 0 && Sampled(k, pagesTotal) then [Truncate(pageText)] else [])
  }

  /** Whether page `k` of `texts` has text and is sampled. */
  predicate SampledWithText(texts: seq<string>, k: nat, pagesTotal: nat)
    requires k < |texts|
  {
    |Strip(texts[k])| > 0 && Sampled(k, pagesTotal)
  }

  /** There are no more samples than pages, and every sample is non-empty
      and at most 2000 characters long. */
  lemma {:induction false} SamplesBounded(texts: seq<string>, pagesTotal: nat)
    ensures |Samples(texts, pagesTotal)| <= |texts|
    ensures forall s :: s in Samples(texts, pagesTotal) ==> 0 < |s| <= SampleLength
    decreases |texts|
  {
    if texts != [] {
      SamplesBounded(texts[..|texts| - 1], pagesTotal);
    }
  }

  /** There is a sample exactly when some sampled page has text. */
  lemma {:induction false} SamplesExact(texts: seq<string>, pagesTotal: nat)
    ensures Samples(texts, pagesTotal) != [] <==>
              exists k :: 0 <= k < |texts| && SampledWithText(texts, k, pagesTotal)
    decreases |texts|
  {
    if texts != [] {
      var p := texts[..|texts| - 1];
      SnocParts(texts);
      SamplesExact(p, pagesTotal);
      SamplesExactSnoc(p, texts[|texts| - 1], pagesTotal);
    }
  }

  lemma SamplesExactSnoc(p: seq<string>, x: string, pagesTotal: nat)
    requires Samples(p, pagesTotal) != [] <==> exists k :: 0 <= k < |p| && SampledWithText(p, k, pagesTotal)
    ensures Samples(p + [x], pagesTotal) != [] <==>
              exists k :: 0 <= k < |p| + 1 && SampledWithText(p + [x], k, pagesTotal)
  {
    var s := p + [x];
    SamplesSnoc(p, x, pagesTotal);
    SnocFront(p, x);
    forall k | 0 <= k < |p|
      ensures SampledWithText(s, k, pagesTotal) == SampledWithText(p, k, pagesTotal)
    {
      assert s[k] == p[k];
    }
    assert SampledWithText(s, |p|, pagesTotal) == (|Strip(x)| > 0 && Sampled(|p|, pagesTotal));
  }

  /** Text on a page that is not sampled is not seen at all: whatever the
      text of such a page, the samples are the same. */
  lemma {:induction false} UnsampledPageIgnored(texts: seq<string>, k: nat, x: string, pagesTotal: nat)
    requires k < |texts| && !Sampled(k, pagesTotal)
    ensures Samples(texts[k := x], pagesTotal) == Samples(texts, pagesTotal)
    decreases |texts|
  {
    var n := |texts| - 1;
    var t := texts[k := x];
    if k == n {
      assert t[..n] == texts[..n];
    } else {
      assert t[..n] == texts[..n][k := x];
      UnsampledPageIgnored(texts[..n], k, x, pagesTotal);
    }
  }

  /** An example of `UnsampledPageIgnored`: with twenty pages the stride
      is 2, so a document whose only text is on page 5 (counting from 0)
      yields no sample. */
  lemma TextOnUnsampledPageIgnored()
    ensures var texts := seq(20, k => if k == 5 then "text" else "");
      Strip(texts[5]) == "text" && Samples(texts, 20) == []
  {
    var texts := seq(20, k => if k == 5 then "text" else "");
    assert Strip(texts[5]) == "text" by {
      assert TrimStart("text") == "text";
      assert TrimEnd("text") == "text";
    }
    forall k | 0 <= k < 20 && k != 5
      ensures Strip(texts[k]) == ""
    {
    }
    assert !Sampled(5, 20);
    SamplesExact(texts, 20);
  }

  // ---------------------------------------------------------------------
  // The per-sample indicators
  // ---------------------------------------------------------------------

  /** How many characters of `s` fall in the categories `cats`. */
  function CountCategory(s: string, category: char -> char, cats: set<char>): (n: nat)
    ensures n <= |s|
    decreases |s|
  {
    if s == [] then 0
    else CountCategory(s[..|s| - 1], category, cats) + (if category(s[|s| - 1]) in cats then 1 else 0)
  }

  predicate IsHexDigit(c: char) {
    '0' <= c <= '9' || 'a' <= c <= 'f' || 'A' <= c <= 'F'
  }

  /** `len(re.findall(r'\\[0-9a-fA-F]{2}', s))`: matches are taken left to
      right without overlapping. */
  function EscapeCount(s: string): (n: nat)
    ensures 3 * n <= |s|
    decreases |s|
  {
    if |s| < 3 then 0
    else if s[0] == '\\' && IsHexDigit(s[1]) && IsHexDigit(s[2]) then 1 + EscapeCount(s[3..])
    else EscapeCount(s[1..])
  }

  /** The number of leading blanks of `s`. */
  function LeadingBlanks(s: string): (n: nat)
    ensures n <= |s|
    ensures forall i :: 0 <= i < n ==> s[i] == ' '
    ensures n < |s| ==> s[n] != ' '
    decreases |s|
  {
    if s != [] && s[0] == ' ' then 1 + LeadingBlanks(s[1..]) else 0
  }

  /** The lengths of the matches of `re.findall(r'[ ]{1,10}', s)`: each run
      of blanks is cut greedily into pieces of at most ten. */
  function BlankMatches(s: string): (r: seq<nat>)
    ensures forall i :: 0 <= i < |r| ==> 1 <= r[i] <= 10
    decreases |s|
  {
    if s == [] then []
    else if s[0] == ' ' then
      var n := if LeadingBlanks(s) < 10 then LeadingBlanks(s) else 10;
      [n] + BlankMatches(s[n..])
    else BlankMatches(s[1..])
  }

  function Sum(xs: seq<nat>): nat
    decreases |xs|
  {
    if xs == [] then 0 else xs[0] + Sum(xs[1..])
  }

  /** The number of blanks in `s`. */
  function CountBlanks(s: string): nat
    decreases |s|
  {
    if s == [] then 0 else (if s[0] == ' ' then 1 else 0) + CountBlanks(s[1..])
  }

  lemma {:induction false} CountBlanksSplit(s: string, n: nat)
    requires n <= |s|
    ensures CountBlanks(s) == CountBlanks(s[..n]) + CountBlanks(s[n..])
    decreases n
  {
    if n > 0 {
      CountBlanksSplit(s[1..], n - 1);
      assert s[1..][..n - 1] == s[..n][1..];
      assert s[1..][n - 1..] == s[n..];
    }
  }

  lemma {:induction false} CountBlanksAllBlank(s: string)
    requires forall i :: 0 <= i < |s| ==> s[i] == ' '
    ensures CountBlanks(s) == |s|
    decreases |s|
  {
    if s != [] {
      CountBlanksAllBlank(s[1..]);
    }
  }

  /** The matches cover every blank exactly once: their lengths add up to
      the number of blanks, and there is a match whenever there is a blank. */
  lemma {:induction false} BlankMatchesCoverBlanks(s: string)
    ensures Sum(BlankMatches(s)) == CountBlanks(s)
    ensures BlankMatches(s) == [] <==> ' ' !in s
    decreases |s|
  {
    if s != [] {
      if s[0] == ' ' {
        var n := if LeadingBlanks(s) < 10 then LeadingBlanks(s) else 10;
        BlankMatchesCoverBlanks(s[n..]);
        CountBlanksSplit(s, n);
        CountBlanksAllBlank(s[..n]);
        assert s[0] in s;
      } else {
        BlankMatchesCoverBlanks(s[1..]);
        assert s == [s[0]] + s[1..];
      }
    }
  }

  /** The indicators one sample contributes. The ratio tests of the source
      (`> 0.03`, `> 0.30`, `> 2.5`) are cross-multiplied; with samples of at
      most 2000 characters no float rounding can change their outcome. */
  function SampleIndicators(sample: string, category: char -> char): nat {
    var length := if |sample| < 1 then 1 else |sample|;
    var control := CountCategory(sample, category, {'C'});
    var symbols := CountCategory(sample, category, {'P', 'S'});
    var blanks := BlankMatches(sample);
    (if 100 * control > 3 * length then 1 else 0) +
    (if 100 * symbols > 30 * length then 1 else 0) +
    (if EscapeCount(sample) > 5 then 2 else 0) +
    (if blanks != [] && 2 * Sum(blanks) > 5 * |blanks| then 1 else 0) +
    multiset(sample)['\U{FFFD}']
  }

  /** The indicators of the first samples. */
  function Indicators(samples: seq<string>, category: char -> char): nat
    decreases |samples|
  {
    if samples == [] then 0
    else Indicators(samples[..|samples| - 1], category) + SampleIndicators(samples[|samples| - 1], category)
  }

  /** `quality_score > 0.8`, with at least one sample. */
  predicate PoorQuality(indicators: nat, sampleCount: nat) {
    5 * indicators > 4 * (if sampleCount < 1 then 1 else sampleCount)
  }

  /** The final decision table, applied to what the analysis found. */
  function Decide(a: Analysis): Analysis {
    if a.isTagged && a.hasText && a.textQuality != Poor then a.(needsOcr := false, recommendedMode := Skip)
    else if a.hasText && a.textQuality == Poor then a.(recommendedMode := Force)
    else if a.hasText && !a.isTagged then a.(recommendedMode := Redo)
    else a.(recommendedMode := Force)
  }

  /** The reference definition of `analyze_pdf`. */
  function Analyze(tag: TagProbe, pages: Option<seq<string>>, category: char -> char): Analysis {
    if tag.OpenFailed? then DefaultAnalysis
    else
      var tagged := DefaultAnalysis.(isTagged := tag.Tagged? && tag.marked);
      var found :=
        match pages
        case None => tagged
        case Some(texts) =>
          var samples := Samples(texts, |texts|);
          if samples == [] then tagged
          else
            var quality := if PoorQuality(Indicators(samples, category), |samples|) then Poor else Good;
            tagged.(hasText := true, textQuality := quality);
      Decide(found)
  }

  /** The decision table, stated per outcome: `skip` exactly for tagged
      text of acceptable quality, which alone needs no OCR; `force` exactly
      when there is no text or it is poor; `redo` otherwise. */
  lemma DecisionTable(tag: TagProbe, pages: Option<seq<string>>, category: char -> char)
    ensures var a := Analyze(tag, pages, category);
      (a.recommendedMode == Skip <==> a.isTagged && a.hasText && a.textQuality != Poor) &&
      (a.recommendedMode == Force <==> !a.hasText || a.textQuality == Poor) &&
      (a.recommendedMode == Redo <==> a.hasText && !a.isTagged && a.textQuality != Poor) &&
      (a.needsOcr <==> a.recommendedMode != Skip) &&
      (a.hasText <==> a.textQuality != Unknown)
  {
  }

  /** Text is found exactly when some sampled page has text; the quality is
      poor exactly when the indicators exceed four fifths of the samples. */
  lemma HasTextIffSampled(tag: TagProbe, texts: seq<string>, category: char -> char)
    requires !tag.OpenFailed?
    ensures var a := Analyze(tag, Some(texts), category);
      (a.hasText <==> exists k :: 0 <= k < |texts| && SampledWithText(texts, k, |texts|)) &&
      (a.textQuality == Poor <==>
         a.hasText && PoorQuality(Indicators(Samples(texts, |texts|), category), |Samples(texts, |texts|)|)) &&
      a.isTagged == (tag.Tagged? && tag.marked)
  {
    SamplesExact(texts, |texts|);
  }

  lemma SamplesSnoc(p: seq<string>, x: string, pagesTotal: nat)
    ensures Samples(p + [x], pagesTotal) ==
            Samples(p, pagesTotal) + (if |Strip(x)| > 0 && Sampled(|p|, pagesTotal) then [Truncate(Strip(x))] else [])
  {
    SnocFront(p, x);
  }

  lemma IndicatorsSnoc(p: seq<string>, x: string, category: char -> char)
    ensures Indicators(p + [x], category) == Indicators(p, category) + SampleIndicators(x, category)
  {
    SnocFront(p, x);
  }

  /** `analyze_pdf`: the tag probe, the page loop collecting samples, the
      indicator loop and the decision table. */
  method AnalyzePdf(tag: TagProbe, pages: Option<seq<string>>, category: char -> char) returns (r: Analysis)
    ensures r == Analyze(tag, pages, category)
  {
    r := DefaultAnalysis;
    if tag.OpenFailed? {
      return;
    }
    if tag.Tagged? && tag.marked {
      r := r.(isTagged := true);
    }
    if pages.Some? {
      var texts := pages.value;
      var pagesTotal := |texts|;
      var textSamples: seq<string> := [];
      for pageNum := 0 to pagesTotal
        invariant textSamples == Samples(texts[..pageNum], pagesTotal)
      {
        PrefixSnoc(texts, pageNum);
        SamplesSnoc(texts[..pageNum], texts[pageNum], pagesTotal);
        var pageText := Strip(texts[pageNum]);
        if |pageText| > 0 {
          if pageNum < 5 || pageNum % Stride(pagesTotal) == 0 {
            textSamples := textSamples + [Truncate(pageText)];
          }
        }
      }
      PrefixAll(texts);
      if textSamples != [] {
        r := r.(hasText := true);
        var poorQualityIndicators := 0;
        for k := 0 to |textSamples|
          invariant poorQualityIndicators == Indicators(textSamples[..k], category)
        {
          PrefixSnoc(textSamples, k);
          IndicatorsSnoc(textSamples[..k], textSamples[k], category);
          poorQualityIndicators := poorQualityIndicators + SampleIndicators(textSamples[k], category);
        }
        PrefixAll(textSamples);
        if 5 * poorQualityIndicators > 4 * |textSamples| {
          r := r.(textQuality := Poor);
        } else {
          r := r.(textQuality := Good);
        }
      }
    }
    r := Decide(r);
  }

  // ---------------------------------------------------------------------
  // analyze_pdf_for_force_ocr / should_analyze_file_for_force_ocr
  // ---------------------------------------------------------------------

  /** `analyze_pdf_for_force_ocr` as written: the module never imports
      `tempfile`, so creating the temporary file raises `NameError` before
      the analysis runs, and the handler answers `False` for every input. */
  function AnalyzePdfForForceOcr(stream: seq<bv8>, filename: string): (r: bool)
    ensures !r
  {
    false
  }

  /** The mapping the function evidently intends, from the analysis of the
      file: force OCR when the recommended mode is `force` or the text is
      poor, which is exactly when there is no text or it is poor. */
  function ForceOcrIntended(tag: TagProbe, pages: Option<seq<string>>, category: char -> char): (r: bool)
    ensures r <==> !Analyze(tag, pages, category).hasText || Analyze(tag, pages, category).textQuality == Poor
  {
    var analysis := Analyze(tag, pages, category);
    DecisionTable(tag, pages, category);
    analysis.recommendedMode == Force || analysis.textQuality == Poor
  }

  /** A scan without extractable text needs forced OCR, yet the function as
      written never asks for it. */
  lemma ForceOcrDiscrepancy(stream: seq<bv8>, filename: string, category: char -> char)
    ensures ForceOcrIntended(Tagged(false), Some([]), category)
    ensures !AnalyzePdfForForceOcr(stream, filename)
  {
  }

  /** `should_analyze_file_for_force_ocr`: the lower-cased suffix is `.pdf`. */
  function ShouldAnalyzeFileForForceOcr(filename: string): (r: bool)
    ensures r <==> EndsWith(Lower(filename), ".pdf") && |BaseName(filename)| >= 5
  {
    PdfSuffix(filename);
    Lower(Suffix(filename)) == ".pdf"
  }
}
