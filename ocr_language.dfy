/** Translation of OCR language codes (EasyOCR / ISO 639-1 codes and English
    language names) into Tesseract codes, and the validation helpers around
    the three code tables (docling_serve/ocr_language_utils.py). */
module OcrLanguage {
  import opened Wrappers
  import opened Text

  /** Common and EasyOCR codes, and English names, with their Tesseract code. */
  const LanguageMapping: map<string, string> := map[
    "en" := "eng", "ar" := "ara", "fr" := "fra", "de" := "deu", "es" := "spa", "it" := "ita",
    "pt" := "por", "ru" := "rus", "zh" := "chi_sim", "zh-cn" := "chi_sim",
    "zh-tw" := "chi_tra", "ja" := "jpn", "ko" := "kor", "hi" := "hin", "th" := "tha",
    "vi" := "vie", "tr" := "tur", "pl" := "pol", "nl" := "nld", "sv" := "swe", "da" := "dan",
    "no" := "nor", "fi" := "fin", "cs" := "ces", "hu" := "hun", "ro" := "ron", "bg" := "bul",
    "hr" := "hrv", "sk" := "slk", "sl" := "slv", "et" := "est", "lv" := "lav", "lt" := "lit",
    "uk" := "ukr", "el" := "ell", "he" := "heb", "fa" := "fas", "ur" := "urd", "bn" := "ben",
    "ta" := "tam", "te" := "tel", "ml" := "mal", "kn" := "kan", "gu" := "guj", "pa" := "pan",
    "or" := "ori", "as" := "asm", "ne" := "nep", "si" := "sin", "my" := "mya", "km" := "khm",
    "lo" := "lao", "ka" := "kat", "am" := "amh", "is" := "isl", "mt" := "mlt", "cy" := "cym",
    "ga" := "gle", "gd" := "gla", "br" := "bre", "co" := "cos", "eu" := "eus", "ca" := "cat",
    "gl" := "glg", "oc" := "oci", "la" := "lat", "eo" := "epo", "vo" := "vol", "io" := "ido",
    "ia" := "ina", "ie" := "ile", "jbo" := "jbo", "tlh" := "tlh", "chinese" := "chi_sim",
    "chinese-simplified" := "chi_sim", "chinese-traditional" := "chi_tra", "english" := "eng",
    "arabic" := "ara", "french" := "fra", "german" := "deu", "spanish" := "spa",
    "italian" := "ita", "portuguese" := "por", "russian" := "rus", "japanese" := "jpn",
    "korean" := "kor", "hindi" := "hin"
  ]

  /** The Tesseract language codes accepted as they are, in alphabetical
      parts of at most twelve codes, so that the verifier can rule a string
      out of each part on its own. */
  const TesseractPart0: set<string> := {
    "afr", "amh", "ara", "asm", "aze", "aze_cyrl", "bel", "ben",
    "bod", "bos", "bre", "bul"
  }
  const TesseractPart1: set<string> := {
    "cat", "ceb", "ces", "chi_sim", "chi_tra", "chr", "cym", "dan",
    "deu", "div", "dzo", "ell"
  }
  const TesseractPart2: set<string> := {
    "eng", "enm", "epo", "est", "eus", "fao", "fas", "fin",
    "fra", "frk", "frm", "fry"
  }
  const TesseractPart3: set<string> := {
    "gla", "gle", "glg", "grc", "guj", "hat", "heb", "hin",
    "hrv", "hun", "hye", "iku"
  }
  const TesseractPart4: set<string> := {
    "ind", "isl", "ita", "ita_old", "jav", "jpn", "kan", "kat",
    "kat_old", "kaz", "khm", "kir"
  }
  const TesseractPart5: set<string> := {
    "kor", "kur", "lao", "lat", "lav", "lit", "ltz", "mal",
    "mar", "mkd", "mlt", "mon"
  }
  const TesseractPart6: set<string> := {
    "mri", "msa", "mya", "nep", "nld", "nor", "oci", "ori",
    "pan", "pol", "por", "pus"
  }
  const TesseractPart7: set<string> := {
    "que", "ron", "rus", "san", "sin", "slk", "slv", "snd",
    "spa", "spa_old", "sqi", "srp"
  }
  const TesseractPart8: set<string> := {
    "srp_latn", "sun", "swa", "swe", "syr", "tam", "tat", "tel",
    "tgk", "tgl", "tha", "tir"
  }
  const TesseractPart9: set<string> := {
    "ton", "tur", "uig", "ukr", "urd", "uzb", "uzb_cyrl", "vie",
    "yid", "yor"
  }

  const TesseractCodes: set<string> :=
    TesseractPart0 + TesseractPart1 + TesseractPart2 + TesseractPart3 + TesseractPart4 +
    TesseractPart5 + TesseractPart6 + TesseractPart7 + TesseractPart8 + TesseractPart9

  /** The EasyOCR language codes. */
  const EasyOcrCodes: set<string> := {
    "en", "ch_sim", "ch_tra", "th", "hi", "ja", "ko", "vi", "ar", "bg", "hr", "cs", "da", "nl",
    "et", "fi", "fr", "de", "el", "hu", "is", "it", "lv", "lt", "mt", "no", "pl", "pt", "ro",
    "sk", "sl", "es", "sv", "tr", "uk", "cy", "ga", "gd", "la", "ml", "ne", "sa", "si", "ta",
    "te", "kn", "gu", "pa", "bn", "as", "or", "ur", "fa", "he", "my", "lo", "km", "ka", "am",
    "ti", "mn", "bo", "dz", "fo", "gl", "eu", "ca", "oc", "br", "co", "io", "ia", "ie", "eo",
    "vo", "jbo", "tlh"
  }

  /** How each entry is normalised before lookup: `lang.lower().strip()`. */
  function Normalize(lang: string): string {
    Strip(Lower(lang))
  }

  predicate NoDuplicates(s: seq<string>) {
    forall i, j :: 0 <= i < j < |s| ==> s[i] != s[j]
  }

  // ---------------------------------------------------------------------
  // convert_to_tesseract_codes
  // ---------------------------------------------------------------------

  /** What one entry contributes: nothing when it normalises to the empty
      string, itself when it already is a Tesseract code, its mapped code
      when it is a key of the mapping, else nothing. */
  function ConvertOne(lang: string): (r: Option<string>)
    ensures Normalize(lang) != "" && Normalize(lang) in TesseractCodes ==> r == Some(Normalize(lang))
    ensures Normalize(lang) != "" && Normalize(lang) !in TesseractCodes && Normalize(lang) in LanguageMapping
            ==> r == Some(LanguageMapping[Normalize(lang)])
    ensures r.None? <==>
              Normalize(lang) == "" || (Normalize(lang) !in TesseractCodes && Normalize(lang) !in LanguageMapping)
    ensures r.Some? ==> r.value in TesseractCodes || r.value in LanguageMapping.Values
  {
    var l := Normalize(lang);
    if l == "" then None
    else if l in TesseractCodes then Some(l)
    else if l in LanguageMapping then Some(LanguageMapping[l])
    else None
  }

  function OptionToSeq(o: Option<string>): seq<string> {
    match o
    case Some(v) => [v]
    case None => []
  }

  /** The codes collected by the first loop, in input order, duplicates kept. */
  function Converted(langs: seq<string>): seq<string>
    decreases |langs|
  {
    if langs == [] then []
    else Converted(langs[..|langs| - 1]) + OptionToSeq(ConvertOne(langs[|langs| - 1]))
  }

  /** The second loop: keep the first occurrence of every code. */
  function Dedup(s: seq<string>): seq<string>
    decreases |s|
  {
    if s == [] then []
    else
      var d := Dedup(s[..|s| - 1]);
      if s[|s| - 1] in d then d else d + [s[|s| - 1]]
  }

  /** The result `convert_to_tesseract_codes` promises. */
  function TesseractCodesOf(ocrLanguages: Option<seq<string>>): seq<string> {
    match ocrLanguages
    case None => []
    case Some(ls) => Dedup(Converted(ls))
  }

  /** Every code the first loop collects is a Tesseract code or a value of
      the mapping. */
  lemma {:induction false} ConvertedCodesKnown(langs: seq<string>)
    ensures forall c :: c in Converted(langs) ==> c in TesseractCodes || c in LanguageMapping.Values
    decreases |langs|
  {
    if langs != [] {
      ConvertedCodesKnown(langs[..|langs| - 1]);
    }
  }

  /** Converting one more entry appends at most one code. */
  lemma {:induction false} ConvertedLength(langs: seq<string>)
    ensures |Converted(langs)| <= |langs|
    decreases |langs|
  {
    if langs != [] {
      ConvertedLength(langs[..|langs| - 1]);
    }
  }

  /** The de-duplicated list has no duplicates and the same elements. */
  lemma {:induction false} DedupProperties(s: seq<string>)
    ensures NoDuplicates(Dedup(s))
    ensures forall x :: x in Dedup(s) <==> x in s
    decreases |s|
  {
    if s != [] {
      DedupProperties(s[..|s| - 1]);
      assert s == s[..|s| - 1] + [s[|s| - 1]];
    }
  }

  /** Index of the first occurrence of `x` in `s`. */
  function FirstIndex(s: seq<string>, x: string): (i: nat)
    requires x in s
    ensures i < |s| && s[i] == x
    ensures forall j :: 0 <= j < i ==> s[j] != x
    decreases |s|
  {
    if s[0] == x then 0 else 1 + FirstIndex(s[1..], x)
  }

  lemma FirstIndexPrefix(s: seq<string>, t: seq<string>, x: string)
    requires x in s
    ensures x in s + t && FirstIndex(s + t, x) == FirstIndex(s, x)
  {
    var i := FirstIndex(s, x);
    var k := FirstIndex(s + t, x);
    assert (s + t)[i] == x;
  }

  /** De-duplication keeps first-occurrence order: the codes come out in the
      order in which each first appears in the input. */
  lemma {:induction false} DedupFirstOccurrenceOrder(s: seq<string>)
    ensures forall x :: x in Dedup(s) ==> x in s
    ensures forall i, j :: 0 <= i < j < |Dedup(s)| ==>
              Dedup(s)[i] in s && Dedup(s)[j] in s &&
              FirstIndex(s, Dedup(s)[i]) < FirstIndex(s, Dedup(s)[j])
    decreases |s|
  {
    if s != [] {
      var p := s[..|s| - 1];
      var x := s[|s| - 1];
      DedupFirstOccurrenceOrder(p);
      DedupProperties(p);
      assert s == p + [x];
      var d := Dedup(p);
      forall y | y in d
        ensures y in s && FirstIndex(s, y) == FirstIndex(p, y)
      {
        FirstIndexPrefix(p, [x], y);
      }
      if x !in d {
        assert x !in p;
        assert FirstIndex(s, x) == |p|;
        forall i, j | 0 <= i < j < |d + [x]|
          ensures FirstIndex(s, (d + [x])[i]) < FirstIndex(s, (d + [x])[j])
        {
          if j < |d| {
            assert (d + [x])[i] == d[i] && (d + [x])[j] == d[j];
          } else {
            assert (d + [x])[i] == d[i];
          }
        }
      }
    }
  }

  /** `convert_to_tesseract_codes`: normalise each entry, keep Tesseract
      codes, map known codes and names, drop the rest, then remove
      duplicates keeping the first occurrence. */
  method ConvertToTesseractCodes(ocrLanguages: Option<seq<string>>) returns (r: seq<string>)
    ensures r == TesseractCodesOf(ocrLanguages)
    ensures ocrLanguages == None || ocrLanguages == Some([]) ==> r == []
    ensures NoDuplicates(r)
    ensures forall c :: c in r ==> c in TesseractCodes || c in LanguageMapping.Values
  {
    if ocrLanguages == None || ocrLanguages.value == [] {
      return [];
    }
    var langs := ocrLanguages.value;
    var converted: seq<string> := [];
    for i := 0 to |langs|
      invariant converted == Converted(langs[..i])
    {
      PrefixSnoc(langs, i);
      ConvertedSnoc(langs[..i], langs[i]);
      var code := ConvertEntry(langs[i]);
      converted := converted + code;
    }
    PrefixAll(langs);
    var unique: seq<string> := [];
    for k := 0 to |converted|
      invariant unique == Dedup(converted[..k])
    {
      PrefixSnoc(converted, k);
      DedupSnoc(converted[..k], converted[k]);
      if converted[k] !in unique {
        unique := unique + [converted[k]];
      }
    }
    PrefixAll(converted);
    DedupProperties(converted);
    ConvertedCodesKnown(langs);
    r := unique;
  }

  /** One pass of the first loop: the entry normalised, then kept, mapped
      or skipped. */
  method ConvertEntry(entry: string) returns (code: seq<string>)
    ensures code == OptionToSeq(ConvertOne(entry))
  {
    var lang := Normalize(entry);
    if lang == "" {
      return [];
    }
    if lang in TesseractCodes {
      return [lang];
    }
    if lang in LanguageMapping {
      return [LanguageMapping[lang]];
    }
    return [];
  }

  lemma ConvertedSnoc(p: seq<string>, x: string)
    ensures Converted(p + [x]) == Converted(p) + OptionToSeq(ConvertOne(x))
  {
    SnocFront(p, x);
  }

  lemma DedupSnoc(p: seq<string>, x: string)
    ensures Dedup(p + [x]) == if x in Dedup(p) then Dedup(p) else Dedup(p) + [x]
  {
    SnocFront(p, x);
  }

  /** Strings that are not Tesseract codes: the empty string, a two-letter
      code and the seven values of the mapping outside the Tesseract table. */
  const NonTesseractSamples: set<string> := {"", "co", "cos", "vol", "ido", "ina", "ile", "jbo", "tlh"}

  lemma OutsidePart0(c: string)
    requires c in NonTesseractSamples
    ensures c !in TesseractPart0
  {
  }

  lemma OutsidePart1(c: string)
    requires c in NonTesseractSamples
    ensures c !in TesseractPart1
  {
  }

  lemma OutsidePart2(c: string)
    requires c in NonTesseractSamples
    ensures c !in TesseractPart2
  {
  }

  lemma OutsidePart3(c: string)
    requires c in NonTesseractSamples
    ensures c !in TesseractPart3
  {
  }

  lemma OutsidePart4(c: string)
    requires c in NonTesseractSamples
    ensures c !in TesseractPart4
  {
  }

  lemma OutsidePart5(c: string)
    requires c in NonTesseractSamples
    ensures c !in TesseractPart5
  {
  }

  lemma OutsidePart6(c: string)
    requires c in NonTesseractSamples
    ensures c !in TesseractPart6
  {
  }

  lemma OutsidePart7(c: string)
    requires c in NonTesseractSamples
    ensures c !in TesseractPart7
  {
  }

  lemma OutsidePart8(c: string)
    requires c in NonTesseractSamples
    ensures c !in TesseractPart8
  {
  }

  lemma OutsidePart9(c: string)
    requires c in NonTesseractSamples
    ensures c !in TesseractPart9
  {
  }

  /** None of `NonTesseractSamples` is a Tesseract code. */
  lemma OutsideTesseract(c: string)
    requires c in NonTesseractSamples
    ensures c !in TesseractCodes
  {
    OutsidePart0(c); OutsidePart1(c); OutsidePart2(c); OutsidePart3(c); OutsidePart4(c);
    OutsidePart5(c); OutsidePart6(c); OutsidePart7(c); OutsidePart8(c); OutsidePart9(c);
  }

  /** An entry without capitals and without surrounding white space is
      its own normal form. */
  lemma NormalizeKeeps(s: string)
    requires forall i :: 0 <= i < |s| ==> !('A' <= s[i] <= 'Z')
    requires s == [] || (!IsSpace(s[0]) && !IsSpace(s[|s| - 1]))
    ensures Normalize(s) == s
  {
    assert Lower(s) == s;
  }

  /** Not every code the conversion produces is a Tesseract code: seven
      mapped values lie outside the Tesseract table, so a later OCR run can
      be asked for a language it does not know. */
  lemma MappedCodesOutsideTesseract()
    ensures ConvertOne("co") == Some("cos") && "cos" !in TesseractCodes
    ensures ConvertOne("jbo") == Some("jbo") && "jbo" !in TesseractCodes
    ensures ConvertOne("Tlh ") == Some("tlh") && "tlh" !in TesseractCodes
  {
    ConvertsCorsican();
    ConvertsLojban();
    ConvertsKlingon();
  }

  lemma ConvertsCorsican()
    ensures ConvertOne("co") == Some("cos") && "cos" !in TesseractCodes
  {
    NormalizeKeeps("co");
    SampleMappings();
    OutsideTesseract("co");
    OutsideTesseract("cos");
  }

  lemma ConvertsLojban()
    ensures ConvertOne("jbo") == Some("jbo") && "jbo" !in TesseractCodes
  {
    NormalizeKeeps("jbo");
    SampleMappings();
    OutsideTesseract("jbo");
  }

  /** Case and surrounding blanks do not matter. */
  lemma ConvertsKlingon()
    ensures ConvertOne("Tlh ") == Some("tlh") && "tlh" !in TesseractCodes
  {
    KlingonNormalizes();
    SampleMappings();
    OutsideTesseract("tlh");
  }

  lemma KlingonNormalizes()
    ensures Normalize("Tlh ") == "tlh"
  {
    assert Lower("Tlh ") == "tlh ";
    assert TrimEnd("tlh ") == TrimEnd("tlh");
    NormalizeKeeps("tlh");
  }

  /** The entries of the mapping the three examples above go through. */
  lemma SampleMappings()
    ensures "co" in LanguageMapping && LanguageMapping["co"] == "cos"
    ensures "jbo" in LanguageMapping && LanguageMapping["jbo"] == "jbo"
    ensures "tlh" in LanguageMapping && LanguageMapping["tlh"] == "tlh"
  {
  }

  // ---------------------------------------------------------------------
  // format_for_ocrmypdf
  // ---------------------------------------------------------------------

  /** `format_for_ocrmypdf`: the codes joined with `+`, or `""` for none. */
  function FormatForOcrmypdf(codes: seq<string>): (r: string)
    ensures codes == [] ==> r == ""
    ensures |codes| == 1 ==> r == codes[0]
  {
    if codes == [] then "" else Join("+", codes)
  }

  /** Splitting the formatted string on `+` recovers the codes, provided no
      code holds a `+`. */
  lemma FormatRoundTrip(codes: seq<string>)
    requires codes != []
    requires forall c :: c in codes ==> '+' !in c
    ensures Split(FormatForOcrmypdf(codes), '+') == codes
  {
    SplitJoin(codes, '+');
  }

  // ---------------------------------------------------------------------
  // validate_language_codes / get_supported_languages
  // ---------------------------------------------------------------------

  /** The table a target format selects; an unknown format falls back to
      the Tesseract table. */
  function TargetCodes(targetFormat: string): set<string> {
    if Lower(targetFormat) == "tesseract" then TesseractCodes
    else if Lower(targetFormat) == "easyocr" then EasyOcrCodes
    else TesseractCodes
  }

  /** The normalised inputs that belong to `valid`, in input order,
      duplicates kept. */
  function ValidOnly(langs: seq<string>, valid: set<string>): seq<string>
    decreases |langs|
  {
    if langs == [] then []
    else
      var l := Normalize(langs[|langs| - 1]);
      ValidOnly(langs[..|langs| - 1], valid) + (if l in valid then [l] else [])
  }

  /** Everything kept is valid, and nothing is added. */
  lemma {:induction false} ValidOnlyProperties(langs: seq<string>, valid: set<string>)
    ensures forall c :: c in ValidOnly(langs, valid) ==> c in valid
    ensures |ValidOnly(langs, valid)| <= |langs|
    decreases |langs|
  {
    if langs != [] {
      ValidOnlyProperties(langs[..|langs| - 1], valid);
    }
  }

  /** When every normalised input is valid, all of them are returned, in
      order and with their duplicates. */
  lemma {:induction false} ValidOnlyKeepsAllValid(langs: seq<string>, valid: set<string>)
    requires forall i :: 0 <= i < |langs| ==> Normalize(langs[i]) in valid
    ensures |ValidOnly(langs, valid)| == |langs|
    ensures forall i :: 0 <= i < |langs| ==> ValidOnly(langs, valid)[i] == Normalize(langs[i])
    decreases |langs|
  {
    if langs != [] {
      var p := langs[..|langs| - 1];
      var x := langs[|langs| - 1];
      SnocParts(langs);
      ValidOnlyKeepsAllValid(p, valid);
      KeepsAllValidSnoc(p, x, valid);
    }
  }

  /** One more valid entry is kept, after the others. */
  lemma KeepsAllValidSnoc(p: seq<string>, x: string, valid: set<string>)
    requires Normalize(x) in valid
    requires |ValidOnly(p, valid)| == |p|
    requires forall i :: 0 <= i < |p| ==> ValidOnly(p, valid)[i] == Normalize(p[i])
    ensures |ValidOnly(p + [x], valid)| == |p| + 1
    ensures forall i :: 0 <= i < |p| + 1 ==> ValidOnly(p + [x], valid)[i] == Normalize((p + [x])[i])
  {
    SnocFront(p, x);
    assert ValidOnly(p + [x], valid) == ValidOnly(p, valid) + [Normalize(x)];
  }

  /** The normalised inputs, in input order. */
  function Normalized(langs: seq<string>): (r: seq<string>)
    ensures |r| == |langs|
  {
    seq(|langs|, i requires 0 <= i < |langs| => Normalize(langs[i]))
  }

  /** A reference filter, defined from the front: the entries of `xs` that
      are in `valid`, in their order, with their duplicates. */
  function KeepValid(xs: seq<string>, valid: set<string>): seq<string>
    decreases |xs|
  {
    if xs == [] then []
    else (if xs[0] in valid then [xs[0]] else []) + KeepValid(xs[1..], valid)
  }

  lemma {:induction false} KeepValidSnoc(xs: seq<string>, x: string, valid: set<string>)
    ensures KeepValid(xs + [x], valid) == KeepValid(xs, valid) + (if x in valid then [x] else [])
    decreases |xs|
  {
    if xs == [] {
      assert [x][1..] == [];
    } else {
      assert (xs + [x])[0] == xs[0];
      assert (xs + [x])[1..] == xs[1..] + [x];
      KeepValidSnoc(xs[1..], x, valid);
      AppendAssoc(if xs[0] in valid then [xs[0]] else [], KeepValid(xs[1..], valid), if x in valid then [x] else []);
    }
  }

  /** One more input adds its normalised code when it is valid. */
  lemma ValidOnlySnoc(p: seq<string>, x: string, valid: set<string>)
    ensures ValidOnly(p + [x], valid) == ValidOnly(p, valid) + (if Normalize(x) in valid then [Normalize(x)] else [])
    ensures Normalized(p + [x]) == Normalized(p) + [Normalize(x)]
  {
    SnocFront(p, x);
  }

  /** Validation is the filter of the normalised inputs by the table: the
      valid ones are all kept, in input order, with their duplicates, and
      nothing else is added. */
  lemma {:induction false} ValidOnlyIsFilter(langs: seq<string>, valid: set<string>)
    ensures ValidOnly(langs, valid) == KeepValid(Normalized(langs), valid)
    decreases |langs|
  {
    if langs != [] {
      var p := langs[..|langs| - 1];
      var x := langs[|langs| - 1];
      SnocParts(langs);
      ValidOnlyIsFilter(p, valid);
      ValidOnlySnoc(p, x, valid);
      KeepValidSnoc(Normalized(p), Normalize(x), valid);
    }
  }

  /** A code is returned exactly when it is in the table and some input
      normalises to it. */
  lemma {:induction false} ValidOnlyMembers(langs: seq<string>, valid: set<string>)
    ensures forall c :: c in ValidOnly(langs, valid) <==>
              c in valid && exists i :: 0 <= i < |langs| && Normalize(langs[i]) == c
    decreases |langs|
  {
    if langs != [] {
      var p := langs[..|langs| - 1];
      var x := langs[|langs| - 1];
      SnocParts(langs);
      ValidOnlyMembers(p, valid);
      ValidOnlySnoc(p, x, valid);
      MembersSnoc(p, x, valid);
    }
  }

  /** The step of `ValidOnlyMembers`: the property for `p` gives it for
      `p + [x]`. */
  lemma MembersSnoc(p: seq<string>, x: string, valid: set<string>)
    requires forall c :: c in ValidOnly(p, valid) <==>
               c in valid && exists i :: 0 <= i < |p| && Normalize(p[i]) == c
    requires ValidOnly(p + [x], valid) == ValidOnly(p, valid) + (if Normalize(x) in valid then [Normalize(x)] else [])
    ensures forall c :: c in ValidOnly(p + [x], valid) <==>
              c in valid && exists i :: 0 <= i < |p + [x]| && Normalize((p + [x])[i]) == c
  {
    var q := p + [x];
    SnocFront(p, x);
    forall c | c in valid && exists i :: 0 <= i < |q| && Normalize(q[i]) == c
      ensures c in ValidOnly(q, valid)
    {
      var i :| 0 <= i < |q| && Normalize(q[i]) == c;
      if i < |p| {
        assert q[i] == p[i];
      }
    }
    forall c | c in ValidOnly(q, valid)
      ensures exists i :: 0 <= i < |q| && Normalize(q[i]) == c
    {
      if c in ValidOnly(p, valid) {
        var i :| 0 <= i < |p| && Normalize(p[i]) == c;
        assert q[i] == p[i];
      } else {
        assert Normalize(q[|p|]) == c;
      }
    }
  }

  /** `validate_language_codes`. */
  method ValidateLanguageCodes(languages: seq<string>, targetFormat: string) returns (r: seq<string>)
    ensures r == ValidOnly(languages, TargetCodes(targetFormat))
    ensures forall c :: c in r ==> c in TargetCodes(targetFormat)
    ensures |r| <= |languages|
  {
    if languages == [] {
      return [];
    }
    var validCodes: set<string>;
    if Lower(targetFormat) == "tesseract" {
      validCodes := TesseractCodes;
    } else if Lower(targetFormat) == "easyocr" {
      validCodes := EasyOcrCodes;
    } else {
      validCodes := TesseractCodes;
    }
    var valid: seq<string> := [];
    for i := 0 to |languages|
      invariant valid == ValidOnly(languages[..i], validCodes)
    {
      assert languages[..i + 1][..i] == languages[..i];
      var lang := Normalize(languages[i]);
      if lang in validCodes {
        valid := valid + [lang];
      }
    }
    assert languages[..|languages|] == languages;
    ValidOnlyProperties(languages, validCodes);
    r := valid;
  }

  /** `get_supported_languages`: case-insensitive on the engine name. */
  function GetSupportedLanguages(engine: string): (r: set<string>)
    ensures Lower(engine) == "tesseract" ==> r == TesseractCodes
    ensures Lower(engine) == "easyocr" ==> r == EasyOcrCodes
    ensures Lower(engine) != "tesseract" && Lower(engine) != "easyocr" ==> r == {}
  {
    if Lower(engine) == "tesseract" then TesseractCodes
    else if Lower(engine) == "easyocr" then EasyOcrCodes
    else {}
  }

  /** Validation and the supported-language query agree on the two known
      engines; for any other name validation still checks against the
      Tesseract table while the query reports nothing. */
  lemma ValidationMatchesSupported(engine: string)
    ensures Lower(engine) in {"tesseract", "easyocr"} ==> TargetCodes(engine) == GetSupportedLanguages(engine)
    ensures Lower(engine) !in {"tesseract", "easyocr"} ==> TargetCodes(engine) == TesseractCodes && GetSupportedLanguages(engine) == {}
  {
  }
}
