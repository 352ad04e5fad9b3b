/** The Arabic OCR-correction middleware
    (docling_serve/arabic_correction_middleware.py): a guarded, copy-on-write
    rewrite of the `text_content` and `md_content` fields of conversion
    results. Language detection and the chat model are function parameters;
    `None` stands for a call that raised. */
module ArabicCorrection {
  import opened Wrappers
  import opened Text

  /** The JSON-like values a conversion result holds. */
  datatype Value =
    | Str(s: string)
    | Null
    | Scalar(truthy: bool)
    | List(items: seq<Value>)
    | Obj(fields: map<string, Value>)

  /** Python truthiness. */
  predicate Truthy(v: Value) {
    match v
    case Str(s) => s != []
    case Null => false
    case Scalar(t) => t
    case List(items) => items != []
    case Obj(fields) => fields != map[]
  }

  /** The foreign calls: language detection and the chat model (model name,
      user text). */
  datatype Services = Services(
    detect: string -> Option<string>,
    chat: (string, string) -> Option<string>)

  /** Detection looks at no more than this many words. */
  const DetectionWords: nat := 100

  /** Shorter stripped texts are never sent to detection. */
  const MinimumLength: nat := 10

  /** The first `DetectionWords` white-space separated words, joined by
      single blanks. */
  function DetectionSample(text: string): (r: string)
    ensures Words(text) == [] ==> r == ""
    ensures |Words(text)| <= DetectionWords ==> r == Join(" ", Words(text))
  {
    var ws := Words(text);
    PrefixAll(ws);
    Join(" ", ws[..if |ws| < DetectionWords then |ws| else DetectionWords])
  }

  /** The two fields the middleware may rewrite. */
  const CorrectedKeys: set<string> := {"text_content", "md_content"}

  /** `ArabicCorrectionMiddleware`. The Ollama client exists exactly when
      the middleware was created enabled (see `Create`); the host only
      configures that client. */
  datatype Middleware = Middleware(enabled: bool, hasClient: bool, modelName: string) {

    /** `should_correct_text` on any value: `False` when disabled, falsy or
        short; an `AttributeError` for a truthy non-string; otherwise whether
        detection reports Arabic, a detection error counting as no. */
    function ShouldCorrectText(text: Value, svc: Services): (r: Result<bool>)
      ensures r.Failure? <==> enabled && Truthy(text) && !text.Str?
      ensures r == Success(true) ==> enabled && text.Str? && |Strip(text.s)| >= MinimumLength
      ensures r == Success(true) ==> svc.detect(DetectionSample(text.s)) == Some("ar")
      ensures enabled && text.Str? && |Strip(text.s)| >= MinimumLength ==>
                r == Success(svc.detect(DetectionSample(text.s)) == Some("ar"))
    {
      if !enabled || !Truthy(text) then Success(false)
      else match text
        case Str(s) =>
          if |Strip(s)| < MinimumLength then Success(false)
          else Success(svc.detect(DetectionSample(s)) == Some("ar"))
        case _ => Failure("AttributeError")
    }

    /** `correct_arabic_text`: the stripped reply of the chat model, or the
        text itself when disabled, without a client, or on an error. */
    function CorrectArabicText(text: string, svc: Services): (r: string)
      ensures !enabled || !hasClient || svc.chat(modelName, text).None? ==> r == text
      ensures r != text ==> svc.chat(modelName, text).Some?
      ensures r != text ==> r == [] || (!IsSpace(r[0]) && !IsSpace(r[|r| - 1]))
    {
      if !enabled || !hasClient then text
      else match svc.chat(modelName, text)
        case Some(reply) => Strip(reply)
        case None => text
    }

    /** What one field of a document becomes, when it does not raise. */
    function CorrectedValue(v: Value, svc: Services): Value {
      if ShouldCorrectText(v, svc) == Success(true) then Str(CorrectArabicText(v.s, svc)) else v
    }

    /** Whether looking at field `k` of a document raises. */
    predicate FieldFails(fields: map<string, Value>, k: string, svc: Services) {
      k in fields && Truthy(fields[k]) && ShouldCorrectText(fields[k], svc).Failure?
    }

    /** The reference definition of `_process_document`, as one map
        comprehension over the copied document. */
    function ProcessedDocument(doc: Value, svc: Services): Result<Value> {
      match doc
      case Obj(fields) =>
        if FieldFails(fields, "text_content", svc) || FieldFails(fields, "md_content", svc) then
          Failure("AttributeError")
        else
          Success(Obj(map k | k in fields :: if k in CorrectedKeys then CorrectedValue(fields[k], svc) else fields[k]))
      case List(items) =>
        // A list can be copied, but indexing it with a key raises.
        if Str("text_content") in items || Str("md_content") in items then Failure("TypeError")
        else Success(doc)
      case _ => Failure("AttributeError")
    }

    /** `_process_document`: copy the document, then overwrite
        `text_content` and then `md_content` in the copy. */
    method ProcessDocument(doc: Value, svc: Services) returns (r: Result<Value>)
      ensures r == ProcessedDocument(doc, svc)
    {
      match doc {
        case Obj(fields) =>
          var afterText := CorrectField(fields, fields, "text_content", svc);
          if afterText.Failure? {
            return Failure(afterText.error);
          }
          var afterMd := CorrectField(fields, afterText.value, "md_content", svc);
          if afterMd.Failure? {
            return Failure(afterMd.error);
          }
          CorrectedFields(fields, svc);
          r := Success(Obj(afterMd.value));
        case List(items) =>
          if Str("text_content") in items || Str("md_content") in items {
            r := Failure("TypeError");
          } else {
            r := Success(doc);
          }
        case _ =>
          r := Failure("AttributeError");
      }
    }

    /** One `if doc.get(key) and self.should_correct_text(...)` step on the
        copy `corrected` of `fields`. */
    method CorrectField(fields: map<string, Value>, corrected: map<string, Value>, key: string, svc: Services)
      returns (r: Result<map<string, Value>>)
      ensures r.Failure? <==> FieldFails(fields, key, svc)
      ensures r.Failure? ==> r.error == "AttributeError"
      ensures r.Success? ==> r.value == WithCorrected(fields, corrected, key, svc)
    {
      r := Success(corrected);
      if key in fields && Truthy(fields[key]) {
        var content := fields[key];
        var should := ShouldCorrectText(content, svc);
        if should.Failure? {
          return Failure(should.error);
        }
        if should.value {
          r := Success(corrected[key := Str(CorrectArabicText(content.s, svc))]);
        }
      }
    }

    /** The copy after the step for `key`: that field, when present and
        meant for correction, replaced by its corrected value. */
    function WithCorrected(fields: map<string, Value>, corrected: map<string, Value>, key: string, svc: Services): map<string, Value> {
      if key in fields && ShouldCorrectText(fields[key], svc) == Success(true) then corrected[key := CorrectedValue(fields[key], svc)]
      else corrected
    }

    /** The two steps in order give the comprehension of the reference
        definition. */
    lemma CorrectedFields(fields: map<string, Value>, svc: Services)
      ensures WithCorrected(fields, WithCorrected(fields, fields, "text_content", svc), "md_content", svc) ==
              map k | k in fields :: if k in CorrectedKeys then CorrectedValue(fields[k], svc) else fields[k]
    {
    }

    /** Every document of a list processed in order; the first failure is
        the one raised. */
    function ProcessedDocuments(docs: seq<Value>, svc: Services): (r: Result<seq<Value>>)
      ensures r.Success? ==> |r.value| == |docs|
      ensures r.Success? ==> forall i :: 0 <= i < |docs| ==> Success(r.value[i]) == ProcessedDocument(docs[i], svc)
      ensures r.Failure? <==> exists i :: 0 <= i < |docs| && ProcessedDocument(docs[i], svc).Failure?
      decreases |docs|
    {
      if docs == [] then Success([])
      else
        var init := ProcessedDocuments(docs[..|docs| - 1], svc);
        var last := ProcessedDocument(docs[|docs| - 1], svc);
        if init.Failure? then Failure(init.error)
        else if last.Failure? then Failure(last.error)
        else Success(init.value + [last.value])
    }

    /** Once a prefix of the list fails, the whole list fails with the same
        error. */
    lemma {:induction false} ProcessedDocumentsFailurePersists(docs: seq<Value>, i: nat, svc: Services)
      requires i <= |docs| && ProcessedDocuments(docs[..i], svc).Failure?
      ensures ProcessedDocuments(docs, svc) == ProcessedDocuments(docs[..i], svc)
      decreases |docs| - i
    {
      if i < |docs| {
        assert docs[..i + 1][..i] == docs[..i];
        ProcessedDocumentsFailurePersists(docs, i + 1, svc);
      } else {
        assert docs[..i] == docs;
      }
    }

    /** The reference definition of `process_conversion_result`. */
    function ProcessedConversionResult(result: map<string, Value>, svc: Services): Result<map<string, Value>> {
      if !enabled then Success(result)
      else if "document" in result then
        match ProcessedDocument(result["document"], svc)
        case Success(d) => Success(result["document" := d])
        case Failure(e) => Failure(e)
      else if "documents" in result && result["documents"].List? then
        match ProcessedDocuments(result["documents"].items, svc)
        case Success(ds) => Success(result["documents" := List(ds)])
        case Failure(e) => Failure(e)
      else Success(result)
    }

    /** `process_conversion_result`: unchanged when disabled; otherwise a
        shallow copy in which `document`, or failing that a list-valued
        `documents`, is processed. */
    method ProcessConversionResult(result: map<string, Value>, svc: Services)
      returns (r: Result<map<string, Value>>)
      ensures r == ProcessedConversionResult(result, svc)
      ensures !enabled ==> r == Success(result)
      ensures r.Success? ==> r.value.Keys == result.Keys
      ensures r.Success? ==> forall k :: k in result && k != "document" && k != "documents" ==> r.value[k] == result[k]
      ensures enabled && "document" in result ==>
                (ProcessedDocument(result["document"], svc).Failure? <==> r.Failure?) &&
                (r.Success? ==> r.value == result["document" := ProcessedDocument(result["document"], svc).value])
      ensures enabled && "document" !in result && "documents" in result && result["documents"].List? ==>
                var docs := result["documents"].items;
                (r.Failure? <==> exists i :: 0 <= i < |docs| && ProcessedDocument(docs[i], svc).Failure?) &&
                (r.Success? ==>
                   r.value["documents"].List? &&
                   |r.value["documents"].items| == |docs| &&
                   forall i :: 0 <= i < |docs| ==> Success(r.value["documents"].items[i]) == ProcessedDocument(docs[i], svc))
      ensures "document" !in result && ("documents" !in result || !result["documents"].List?) ==> r == Success(result)
    {
      if !enabled {
        return Success(result);
      }
      var enhanced := result;
      if "document" in result {
        var processed := ProcessDocument(result["document"], svc);
        if processed.Failure? {
          return Failure(processed.error);
        }
        enhanced := enhanced["document" := processed.value];
      } else if "documents" in result && result["documents"].List? {
        var docs := result["documents"].items;
        var processedDocs: seq<Value> := [];
        for i := 0 to |docs|
          invariant ProcessedDocuments(docs[..i], svc) == Success(processedDocs)
        {
          assert docs[..i + 1][..i] == docs[..i];
          var processed := ProcessDocument(docs[i], svc);
          if processed.Failure? {
            ProcessedDocumentsFailurePersists(docs, i + 1, svc);
            return Failure(processed.error);
          }
          processedDocs := processedDocs + [processed.value];
        }
        assert docs[..|docs|] == docs;
        enhanced := enhanced["documents" := List(processedDocs)];
      }
      r := Success(enhanced);
    }
  }

  /** The middleware as constructed: it has a client exactly when enabled. */
  function Create(enabled: bool, modelName: string): (m: Middleware)
    ensures m.hasClient <==> m.enabled
  {
    Middleware(enabled, enabled, modelName)
  }

  /** A text of fewer than ten characters, or of white space only, is never
      corrected, whatever detection would say. */
  lemma {:induction false} ShortOrBlankTextNotCorrected(m: Middleware, text: string, svc: Services)
    requires |text| < MinimumLength || forall i :: 0 <= i < |text| ==> IsSpace(text[i])
    ensures m.ShouldCorrectText(Str(text), svc) == Success(false)
  {
    if |text| >= MinimumLength {
      AllSpaceStripsToEmpty(text);
    }
  }

  lemma {:induction false} AllSpaceStripsToEmpty(text: string)
    requires forall i :: 0 <= i < |text| ==> IsSpace(text[i])
    ensures Strip(text) == []
  {
    TrimStartAllSpace(text);
  }

  lemma {:induction false} TrimStartAllSpace(text: string)
    requires forall i :: 0 <= i < |text| ==> IsSpace(text[i])
    ensures TrimStart(text) == []
    decreases |text|
  {
    if text != [] {
      TrimStartAllSpace(text[1..]);
    }
  }

  /** `_process_document` touches nothing but `text_content` and
      `md_content`: it keeps every key, and every other field's value. */
  lemma OnlyCorrectedKeysChange(m: Middleware, doc: Value, svc: Services)
    requires doc.Obj? && m.ProcessedDocument(doc, svc).Success?
    ensures m.ProcessedDocument(doc, svc).value.Obj?
    ensures m.ProcessedDocument(doc, svc).value.fields.Keys == doc.fields.Keys
    ensures forall k :: k in doc.fields && k !in CorrectedKeys ==>
              m.ProcessedDocument(doc, svc).value.fields[k] == doc.fields[k]
    ensures forall k :: k in doc.fields && k in CorrectedKeys && doc.fields[k] != m.ProcessedDocument(doc, svc).value.fields[k] ==>
              doc.fields[k].Str? && m.ShouldCorrectText(doc.fields[k], svc) == Success(true)
  {
  }

  /** When detection never reports Arabic, every document comes back as it
      was (or raises). */
  lemma NoArabicNoChange(m: Middleware, doc: Value, svc: Services)
    requires forall t :: svc.detect(t) != Some("ar")
    requires m.ProcessedDocument(doc, svc).Success?
    ensures m.ProcessedDocument(doc, svc).value == doc
  {
    if doc.Obj? {
      var fields := doc.fields;
      assert forall k :: k in fields ==> m.CorrectedValue(fields[k], svc) == fields[k];
      assert (map k | k in fields :: if k in CorrectedKeys then m.CorrectedValue(fields[k], svc) else fields[k]) == fields;
    }
  }
}
