/** One iteration of the asynchronous local worker
    (docling_serve/engines/async_local/worker.py): take a task id off the
    queue, drop it from the pending-position list, and move the task from
    started to success or failure around one conversion. The conversion
    itself (`convert_documents` followed by `process_results`), reading a
    file source into a stream, the scratch directory test and the
    notifications sent to subscribers are parameters or logged events; the
    orchestrator that owns the queue and the task table is reduced to the
    fields the worker touches. */
module Worker {
  import opened Wrappers
  import OcrMyPdf
  import ArabicCorrection
  import Text

  type Headers = map<string, string>

  /** The states a task passes through. */
  datatype TaskStatus = Pending | Started | Succeeded | Failed

  /** An uploaded file, base64-encoded. */
  datatype FileSource = FileSource(filename: string, base64String: string)

  /** The kinds of source a task may hold. */
  datatype Source =
    | StreamSrc(doc: OcrMyPdf.DocumentStream)
    | FileSrc(file: FileSource)
    | HttpSrc(url: string, headers: Headers)
    | OtherSrc

  /** What the converter receives: a stream, or a URL string. */
  datatype ConvertSource = Stream(doc: OcrMyPdf.DocumentStream) | Url(url: string)

  /** The conversion options the worker reads. */
  datatype TaskOptions = TaskOptions(
    enableOcrmypdf: bool,
    deskew: bool,
    clean: bool,
    ocrLang: Option<seq<string>>,
    enableArabic: bool)

  /** What `process_results` hands back: a JSON-like document, or a file. */
  datatype Response = Inline(fields: map<string, ArabicCorrection.Value>) | FileResp(path: string)

  datatype Task = Task(
    taskId: string,
    status: TaskStatus,
    sources: seq<Source>,
    options: Option<TaskOptions>,
    result: Option<Response>,
    scratchDir: Option<string>)

  /** What the worker does that others can observe, in order. */
  datatype Event =
    | StatusSet(id: string, status: TaskStatus)
    | SubscribersNotified(id: string)
    | QueuePositionsNotified
    | ScratchRemoved(path: string)
    | QueueTaskDone

  /** The collaborators of one iteration. `ocrMiddleware` is `None` when
      the OCRmyPDF middleware is unavailable; the engines answer `None`
      where the call raises. */
  datatype Environment = Environment(
    ocrMiddleware: Option<OcrMyPdf.Middleware>,
    ocr: (OcrMyPdf.Bytes, OcrMyPdf.OcrArguments) -> Option<OcrMyPdf.Bytes>,
    arabic: ArabicCorrection.Middleware,
    services: ArabicCorrection.Services,
    toStream: FileSource -> Option<OcrMyPdf.DocumentStream>,
    convert: (seq<ConvertSource>, Option<TaskOptions>, Option<Headers>) -> Option<Response>,
    scratchRoot: string,
    workDirExists: string -> bool)

  /** `getattr(task.options, name, default)`: the defaults apply when the
      options are `None`. */
  function EnableOcrmypdf(o: Option<TaskOptions>): bool {
    o.Some? && o.value.enableOcrmypdf
  }
  function Deskew(o: Option<TaskOptions>): bool {
    o.None? || o.value.deskew
  }
  function Clean(o: Option<TaskOptions>): bool {
    o.None? || o.value.clean
  }
  function OcrLang(o: Option<TaskOptions>): Option<seq<string>> {
    if o.None? then None else o.value.ocrLang
  }
  function EnableArabic(o: Option<TaskOptions>): bool {
    o.Some? && o.value.enableArabic
  }

  // ---------------------------------------------------------------------
  // Source normalisation
  // ---------------------------------------------------------------------

  /** What one source contributes: a stream is kept, a file becomes a
      stream, a URL source its URL, anything else nothing. `None` when
      reading the file raises. */
  function NormaliseOne(s: Source, toStream: FileSource -> Option<OcrMyPdf.DocumentStream>): Option<seq<ConvertSource>> {
    match s
    case StreamSrc(doc) => Some([Stream(doc)])
    case FileSrc(file) => if toStream(file).None? then None else Some([Stream(toStream(file).value)])
    case HttpSrc(url, _) => Some([Url(url)])
    case OtherSrc => Some([])
  }

  /** The converter's sources, in the order of the task's sources. */
  function Normalised(sources: seq<Source>, toStream: FileSource -> Option<OcrMyPdf.DocumentStream>): Option<seq<ConvertSource>>
    decreases |sources|
  {
    if sources == [] then Some([])
    else
      var init := Normalised(sources[..|sources| - 1], toStream);
      var last := NormaliseOne(sources[|sources| - 1], toStream);
      if init.None? || last.None? then None else Some(init.value + last.value)
  }

  predicate HasHeaders(s: Source) {
    s.HttpSrc? && s.headers != map[]
  }

  /** The headers of the first URL source that has any. */
  function FirstHeaders(sources: seq<Source>): Option<Headers>
    decreases |sources|
  {
    if sources == [] then None
    else if HasHeaders(sources[0]) then Some(sources[0].headers)
    else FirstHeaders(sources[1..])
  }

  /** `headers` is `None` exactly when no URL source has headers, and
      otherwise those of the first one that has. */
  lemma {:induction false} FirstHeadersFirst(sources: seq<Source>)
    ensures FirstHeaders(sources).None? <==> forall i :: 0 <= i < |sources| ==> !HasHeaders(sources[i])
    ensures FirstHeaders(sources).Some? ==>
              exists i :: 0 <= i < |sources| && HasHeaders(sources[i]) && sources[i].headers == FirstHeaders(sources).value &&
                          forall j :: 0 <= j < i ==> !HasHeaders(sources[j])
    decreases |sources|
  {
    if sources != [] && !HasHeaders(sources[0]) {
      var rest := sources[1..];
      FirstHeadersFirst(rest);
      assert forall i :: 0 < i < |sources| ==> sources[i] == rest[i - 1];
      if FirstHeaders(rest).Some? {
        var i :| 0 <= i < |rest| && HasHeaders(rest[i]) && rest[i].headers == FirstHeaders(rest).value &&
                 forall j :: 0 <= j < i ==> !HasHeaders(rest[j]);
        assert HasHeaders(sources[i + 1]);
      }
    }
  }

  lemma {:induction false} FirstHeadersSnoc(s: seq<Source>, x: Source)
    ensures FirstHeaders(s + [x]) == if FirstHeaders(s).Some? then FirstHeaders(s) else FirstHeaders([x])
    decreases |s|
  {
    if s != [] {
      assert (s + [x])[1..] == s[1..] + [x];
      FirstHeadersSnoc(s[1..], x);
    }
  }

  lemma NormalisedSnoc(sources: seq<Source>, i: nat, toStream: FileSource -> Option<OcrMyPdf.DocumentStream>)
    requires i < |sources|
    ensures Normalised(sources[..i + 1], toStream) ==
              var init := Normalised(sources[..i], toStream);
              var last := NormaliseOne(sources[i], toStream);
              if init.None? || last.None? then None else Some(init.value + last.value)
  {
    assert sources[..i + 1][..i] == sources[..i];
    assert sources[..i + 1][i] == sources[i];
  }

  /** Reading sources one by one: once a file fails to read, the whole
      normalisation fails. */
  lemma {:induction false} NormalisedNonePersists(sources: seq<Source>, i: nat, toStream: FileSource -> Option<OcrMyPdf.DocumentStream>)
    requires i <= |sources| && Normalised(sources[..i], toStream).None?
    ensures Normalised(sources, toStream).None?
    decreases |sources| - i
  {
    if i < |sources| {
      assert sources[..i + 1][..i] == sources[..i];
      NormalisedNonePersists(sources, i + 1, toStream);
    } else {
      assert sources[..i] == sources;
    }
  }

  /** Normalising two runs of sources one after the other is normalising
      their concatenation: the order of the sources is the order of the
      result. */
  lemma {:induction false} NormalisedAppend(a: seq<Source>, b: seq<Source>, toStream: FileSource -> Option<OcrMyPdf.DocumentStream>)
    ensures Normalised(a + b, toStream) ==
              if Normalised(a, toStream).None? || Normalised(b, toStream).None? then None
              else Some(Normalised(a, toStream).value + Normalised(b, toStream).value)
    decreases |b|
  {
    if b == [] {
      assert a + b == a;
      if Normalised(a, toStream).Some? {
        assert Normalised(a, toStream).value + [] == Normalised(a, toStream).value;
      }
    } else {
      var init := b[..|b| - 1];
      var last := NormaliseOne(b[|b| - 1], toStream);
      assert (a + b)[..|a + b| - 1] == a + init;
      assert (a + b)[|a + b| - 1] == b[|b| - 1];
      NormalisedAppend(a, init, toStream);
      var na := Normalised(a, toStream);
      var ni := Normalised(init, toStream);
      assert Normalised(b, toStream) == if ni.None? || last.None? then None else Some(ni.value + last.value);
      if na.Some? && ni.Some? && last.Some? {
        assert na.value + ni.value + last.value == na.value + (ni.value + last.value);
      }
    }
  }

  /** Normalisation fails exactly when some file cannot be read. */
  lemma {:induction false} NormalisedFails(sources: seq<Source>, toStream: FileSource -> Option<OcrMyPdf.DocumentStream>)
    ensures Normalised(sources, toStream).None? <==>
              exists i :: 0 <= i < |sources| && sources[i].FileSrc? && toStream(sources[i].file).None?
    decreases |sources|
  {
    if sources != [] {
      var init := sources[..|sources| - 1];
      NormalisedFails(init, toStream);
      if exists i :: 0 <= i < |init| && init[i].FileSrc? && toStream(init[i].file).None? {
        var i :| 0 <= i < |init| && init[i].FileSrc? && toStream(init[i].file).None?;
        assert sources[i] == init[i];
      }
    }
  }

  /** Without sources of other kinds, and with every file readable, the
      i-th converter source comes from the i-th task source. */
  lemma {:induction false} NormalisedOneToOne(sources: seq<Source>, toStream: FileSource -> Option<OcrMyPdf.DocumentStream>)
    requires forall i :: 0 <= i < |sources| ==> !sources[i].OtherSrc?
    requires Normalised(sources, toStream).Some?
    ensures |Normalised(sources, toStream).value| == |sources|
    ensures forall i :: 0 <= i < |sources| ==>
              NormaliseOne(sources[i], toStream) == Some([Normalised(sources, toStream).value[i]])
    decreases |sources|
  {
    if sources != [] {
      var init := sources[..|sources| - 1];
      NormalisedOneToOne(init, toStream);
    }
  }

  /** The normalisation loop of `run_conversion`: the converter sources and
      the headers of the first URL source that has any. */
  method NormaliseSources(sources: seq<Source>, toStream: FileSource -> Option<OcrMyPdf.DocumentStream>)
    returns (r: Option<(seq<ConvertSource>, Option<Headers>)>)
    ensures r.None? <==> Normalised(sources, toStream).None?
    ensures r.Some? ==> r.value.0 == Normalised(sources, toStream).value && r.value.1 == FirstHeaders(sources)
  {
    var convertSources: seq<ConvertSource> := [];
    var headers: Option<Headers> := None;
    for i := 0 to |sources|
      invariant Normalised(sources[..i], toStream) == Some(convertSources)
      invariant headers == FirstHeaders(sources[..i])
    {
      NormalisedSnoc(sources, i, toStream);
      assert sources[..i] + [sources[i]] == sources[..i + 1];
      FirstHeadersSnoc(sources[..i], sources[i]);
      match sources[i] {
        case StreamSrc(doc) =>
          convertSources := convertSources + [Stream(doc)];
        case FileSrc(file) =>
          var stream := toStream(file);
          if stream.None? {
            NormalisedNonePersists(sources, i + 1, toStream);
            return None;
          }
          convertSources := convertSources + [Stream(stream.value)];
        case HttpSrc(url, h) =>
          convertSources := convertSources + [Url(url)];
          if headers.None? && h != map[] {
            headers := Some(h);
          }
        case OtherSrc =>
          assert convertSources + [] == convertSources;
      }
    }
    assert sources[..|sources|] == sources;
    r := Some((convertSources, headers));
  }

  // ---------------------------------------------------------------------
  // OCRmyPDF step
  // ---------------------------------------------------------------------

  /** What one converter source becomes in the OCRmyPDF step. */
  function PreprocessedSource(
    s: ConvertSource, mw: OcrMyPdf.Middleware, o: Option<TaskOptions>,
    ocr: (OcrMyPdf.Bytes, OcrMyPdf.OcrArguments) -> Option<OcrMyPdf.Bytes>): ConvertSource
  {
    match s
    case Stream(doc) =>
      Stream(OcrMyPdf.DocumentStream(doc.name, mw.Preprocessed(doc.stream, doc.name, Deskew(o), Clean(o), OcrLang(o), ocr)))
    case Url(_) => s
  }

  /** Whether the OCRmyPDF step runs at all. */
  predicate OcrStepRuns(o: Option<TaskOptions>, mw: Option<OcrMyPdf.Middleware>) {
    EnableOcrmypdf(o) && mw.Some? && mw.value.enabled
  }

  /** One pass of the OCRmyPDF loop. */
  method PreprocessOne(
    s: ConvertSource, mw: OcrMyPdf.Middleware, o: Option<TaskOptions>,
    ocr: (OcrMyPdf.Bytes, OcrMyPdf.OcrArguments) -> Option<OcrMyPdf.Bytes>)
    returns (r: ConvertSource)
    ensures r == PreprocessedSource(s, mw, o, ocr)
  {
    r := s;
    if s.Stream? {
      var stream := mw.PreprocessFile(s.doc.stream, s.doc.name, Deskew(o), Clean(o), OcrLang(o), ocr);
      r := Stream(OcrMyPdf.DocumentStream(s.doc.name, stream));
    }
  }

  /** The OCRmyPDF loop of `run_conversion`: each stream replaced by its
      preprocessed bytes under the same name, URLs kept. */
  method PreprocessSources(
    sources: seq<ConvertSource>, mw: OcrMyPdf.Middleware, o: Option<TaskOptions>,
    ocr: (OcrMyPdf.Bytes, OcrMyPdf.OcrArguments) -> Option<OcrMyPdf.Bytes>)
    returns (r: seq<ConvertSource>)
    ensures |r| == |sources|
    ensures forall i :: 0 <= i < |r| ==> r[i] == PreprocessedSource(sources[i], mw, o, ocr)
  {
    var processed: seq<ConvertSource> := [];
    for i := 0 to |sources|
      invariant |processed| == i
      invariant forall k :: 0 <= k < i ==> processed[k] == PreprocessedSource(sources[k], mw, o, ocr)
    {
      var item := PreprocessOne(sources[i], mw, o, ocr);
      processed := processed + [item];
    }
    r := processed;
  }

  /** The step keeps the kind and place of every source: URLs stay as they
      are, streams keep their names, and a stream that is not a PDF or
      whose engine call fails is kept unchanged. */
  lemma PreprocessedSourceKeepsShape(
    s: ConvertSource, mw: OcrMyPdf.Middleware, o: Option<TaskOptions>,
    ocr: (OcrMyPdf.Bytes, OcrMyPdf.OcrArguments) -> Option<OcrMyPdf.Bytes>)
    ensures s.Url? ==> PreprocessedSource(s, mw, o, ocr) == s
    ensures s.Stream? ==> PreprocessedSource(s, mw, o, ocr).Stream? &&
                          PreprocessedSource(s, mw, o, ocr).doc.name == s.doc.name
    ensures s.Stream? && (!mw.ShouldPreprocessFile(s.doc.name) ||
                          ocr(s.doc.stream, OcrMyPdf.ArgumentsFor(Deskew(o), Clean(o), OcrLang(o))).None?) ==>
              PreprocessedSource(s, mw, o, ocr) == s
  {
  }

  // ---------------------------------------------------------------------
  // The conversion
  // ---------------------------------------------------------------------

  /** `get_scratch() / task_id`. */
  function WorkDir(scratchRoot: string, taskId: string): string {
    scratchRoot + "/" + taskId
  }

  /** The Arabic step: the corrected response, or the response itself when
      the step is off, does not apply to a file response, or raises. */
  function ArabicCorrected(resp: Response, o: Option<TaskOptions>, env: Environment): (r: Response)
    ensures !EnableArabic(o) || !env.arabic.enabled || resp.FileResp? ==> r == resp
    ensures r != resp ==>
              resp.Inline? && r.Inline? &&
              env.arabic.ProcessedConversionResult(resp.fields, env.services) == Success(r.fields)
  {
    if EnableArabic(o) && env.arabic.enabled && resp.Inline? then
      match env.arabic.ProcessedConversionResult(resp.fields, env.services)
      case Success(fields) => Inline(fields)
      case Failure(_) => resp
    else resp
  }

  /** A finished conversion: the response, and the scratch directory when
      one was left behind. */
  datatype Conversion = Conversion(response: Response, scratchDir: Option<string>)

  /** The converter's sources after the OCRmyPDF step, when it runs. */
  function OcrStepSources(normalised: seq<ConvertSource>, o: Option<TaskOptions>, env: Environment): (r: seq<ConvertSource>)
    ensures |r| == |normalised|
    ensures !OcrStepRuns(o, env.ocrMiddleware) ==> r == normalised
  {
    if OcrStepRuns(o, env.ocrMiddleware) then
      seq(|normalised|, i requires 0 <= i < |normalised| =>
        PreprocessedSource(normalised[i], env.ocrMiddleware.value, o, env.ocr))
    else normalised
  }

  /** What the conversion hands back once the converter has answered. */
  function Finished(response: Response, task: Task, env: Environment): Conversion {
    var dir := WorkDir(env.scratchRoot, task.taskId);
    Conversion(ArabicCorrected(response, task.options, env),
               if env.workDirExists(dir) then Some(dir) else None)
  }

  /** The reference definition of `run_conversion` for a task. */
  function Converted(task: Task, env: Environment): (r: Option<Conversion>)
    ensures r.Some? <==>
              Normalised(task.sources, env.toStream).Some? &&
              env.convert(OcrStepSources(Normalised(task.sources, env.toStream).value, task.options, env),
                          task.options, FirstHeaders(task.sources)).Some?
  {
    match Normalised(task.sources, env.toStream)
    case None => None
    case Some(normalised) =>
      match env.convert(OcrStepSources(normalised, task.options, env), task.options, FirstHeaders(task.sources))
      case None => None
      case Some(response) => Some(Finished(response, task, env))
  }

  /** Whether a finished conversion removes its scratch directory: it left
      one behind, and the response is not a file. */
  predicate RemovesScratch(c: Conversion) {
    c.scratchDir.Some? && !c.response.FileResp?
  }

  /** `run_conversion`. */
  method RunConversion(task: Task, env: Environment) returns (r: Option<Conversion>)
    ensures r == Converted(task, env)
  {
    var normalised := NormaliseSources(task.sources, env.toStream);
    if normalised.None? {
      return None;
    }
    var (convertSources, headers) := normalised.value;
    if EnableOcrmypdf(task.options) && env.ocrMiddleware.Some? && env.ocrMiddleware.value.enabled {
      convertSources := PreprocessSources(convertSources, env.ocrMiddleware.value, task.options, env.ocr);
    }
    assert convertSources == OcrStepSources(normalised.value.0, task.options, env);
    var response := env.convert(convertSources, task.options, headers);
    if response.None? {
      return None;
    }
    var corrected := ArabicCorrected(response.value, task.options, env);
    var dir := WorkDir(env.scratchRoot, task.taskId);
    var scratch: Option<string> := None;
    if env.workDirExists(dir) {
      scratch := Some(dir);
    }
    r := Some(Conversion(corrected, scratch));
  }

  /** `list.remove`: the first occurrence of `x` taken out. */
  function RemoveFirst(s: seq<string>, x: string): (r: seq<string>)
    requires x in s
    ensures |r| == |s| - 1
    ensures multiset(r) == multiset(s) - multiset{x}
    decreases |s|
  {
    assert s == [s[0]] + s[1..];
    if s[0] == x then s[1..]
    else [s[0]] + RemoveFirst(s[1..], x)
  }

  /** `list.remove` takes away the FIRST occurrence and keeps the order of
      everything else. */
  lemma {:induction false} RemoveFirstSplits(s: seq<string>, x: string)
    requires x in s
    ensures exists k :: 0 <= k < |s| && s[k] == x && x !in s[..k] && RemoveFirst(s, x) == s[..k] + s[k + 1..]
    decreases |s|
  {
    if s[0] == x {
      assert s[..0] == [] && RemoveFirst(s, x) == s[..0] + s[1..];
    } else {
      var t := s[1..];
      assert s == [s[0]] + t;
      RemoveFirstSplits(t, x);
      var k :| 0 <= k < |t| && t[k] == x && x !in t[..k] && RemoveFirst(t, x) == t[..k] + t[k + 1..];
      SplitsBehind(s[0], t, x, k);
    }
  }

  /** The step of `RemoveFirstSplits`: a first element other than `x`
      moves the split one place on. */
  lemma SplitsBehind(y: string, t: seq<string>, x: string, k: nat)
    requires y != x && k < |t| && t[k] == x && x !in t[..k]
    requires RemoveFirst(t, x) == t[..k] + t[k + 1..]
    ensures var s := [y] + t;
            s[k + 1] == x && x !in s[..k + 1] && RemoveFirst(s, x) == s[..k + 1] + s[k + 2..]
  {
    var s := [y] + t;
    var front, back := t[..k], t[k + 1..];
    ConsSlices(y, t, k);
    assert x !in [y] + front;
    RemoveFirstCons(y, t, x);
    Text.AppendAssoc([y], front, back);
  }

  lemma ConsSlices(y: string, t: seq<string>, k: nat)
    requires k < |t|
    ensures ([y] + t)[k + 1] == t[k]
    ensures ([y] + t)[..k + 1] == [y] + t[..k]
    ensures ([y] + t)[k + 2..] == t[k + 1..]
  {
  }

  lemma RemoveFirstCons(y: string, t: seq<string>, x: string)
    requires y != x && x in t
    ensures RemoveFirst([y] + t, x) == [y] + RemoveFirst(t, x)
  {
    assert ([y] + t)[1..] == t;
  }

  /** How an iteration ends. */
  datatype StepOutcome =
    | Blocked                    // the queue is empty: `get` waits
    | Crashed(error: string)     // the loop itself raises
    | Processed(status: TaskStatus)

  /** The part of the orchestrator the worker touches. */
  class Orchestrator {
    var taskQueue: seq<string>
    var queueList: seq<string>
    var tasks: map<string, Task>
    var events: seq<Event>

    /** A task that succeeded holds its result and no longer its sources or
        options. */
    predicate Valid()
      reads this
    {
      SucceededHoldResults(tasks)
    }

    /** One iteration of `AsyncLocalWorker.loop`. */
    method Step(env: Environment) returns (outcome: StepOutcome)
      modifies this
      ensures old(taskQueue) == [] ==>
                outcome == Blocked && taskQueue == [] && queueList == old(queueList) &&
                tasks == old(tasks) && events == old(events)
      ensures old(taskQueue) != [] ==> taskQueue == old(taskQueue)[1..]
      ensures old(taskQueue) != [] && old(taskQueue)[0] !in old(queueList) ==>
                outcome == Crashed("ValueError") && queueList == old(queueList) &&
                tasks == old(tasks) && events == old(events)
      ensures old(taskQueue) != [] && old(taskQueue)[0] in old(queueList) ==>
                queueList == RemoveFirst(old(queueList), old(taskQueue)[0])
      ensures old(taskQueue) != [] && old(taskQueue)[0] in old(queueList) && old(taskQueue)[0] !in old(tasks) ==>
                outcome == Crashed("RuntimeError") && tasks == old(tasks) && events == old(events)
      ensures old(taskQueue) != [] && old(taskQueue)[0] in old(queueList) && old(taskQueue)[0] in old(tasks) ==>
                var id := old(taskQueue)[0];
                var conv := Converted(old(tasks)[id].(status := Started), env);
                tasks == old(tasks)[id := AfterRun(old(tasks)[id], conv)] &&
                events == old(events) + RunEvents(id, conv) &&
                outcome == Processed(AfterRun(old(tasks)[id], conv).status)
      ensures old(Valid()) ==> Valid()
    {
      if taskQueue == [] {
        return Blocked;
      }
      var id := taskQueue[0];
      taskQueue := taskQueue[1..];
      if id !in queueList {
        return Crashed("ValueError");
      }
      queueList := RemoveFirst(queueList, id);
      if id !in tasks {
        return Crashed("RuntimeError");
      }
      var task := tasks[id];
      Start(id);
      var conv := RunConversion(task.(status := Started), env);
      var status := Finish(id, task, conv);
      assert tasks == old(tasks)[id := AfterRun(task, conv)];
      Text.AppendAssoc(old(events), [StatusSet(id, Started), SubscribersNotified(id), QueuePositionsNotified], SettleEvents(id, conv));
      outcome := Processed(status);
    }

    /** Mark the task found on the queue as started and tell its
        subscribers and the queue. */
    method Start(id: string)
      requires id in tasks
      modifies this
      ensures taskQueue == old(taskQueue) && queueList == old(queueList)
      ensures tasks == old(tasks)[id := old(tasks)[id].(status := Started)]
      ensures events == old(events) + [StatusSet(id, Started), SubscribersNotified(id), QueuePositionsNotified]
      ensures old(Valid()) ==> Valid()
    {
      tasks := tasks[id := tasks[id].(status := Started)];
      events := events + [StatusSet(id, Started), SubscribersNotified(id), QueuePositionsNotified];
    }

    /** Store what the conversion of `task` gave and emit the rest of the
        iteration. */
    method Finish(id: string, task: Task, conv: Option<Conversion>) returns (status: TaskStatus)
      requires id in tasks
      modifies this
      ensures taskQueue == old(taskQueue) && queueList == old(queueList)
      ensures tasks == old(tasks)[id := AfterRun(task, conv)]
      ensures events == old(events) + SettleEvents(id, conv)
      ensures status == AfterRun(task, conv).status
      ensures old(Valid()) ==> Valid()
    {
      var settled, emitted := Settle(id, task, conv);
      tasks := tasks[id := settled];
      events := events + emitted;
      status := settled.status;
      if SucceededHoldResults(old(tasks)) {
        AfterRunKeepsValid(old(tasks), id, task, conv);
      }
    }
  }

  /** The end of an iteration that reached a task: the task as the
      conversion leaves it and what is emitted from then on. */
  method Settle(id: string, task: Task, conv: Option<Conversion>) returns (settled: Task, emitted: seq<Event>)
    ensures settled == AfterRun(task, conv)
    ensures emitted == SettleEvents(id, conv)
  {
    settled := task.(status := Started);
    emitted := [];
    if conv.Some? {
      if conv.value.scratchDir.Some? {
        settled := settled.(scratchDir := conv.value.scratchDir);
        if !conv.value.response.FileResp? {
          emitted := emitted + [ScratchRemoved(conv.value.scratchDir.value)];
        }
      }
      settled := settled.(result := Some(conv.value.response), sources := [], options := None);
      settled := settled.(status := Succeeded);
      emitted := emitted + [StatusSet(id, Succeeded)];
    } else {
      settled := settled.(status := Failed);
      emitted := emitted + [StatusSet(id, Failed)];
    }
    emitted := emitted + [SubscribersNotified(id), QueueTaskDone];
  }

  /** The task after the conversion: on success the result is stored, the
      sources and options are dropped and the scratch directory recorded;
      on failure only the status changes. */
  function AfterRun(task: Task, conv: Option<Conversion>): (r: Task)
    ensures r.taskId == task.taskId
    ensures r.status == Succeeded <==> conv.Some?
    ensures r.status == Succeeded ==> r.result == Some(conv.value.response) && r.sources == [] && r.options.None?
    ensures r.status != Succeeded ==> r == task.(status := Failed)
  {
    if conv.Some? then
      task.(status := Succeeded, result := Some(conv.value.response), sources := [], options := None,
            scratchDir := if conv.value.scratchDir.Some? then conv.value.scratchDir else task.scratchDir)
    else task.(status := Failed)
  }

  /** What an iteration that reaches a task emits. */
  function RunEvents(id: string, conv: Option<Conversion>): seq<Event> {
    [StatusSet(id, Started), SubscribersNotified(id), QueuePositionsNotified] + SettleEvents(id, conv)
  }

  /** What is emitted once the conversion has ended. */
  function SettleEvents(id: string, conv: Option<Conversion>): seq<Event> {
    (if conv.Some? && RemovesScratch(conv.value) then [ScratchRemoved(conv.value.scratchDir.value)] else []) +
    [StatusSet(id, if conv.Some? then Succeeded else Failed), SubscribersNotified(id), QueueTaskDone]
  }

  /** Every task that succeeded holds its result and no longer its sources
      or options. */
  predicate SucceededHoldResults(tasks: map<string, Task>) {
    forall id :: id in tasks && tasks[id].status == Succeeded ==>
      tasks[id].result.Some? && tasks[id].sources == [] && tasks[id].options.None?
  }

  /** Replacing one task by its state after the run keeps every succeeded
      task holding its result. */
  lemma AfterRunKeepsValid(tasks: map<string, Task>, id: string, task: Task, conv: Option<Conversion>)
    requires SucceededHoldResults(tasks)
    ensures SucceededHoldResults(tasks[id := AfterRun(task, conv)])
  {
  }

  /** Every iteration that reaches a task starts by marking it started,
      notifies its subscribers twice, once at the start and once at the
      end, marks the queue entry done exactly once and last, and sets the
      final status to success exactly when the conversion finished. */
  lemma RunEventsOnce(id: string, conv: Option<Conversion>)
    ensures var all := RunEvents(id, conv);
            multiset(all)[QueueTaskDone] == 1 && multiset(all)[SubscribersNotified(id)] == 2 &&
            all[0] == StatusSet(id, Started) && all[|all| - 1] == QueueTaskDone &&
            (StatusSet(id, Succeeded) in all <==> conv.Some?) &&
            (StatusSet(id, Failed) in all <==> conv.None?)
  {
    var head := [StatusSet(id, Started), SubscribersNotified(id), QueuePositionsNotified];
    var tail := SettleEvents(id, conv);
    SettleEventsOnce(id, conv);
    assert multiset(head)[QueueTaskDone] == 0 && multiset(head)[SubscribersNotified(id)] == 1;
    assert multiset(head + tail) == multiset(head) + multiset(tail);
    assert StatusSet(id, Succeeded) !in head && StatusSet(id, Failed) !in head;
  }

  lemma SettleEventsOnce(id: string, conv: Option<Conversion>)
    ensures var tail := SettleEvents(id, conv);
            multiset(tail)[QueueTaskDone] == 1 && multiset(tail)[SubscribersNotified(id)] == 1 &&
            tail[|tail| - 1] == QueueTaskDone &&
            (StatusSet(id, Succeeded) in tail <==> conv.Some?) &&
            (StatusSet(id, Failed) in tail <==> conv.None?)
  {
    var st := if conv.Some? then Succeeded else Failed;
    var last := [StatusSet(id, st), SubscribersNotified(id), QueueTaskDone];
    var mid: seq<Event> := if conv.Some? && RemovesScratch(conv.value) then [ScratchRemoved(conv.value.scratchDir.value)] else [];
    assert SettleEvents(id, conv) == mid + last;
    assert multiset(mid)[QueueTaskDone] == 0 && multiset(mid)[SubscribersNotified(id)] == 0;
    assert multiset(last)[QueueTaskDone] == 1 && multiset(last)[SubscribersNotified(id)] == 1;
    assert multiset(mid + last) == multiset(mid) + multiset(last);
  }

  // ---------------------------------------------------------------------
  // Module initialisation
  // ---------------------------------------------------------------------

  /** Loading the worker module as written: the OCRmyPDF middleware is
      constructed with a `settings` keyword its constructor does not take
      (a `TypeError` the import guard does not catch), and a failed import
      is logged through a logger not yet defined (a `NameError`). */
  function LoadAsWritten(importSucceeds: bool): (r: Result<Option<OcrMyPdf.Middleware>>)
    ensures r.Failure?
  {
    if importSucceeds then Failure("TypeError") else Failure("NameError")
  }

  /** Loading as intended: the middleware built from the settings' flag, or
      none when the import fails. */
  function LoadIntended(importSucceeds: bool, settingsEnabled: bool): (r: Result<Option<OcrMyPdf.Middleware>>)
    ensures r.Success?
    ensures r.value.Some? <==> importSucceeds
    ensures r.value.Some? ==> r.value.value.enabled == settingsEnabled
  {
    if importSucceeds then Success(Some(OcrMyPdf.Middleware(settingsEnabled))) else Success(None)
  }

  /** The two differ on every input. */
  lemma LoadDiscrepancy(importSucceeds: bool, settingsEnabled: bool)
    ensures LoadAsWritten(importSucceeds).Failure? && LoadIntended(importSucceeds, settingsEnabled).Success?
  {
  }
}
