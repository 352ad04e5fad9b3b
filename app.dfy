/** The request helpers of the HTTP application (docling_serve/app.py):
    turning a request into task sources, waiting for a task on an integer
    clock, the synchronous endpoints' replies, the status websocket's
    subscriber bookkeeping and the progress callback's error mapping. The
    orchestrator's own operations are parameters. */
module App {
  import opened Wrappers
  import opened Text
  import OcrMyPdf
  import ArabicCorrection
  import opened Worker

  // ---------------------------------------------------------------------
  // Enqueueing
  // ---------------------------------------------------------------------

  /** An uploaded file; an empty name stands for a missing one. */
  datatype Upload = Upload(filename: string, content: OcrMyPdf.Bytes)

  /** The name `_enque_file` gives the upload at position `i`: its own, or
      `file.pdf` at position 1 and `file_<i>.pdf` elsewhere, because the
      test reads the number of streams built so far. */
  function UploadName(f: Upload, i: nat): (r: string)
    ensures f.filename != "" ==> r == f.filename
    ensures f.filename == "" && i == 1 ==> r == "file.pdf"
    ensures f.filename == "" && i != 1 ==> r == "file_" + NatToString(i) + ".pdf"
  {
    if f.filename != "" then f.filename
    else "file" + (if i == 1 then "" else "_" + NatToString(i)) + ".pdf"
  }

  /** `_enque_file`: one stream per upload, in order. */
  method EnqueFile(files: seq<Upload>) returns (sources: seq<OcrMyPdf.DocumentStream>)
    ensures |sources| == |files|
    ensures forall i :: 0 <= i < |files| ==>
              sources[i] == OcrMyPdf.DocumentStream(UploadName(files[i], i), files[i].content)
  {
    var fileSources: seq<OcrMyPdf.DocumentStream> := [];
    for i := 0 to |files|
      invariant |fileSources| == i
      invariant forall k :: 0 <= k < i ==>
                  fileSources[k] == OcrMyPdf.DocumentStream(UploadName(files[k], k), files[k].content)
    {
      var suffix := if |fileSources| == 1 then "" else "_" + NatToString(i);
      var name := if files[i].filename != "" then files[i].filename else "file" + suffix + ".pdf";
      fileSources := fileSources + [OcrMyPdf.DocumentStream(name, files[i].content)];
    }
    sources := fileSources;
  }

  /** The name a missing file name was evidently meant to get: `file.pdf`
      for a lone upload, `file_<i>.pdf` among several. */
  function UploadNameIntended(files: seq<Upload>, i: nat): (r: string)
    requires i < |files|
    ensures files[i].filename != "" ==> r == files[i].filename
    ensures files[i].filename == "" && |files| == 1 ==> r == "file.pdf"
    ensures files[i].filename == "" && |files| > 1 ==> r == "file_" + NatToString(i) + ".pdf"
  {
    if files[i].filename != "" then files[i].filename
    else "file" + (if |files| == 1 then "" else "_" + NatToString(i)) + ".pdf"
  }

  /** A lone unnamed upload is called `file_0.pdf`, not `file.pdf`, and in a
      batch the second unnamed upload is the one called `file.pdf`. */
  lemma UploadNameQuirk(content: OcrMyPdf.Bytes)
    ensures UploadName(Upload("", content), 0) == "file_0.pdf"
    ensures UploadNameIntended([Upload("", content)], 0) == "file.pdf"
    ensures UploadName(Upload("", content), 1) == "file.pdf"
    ensures UploadNameIntended([Upload("", content), Upload("", content)], 1) == "file_1.pdf"
  {
    assert NatToString(0) == "0";
    assert NatToString(1) == "1";
  }

  /** The kinds of source request `_enque_source` tells apart by their
      attributes. */
  datatype SourceRequest =
    | HttpRequest(httpSources: Option<seq<Source>>, options: Option<TaskOptions>)
    | FileSourcesRequest(fileSources: Option<seq<Source>>, options: Option<TaskOptions>)
    | OtherRequest(options: Option<TaskOptions>)

  /** The sources a request carries: none when the list is missing. */
  function RequestSources(req: SourceRequest): seq<Source> {
    match req
    case HttpRequest(h, _) => if h.Some? then h.value else []
    case FileSourcesRequest(f, _) => if f.Some? then f.value else []
    case OtherRequest(_) => []
  }

  /** `_enque_source`: the sources to enqueue, copied in order, and the
      request's options or the defaults. */
  method EnqueSource(req: SourceRequest, defaults: TaskOptions)
    returns (sources: seq<Source>, options: TaskOptions)
    ensures sources == RequestSources(req)
    ensures options == req.options.GetOr(defaults)
    ensures req.OtherRequest? ==> sources == []
  {
    options := req.options.GetOr(defaults);
    var given: seq<Source> := [];
    if req.HttpRequest? && req.httpSources.Some? {
      given := req.httpSources.value;
    } else if req.FileSourcesRequest? && req.fileSources.Some? {
      given := req.fileSources.value;
    }
    sources := [];
    for i := 0 to |given|
      invariant sources == given[..i]
    {
      sources := sources + [given[i]];
    }
    assert given[..|given|] == given;
  }

  // ---------------------------------------------------------------------
  // Waiting for a task
  // ---------------------------------------------------------------------

  /** The clock reading at the poll after `j` sleeps of five units. */
  function PollTime(start: int, j: nat): int {
    start + 5 * j
  }

  /** What `_wait_task_complete` promises about its answer `r` after
      `sleeps` sleeps: no earlier poll saw the task completed; an answer of
      true comes from a poll that did, before the deadline passed; an answer
      of false comes right after the first sleep that took the elapsed time
      past `maxSyncWait`, without a last poll. */
  predicate WaitContract(completed: int -> bool, start: int, maxSyncWait: int, r: bool, sleeps: nat) {
    (forall j :: 0 <= j < sleeps ==> !completed(PollTime(start, j))) &&
    (r ==> completed(PollTime(start, sleeps)) && (sleeps == 0 || 5 * sleeps <= maxSyncWait)) &&
    (!r ==> sleeps >= 1 && 5 * sleeps > maxSyncWait && (sleeps == 1 || 5 * (sleeps - 1) <= maxSyncWait))
  }

  /** `_wait_task_complete`, on an integer clock that each sleep advances
      by five units; `completed(t)` says whether the task is completed when
      polled at time `t`. */
  method WaitTaskComplete(completed: int -> bool, start: int, maxSyncWait: int) returns (r: bool, sleeps: nat)
    ensures WaitContract(completed, start, maxSyncWait, r, sleeps)
  {
    var now := start;
    sleeps := 0;
    while true
      invariant now == PollTime(start, sleeps)
      invariant forall j :: 0 <= j < sleeps ==> !completed(PollTime(start, j))
      invariant sleeps == 0 || 5 * sleeps <= maxSyncWait
      decreases (if maxSyncWait < 0 then 0 else maxSyncWait) + 5 - 5 * sleeps
    {
      if completed(now) {
        return true, sleeps;
      }
      now := now + 5;
      sleeps := sleeps + 1;
      var elapsed := now - start;
      if elapsed > maxSyncWait {
        return false, sleeps;
      }
    }
  }

  /** A task already completed is reported at once, without sleeping. */
  lemma FirstPollNoSleep(completed: int -> bool, start: int, maxSyncWait: int, r: bool, sleeps: nat)
    requires WaitContract(completed, start, maxSyncWait, r, sleeps)
    requires completed(start)
    ensures r && sleeps == 0
  {
    assert PollTime(start, 0) == start;
  }

  /** The contract fixes the answer: two runs on the same inputs agree. */
  lemma WaitContractUnique(completed: int -> bool, start: int, maxSyncWait: int, r1: bool, k1: nat, r2: bool, k2: nat)
    requires WaitContract(completed, start, maxSyncWait, r1, k1)
    requires WaitContract(completed, start, maxSyncWait, r2, k2)
    ensures r1 == r2 && k1 == k2
  {
  }

  /** A task that completes during the last sleep is still reported as a
      timeout, because the deadline is checked before the next poll. */
  lemma LateCompletionTimesOut(start: int, maxSyncWait: int, r: bool, sleeps: nat)
    requires 0 <= maxSyncWait < 5
    requires WaitContract(t => t >= start + 5, start, maxSyncWait, r, sleeps)
    ensures !r && sleeps == 1
    ensures (t => t >= start + 5)(PollTime(start, sleeps))
  {
  }

  // ---------------------------------------------------------------------
  // The synchronous endpoints
  // ---------------------------------------------------------------------

  /** What an endpoint answers: a body, an exception object returned as the
      body, or a raised HTTP error. */
  datatype Reply = Body(response: Response) | Returned(status: int) | Raised(status: int)

  /** Whether the request asks for Arabic correction and the middleware is
      enabled. */
  predicate ArabicRequested(options: Option<TaskOptions>, arabic: ArabicCorrection.Middleware) {
    options.Some? && options.value.enableArabic && arabic.enabled
  }

  /** The Arabic step of the synchronous endpoints, which does not catch
      errors: a file response has no `copy` and raises. */
  function CorrectedReply(response: Response, arabic: ArabicCorrection.Middleware, svc: ArabicCorrection.Services): Reply {
    match response
    case FileResp(_) => Raised(500)
    case Inline(fields) =>
      match arabic.ProcessedConversionResult(fields, svc)
      case Success(f) => Body(Inline(f))
      case Failure(_) => Raised(500)
  }

  /** The reply of `process_url` and `process_file` once the wait and the
      result lookup are done. */
  function SyncReply(
    success: bool, result: Option<Response>, options: Option<TaskOptions>,
    arabic: ArabicCorrection.Middleware, svc: ArabicCorrection.Services): (r: Reply)
    ensures !success ==> r == Returned(504)
    ensures success && result.None? ==> r == Raised(404)
    ensures success && result.Some? && !ArabicRequested(options, arabic) ==> r == Body(result.value)
    ensures r.Body? ==> success && result.Some?
  {
    if !success then Returned(504)
    else if result.None? then Raised(404)
    else if ArabicRequested(options, arabic) then CorrectedReply(result.value, arabic, svc)
    else Body(result.value)
  }

  /** The reply evidently intended on a timeout: a raised 504. */
  function SyncReplyIntended(
    success: bool, result: Option<Response>, options: Option<TaskOptions>,
    arabic: ArabicCorrection.Middleware, svc: ArabicCorrection.Services): (r: Reply)
    ensures !success ==> r == Raised(504)
    ensures success ==> r == SyncReply(success, result, options, arabic, svc)
    ensures !r.Returned?
  {
    if !success then Raised(504) else SyncReply(success, result, options, arabic, svc)
  }

  /** On a timeout the endpoints hand the exception back as their body
      instead of raising it; the response model cannot hold it. */
  lemma TimeoutReplyDiscrepancy(
    result: Option<Response>, options: Option<TaskOptions>,
    arabic: ArabicCorrection.Middleware, svc: ArabicCorrection.Services)
    ensures SyncReply(false, result, options, arabic, svc) == Returned(504)
    ensures SyncReplyIntended(false, result, options, arabic, svc) == Raised(504)
  {
  }

  /** When correction is requested, the body is the corrected result, and
      any error of the middleware becomes a server error. */
  lemma SyncReplyCorrects(
    result: Response, options: Option<TaskOptions>,
    arabic: ArabicCorrection.Middleware, svc: ArabicCorrection.Services)
    requires ArabicRequested(options, arabic)
    ensures result.FileResp? ==> SyncReply(true, Some(result), options, arabic, svc) == Raised(500)
    ensures result.Inline? ==>
              (SyncReply(true, Some(result), options, arabic, svc).Body? <==>
               arabic.ProcessedConversionResult(result.fields, svc).Success?)
    ensures result.Inline? && SyncReply(true, Some(result), options, arabic, svc).Body? ==>
              SyncReply(true, Some(result), options, arabic, svc).response.fields.Keys == result.fields.Keys
  {
    if result.Inline? && arabic.ProcessedConversionResult(result.fields, svc).Success? {
      ProcessedConversionKeepsKeys(arabic, result.fields, svc);
    }
  }

  /** The reference definition keeps the keys of the result. */
  lemma ProcessedConversionKeepsKeys(
    arabic: ArabicCorrection.Middleware, fields: map<string, ArabicCorrection.Value>, svc: ArabicCorrection.Services)
    requires arabic.ProcessedConversionResult(fields, svc).Success?
    ensures arabic.ProcessedConversionResult(fields, svc).value.Keys == fields.Keys
  {
  }

  // ---------------------------------------------------------------------
  // The status websocket
  // ---------------------------------------------------------------------

  /** The kinds of websocket message. */
  datatype MessageKind = Connection | Update | Error

  /** The tasks the orchestrator knows and the sockets subscribed to each;
      a task without an entry has no subscribers. */
  /** The subscriptions after a session of socket `ws` on task `taskId`:
      that task's subscribers without the socket. */
  function AfterSession(subs: map<string, set<nat>>, taskId: string, ws: nat): map<string, set<nat>> {
    subs[taskId := (if taskId in subs then subs[taskId] else {}) - {ws}]
  }

  class Subscriptions {
    var tasks: set<string>
    var subscribers: map<string, set<nat>>

    function SubscribersOf(taskId: string): set<nat>
      reads this
    {
      if taskId in subscribers then subscribers[taskId] else {}
    }

    /** `task_status_ws` for socket `ws` whose client sends `received`
        messages and then disconnects: an error and nothing else for an
        unknown task; otherwise a connection message and one update per
        round, with the socket subscribed for the session and removed at
        its end. */
    method TaskStatusWs(taskId: string, ws: nat, received: nat) returns (sent: seq<MessageKind>, closed: bool)
      modifies this
      ensures tasks == old(tasks)
      ensures taskId !in tasks ==> sent == [Error] && closed && subscribers == old(subscribers)
      ensures taskId in tasks ==>
                !closed && |sent| == received + 2 && sent[0] == Connection &&
                (forall i :: 1 <= i < |sent| ==> sent[i] == Update) &&
                subscribers == AfterSession(old(subscribers), taskId, ws)
    {
      if taskId !in tasks {
        return [Error], true;
      }
      subscribers := subscribers[taskId := SubscribersOf(taskId) + {ws}];
      sent := [Connection];
      var rounds := 0;
      while true
        invariant rounds <= received
        invariant |sent| == rounds + 1 && sent[0] == Connection
        invariant forall i :: 1 <= i < |sent| ==> sent[i] == Update
        invariant ws in SubscribersOf(taskId)
        invariant subscribers == old(subscribers)[taskId := old(SubscribersOf(taskId)) + {ws}]
        decreases received - rounds
      {
        sent := sent + [Update];
        if rounds == received {
          break;
        }
        rounds := rounds + 1;
      }
      assert (old(SubscribersOf(taskId)) + {ws}) - {ws} == old(SubscribersOf(taskId)) - {ws};
      subscribers := subscribers[taskId := SubscribersOf(taskId) - {ws}];
      closed := false;
    }
  }

  /** After a session on a known task, the socket is no longer among that
      task's subscribers, even when it was subscribed before the session;
      every other task keeps exactly its subscribers, and no task is added
      or dropped except the session's own. */
  lemma ResubscribedSocketRemoved(subs: map<string, set<nat>>, taskId: string, ws: nat)
    ensures var after := AfterSession(subs, taskId, ws);
            taskId in after && ws !in after[taskId]
            && (taskId in subs ==> after[taskId] == subs[taskId] - {ws})
            && forall t :: t != taskId ==> (t in after <==> t in subs) && (t in subs ==> after[t] == subs[t])
  {
  }

  // ---------------------------------------------------------------------
  // The progress callback
  // ---------------------------------------------------------------------

  /** How `receive_task_progress` ends. */
  datatype ProgressOutcome = Accepted | TaskNotFound | ProgressInvalid(message: string) | OtherError(name: string)

  /** What the callback endpoint answers. */
  datatype CallbackReply = Ack | HttpError(status: int, detail: string) | Propagated(name: string)

  /** `callback_task_progress`: an acknowledgement, 404 for an unknown
      task, 400 with the payload error, any other error passed on. */
  function CallbackTaskProgress(outcome: ProgressOutcome): (r: CallbackReply)
    ensures r == Ack <==> outcome == Accepted
    ensures r.HttpError? && r.status == 404 <==> outcome == TaskNotFound
    ensures r.HttpError? && r.status == 400 <==> outcome.ProgressInvalid?
    ensures outcome.ProgressInvalid? ==> r.detail == "Invalid progress payload: " + outcome.message
    ensures r.Propagated? <==> outcome.OtherError?
  {
    match outcome
    case Accepted => Ack
    case TaskNotFound => HttpError(404, "Task not found.")
    case ProgressInvalid(m) => HttpError(400, "Invalid progress payload: " + m)
    case OtherError(n) => Propagated(n)
  }
}
