/** The upload, status-polling and report-export workflow of the splitter page. The
    component's state is a record; each handler and each reply to an outstanding request is
    a transition. Requests in flight (the upload, a status poll, the one-second timer before
    the next poll, a report export) are kept in `pending`, and the environment answers any
    of them, in any order. */
module Workflow {
  import opened Common
  import ReportFilename

  /** The payment modes, in dropdown order. */
  const PaymentModes: seq<string> :=
    ["BDO", "CEBUANA", "CHINABANK", "ECPAY", "METROBANK", "UNIONBANK", "SM", "PNB", "CIS"]

  /** The areas, in dropdown order. */
  const Areas: seq<string> := ["EPR", "PIC", "PWIC", "PRIMEWATER"]

  const NoPaymentModeMessage: string := "Please select a payment mode first"
  const NoAreaMessage: string := "Please select an area first"
  const UploadFailedMessage: string := "Failed to upload file"
  const StatusFailedMessage: string := "Failed to get processing status"
  const ProcessingErrorMessage: string := "Error processing file"
  const NoDataMessage: string := "No data available for report generation"
  const ReportFailedMessage: string := "Failed to generate report"

  /** `uploadStatus`: 'idle', 'processing', 'completed' or 'error'. There is no separate
      uploading state: a file goes straight to processing. */
  datatype UploadStatus = Idle | Processing | Completed | Failed

  /** The JSON body of a report request. */
  datatype ReportBody = ReportBody(
    processedData: map<string, Json>,
    rawContents: seq<string>,
    separator: Option<string>,
    originalFilename: string,
    area: string)

  /** Work the page has started and not yet seen finish. */
  datatype Request =
    | Upload(fileName: string, paymentMode: string, area: string)
    | StatusPoll(processingId: Json)
    | PollTimer(processingId: Json)
    | ReportExport(body: ReportBody)

  /** What an upload request can end in: a reply that is not `ok`, a thrown error (network
      failure, unreadable body) with its message, or the body carrying `processing_id`. */
  datatype UploadReply = UploadNotOk | UploadThrew(message: string) | UploadAccepted(processingId: Json)

  /** What a status poll can end in. The body's `raw_contents`, `separator` and `error` are
      absent or null as `None`. */
  datatype StatusReply =
    | StatusNotOk
    | StatusThrew(message: string)
    | StatusBody(status: string, processedData: Json, summary: Json,
                 rawContents: Option<seq<string>>, separator: Option<string>, error: Option<string>)

  /** What a report request can end in; a blob comes with the `Content-Disposition` header,
      if any. */
  datatype ReportReply = ReportNotOk | ReportThrew(message: string) | ReportBlob(contentDisposition: Option<string>)

  /** The component state the handlers read and write. `error` is `None` for `null`.
      `downloads` lists the names under which archives have been saved. */
  datatype AppState = AppState(
    selectedPaymentMode: string,
    selectedArea: string,
    uploadStatus: UploadStatus,
    isProcessing: bool,
    error: Option<string>,
    processingId: Json,
    uploadedFile: Option<string>,
    processedData: Option<map<string, Json>>,
    rawContents: Option<seq<string>>,
    separator: Option<string>,
    generatingReport: bool,
    pending: seq<Request>,
    downloads: seq<string>)

  /** The `useState` defaults: nothing selected, nothing uploaded, nothing in flight. */
  function Initial(): (s: AppState)
    ensures s.selectedPaymentMode == "" && s.selectedArea == ""
    ensures s.uploadStatus == Idle && !s.isProcessing && !s.generatingReport
    ensures s.error.None? && s.uploadedFile.None? && s.processingId == JNull
    ensures s.processedData.None? && s.rawContents.None? && s.separator.None?
    ensures s.pending == [] && s.downloads == []
  {
    AppState("", "", Idle, false, None, JNull, None, None, None, None, false, [], [])
  }

  function RemoveAt<T>(xs: seq<T>, i: nat): (r: seq<T>)
    requires i < |xs|
    ensures |r| == |xs| - 1
  {
    xs[..i] + xs[i + 1..]
  }

  /** `{ ...data.processed_data, summary: data.summary }`: the fields of an object (nothing
      for any other value) with `summary` set. */
  function MergeSummary(processedData: Json, summary: Json): (r: map<string, Json>)
    ensures "summary" in r && r["summary"] == summary
    ensures forall k :: k in r && k != "summary" ==> processedData.JObject? && k in processedData.fields && r[k] == processedData.fields[k]
    ensures processedData.JObject? ==> forall k :: k in processedData.fields && k != "summary" ==> k in r
  {
    var fields := if processedData.JObject? then processedData.fields else map[];
    fields["summary" := summary]
  }

  /** A `completed` poll: the data with its summary, the raw lines and the separator (the
      empty string when missing) are stored and processing ends. */
  function Complete(s: AppState, data: Json, summary: Json, raw: Option<seq<string>>, separator: Option<string>): AppState {
    s.(processedData := Some(MergeSummary(data, summary)), rawContents := raw,
       separator := Some(OrElse(separator, "")), isProcessing := false, uploadStatus := Completed)
  }

  /** The catch branches of the upload and the poll. */
  function Fail(s: AppState, message: string): AppState {
    s.(error := Some(message), isProcessing := false, uploadStatus := Failed)
  }

  // ---------------------------------------------------------------------------------------
  // Transitions.

  /** The payment-mode dropdown: the empty placeholder or one of the modes. */
  function SelectPaymentMode(s: AppState, mode: string): AppState
    requires mode == "" || mode in PaymentModes
  {
    s.(selectedPaymentMode := mode)
  }

  /** The area dropdown: the empty placeholder or one of the areas. */
  function SelectArea(s: AppState, area: string): AppState
    requires area == "" || area in Areas
  {
    s.(selectedArea := area)
  }

  /** `handleFileChange` up to the upload request: no file does nothing; a missing payment
      mode or area only sets the error; otherwise the error is cleared, processing starts and
      the upload is sent. */
  function FileChange(s: AppState, file: Option<string>): AppState {
    if file.None? then s
    else if s.selectedPaymentMode == "" then s.(error := Some(NoPaymentModeMessage))
    else if s.selectedArea == "" then s.(error := Some(NoAreaMessage))
    else
      s.(error := Some(""), isProcessing := true, uploadStatus := Processing, uploadedFile := file,
         pending := s.pending + [Upload(file.value, s.selectedPaymentMode, s.selectedArea)])
  }

  /** The rest of `handleFileChange`, when the upload request at `i` settles: failure ends in
      the error state; success records the processing id and starts the first poll. */
  function UploadReplied(s: AppState, i: nat, reply: UploadReply): AppState
    requires i < |s.pending| && s.pending[i].Upload?
  {
    var t := s.(pending := RemoveAt(s.pending, i));
    match reply
    case UploadNotOk => Fail(t, UploadFailedMessage)
    case UploadThrew(message) => Fail(t, message)
    case UploadAccepted(id) => t.(processingId := id, pending := t.pending + [StatusPoll(id)])
  }

  /** `pollProcessingStatus`, when the status request at `i` settles. */
  function StatusReplied(s: AppState, i: nat, reply: StatusReply): AppState
    requires i < |s.pending| && s.pending[i].StatusPoll?
  {
    var id := s.pending[i].processingId;
    var t := s.(pending := RemoveAt(s.pending, i));
    match reply
    case StatusNotOk => Fail(t, StatusFailedMessage)
    case StatusThrew(message) => Fail(t, message)
    case StatusBody(status, data, summary, raw, separator, error) =>
      if status == "completed" then Complete(t, data, summary, raw, separator)
      else if status == "error" then Fail(t, OrElse(error, ProcessingErrorMessage))
      else t.(pending := t.pending + [PollTimer(id)])
  }

  /** The one-second timer before the next poll fires: the next status request is sent. */
  function TimerFired(s: AppState, i: nat): AppState
    requires i < |s.pending| && s.pending[i].PollTimer?
  {
    s.(pending := RemoveAt(s.pending, i) + [StatusPoll(s.pending[i].processingId)])
  }

  /** `handleGenerateReport` up to the request: without processed data or raw contents only
      the error is set; otherwise the export starts with the base name of the uploaded file. */
  function GenerateReport(s: AppState): AppState {
    if s.processedData.None? || s.rawContents.None? then s.(error := Some(NoDataMessage))
    else
      var base := ReportFilename.BaseFileName(ReportFilename.OriginalFileName(s.uploadedFile));
      var body := ReportBody(s.processedData.value, s.rawContents.value, s.separator, base, s.selectedArea);
      s.(generatingReport := true, error := None, pending := s.pending + [ReportExport(body)])
  }

  /** The rest of `handleGenerateReport`, when the export request at `i` settles: a blob is
      saved under the name from the header or the fallback built from the request's own base
      name and area; a failure sets the error. Either way the export is over. */
  function ReportReplied(s: AppState, i: nat, reply: ReportReply): AppState
    requires i < |s.pending| && s.pending[i].ReportExport?
  {
    var body := s.pending[i].body;
    var t := s.(pending := RemoveAt(s.pending, i), generatingReport := false);
    match reply
    case ReportNotOk => t.(error := Some(ReportFailedMessage))
    case ReportThrew(message) => t.(error := Some(OrElse(Some(message), ReportFailedMessage)))
    case ReportBlob(cd) =>
      var name := ReportFilename.DownloadName(cd, body.originalFilename, body.area);
      t.(downloads := t.downloads + [name], error := None)
  }

  /** The "Generate Report" button is shown once there are raw lines and is enabled when no
      export is running and there is processed data. */
  function ReportButtonEnabled(s: AppState): (b: bool)
    ensures b ==> s.processedData.Some? && s.rawContents.Some? && |s.rawContents.value| > 0
    ensures s.generatingReport ==> !b
  {
    s.rawContents.Some? && |s.rawContents.value| > 0 && !s.generatingReport && s.processedData.Some?
  }

  // ---------------------------------------------------------------------------------------
  // The invariant.

  datatype Work = UploadWork | ReportWork

  predicate IsWork(r: Request, w: Work) {
    match w
    case UploadWork => r.Upload? || r.StatusPoll? || r.PollTimer?
    case ReportWork => r.ReportExport?
  }

  /** How many requests of the kind are in flight. */
  function CountWork(rs: seq<Request>, w: Work): nat {
    if rs == [] then 0
    else CountWork(rs[..|rs| - 1], w) + (if IsWork(rs[|rs| - 1], w) then 1 else 0)
  }

  /** What holds in every reachable state: the spinner flag and the status agree, a completed
      upload has data, the data always carries its summary, and the processing and export
      flags are only up while a request of their kind is in flight. */
  ghost predicate Consistent(s: AppState) {
    (s.isProcessing <==> s.uploadStatus == Processing)
    && (s.uploadStatus == Completed ==> s.processedData.Some?)
    && (s.processedData.Some? ==> "summary" in s.processedData.value)
    && (s.isProcessing ==> CountWork(s.pending, UploadWork) > 0)
    && (s.generatingReport ==> CountWork(s.pending, ReportWork) > 0)
  }

  lemma {:induction false} CountWorkAppend(a: seq<Request>, b: seq<Request>, w: Work)
    ensures CountWork(a + b, w) == CountWork(a, w) + CountWork(b, w)
    decreases |b|
  {
    if b == [] {
      assert a + b == a;
    } else {
      assert (a + b)[..|a + b| - 1] == a + b[..|b| - 1];
      CountWorkAppend(a, b[..|b| - 1], w);
    }
  }

  lemma CountWorkSingle(r: Request, w: Work)
    ensures CountWork([r], w) == if IsWork(r, w) then 1 else 0
  {
    assert [r][..0] == [];
  }

  /** Removing a request takes exactly its own kind's count down by one. */
  lemma CountWorkRemoveAt(rs: seq<Request>, i: nat, w: Work)
    requires i < |rs|
    ensures CountWork(rs, w) == CountWork(RemoveAt(rs, i), w) + (if IsWork(rs[i], w) then 1 else 0)
  {
    assert rs == rs[..i] + ([rs[i]] + rs[i + 1..]);
    CountWorkAppend(rs[..i], [rs[i]] + rs[i + 1..], w);
    CountWorkAppend([rs[i]], rs[i + 1..], w);
    CountWorkAppend(rs[..i], rs[i + 1..], w);
    CountWorkSingle(rs[i], w);
  }

  /** Adding a request takes its kind's count up by one and leaves the other kind's alone. */
  lemma CountWorkPush(rs: seq<Request>, r: Request, w: Work)
    ensures CountWork(rs + [r], w) == CountWork(rs, w) + (if IsWork(r, w) then 1 else 0)
  {
    assert (rs + [r])[..|rs|] == rs;
  }

  // ---------------------------------------------------------------------------------------
  // Properties.

  lemma InitialConsistent()
    ensures Consistent(Initial())
  {
  }

  /** Selecting a file while the payment mode or the area is unset only sets the error:
      nothing is uploaded and the status is unchanged. */
  lemma FileChangeNeedsSelections(s: AppState, file: string)
    ensures s.selectedPaymentMode == "" ==> FileChange(s, Some(file)) == s.(error := Some(NoPaymentModeMessage))
    ensures s.selectedPaymentMode != "" && s.selectedArea == "" ==> FileChange(s, Some(file)) == s.(error := Some(NoAreaMessage))
    ensures FileChange(s, None) == s
  {
  }

  /** With both selections made, a file starts processing at once and exactly one upload is
      sent, carrying the file, the payment mode and the area. */
  lemma FileChangeStartsProcessing(s: AppState, file: string)
    requires s.selectedPaymentMode != "" && s.selectedArea != ""
    ensures var t := FileChange(s, Some(file));
            t.uploadStatus == Processing && t.isProcessing && t.error == Some("")
            && t.uploadedFile == Some(file)
            && t.pending == s.pending + [Upload(file, s.selectedPaymentMode, s.selectedArea)]
            && t.processedData == s.processedData && t.rawContents == s.rawContents
  {
  }

  /** A failed upload ends in the error state with the failure's message; a successful one
      records the processing id and replaces the upload by exactly one status poll. */
  lemma UploadOutcomes(s: AppState, i: nat, reply: UploadReply)
    requires i < |s.pending| && s.pending[i].Upload?
    ensures var t := UploadReplied(s, i, reply);
            match reply
            case UploadNotOk => t.uploadStatus == Failed && !t.isProcessing && t.error == Some(UploadFailedMessage)
            case UploadThrew(m) => t.uploadStatus == Failed && !t.isProcessing && t.error == Some(m)
            case UploadAccepted(id) =>
              t.processingId == id && t.pending == RemoveAt(s.pending, i) + [StatusPoll(id)]
              && t.uploadStatus == s.uploadStatus && t.isProcessing == s.isProcessing
  {
  }

  /** A completed poll stores the data with its summary, the raw lines and the separator
      (empty when absent), and ends processing. */
  lemma PollCompleted(s: AppState, i: nat, data: Json, summary: Json, raw: Option<seq<string>>,
                      separator: Option<string>, error: Option<string>)
    requires i < |s.pending| && s.pending[i].StatusPoll?
    ensures var t := StatusReplied(s, i, StatusBody("completed", data, summary, raw, separator, error));
            t.uploadStatus == Completed && !t.isProcessing
            && t.processedData == Some(MergeSummary(data, summary))
            && t.processedData.value["summary"] == summary
            && t.rawContents == raw
            && t.separator == Some(if separator.Some? && separator.value != "" then separator.value else "")
            && t.error == s.error && t.pending == RemoveAt(s.pending, i)
  {
  }

  /** A poll reporting an error ends in the error state, with the service's message or the
      default one. */
  lemma PollReportsError(s: AppState, i: nat, data: Json, summary: Json, raw: Option<seq<string>>,
                         separator: Option<string>, error: Option<string>)
    requires i < |s.pending| && s.pending[i].StatusPoll?
    ensures var t := StatusReplied(s, i, StatusBody("error", data, summary, raw, separator, error));
            t.uploadStatus == Failed && !t.isProcessing
            && t.error == Some(if error.Some? && error.value != "" then error.value else ProcessingErrorMessage)
            && t.processedData == s.processedData && t.rawContents == s.rawContents
  {
  }

  /** Any other status changes nothing but schedules exactly one further poll of the same
      processing id. */
  lemma PollStillRunning(s: AppState, i: nat, status: string, data: Json, summary: Json,
                         raw: Option<seq<string>>, separator: Option<string>, error: Option<string>)
    requires i < |s.pending| && s.pending[i].StatusPoll?
    requires status != "completed" && status != "error"
    ensures StatusReplied(s, i, StatusBody(status, data, summary, raw, separator, error))
            == s.(pending := RemoveAt(s.pending, i) + [PollTimer(s.pending[i].processingId)])
    ensures TimerFired(StatusReplied(s, i, StatusBody(status, data, summary, raw, separator, error)), |s.pending| - 1)
            == s.(pending := RemoveAt(s.pending, i) + [StatusPoll(s.pending[i].processingId)])
  {
    var t := StatusReplied(s, i, StatusBody(status, data, summary, raw, separator, error));
    assert RemoveAt(t.pending, |s.pending| - 1) == RemoveAt(s.pending, i);
  }

  /** A failed status request ends in the error state. */
  lemma PollFails(s: AppState, i: nat, reply: StatusReply)
    requires i < |s.pending| && s.pending[i].StatusPoll?
    requires reply.StatusNotOk? || reply.StatusThrew?
    ensures var t := StatusReplied(s, i, reply);
            t.uploadStatus == Failed && !t.isProcessing
            && t.error == Some(if reply.StatusNotOk? then StatusFailedMessage else reply.message)
  {
  }

  /** Without processed data or raw lines, an export only sets the error and sends nothing. */
  lemma ReportNeedsData(s: AppState)
    requires s.processedData.None? || s.rawContents.None?
    ensures GenerateReport(s) == s.(error := Some(NoDataMessage))
  {
  }

  /** With data, the export sends one request carrying the data, the separator, the uploaded
      file's base name and the selected area. */
  lemma ReportRequestSent(s: AppState)
    requires s.processedData.Some? && s.rawContents.Some?
    ensures var t := GenerateReport(s);
            var base := ReportFilename.BaseFileName(ReportFilename.OriginalFileName(s.uploadedFile));
            t.generatingReport && t.error.None?
            && t.pending == s.pending + [ReportExport(ReportBody(s.processedData.value, s.rawContents.value, s.separator, base, s.selectedArea))]
  {
  }

  /** The button is only enabled when the handler's guard passes. */
  lemma EnabledButtonPassesGuard(s: AppState)
    requires ReportButtonEnabled(s)
    ensures GenerateReport(s).generatingReport
  {
  }

  /** A click on the enabled button disables it: the state the click leads to does not
      offer a second click. */
  lemma ClickDisablesButton(s: AppState)
    requires ReportButtonEnabled(s)
    ensures !ReportButtonEnabled(GenerateReport(s))
  {
    EnabledButtonPassesGuard(s);
  }

  /** A failed export sets the error and leaves the processed data and raw lines as they
      were; nothing is saved. */
  lemma FailedExportKeepsData(s: AppState, i: nat, reply: ReportReply)
    requires i < |s.pending| && s.pending[i].ReportExport?
    requires !reply.ReportBlob?
    ensures var t := ReportReplied(s, i, reply);
            t.processedData == s.processedData && t.rawContents == s.rawContents
            && t.downloads == s.downloads && !t.generatingReport
            && t.error == Some(if reply.ReportThrew? && reply.message != "" then reply.message else ReportFailedMessage)
  {
  }

  /** A successful export saves exactly one archive, under the header's name or
      `<base>_<area>.zip`. */
  lemma ExportSavesArchive(s: AppState, i: nat, cd: Option<string>)
    requires i < |s.pending| && s.pending[i].ReportExport?
    ensures var t := ReportReplied(s, i, ReportBlob(cd));
            var body := s.pending[i].body;
            t.downloads == s.downloads + [ReportFilename.DownloadName(cd, body.originalFilename, body.area)]
            && !t.generatingReport && t.error.None?
            && t.processedData == s.processedData && t.rawContents == s.rawContents
  {
  }

  lemma FileChangeConsistent(s: AppState, file: Option<string>)
    requires Consistent(s)
    ensures Consistent(FileChange(s, file))
  {
    if file.Some? && s.selectedPaymentMode != "" && s.selectedArea != "" {
      var r := Upload(file.value, s.selectedPaymentMode, s.selectedArea);
      CountWorkPush(s.pending, r, UploadWork);
      CountWorkPush(s.pending, r, ReportWork);
    }
  }

  lemma UploadRepliedConsistent(s: AppState, i: nat, reply: UploadReply)
    requires Consistent(s) && i < |s.pending| && s.pending[i].Upload?
    ensures Consistent(UploadReplied(s, i, reply))
  {
    var rest := RemoveAt(s.pending, i);
    CountWorkRemoveAt(s.pending, i, UploadWork);
    CountWorkRemoveAt(s.pending, i, ReportWork);
    if reply.UploadAccepted? {
      CountWorkPush(rest, StatusPoll(reply.processingId), UploadWork);
      CountWorkPush(rest, StatusPoll(reply.processingId), ReportWork);
    }
  }

  lemma StatusRepliedConsistent(s: AppState, i: nat, reply: StatusReply)
    requires Consistent(s) && i < |s.pending| && s.pending[i].StatusPoll?
    ensures Consistent(StatusReplied(s, i, reply))
  {
    var rest := RemoveAt(s.pending, i);
    var timer := PollTimer(s.pending[i].processingId);
    CountWorkRemoveAt(s.pending, i, UploadWork);
    CountWorkRemoveAt(s.pending, i, ReportWork);
    CountWorkPush(rest, timer, UploadWork);
    CountWorkPush(rest, timer, ReportWork);
  }

  lemma TimerFiredConsistent(s: AppState, i: nat)
    requires Consistent(s) && i < |s.pending| && s.pending[i].PollTimer?
    ensures Consistent(TimerFired(s, i))
  {
    var rest := RemoveAt(s.pending, i);
    var poll := StatusPoll(s.pending[i].processingId);
    CountWorkRemoveAt(s.pending, i, UploadWork);
    CountWorkRemoveAt(s.pending, i, ReportWork);
    CountWorkPush(rest, poll, UploadWork);
    CountWorkPush(rest, poll, ReportWork);
  }

  lemma GenerateReportConsistent(s: AppState)
    requires Consistent(s)
    ensures Consistent(GenerateReport(s))
  {
    if s.processedData.Some? && s.rawContents.Some? {
      var r := GenerateReport(s).pending[|s.pending|];
      CountWorkPush(s.pending, r, UploadWork);
      CountWorkPush(s.pending, r, ReportWork);
    }
  }

  lemma ReportRepliedConsistent(s: AppState, i: nat, reply: ReportReply)
    requires Consistent(s) && i < |s.pending| && s.pending[i].ReportExport?
    ensures Consistent(ReportReplied(s, i, reply))
  {
    CountWorkRemoveAt(s.pending, i, UploadWork);
  }

  // ---------------------------------------------------------------------------------------
  // The component.

  /** The page's state, updated in place by its handlers and by the replies. */
  class App {
    var selectedPaymentMode: string
    var selectedArea: string
    var uploadStatus: UploadStatus
    var isProcessing: bool
    var error: Option<string>
    var processingId: Json
    var uploadedFile: Option<string>
    var processedData: Option<map<string, Json>>
    var rawContents: Option<seq<string>>
    var separator: Option<string>
    var generatingReport: bool
    var pending: seq<Request>
    var downloads: seq<string>

    function State(): AppState
      reads this
    {
      AppState(selectedPaymentMode, selectedArea, uploadStatus, isProcessing, error, processingId,
               uploadedFile, processedData, rawContents, separator, generatingReport, pending, downloads)
    }

    ghost predicate Valid()
      reads this
    {
      Consistent(State())
    }

    constructor ()
      ensures State() == Initial() && Valid()
    {
      selectedPaymentMode, selectedArea := "", "";
      uploadStatus, isProcessing, error := Idle, false, None;
      processingId, uploadedFile := JNull, None;
      processedData, rawContents, separator := None, None, None;
      generatingReport, pending, downloads := false, [], [];
    }

    method SetPaymentMode(mode: string)
      requires mode == "" || mode in PaymentModes
      requires Valid()
      modifies this
      ensures State() == SelectPaymentMode(old(State()), mode) && Valid()
    {
      selectedPaymentMode := mode;
    }

    method SetArea(area: string)
      requires area == "" || area in Areas
      requires Valid()
      modifies this
      ensures State() == SelectArea(old(State()), area) && Valid()
    {
      selectedArea := area;
    }

    method HandleFileChange(file: Option<string>)
      requires Valid()
      modifies this
      ensures State() == FileChange(old(State()), file) && Valid()
    {
      FileChangeConsistent(State(), file);
      if file.None? {
        return;
      }
      if selectedPaymentMode == "" {
        error := Some(NoPaymentModeMessage);
        return;
      }
      if selectedArea == "" {
        error := Some(NoAreaMessage);
        return;
      }
      error := Some("");
      isProcessing := true;
      uploadStatus := Processing;
      uploadedFile := file;
      pending := pending + [Upload(file.value, selectedPaymentMode, selectedArea)];
    }

    method OnUploadReply(i: nat, reply: UploadReply)
      requires Valid() && i < |pending| && pending[i].Upload?
      modifies this
      ensures State() == UploadReplied(old(State()), i, reply) && Valid()
    {
      UploadRepliedConsistent(State(), i, reply);
      pending := RemoveAt(pending, i);
      match reply
      case UploadAccepted(id) =>
        processingId := id;
        pending := pending + [StatusPoll(id)];
      case UploadNotOk =>
        error, isProcessing, uploadStatus := Some(UploadFailedMessage), false, Failed;
      case UploadThrew(message) =>
        error, isProcessing, uploadStatus := Some(message), false, Failed;
    }

    method OnStatusReply(i: nat, reply: StatusReply)
      requires Valid() && i < |pending| && pending[i].StatusPoll?
      modifies this
      ensures State() == StatusReplied(old(State()), i, reply) && Valid()
    {
      StatusRepliedConsistent(State(), i, reply);
      var id := pending[i].processingId;
      pending := RemoveAt(pending, i);
      match reply
      case StatusNotOk =>
        error, isProcessing, uploadStatus := Some(StatusFailedMessage), false, Failed;
      case StatusThrew(message) =>
        error, isProcessing, uploadStatus := Some(message), false, Failed;
      case StatusBody(status, data, summary, raw, sep, err) =>
        if status == "completed" {
          StoreCompleted(data, summary, raw, sep);
        } else if status == "error" {
          error, isProcessing, uploadStatus := Some(OrElse(err, ProcessingErrorMessage)), false, Failed;
        } else {
          pending := pending + [PollTimer(id)];
        }
    }

    /** The state updates of a `completed` poll. */
    method StoreCompleted(data: Json, summary: Json, raw: Option<seq<string>>, sep: Option<string>)
      modifies this
      ensures State() == Complete(old(State()), data, summary, raw, sep)
    {
      processedData, rawContents, separator := Some(MergeSummary(data, summary)), raw, Some(OrElse(sep, ""));
      isProcessing, uploadStatus := false, Completed;
    }

    method OnPollTimer(i: nat)
      requires Valid() && i < |pending| && pending[i].PollTimer?
      modifies this
      ensures State() == TimerFired(old(State()), i) && Valid()
    {
      TimerFiredConsistent(State(), i);
      var id := pending[i].processingId;
      pending := RemoveAt(pending, i) + [StatusPoll(id)];
    }

    method HandleGenerateReport()
      requires Valid()
      modifies this
      ensures State() == GenerateReport(old(State())) && Valid()
    {
      GenerateReportConsistent(State());
      if processedData.None? || rawContents.None? {
        error := Some(NoDataMessage);
        return;
      }
      generatingReport := true;
      error := None;
      var base := ReportFilename.BaseFileName(ReportFilename.OriginalFileName(uploadedFile));
      var body := ReportBody(processedData.value, rawContents.value, separator, base, selectedArea);
      pending := pending + [ReportExport(body)];
    }

    method OnReportReply(i: nat, reply: ReportReply)
      requires Valid() && i < |pending| && pending[i].ReportExport?
      modifies this
      ensures State() == ReportReplied(old(State()), i, reply) && Valid()
    {
      ReportRepliedConsistent(State(), i, reply);
      var body := pending[i].body;
      pending := RemoveAt(pending, i);
      match reply
      case ReportBlob(cd) =>
        var name := ReportFilename.DownloadName(cd, body.originalFilename, body.area);
        downloads := downloads + [name];
        generatingReport := false;
        error := None;
      case ReportNotOk =>
        error := Some(ReportFailedMessage);
        generatingReport := false;
      case ReportThrew(message) =>
        error := Some(OrElse(Some(message), ReportFailedMessage));
        generatingReport := false;
    }
  }
}
