/** The main window as a controller: the input file, the output folder and the
    running worker it keeps, the two buttons whose state it derives from them,
    the message boxes it shows, and the five panels.  User actions and worker
    signals are functions from window to window. */
module MainWindow {
  import opened Wrappers
  import opened Text
  import opened Settings
  import opened Models
  import StemSeparator
  import FileHandler
  import Paths
  import AudioSection
  import ModelSelection
  import ProgressSection
  import StemSelection
  import OutputSection

  /** The window's state.  `thread` is the job of the worker the window holds;
      `workerConnected` records whether any worker's signals have been connected
      to the window's slots, which is what lets worker signals arrive at all;
      `alerts` lists the texts of the message boxes shown so far. */
  datatype Window = Window(
    settings: AppSettings,
    inputFile: Option<string>,
    outputDir: Option<string>,
    thread: Option<StemSeparator.Job>,
    workerConnected: bool,
    extractEnabled: bool,
    cancelVisible: bool,
    alerts: seq<string>,
    audio: AudioSection.Section,
    models: ModelSelection.Combo,
    progress: ProgressSection.Section,
    stems: StemSelection.Section,
    output: OutputSection.Section)

  /** Python truthiness of an optional string: present and non-empty. */
  predicate Filled(o: Option<string>) {
    o.Some? && o.value != ""
  }

  /** The warning shown when extraction is asked for with no stem ticked. */
  const NoStemWarning := "Please select at least one stem"

  /** The text of the error box `handle_error` shows. */
  function ErrorAlert(message: string): (r: string)
    ensures StartsWith(r, "An error occurred: ") && EndsWith(r, message)
  {
    EndsWithAppend("An error occurred: ", message);
    "An error occurred: " + message
  }

  /** The failed result `handle_error` completes with. */
  function Failed(message: string): ProcessingResult {
    ProcessingResult(false, [], message, 0)
  }

  /** `:.1f` of a time held in tenths of a second. */
  function TenthsText(tenths: nat): (r: string)
    ensures |r| >= 3 && r[|r| - 2] == '.' && AllDigits(r[..|r| - 2]) && IsDigit(r[|r| - 1])
  {
    var whole := NatToString(tenths / 10);
    var r := whole + "." + [DigitChar(tenths % 10)];
    assert r[..|r| - 2] == whole;
    r
  }

  /** The completion text `on_extraction_complete` shows. */
  function CompletionMessage(result: ProcessingResult): (r: string)
    ensures !result.success ==> r == "Extraction failed!"
    ensures result.success ==> StartsWith(r, "Extraction complete! (") && EndsWith(r, "s)")
    ensures result.success ==> r == "Extraction complete! (" + TenthsText(result.elapsedTenths) + "s)"
  {
    if result.success then
      var head := "Extraction complete! (" + TenthsText(result.elapsedTenths);
      EndsWithAppend(head, "s)");
      assert (head + "s)")[..22] == "Extraction complete! (";
      head + "s)"
    else "Extraction failed!"
  }

  /** The window as `__init__` leaves it: nothing chosen, no worker, extract
      disabled, cancel hidden, the combo populated, and then
      `initialize_default_model` passing the combo's model to `on_model_changed`. */
  function Init(settings: AppSettings): (r: Window)
    ensures r.inputFile.None? && r.outputDir.None? && r.thread.None? && !r.workerConnected
    ensures !r.extractEnabled && !r.cancelVisible && r.alerts == []
    ensures r.audio == AudioSection.Initial && r.output == OutputSection.Initial
    ensures r.progress == ProgressSection.Initial && r.models == ModelSelection.Populate(settings)
  {
    var built := Window(settings, None, None, None, false, false, false, [],
                        AudioSection.Initial, ModelSelection.Populate(settings), ProgressSection.Initial,
                        StemSelection.Initial, OutputSection.Initial);
    OnModelChanged(built, ModelSelection.SelectedModel(built.models, settings))
  }

  /** `update_extract_button_state`: extract is possible with an input file and an
      output folder, both non-empty, and no worker. */
  predicate CanExtract(w: Window) {
    Filled(w.inputFile) && Filled(w.outputDir) && w.thread.None?
  }

  /** `on_file_selected`: store the path and recompute the extract button. */
  function OnFileSelected(w: Window, filePath: string): (r: Window)
    ensures r.inputFile == Some(filePath) && r.extractEnabled == CanExtract(r)
    ensures r.(inputFile := w.inputFile, extractEnabled := w.extractEnabled) == w
  {
    var v := w.(inputFile := Some(filePath));
    v.(extractEnabled := CanExtract(v))
  }

  /** `on_output_folder_selected`: store the folder and recompute the extract button. */
  function OnOutputFolderSelected(w: Window, folderPath: string): (r: Window)
    ensures r.outputDir == Some(folderPath) && r.extractEnabled == CanExtract(r)
    ensures r.(outputDir := w.outputDir, extractEnabled := w.extractEnabled) == w
  {
    var v := w.(outputDir := Some(folderPath));
    v.(extractEnabled := CanExtract(v))
  }

  /** `on_model_changed`: give the stem panel the model's vocabulary.  For a key
      the registry lacks, `model_info.stems` raises inside the slot and nothing
      changes. */
  function OnModelChanged(w: Window, modelKey: string): (r: Window)
    ensures GetModel(modelKey).None? ==> r == w
    ensures GetModel(modelKey).Some? ==>
      r == w.(stems := StemSelection.UpdateStems(w.stems, GetModel(modelKey).value.stems))
  {
    match GetModel(modelKey)
    case None => w
    case Some(info) => w.(stems := StemSelection.UpdateStems(w.stems, info.stems))
  }

  /** `start_extraction`: nothing without an input file and an output folder; a
      warning and no worker when no stem is ticked; otherwise the progress panel
      starts, extract is disabled, cancel shown, and a worker is created for the
      file, the folder, the ticked stems and the selected model.  It does not look
      at an existing worker. */
  function StartExtraction(w: Window): (r: Window)
    ensures !Filled(w.inputFile) || !Filled(w.outputDir) ==> r == w
    ensures Filled(w.inputFile) && Filled(w.outputDir) && StemSelection.SelectedStems(w.stems.boxes) == [] ==>
      r == w.(alerts := w.alerts + [NoStemWarning])
    ensures Filled(w.inputFile) && Filled(w.outputDir) && StemSelection.SelectedStems(w.stems.boxes) != [] ==>
      && r.thread == Some(StemSeparator.Job(w.inputFile.value, w.outputDir.value,
                                            StemSelection.SelectedStems(w.stems.boxes),
                                            ModelSelection.SelectedModel(w.models, w.settings)))
      && r.workerConnected && !r.extractEnabled && r.cancelVisible
      && r.progress == ProgressSection.StartProcessing(w.progress)
      && r.(thread := w.thread, workerConnected := w.workerConnected, extractEnabled := w.extractEnabled,
            cancelVisible := w.cancelVisible, progress := w.progress) == w
  {
    if !Filled(w.inputFile) || !Filled(w.outputDir) then w
    else
      var selected := StemSelection.SelectedStems(w.stems.boxes);
      if selected == [] then w.(alerts := w.alerts + [NoStemWarning])
      else
        var job := StemSeparator.Job(w.inputFile.value, w.outputDir.value, selected,
                                     ModelSelection.SelectedModel(w.models, w.settings));
        w.(progress := ProgressSection.StartProcessing(w.progress), extractEnabled := false,
           cancelVisible := true, thread := Some(job), workerConnected := true)
  }

  /** `on_extraction_complete`: stop the progress panel and show the outcome,
      enable extract, hide cancel and drop the worker; nothing else changes. */
  function Complete(w: Window, result: ProcessingResult): (r: Window)
    ensures r.thread.None? && r.extractEnabled && !r.cancelVisible
    ensures r.progress.labelText == CompletionMessage(result)
    ensures !r.progress.barVisible && r.progress.timer == ProgressSection.NoTimer
    ensures r.progress.bar == w.progress.bar
    ensures r.(thread := w.thread, extractEnabled := w.extractEnabled, cancelVisible := w.cancelVisible,
               progress := w.progress) == w
  {
    var stopped := ProgressSection.StopProcessing(w.progress);
    w.(progress := ProgressSection.ShowMessage(stopped, CompletionMessage(result)),
       extractEnabled := true, cancelVisible := false, thread := None)
  }

  /** `handle_error`: show the error box, then complete with a failed result
      carrying the message. */
  function HandleError(w: Window, message: string): (r: Window)
    ensures r == Complete(w.(alerts := w.alerts + [ErrorAlert(message)]), Failed(message))
    ensures r.alerts == w.alerts + [ErrorAlert(message)]
    ensures r.thread.None? && r.extractEnabled && !r.cancelVisible
    ensures r.progress.labelText == "Extraction failed!" && !r.progress.barVisible
    ensures r == w.(alerts := r.alerts, thread := None, extractEnabled := true, cancelVisible := false,
                    progress := r.progress)
  {
    Complete(w.(alerts := w.alerts + [ErrorAlert(message)]), Failed(message))
  }

  /** One worker signal, routed as `start_extraction` connects it: the progress
      signals to the progress panel, `error` to `handle_error`, `finished` to
      `on_extraction_complete`. */
  function Deliver(w: Window, e: StemSeparator.Event): (r: Window)
    ensures !e.ErrorSignal? && !e.Finished? ==> r == w.(progress := r.progress)
    ensures e.Finished? ==> r == Complete(w, e.result)
    ensures e.ErrorSignal? ==> r == HandleError(w, e.message)
  {
    match e
    case AudioInfo(info) => w.(progress := ProgressSection.UpdateAudioInfo(w.progress, info))
    case Progress(value) => w.(progress := ProgressSection.UpdateProgress(w.progress, value))
    case StatusChanged(status) => w.(progress := ProgressSection.UpdateStatus(w.progress, status))
    case DeviceInfo(device) => w.(progress := ProgressSection.UpdateDeviceInfo(w.progress, device))
    case ArtificialProgressFinished => w.(progress := ProgressSection.StopArtificialProgress(w.progress))
    case ErrorSignal(message) => HandleError(w, message)
    case Finished(result) => Complete(w, result)
  }

  /** The window after the signals, delivered in order. */
  function DeliverAll(w: Window, events: seq<StemSeparator.Event>): Window
    decreases |events|
  {
    if |events| == 0 then w else DeliverAll(Deliver(w, events[0]), events[1..])
  }

  /** The endings a drag or a drop accepts, compared with the lower-cased path. */
  const DropExtensions: seq<string> := [".mp3", ".wav", ".flac", ".m4a", ".ogg"]

  /** `file_path.lower().endswith((...))`. */
  predicate Droppable(filePath: string) {
    exists i :: 0 <= i < |DropExtensions| && EndsWith(Lower(filePath), DropExtensions[i])
  }

  /** The local file a drop would take, if any. */
  function FirstDroppable(urls: seq<FileHandler.Url>): (r: Option<string>)
    ensures r.None? <==> forall i :: 0 <= i < |urls| ==> !(urls[i].isLocalFile && Droppable(urls[i].localFile))
    ensures r.Some? ==>
      exists i :: && 0 <= i < |urls| && urls[i].isLocalFile && urls[i].localFile == r.value
                  && Droppable(r.value)
                  && forall j :: 0 <= j < i ==> !(urls[j].isLocalFile && Droppable(urls[j].localFile))
  {
    if |urls| == 0 then None
    else if urls[0].isLocalFile && Droppable(urls[0].localFile) then Some(urls[0].localFile)
    else
      var rest := FirstDroppable(urls[1..]);
      assert forall i :: 1 <= i < |urls| ==> urls[i] == urls[1..][i - 1];
      if rest.Some? then
        var k :| 0 <= k < |urls[1..]| && urls[1..][k].isLocalFile && urls[1..][k].localFile == rest.value
          && Droppable(rest.value)
          && forall j :: 0 <= j < k ==> !(urls[1..][j].isLocalFile && Droppable(urls[1..][j].localFile));
        assert urls[k + 1] == urls[1..][k];
        rest
      else rest
  }

  /** `dragEnterEvent`: the drag is accepted when it carries a droppable file. */
  predicate DragEnterAccepted(urls: seq<FileHandler.Url>) {
    FirstDroppable(urls).Some?
  }

  /** `dropEvent`: the first droppable file becomes the audio panel's file and the
      input file, and the drop is accepted; otherwise nothing changes. */
  function Drop(w: Window, urls: seq<FileHandler.Url>): (r: (Window, bool))
    ensures FirstDroppable(urls).None? ==> r == (w, false)
    ensures FirstDroppable(urls).Some? ==>
      var p := FirstDroppable(urls).value;
      r.1 && r.0 == OnFileSelected(w.(audio := AudioSection.SetSelectedFile(w.audio, p, w.settings)), p)
  {
    match FirstDroppable(urls)
    case None => (w, false)
    case Some(p) => (OnFileSelected(w.(audio := AudioSection.SetSelectedFile(w.audio, p, w.settings)), p), true)
  }

  /** What `closeEvent` does: whether it asked the user, and whether it closed. */
  datatype CloseReply = CloseReply(asked: bool, accepted: bool)

  /** `closeEvent` with the user's answer to the force-close question. */
  function CloseEvent(w: Window, answerYes: bool): (r: CloseReply)
    ensures r.asked <==> w.thread.Some?
    ensures r.accepted <==> w.thread.None? || answerYes
  {
    if w.thread.Some? then CloseReply(true, answerYes) else CloseReply(false, true)
  }

  /** `force_cancel` with the user's answer: whether the application restarts. */
  function ForceCancel(w: Window, answerYes: bool): (r: bool)
    ensures r <==> w.thread.Some? && answerYes
  {
    if w.thread.Some? then answerYes else false
  }

  /** What can happen to the window: a file or folder dialog answered ("" when
      cancelled), a drop, a combo entry picked, a stem box set, the stem panel's
      select/deselect all, a click on extract, the 1.5 s single shot that starts
      the artificial progress, a tick of its timer with the random increment in
      hundredths, a tick of the ramp's timer, and a worker signal. */
  datatype Action =
    | ChooseFile(chosen: string)
    | ChooseFolder(chosen: string)
    | DropUrls(urls: seq<FileHandler.Url>)
    | PickModel(index: nat)
    | SetStem(stem: string, selected: bool)
    | SelectAllStems
    | DeselectAllStems
    | ClickExtract
    | ArtificialStart
    | AnimationTick(increment: nat)
    | RampTick
    | WorkerSignal(event: StemSeparator.Event)

  /** The buttons agree with the state: cancel is shown exactly while a worker is
      held, extract is enabled exactly when extraction is possible, and once a
      worker has been connected there is an input file and an output folder. */
  predicate ButtonsAgree(w: Window) {
    && w.cancelVisible == w.thread.Some?
    && w.extractEnabled == CanExtract(w)
    && (w.thread.Some? ==> w.workerConnected)
    && (w.workerConnected ==> Filled(w.inputFile) && Filled(w.outputDir))
  }

  /** The panels agree with each other: the combo holds the registry's keys with a
      current entry, and the stem panel shows that entry's vocabulary. */
  predicate PanelsAgree(w: Window) {
    && ModelSelection.ItemKeys(w.models.items) == ModelKeys()
    && 0 <= w.models.current < |w.models.items|
    && StemSelection.Valid(w.stems)
    && StemSelection.Stems(w.stems.boxes) == Registry[w.models.current].stems
  }

  /** The window's invariant. */
  predicate Consistent(w: Window) {
    ButtonsAgree(w) && PanelsAgree(w)
  }

  /** A file dialog answered: `select_file`, then `on_file_selected` when it
      emits. */
  function FileChosen(w: Window, chosen: string): (r: Window)
    ensures chosen == "" ==> r == w
    ensures chosen != "" ==> r == OnFileSelected(w.(audio := AudioSection.SelectFile(w.audio, chosen, w.settings).0), chosen)
  {
    var (audio, sent) := AudioSection.SelectFile(w.audio, chosen, w.settings);
    if sent.Some? then OnFileSelected(w.(audio := audio), sent.value) else w
  }

  /** A folder dialog answered: `select_folder`, then `on_output_folder_selected`
      when it emits. */
  function FolderChosen(w: Window, chosen: string): (r: Window)
    ensures chosen == "" ==> r == w
    ensures chosen != "" ==> r == OnOutputFolderSelected(w.(output := OutputSection.SelectFolder(w.output, chosen, w.settings).0), chosen)
  {
    var (output, sent) := OutputSection.SelectFolder(w.output, chosen, w.settings);
    if sent.Some? then OnOutputFolderSelected(w.(output := output), sent.value) else w
  }

  /** A combo entry picked: the combo moves, and a change with a non-empty key
      reaches `on_model_changed`; an index past the entries does nothing. */
  function ModelPicked(w: Window, index: nat): (r: Window)
    ensures index >= |w.models.items| ==> r == w
    ensures index < |w.models.items| ==> r.models == ModelSelection.SetCurrentIndex(w.models, index).0
  {
    if index < |w.models.items| then
      var (combo, sent) := ModelSelection.SetCurrentIndex(w.models, index);
      var v := w.(models := combo);
      if sent.Some? then OnModelChanged(v, sent.value) else v
    else w
  }

  /** One action, as the connected slots handle it.  Extract reacts only while
      enabled; a timer ticks only while it runs; worker signals arrive only once
      some worker has been connected. */
  function Step(w: Window, a: Action): (r: Window)
    requires StemSelection.Valid(w.stems)
  {
    match a
    case ChooseFile(chosen) => FileChosen(w, chosen)
    case ChooseFolder(chosen) => FolderChosen(w, chosen)
    case DropUrls(urls) => Drop(w, urls).0
    case PickModel(index) => ModelPicked(w, index)
    case SetStem(stem, selected) => w.(stems := StemSelection.SetStemSelection(w.stems, stem, selected))
    case SelectAllStems => w.(stems := StemSelection.SelectAll(w.stems))
    case DeselectAllStems => w.(stems := StemSelection.DeselectAll(w.stems))
    case ClickExtract => if w.extractEnabled then StartExtraction(w) else w
    case ArtificialStart => w.(progress := ProgressSection.StartArtificialProgress(w.progress))
    case AnimationTick(increment) =>
      if w.progress.timer == ProgressSection.Running then w.(progress := ProgressSection.ArtificialTick(w.progress, increment)) else w
    case RampTick => if w.progress.ramping then w.(progress := ProgressSection.RampStep(w.progress)) else w
    case WorkerSignal(e) => if w.workerConnected then Deliver(w, e) else w
  }

  /** The window after a session of actions from `__init__`; it is always
      consistent. */
  function Session(settings: AppSettings, actions: seq<Action>): (r: Window)
    ensures Consistent(r)
    decreases |actions|
  {
    if |actions| == 0 then
      InitConsistent(settings);
      Init(settings)
    else
      var before := Session(settings, actions[..|actions| - 1]);
      StepConsistent(before, actions[|actions| - 1]);
      Step(before, actions[|actions| - 1])
  }

  /** Every model's vocabulary names each stem once. */
  lemma VocabularyDistinct(m: ModelInfo)
    requires m in Registry
    ensures StemSelection.Distinct(m.stems)
  {
    StemVocabulary(m);
    assert StemSelection.Distinct(SixStems) by {
      assert SixStems == ["drums", "bass", "other", "vocals", "piano", "guitar"];
    }
  }

  /** A combo holding the registry's keys selects the current entry's key, which
      the registry maps to that entry. */
  lemma SelectedEntry(c: ModelSelection.Combo, settings: AppSettings)
    requires ModelSelection.ItemKeys(c.items) == ModelKeys() && 0 <= c.current < |c.items|
    ensures ModelSelection.SelectedModel(c, settings) == Registry[c.current].key
    ensures GetModel(Registry[c.current].key) == Some(Registry[c.current])
  {
    RegistryKeysDistinct();
    assert ModelSelection.ItemKeys(c.items)[c.current] == c.items[c.current].key;
    GetModelAt(c.current);
  }

  /** The stem panel after `on_model_changed` with a registry model shows that
      model's vocabulary, every stem ticked. */
  lemma ModelChangedShowsVocabulary(w: Window, key: string)
    requires GetModel(key).Some?
    ensures StemSelection.Stems(OnModelChanged(w, key).stems.boxes) == GetModel(key).value.stems
    ensures StemSelection.SelectedStems(OnModelChanged(w, key).stems.boxes) == GetModel(key).value.stems
  {
    VocabularyDistinct(GetModel(key).value);
    StemSelection.UpdateStemsSelectsAll(w.stems, GetModel(key).value.stems);
  }

  /** The window `__init__` builds is consistent. */
  lemma InitConsistent(settings: AppSettings)
    ensures Consistent(Init(settings))
  {
    var c := ModelSelection.Populate(settings);
    SelectedEntry(c, settings);
    ModelChangedShowsVocabulary(Window(settings, None, None, None, false, false, false, [],
                                       AudioSection.Initial, c, ProgressSection.Initial,
                                       StemSelection.Initial, OutputSection.Initial),
                                ModelSelection.SelectedModel(c, settings));
  }

  /** A droppable path is never empty. */
  lemma DroppableNonEmpty(filePath: string)
    requires Droppable(filePath)
    ensures filePath != ""
  {
    var i :| 0 <= i < |DropExtensions| && EndsWith(Lower(filePath), DropExtensions[i]);
    assert |DropExtensions[i]| >= 4;
  }

  /** Picking a combo entry keeps the window consistent. */
  lemma ModelPickedConsistent(w: Window, index: nat)
    requires Consistent(w)
    ensures Consistent(ModelPicked(w, index))
  {
    if index < |w.models.items| {
      var (combo, sent) := ModelSelection.SetCurrentIndex(w.models, index);
      SelectedEntry(w.models, w.settings);
      SelectedEntry(combo, w.settings);
      assert ModelSelection.ItemKeys(combo.items) == ModelKeys();
      if sent.Some? {
        ModelChangedShowsVocabulary(w.(models := combo), sent.value);
      }
    }
  }

  /** A drop keeps the window consistent: the file it takes is never empty. */
  lemma DropConsistent(w: Window, urls: seq<FileHandler.Url>)
    requires Consistent(w)
    ensures Consistent(Drop(w, urls).0)
  {
    if FirstDroppable(urls).Some? {
      DroppableNonEmpty(FirstDroppable(urls).value);
    }
  }

  /** A dialog answer keeps the window consistent. */
  lemma ChosenConsistent(w: Window, chosen: string)
    requires Consistent(w)
    ensures Consistent(FileChosen(w, chosen)) && Consistent(FolderChosen(w, chosen))
  {
  }

  /** A click on extract keeps the window consistent: it only reaches
      `start_extraction` while extraction is possible. */
  lemma ClickConsistent(w: Window)
    requires Consistent(w)
    ensures Consistent(Step(w, ClickExtract))
  {
  }

  /** A worker signal keeps the window consistent. */
  lemma SignalConsistent(w: Window, e: StemSeparator.Event)
    requires Consistent(w)
    ensures Consistent(Step(w, WorkerSignal(e)))
  {
  }

  /** Every action keeps the window consistent. */
  lemma StepConsistent(w: Window, a: Action)
    requires Consistent(w)
    ensures Consistent(Step(w, a))
  {
    match a
    case ChooseFile(chosen) => ChosenConsistent(w, chosen);
    case ChooseFolder(chosen) => ChosenConsistent(w, chosen);
    case DropUrls(urls) => DropConsistent(w, urls);
    case PickModel(index) => ModelPickedConsistent(w, index);
    case ClickExtract => ClickConsistent(w);
    case WorkerSignal(e) => SignalConsistent(w, e);
    case _ =>
  }

  /** `start_extraction` itself would replace a running worker, but in a
      consistent window the extract button is disabled while a worker runs, so a
      click then does nothing. */
  lemma ClickWhileRunning(w: Window)
    requires Consistent(w) && w.thread.Some?
    ensures Step(w, ClickExtract) == w
  {
  }

  /** A click that starts a worker gives it a job the worker can carry out: a
      registry model, at least one stem, and only stems of that model's
      vocabulary. */
  lemma StartedJobFits(w: Window, job: StemSeparator.Job)
    requires Consistent(w) && w.thread.None? && Step(w, ClickExtract).thread == Some(job)
    ensures GetModel(job.modelName) == Some(Registry[w.models.current])
    ensures |job.stems| > 0
    ensures forall k :: 0 <= k < |job.stems| ==> job.stems[k] in Registry[w.models.current].stems
  {
    var boxes := w.stems.boxes;
    SelectedEntry(w.models, w.settings);
    ClickedJob(w, job);
    forall k | 0 <= k < |job.stems| ensures job.stems[k] in Registry[w.models.current].stems {
      assert job.stems[k] in StemSelection.SelectedStems(boxes);
      var i :| 0 <= i < |boxes| && boxes[i].stem == job.stems[k] && boxes[i].checked;
      assert StemSelection.Stems(boxes)[i] == job.stems[k];
    }
  }

  /** The job a click starts carries the ticked stems, of which there is one at
      least, and the selected model. */
  lemma ClickedJob(w: Window, job: StemSeparator.Job)
    requires StemSelection.Valid(w.stems) && w.thread.None? && Step(w, ClickExtract).thread == Some(job)
    ensures job.stems == StemSelection.SelectedStems(w.stems.boxes) && |job.stems| > 0
    ensures job.modelName == ModelSelection.SelectedModel(w.models, w.settings)
  {
  }

  /** Without foreign failures or cancellation, the run of a job the window
      starts succeeds and lists the path of every requested stem. */
  lemma StartedJobSucceeds(w: Window, job: StemSeparator.Job, env: StemSeparator.Environment)
    requires Consistent(w) && w.thread.None? && Step(w, ClickExtract).thread == Some(job)
    requires StemSeparator.Smooth(env)
    ensures var r := StemSeparator.Run(job, env);
      r[|r| - 1] == StemSeparator.Finished(ProcessingResult(true, StemSeparator.StemPaths(job), "", env.elapsedTenths))
  {
    StartedJobFits(w, job);
    FittingJobSucceeds(job, env, Registry[w.models.current]);
  }

  /** The last event of a smooth run of a job whose stems its model knows. */
  lemma FittingJobSucceeds(job: StemSeparator.Job, env: StemSeparator.Environment, model: ModelInfo)
    requires StemSeparator.Smooth(env) && GetModel(job.modelName) == Some(model)
    requires |job.stems| > 0 && forall k :: 0 <= k < |job.stems| ==> job.stems[k] in model.stems
    ensures var r := StemSeparator.Run(job, env);
      r[|r| - 1] == StemSeparator.Finished(ProcessingResult(true, StemSeparator.StemPaths(job), "", env.elapsedTenths))
  {
    StemSeparator.HappyPath(job, env, model);
  }

  /** Delivering two lists of signals is delivering their concatenation. */
  lemma {:induction false} DeliverAllAppend(w: Window, a: seq<StemSeparator.Event>, b: seq<StemSeparator.Event>)
    ensures DeliverAll(w, a + b) == DeliverAll(DeliverAll(w, a), b)
    decreases |a|
  {
    if |a| == 0 {
      assert a + b == b;
    } else {
      assert (a + b)[0] == a[0];
      assert (a + b)[1..] == a[1..] + b;
      DeliverAllAppend(Deliver(w, a[0]), a[1..], b);
    }
  }

  /** Signals other than `error` and `finished` only touch the progress panel. */
  lemma {:induction false} QuietSignals(w: Window, events: seq<StemSeparator.Event>)
    requires forall i :: 0 <= i < |events| ==> !events[i].ErrorSignal? && !events[i].Finished?
    ensures DeliverAll(w, events) == w.(progress := DeliverAll(w, events).progress)
    decreases |events|
  {
    if |events| > 0 {
      QuietSignals(Deliver(w, events[0]), events[1..]);
    }
  }

  /** Completing twice is completing once with the second result: the error path
      completes in `handle_error` and again on the failed result that follows. */
  lemma CompleteTwice(w: Window, first: ProcessingResult, second: ProcessingResult)
    ensures Complete(Complete(w, first), second) == Complete(w, second)
  {
  }

  /** A status change before completion is overwritten by the completion text. */
  lemma CompleteIgnoresStatus(w: Window, status: ProcessingStatus, result: ProcessingResult)
    ensures Complete(w.(progress := ProgressSection.UpdateStatus(w.progress, status)), result) == Complete(w, result)
  {
  }

  /** Delivering two signals. */
  lemma DeliverTwo(w: Window, a: StemSeparator.Event, b: StemSeparator.Event)
    ensures DeliverAll(w, [a, b]) == Deliver(Deliver(w, a), b)
  {
    var x := Deliver(w, a);
    assert [a, b][1..] == [b];
    assert DeliverAll(w, [a, b]) == DeliverAll(x, [b]);
    assert [b][1..] == [];
    assert DeliverAll(x, [b]) == DeliverAll(Deliver(x, b), []);
  }

  /** `handle_error` when its modal error box lets the pending signals through
      before it goes on to `on_extraction_complete`. */
  function HandleErrorNested(w: Window, message: string, pending: seq<StemSeparator.Event>): (r: Window)
    ensures r.thread.None? && r.extractEnabled && !r.cancelVisible
    ensures r.progress.labelText == "Extraction failed!" && !r.progress.barVisible
  {
    Complete(DeliverAll(w.(alerts := w.alerts + [ErrorAlert(message)]), pending), Failed(message))
  }

  /** The failure signals leave the window the same whether they arrive one after
      the other or while the error box is open: one error box, no worker, extract
      enabled and "Extraction failed!". */
  lemma FailureSettles(w: Window, message: string)
    ensures DeliverAll(w, StemSeparator.FailureTail(message))
         == Complete(w.(alerts := w.alerts + [ErrorAlert(message)]), Failed(message))
    ensures HandleErrorNested(w, message, StemSeparator.FailureTail(message)[1..])
         == Complete(w.(alerts := w.alerts + [ErrorAlert(message)]), Failed(message))
  {
    var shown := w.(alerts := w.alerts + [ErrorAlert(message)]);
    var tail := StemSeparator.FailureTail(message);
    var rest := [StemSeparator.StatusChanged(Error), StemSeparator.Finished(Failed(message))];
    assert tail[1..] == rest;
    var handled := Complete(shown, Failed(message));
    assert DeliverAll(w, tail) == DeliverAll(handled, rest);
    DeliverTwo(handled, rest[0], rest[1]);
    CompleteIgnoresStatus(handled, Error, Failed(message));
    CompleteTwice(shown, Failed(message), Failed(message));
    DeliverTwo(shown, rest[0], rest[1]);
    CompleteIgnoresStatus(shown, Error, Failed(message));
    CompleteTwice(shown, Failed(message), Failed(message));
  }

  /** The success signals raise the bar to 100 and complete with the result. */
  lemma SuccessSettles(w: Window, files: seq<string>, elapsedTenths: nat)
    ensures DeliverAll(w, StemSeparator.SuccessTail(files, elapsedTenths))
         == Complete(w.(progress := ProgressSection.UpdateProgress(w.progress, 100)),
                     ProcessingResult(true, files, "", elapsedTenths))
  {
    var tail := StemSeparator.SuccessTail(files, elapsedTenths);
    var raised := Deliver(w, tail[0]);
    assert tail[1..] == [tail[1], tail[2]];
    assert DeliverAll(w, tail) == DeliverAll(raised, [tail[1], tail[2]]);
    DeliverTwo(raised, tail[1], tail[2]);
    CompleteIgnoresStatus(raised, Completed, tail[2].result);
  }

  /** How the window is left by a run that ended with the given result: no
      worker, extract enabled, cancel and bar hidden, the outcome shown, one error
      box more exactly when the run failed, and nothing else changed but the
      progress panel. */
  predicate SettledFrom(w: Window, v: Window, result: ProcessingResult) {
    && v.thread.None? && v.extractEnabled && !v.cancelVisible && !v.progress.barVisible
    && v.progress.labelText == CompletionMessage(result)
    && v.alerts == w.alerts + (if result.success then [] else [ErrorAlert(result.errorMessage)])
    && v.(progress := w.progress, thread := w.thread, extractEnabled := w.extractEnabled,
          cancelVisible := w.cancelVisible, alerts := w.alerts) == w
  }

  /** Signals that end with the three of a result, after any number of progress
      signals, settle the window with that result. */
  lemma SettleAfter(w: Window, prefix: seq<StemSeparator.Event>, tail: seq<StemSeparator.Event>)
    requires forall i :: 0 <= i < |prefix| ==> !prefix[i].ErrorSignal? && !prefix[i].Finished?
    requires |tail| == 3 && tail[2].Finished?
    requires tail[2].result.success ==>
      tail == StemSeparator.SuccessTail(tail[2].result.outputFiles, tail[2].result.elapsedTenths)
    requires !tail[2].result.success ==> tail == StemSeparator.FailureTail(tail[2].result.errorMessage)
    ensures SettledFrom(w, DeliverAll(w, prefix + tail), tail[2].result)
  {
    QuietSignals(w, prefix);
    DeliverAllAppend(w, prefix, tail);
    var q := DeliverAll(w, prefix);
    var result := tail[2].result;
    if result.success {
      SuccessSettles(q, result.outputFiles, result.elapsedTenths);
    } else {
      FailureSettles(q, result.errorMessage);
    }
  }

  /** Whatever the worker meets short of cancellation, once all its signals are
      delivered the window is settled with the run's result. */
  lemma RunSettles(w: Window, job: StemSeparator.Job, env: StemSeparator.Environment)
    requires env.cancelFrom.None?
    ensures var r := StemSeparator.Run(job, env);
      r[|r| - 1].Finished? && SettledFrom(w, DeliverAll(w, r), r[|r| - 1].result)
  {
    var r := StemSeparator.Run(job, env);
    var n := |r|;
    StemSeparator.ResultLast(job, env);
    StemSeparator.RunEnds(job, env);
    var prefix, tail := r[..n - 3], r[n - 3..];
    assert r == prefix + tail;
    assert forall i :: 0 <= i < |prefix| ==> prefix[i] == r[i];
    assert tail[2] == r[n - 1];
    SettleAfter(w, prefix, tail);
  }

  /** Closing asks only while a worker runs: a settled window closes without a
      question, and in a consistent window the visible cancel button means that
      answering yes restarts and answering no keeps the window open. */
  lemma CloseAndCancel(w: Window)
    requires Consistent(w)
    ensures w.thread.None? ==> CloseEvent(w, false) == CloseReply(false, true) && !ForceCancel(w, true)
    ensures w.cancelVisible ==> ForceCancel(w, true) && !ForceCancel(w, false)
    ensures w.cancelVisible ==> CloseEvent(w, false) == CloseReply(true, false)
  {
  }

  /** A drag is accepted exactly when the drop would be. */
  lemma DragMatchesDrop(w: Window, urls: seq<FileHandler.Url>)
    ensures DragEnterAccepted(urls) <==> Drop(w, urls).1
    ensures !Drop(w, urls).1 ==> Drop(w, urls).0 == w
  {
  }

  /** Every path `is_audio_file` accepts can be dropped. */
  lemma AudioFileDroppable(filePath: string)
    requires FileHandler.IsAudioFile(filePath)
    ensures Droppable(filePath)
  {
    var ext := Paths.Suffix(filePath);
    SuffixEndsPath(filePath);
    EndsWithLower(filePath, ext);
    var i := DropExtensionIndex(Lower(ext));
    assert EndsWith(Lower(filePath), DropExtensions[i]);
  }

  /** A path ends with its suffix. */
  lemma SuffixEndsPath(filePath: string)
    ensures EndsWith(filePath, Paths.Suffix(filePath))
  {
    var ext := Paths.Suffix(filePath);
    var name := Paths.Basename(filePath);
    assert Paths.Stem(filePath) + ext == name;
    assert name[|name| - |ext|..] == ext;
    assert filePath[|filePath| - |name|..] == name;
    assert filePath[|filePath| - |ext|..] == name[|name| - |ext|..];
  }

  /** Lower-casing keeps an ending an ending. */
  lemma EndsWithLower(s: string, t: string)
    requires EndsWith(s, t)
    ensures EndsWith(Lower(s), Lower(t))
  {
    LowerDrop(s, |s| - |t|);
  }

  /** The extensions `is_audio_file` accepts are the ones a drop accepts. */
  lemma DropExtensionIndex(e: string) returns (i: nat)
    requires e in {".mp3", ".wav", ".flac", ".m4a", ".ogg"}
    ensures i < |DropExtensions| && DropExtensions[i] == e
  {
    i := if e == ".mp3" then 0 else if e == ".wav" then 1 else if e == ".flac" then 2
         else if e == ".m4a" then 3 else 4;
  }

  /** The drop test is looser than `is_audio_file`: a file named just ".mp3" can
      be dropped although `is_audio_file` rejects it. */
  lemma DropLooserThanAudioCheck()
    ensures Droppable(".mp3") && !FileHandler.IsAudioFile(".mp3")
  {
    assert Lower(".mp3") == ".mp3";
    assert EndsWith(Lower(".mp3"), DropExtensions[0]);
    FileHandler.BareExtensionRejected();
  }

  /** At start-up every stem of the combo's model is ticked, in vocabulary order;
      with the default settings that is HTDemucs Fine-tuned and its four stems. */
  lemma InitSelectsVocabulary(settings: AppSettings)
    ensures var w := Init(settings);
      StemSelection.SelectedStems(w.stems.boxes) == Registry[w.models.current].stems
    ensures Init(Defaults).models.current == 1
    ensures StemSelection.SelectedStems(Init(Defaults).stems.boxes) == FourStems
  {
    var c := ModelSelection.Populate(settings);
    SelectedEntry(c, settings);
    var built := Window(settings, None, None, None, false, false, false, [],
                        AudioSection.Initial, c, ProgressSection.Initial,
                        StemSelection.Initial, OutputSection.Initial);
    ModelChangedShowsVocabulary(built, ModelSelection.SelectedModel(c, settings));
    ModelSelection.PopulateDefaults();
    DefaultModelKnown();
    var d := ModelSelection.Populate(Defaults);
    SelectedEntry(d, Defaults);
    var builtD := built.(settings := Defaults, models := d);
    ModelChangedShowsVocabulary(builtD, ModelSelection.SelectedModel(d, Defaults));
  }

  /** Picking another model ticks every stem of its vocabulary, in order. */
  lemma PickSelectsVocabulary(w: Window, index: nat)
    requires Consistent(w) && index < |w.models.items| && index != w.models.current
    ensures StemSelection.SelectedStems(ModelPicked(w, index).stems.boxes) == Registry[index].stems
  {
    var (combo, sent) := ModelSelection.SetCurrentIndex(w.models, index);
    SelectedEntry(combo, w.settings);
    ModelChangedShowsVocabulary(w.(models := combo), sent.value);
  }

  /** The time inside a success message reads back as the processing time in
      tenths of a second. */
  lemma CompletionTimeReadsBack(result: ProcessingResult)
    requires result.success
    ensures var r := CompletionMessage(result);
      var time := r[22..|r| - 2];
      && |r| >= 27
      && ParseNat(time[..|time| - 2]) * 10 + DigitValue(time[|time| - 1]) == result.elapsedTenths
  {
    var r := CompletionMessage(result);
    var shown := TenthsText(result.elapsedTenths);
    assert r[22..|r| - 2] == shown;
    TenthsRoundTrip(result.elapsedTenths);
  }

  /** A success after 10.5 seconds reads "Extraction complete! (10.5s)". */
  lemma CompletionMessageExample(result: ProcessingResult, head: string)
    requires result.success && result.elapsedTenths == 105
    requires head == "Extraction complete! ("
    ensures CompletionMessage(result) == head + "10.5" + "s)"
  {
    assert NatToString(1) == ['1'];
    assert NatToString(10) == ['1', '0'];
    assert TenthsText(105) == ['1', '0'] + "." + ['5'];
  }

  /** The shown seconds give back the time in tenths: the digits before the point
      are the whole seconds and the digit after it the tenths. */
  lemma TenthsRoundTrip(tenths: nat)
    ensures var s := TenthsText(tenths);
      ParseNat(s[..|s| - 2]) * 10 + DigitValue(s[|s| - 1]) == tenths
  {
    var s := TenthsText(tenths);
    assert s[..|s| - 2] == NatToString(tenths / 10);
    ParseNatToString(tenths / 10);
  }
}
