/** The separation worker: the events `StemSeparatorThread.run` emits, as a
    function of the outcomes of the stages it delegates to Demucs, torch and
    soundfile, and of the cancel flag as each checkpoint sees it. */
module StemSeparator {
  import opened Wrappers
  import opened Text
  import opened Paths
  import Helpers
  import opened Models
  import opened Seqs

  /** The constructor arguments of the worker. */
  datatype Job = Job(inputFile: string, outputDir: string, stems: seq<string>, modelName: string)

  /** What `sf.info` reports about the input. */
  datatype Probe = Probe(duration: int, sampleRate: int, channels: int, format: string)

  /** The outcome of a foreign call: it returns, or raises with a message. */
  datatype Stage = Ok | Fail(message: string)

  /** Everything `run` learns from outside: the metadata probe (None when it
      raises), the model load, the CUDA device name (None without CUDA), the
      audio load, the inference, the output folder creation, the stems whose
      `sf.write` raises (by position in the request), the first checkpoint that
      sees the cancel flag, and the time the run took.  The flag is only ever set,
      so every later checkpoint sees it too.  Checkpoint 0 follows the audio load,
      checkpoint 1 follows the inference, and checkpoint 2 + i precedes the i-th
      requested stem. */
  datatype Environment = Environment(
    probe: Option<Probe>,
    modelLoad: Stage,
    gpu: Option<string>,
    audioLoad: Stage,
    inference: Stage,
    mkdir: Stage,
    writeFails: map<nat, string>,
    cancelFrom: Option<nat>,
    elapsedTenths: nat)

  /** The worker's signals, one constructor per signal. */
  datatype Event =
    | AudioInfo(info: AudioFileInfo)
    | Progress(value: int)
    | StatusChanged(status: ProcessingStatus)
    | DeviceInfo(device: string)
    | ArtificialProgressFinished
    | ErrorSignal(message: string)
    | Finished(result: ProcessingResult)

  /** How (part of) the `try` block ends: by `return`, by running to its end with
      the saved files, or by raising. */
  datatype Outcome =
    | Returned(events: seq<Event>)
    | Ran(events: seq<Event>, files: seq<string>)
    | Raised(events: seq<Event>, message: string)

  predicate FlagSeen(env: Environment, checkpoint: nat) {
    env.cancelFrom.Some? && env.cancelFrom.value <= checkpoint
  }

  /** `_get_audio_info`: the probed values, or fixed defaults when the probe raises. */
  function AudioInfoOf(job: Job, env: Environment): (r: AudioFileInfo)
    ensures r.path == job.inputFile
    ensures env.probe.None? ==> r == AudioFileInfo(job.inputFile, 0, 44100, 2, "unknown")
    ensures env.probe.Some? ==>
      var p := env.probe.value;
      r.duration == p.duration && r.sampleRate == p.sampleRate && r.channels == p.channels && r.format == p.format
  {
    match env.probe
    case None => AudioFileInfo(job.inputFile, 0, 44100, 2, "unknown")
    case Some(p) => AudioFileInfo(job.inputFile, p.duration, p.sampleRate, p.channels, p.format)
  }

  /** `_get_device_name`. */
  function DeviceName(gpu: Option<string>): string {
    match gpu
    case None => "CPU"
    case Some(name) => "GPU - " + name
  }

  /** Where the stem is written: `output_dir / stem(input) / "<name> - <stem>.wav"`,
      the name being the input's stem cut to 25 characters at a word boundary. */
  function StemPath(job: Job, stem: string): (r: string)
    ensures EndsWith(r, " - " + stem + ".wav")
  {
    var folder := Paths.Join(job.outputDir, Stem(job.inputFile));
    var tail := " - " + stem + ".wav";
    var name := Helpers.TruncateFilename(Stem(job.inputFile), 25) + tail;
    EndsWithAppend(Helpers.TruncateFilename(Stem(job.inputFile), 25), tail);
    Paths.Join(folder, name)
  }

  /** A stem without '/' is written into the folder `output_dir / stem(input)`
      under the name `truncate_filename(stem(input), 25) + " - " + stem + ".wav"`. */
  lemma StemPathNamed(job: Job, stem: string)
    ensures '/' !in stem ==>
      var r, folder := StemPath(job, stem), Paths.Join(job.outputDir, Stem(job.inputFile));
      && Basename(r) == Helpers.TruncateFilename(Stem(job.inputFile), 25) + (" - " + stem + ".wav")
      && r == Paths.Join(folder, Basename(r))
  {
    if '/' !in stem {
      var base := Stem(job.inputFile);
      var head := Helpers.TruncateFilename(base, 25);
      var name := head + (" - " + stem + ".wav");
      assert '/' !in head by {
        assert head == base[..|head|];
      }
      NameWithoutSlash(head, stem);
      BasenameJoin(Paths.Join(job.outputDir, base), name);
    }
  }

  /** A stem file name has no '/' when neither the head nor the stem has one. */
  lemma NameWithoutSlash(head: string, stem: string)
    requires '/' !in head && '/' !in stem
    ensures '/' !in head + (" - " + stem + ".wav")
  {
    assert '/' !in " - " && '/' !in ".wav";
  }

  /** Two different stems of one job never share a path, so no stem file
      overwrites another. */
  lemma StemPathInjective(job: Job, a: string, b: string)
    ensures StemPath(job, a) == StemPath(job, b) ==> a == b
  {
    if StemPath(job, a) == StemPath(job, b) {
      var base := Stem(job.inputFile);
      var head := Helpers.TruncateFilename(base, 25);
      var x, y := head + (" - " + a + ".wav"), head + (" - " + b + ".wav");
      JoinCancel(Paths.Join(job.outputDir, base), x, y);
      AffixCancel(head, " - " + a, " - " + b, ".wav");
      PrefixCancel(" - ", a, b);
    }
  }

  /** The path of each stem of a job, as a function value the save loop receives. */
  function PathIn(job: Job): string -> string {
    stem => StemPath(job, stem)
  }

  /** The paths of the given stems, in order. */
  function PathsOf(stems: seq<string>, pathOf: string -> string): (r: seq<string>)
    ensures |r| == |stems|
  {
    seq(|stems|, i requires 0 <= i < |stems| => pathOf(stems[i]))
  }

  /** The progress after k of n stems, `int(80 + k * (20 / n))` computed exactly. */
  function ProgressAfter(k: nat, n: nat): int
    requires n > 0
  {
    80 + (20 * k) / n
  }

  /** The progress events of a loop over n stems that saves all of them. */
  function StemProgress(n: nat): (r: seq<Event>)
    requires n > 0
    ensures |r| == n
  {
    seq(n, k requires 0 <= k < n => Progress(ProgressAfter(k + 1, n)))
  }

  /** The message of the `ValueError` that `list.index` raises for a missing item,
      for an item whose `repr` is the item between single quotes (no quote,
      backslash or non-printable character in it). */
  function NotInList(item: string): string {
    "'" + item + "' is not in list"
  }

  /** The save loop from the i-th requested stem on: stop at a cancelled
      checkpoint, raise on a stem the model lacks (`list.index`) or on a failed
      write, otherwise record the stem's path and report the progress. */
  function SaveFrom(stems: seq<string>, env: Environment, vocabulary: seq<string>, pathOf: string -> string, i: nat): (r: Outcome)
    requires 0 < |stems| && i <= |stems|
    ensures !r.Returned?
    ensures i + |r.events| <= |stems|
    ensures r.Ran? ==> |r.files| == |r.events|
    decreases |stems| - i
  {
    var n := |stems|;
    if i == n || FlagSeen(env, 2 + i) then Ran([], [])
    else if stems[i] !in vocabulary then Raised([], NotInList(stems[i]))
    else if i in env.writeFails then Raised([], env.writeFails[i])
    else
      var rest := SaveFrom(stems, env, vocabulary, pathOf, i + 1);
      var step := [Progress(ProgressAfter(i + 1, n))];
      match rest
      case Ran(events, files) => Ran(step + events, [pathOf(stems[i])] + files)
      case Raised(events, message) => Raised(step + events, message)
  }

  /** The stem at position i passes its checkpoint, is known and is written. */
  predicate Saves(stems: seq<string>, env: Environment, vocabulary: seq<string>, i: nat)
    requires i < |stems|
  {
    !FlagSeen(env, 2 + i) && stems[i] in vocabulary && i !in env.writeFails
  }

  /** One turn of the loop: a stem that is saved adds its progress event and its
      path in front of what the rest of the loop does. */
  lemma SaveFromStep(stems: seq<string>, env: Environment, vocabulary: seq<string>, pathOf: string -> string, i: nat)
    requires i < |stems| && Saves(stems, env, vocabulary, i)
    ensures var r, rest := SaveFrom(stems, env, vocabulary, pathOf, i), SaveFrom(stems, env, vocabulary, pathOf, i + 1);
      && r.Ran? == rest.Ran?
      && r.events == [StemProgress(|stems|)[i]] + rest.events
      && (r.Ran? ==> r.files == [PathsOf(stems, pathOf)[i]] + rest.files)
      && (r.Raised? ==> r.message == rest.message)
  {
  }

  /** The loop reports, in order, the progress of each stem it saves. */
  lemma {:induction false} SaveFromEvents(stems: seq<string>, env: Environment, vocabulary: seq<string>, pathOf: string -> string, i: nat)
    requires 0 < |stems| && i <= |stems|
    ensures var r := SaveFrom(stems, env, vocabulary, pathOf, i);
      r.events == StemProgress(|stems|)[i..i + |r.events|]
    decreases |stems| - i
  {
    if i < |stems| && Saves(stems, env, vocabulary, i) {
      var rest := SaveFrom(stems, env, vocabulary, pathOf, i + 1);
      SaveFromStep(stems, env, vocabulary, pathOf, i);
      SaveFromEvents(stems, env, vocabulary, pathOf, i + 1);
      ConsSlice(StemProgress(|stems|), i, i + 1 + |rest.events|, rest.events);
    }
  }

  /** The files the loop lists are exactly the paths of the stems it saved, in
      request order. */
  lemma {:induction false} SaveFromFiles(stems: seq<string>, env: Environment, vocabulary: seq<string>, pathOf: string -> string, i: nat)
    requires 0 < |stems| && i <= |stems|
    ensures var r := SaveFrom(stems, env, vocabulary, pathOf, i);
      r.Ran? ==> r.files == PathsOf(stems, pathOf)[i..i + |r.files|]
    decreases |stems| - i
  {
    if i < |stems| && Saves(stems, env, vocabulary, i) {
      var rest := SaveFrom(stems, env, vocabulary, pathOf, i + 1);
      SaveFromStep(stems, env, vocabulary, pathOf, i);
      SaveFromFiles(stems, env, vocabulary, pathOf, i + 1);
      if rest.Ran? {
        ConsSlice(PathsOf(stems, pathOf), i, i + 1 + |rest.files|, rest.files);
      }
    }
  }

  /** Why the loop stopped where it did: every stem it got past was saved; it then
      ran out of stems, met the flag, or raised for the stem it stopped at, with
      the `ValueError` of `list.index` for an unknown stem and the write's own
      error otherwise. */
  lemma SaveFromStops(stems: seq<string>, env: Environment, vocabulary: seq<string>, pathOf: string -> string, i: nat)
    requires 0 < |stems| && i <= |stems|
    ensures var r := SaveFrom(stems, env, vocabulary, pathOf, i);
      var j := i + |r.events|;
      && (forall k :: i <= k < j ==> Saves(stems, env, vocabulary, k))
      && (r.Ran? ==> j == |stems| || FlagSeen(env, 2 + j))
      && (r.Raised? ==> j < |stems| && !FlagSeen(env, 2 + j))
      && (r.Raised? && stems[j] !in vocabulary ==> r.message == NotInList(stems[j]))
      && (r.Raised? && stems[j] in vocabulary ==> j in env.writeFails && r.message == env.writeFails[j])
  {
    SaveFromSaved(stems, env, vocabulary, pathOf, i);
    SaveFromEnd(stems, env, vocabulary, pathOf, i);
  }

  /** Every stem the loop gets past was saved. */
  lemma {:induction false} SaveFromSaved(stems: seq<string>, env: Environment, vocabulary: seq<string>, pathOf: string -> string, i: nat)
    requires 0 < |stems| && i <= |stems|
    ensures var r := SaveFrom(stems, env, vocabulary, pathOf, i);
      forall k :: i <= k < i + |r.events| ==> Saves(stems, env, vocabulary, k)
    decreases |stems| - i
  {
    var r := SaveFrom(stems, env, vocabulary, pathOf, i);
    if i < |stems| && Saves(stems, env, vocabulary, i) {
      SaveFromStep(stems, env, vocabulary, pathOf, i);
      SaveFromSaved(stems, env, vocabulary, pathOf, i + 1);
    } else {
      assert r.events == [];
    }
  }

  /** The loop stops at the end of the list, at the flag, or raising at the stem
      that is unknown or fails to write, with that stem's message. */
  lemma {:induction false} SaveFromEnd(stems: seq<string>, env: Environment, vocabulary: seq<string>, pathOf: string -> string, i: nat)
    requires 0 < |stems| && i <= |stems|
    ensures var r := SaveFrom(stems, env, vocabulary, pathOf, i);
      var j := i + |r.events|;
      && (r.Ran? ==> j == |stems| || FlagSeen(env, 2 + j))
      && (r.Raised? ==> j < |stems| && !FlagSeen(env, 2 + j))
      && (r.Raised? && stems[j] !in vocabulary ==> r.message == NotInList(stems[j]))
      && (r.Raised? && stems[j] in vocabulary ==> j in env.writeFails && r.message == env.writeFails[j])
    decreases |stems| - i
  {
    var r := SaveFrom(stems, env, vocabulary, pathOf, i);
    if i < |stems| && Saves(stems, env, vocabulary, i) {
      var rest := SaveFrom(stems, env, vocabulary, pathOf, i + 1);
      SaveFromStep(stems, env, vocabulary, pathOf, i);
      SaveFromEnd(stems, env, vocabulary, pathOf, i + 1);
      assert i + |r.events| == i + 1 + |rest.events|;
      assert r.Raised? == rest.Raised?;
    } else if i == |stems| || FlagSeen(env, 2 + i) {
      assert r == Ran([], []);
    } else if stems[i] !in vocabulary {
      assert r == Raised([], NotInList(stems[i]));
    } else {
      assert r == Raised([], env.writeFails[i]);
    }
  }

  /** Prefixes the events emitted before a part of the `try` block to how it ends. */
  function Then(prefix: seq<Event>, o: Outcome): (r: Outcome)
    ensures r.events == prefix + o.events
    ensures r.Returned? == o.Returned? && r.Ran? == o.Ran? && r.Raised? == o.Raised?
    ensures r.Ran? ==> r.files == o.files
    ensures r.Raised? ==> r.message == o.message
  {
    match o
    case Returned(events) => Returned(prefix + events)
    case Ran(events, files) => Ran(prefix + events, files)
    case Raised(events, message) => Raised(prefix + events, message)
  }

  /** Prefixing twice is prefixing once with both prefixes. */
  lemma ThenThen(a: seq<Event>, b: seq<Event>, o: Outcome)
    ensures Then(a, Then(b, o)) == Then(a + b, o)
  {
    assert a + (b + o.events) == (a + b) + o.events;
  }

  /** The error `model_info.stems` raises when `get_model` returned None. */
  const NoStemsOnNone := "'NoneType' object has no attribute 'stems'"

  /** `_save_stems` up to its loop: create the output folder, look the model up,
      divide the 20 points among the requested stems, then run the loop. */
  function SaveStems(job: Job, env: Environment): (r: Outcome)
    ensures !r.Returned?
  {
    if env.mkdir.Fail? then Raised([], env.mkdir.message)
    else match GetModel(job.modelName)
      case None => Raised([], NoStemsOnNone)
      case Some(model) =>
        if |job.stems| == 0 then Raised([], "division by zero")
        else SaveFrom(job.stems, env, model.stems, PathIn(job), 0)
  }

  /** From the checkpoint after the inference to the end of the `try` block. */
  function AfterInference(job: Job, env: Environment): Outcome {
    if FlagSeen(env, 1) then Returned([])
    else Then([StatusChanged(Saving)], SaveStems(job, env))
  }

  /** From the checkpoint after the audio load: the inference, then the rest. */
  function AfterAudioLoad(job: Job, env: Environment): Outcome {
    if FlagSeen(env, 0) then Returned([])
    else if env.inference.Fail? then Raised([], env.inference.message)
    else Then([ArtificialProgressFinished, Progress(80)], AfterInference(job, env))
  }

  /** From the audio load on. */
  function AfterModelLoad(job: Job, env: Environment): Outcome {
    if env.audioLoad.Fail? then Raised([], env.audioLoad.message)
    else Then([Progress(15)], AfterAudioLoad(job, env))
  }

  /** The `try` block of `run`. */
  function TryBlock(job: Job, env: Environment): Outcome {
    var opening := [AudioInfo(AudioInfoOf(job, env)), Progress(5), StatusChanged(LoadingModel)];
    if env.modelLoad.Fail? then Raised(opening, env.modelLoad.message)
    else Then(opening + [Progress(10), DeviceInfo(DeviceName(env.gpu)), StatusChanged(Processing)],
              AfterModelLoad(job, env))
  }

  /** What the `except` clause emits for an error with the given message. */
  function FailureTail(message: string): seq<Event> {
    [ErrorSignal(message), StatusChanged(Error), Finished(ProcessingResult(false, [], message, 0))]
  }

  /** What the end of the `try` block emits after the stems are saved. */
  function SuccessTail(files: seq<string>, elapsedTenths: nat): seq<Event> {
    [Progress(100), StatusChanged(Completed), Finished(ProcessingResult(true, files, "", elapsedTenths))]
  }

  /** `run`: the events of the `try` block, followed by the success events when it
      ran to its end, or by the `except` clause's events when it raised. */
  function Run(job: Job, env: Environment): (r: seq<Event>)
    ensures |r| >= 3
  {
    match TryBlock(job, env)
    case Returned(events) => events
    case Ran(events, files) => events + SuccessTail(files, env.elapsedTenths)
    case Raised(events, message) => events + FailureTail(message)
  }

  /** The loop saves exactly the first m stems when it gets past each of them and
      then runs out of stems or meets the flag. */
  lemma SaveUpTo(stems: seq<string>, env: Environment, vocabulary: seq<string>, pathOf: string -> string, m: nat)
    requires 0 < |stems| && m <= |stems|
    requires forall k :: 0 <= k < m ==> Saves(stems, env, vocabulary, k)
    requires m == |stems| || FlagSeen(env, 2 + m)
    ensures SaveFrom(stems, env, vocabulary, pathOf, 0)
         == Ran(StemProgress(|stems|)[..m], PathsOf(stems, pathOf)[..m])
  {
    var r := SaveFrom(stems, env, vocabulary, pathOf, 0);
    SaveFromStops(stems, env, vocabulary, pathOf, 0);
    SaveFromEvents(stems, env, vocabulary, pathOf, 0);
    SaveFromFiles(stems, env, vocabulary, pathOf, 0);
    var j := |r.events|;
    assert j < m ==> Saves(stems, env, vocabulary, j);
    assert m < j ==> Saves(stems, env, vocabulary, m);
  }

  /** The loop raises at stem m when it gets past every earlier stem and stem m
      passes its checkpoint but is unknown or fails to be written. */
  lemma SaveRaisesAt(stems: seq<string>, env: Environment, vocabulary: seq<string>, pathOf: string -> string, m: nat)
    requires m < |stems|
    requires forall k :: 0 <= k < m ==> Saves(stems, env, vocabulary, k)
    requires !FlagSeen(env, 2 + m) && !Saves(stems, env, vocabulary, m)
    ensures SaveFrom(stems, env, vocabulary, pathOf, 0)
         == Raised(StemProgress(|stems|)[..m],
                   if stems[m] !in vocabulary then NotInList(stems[m]) else env.writeFails[m])
  {
    var r := SaveFrom(stems, env, vocabulary, pathOf, 0);
    SaveFromStops(stems, env, vocabulary, pathOf, 0);
    SaveFromEvents(stems, env, vocabulary, pathOf, 0);
    var j := |r.events|;
    assert j < m ==> Saves(stems, env, vocabulary, j);
    assert j == m && r.Raised?;
  }

  /** The paths `run` reports for a job that saves every requested stem. */
  function StemPaths(job: Job): (r: seq<string>)
    ensures |r| == |job.stems|
    ensures forall i :: 0 <= i < |r| ==> r[i] == StemPath(job, job.stems[i])
  {
    PathsOf(job.stems, PathIn(job))
  }

  /** No foreign call raises and the flag is never set. */
  predicate Smooth(env: Environment) {
    && env.modelLoad.Ok? && env.audioLoad.Ok? && env.inference.Ok? && env.mkdir.Ok?
    && env.writeFails == map[] && env.cancelFrom.None?
  }

  /** The events of a run that reaches the save loop, up to the SAVING status. */
  function UpToSaving(job: Job, env: Environment): seq<Event> {
    [AudioInfo(AudioInfoOf(job, env)), Progress(5), StatusChanged(LoadingModel),
     Progress(10), DeviceInfo(DeviceName(env.gpu)), StatusChanged(Processing),
     Progress(15), ArtificialProgressFinished, Progress(80), StatusChanged(Saving)]
  }

  /** A run that reaches the save stage emits the events up to SAVING, then those
      of `_save_stems`. */
  lemma ReachesSaving(job: Job, env: Environment)
    requires env.modelLoad.Ok? && env.audioLoad.Ok? && env.inference.Ok? && !FlagSeen(env, 1)
    ensures TryBlock(job, env) == Then(UpToSaving(job, env), SaveStems(job, env))
  {
    var opening := [AudioInfo(AudioInfoOf(job, env)), Progress(5), StatusChanged(LoadingModel)];
    var middle := [Progress(10), DeviceInfo(DeviceName(env.gpu)), StatusChanged(Processing)];
    var saving := SaveStems(job, env);
    var late := [ArtificialProgressFinished, Progress(80)];
    var early := [Progress(15)];
    assert AfterInference(job, env) == Then([StatusChanged(Saving)], saving);
    assert AfterAudioLoad(job, env) == Then(late, AfterInference(job, env));
    assert AfterModelLoad(job, env) == Then(early, AfterAudioLoad(job, env));
    assert TryBlock(job, env) == Then(opening + middle, AfterModelLoad(job, env));
    ThenThen(late, [StatusChanged(Saving)], saving);
    ThenThen(early, late + [StatusChanged(Saving)], saving);
    ThenThen(opening + middle, early + (late + [StatusChanged(Saving)]), saving);
    assert UpToSaving(job, env) == opening + middle + (early + (late + [StatusChanged(Saving)]));
  }

  /** `_save_stems` with a known model and a non-empty request whose first m stems
      are saved, the loop then running out of stems or meeting the flag. */
  lemma SavesFirst(job: Job, env: Environment, model: ModelInfo, m: nat)
    requires env.mkdir.Ok? && GetModel(job.modelName) == Some(model)
    requires 0 < |job.stems| && m <= |job.stems|
    requires forall k :: 0 <= k < m ==> Saves(job.stems, env, model.stems, k)
    requires m == |job.stems| || FlagSeen(env, 2 + m)
    ensures SaveStems(job, env) == Ran(StemProgress(|job.stems|)[..m], StemPaths(job)[..m])
  {
    assert SaveStems(job, env) == SaveFrom(job.stems, env, model.stems, PathIn(job), 0);
    SaveUpTo(job.stems, env, model.stems, PathIn(job), m);
  }

  /** The run without failure or cancellation: the ten events up to SAVING, one
      progress event per stem, then 100, COMPLETED and a successful result that
      lists every stem's path in request order. */
  lemma HappyPath(job: Job, env: Environment, model: ModelInfo)
    requires Smooth(env) && GetModel(job.modelName) == Some(model)
    requires |job.stems| > 0 && forall k :: 0 <= k < |job.stems| ==> job.stems[k] in model.stems
    ensures Run(job, env) == UpToSaving(job, env) + StemProgress(|job.stems|)
                             + [Progress(100), StatusChanged(Completed),
                                Finished(ProcessingResult(true, StemPaths(job), "", env.elapsedTenths))]
  {
    HappyTry(job, env, model);
  }

  /** The `try` block of such a run ends with every stem saved. */
  lemma HappyTry(job: Job, env: Environment, model: ModelInfo)
    requires Smooth(env) && GetModel(job.modelName) == Some(model)
    requires |job.stems| > 0 && forall k :: 0 <= k < |job.stems| ==> job.stems[k] in model.stems
    ensures TryBlock(job, env) == Ran(UpToSaving(job, env) + StemProgress(|job.stems|), StemPaths(job))
  {
    ReachesSaving(job, env);
    SavesAll(job, env, model);
    ThenRan(UpToSaving(job, env), SaveStems(job, env));
  }

  /** Without failures, the saving loop finishes with one progress step and one file per stem. */
  lemma SavesAll(job: Job, env: Environment, model: ModelInfo)
    requires Smooth(env) && GetModel(job.modelName) == Some(model)
    requires |job.stems| > 0 && forall k :: 0 <= k < |job.stems| ==> job.stems[k] in model.stems
    ensures SaveStems(job, env) == Ran(StemProgress(|job.stems|), StemPaths(job))
  {
    var n := |job.stems|;
    SmoothSaves(job, env, model);
    SavesFirst(job, env, model, n);
    WholeSlice(StemProgress(n));
    WholeSlice(StemPaths(job));
  }

  lemma WholeSlice<T>(s: seq<T>)
    ensures s[..|s|] == s
  {
  }

  /** Without failures or cancellation, every requested stem of the model is saved. */
  lemma SmoothSaves(job: Job, env: Environment, model: ModelInfo)
    requires Smooth(env)
    requires forall k :: 0 <= k < |job.stems| ==> job.stems[k] in model.stems
    ensures forall k :: 0 <= k < |job.stems| ==> Saves(job.stems, env, model.stems, k)
  {
  }

  /** Prefixing a finished block adds the prefix to its events and keeps its files. */
  lemma ThenRan(prefix: seq<Event>, o: Outcome)
    requires o.Ran?
    ensures Then(prefix, o) == Ran(prefix + o.events, o.files)
  {
  }


  /** A cancellation the save loop sees before the c-th stem only ends the loop:
      the run still reports 100, COMPLETED and a successful result that lists the
      paths of the first c stems. */
  lemma CancelWhileSaving(job: Job, env: Environment, model: ModelInfo, c: nat)
    requires env.modelLoad.Ok? && env.audioLoad.Ok? && env.inference.Ok? && env.mkdir.Ok?
    requires env.writeFails == map[] && env.cancelFrom == Some(2 + c) && c < |job.stems|
    requires GetModel(job.modelName) == Some(model)
    requires forall k :: 0 <= k < c ==> job.stems[k] in model.stems
    ensures Run(job, env) == UpToSaving(job, env) + StemProgress(|job.stems|)[..c]
                             + [Progress(100), StatusChanged(Completed),
                                Finished(ProcessingResult(true, StemPaths(job)[..c], "", env.elapsedTenths))]
  {
    ReachesSaving(job, env);
    SavesFirst(job, env, model, c);
    assert TryBlock(job, env) == Ran(UpToSaving(job, env) + StemProgress(|job.stems|)[..c], StemPaths(job)[..c]);
  }

  /** With the flag seen right after the audio load, `run` returns after progress
      15, with no result and no error. */
  lemma CancelAfterAudioLoad(job: Job, env: Environment)
    requires env.modelLoad.Ok? && env.audioLoad.Ok? && env.cancelFrom == Some(0)
    ensures Run(job, env) == UpToSaving(job, env)[..7]
  {
    var opening := [AudioInfo(AudioInfoOf(job, env)), Progress(5), StatusChanged(LoadingModel)];
    var middle := [Progress(10), DeviceInfo(DeviceName(env.gpu)), StatusChanged(Processing)];
    assert AfterModelLoad(job, env) == Returned([Progress(15)]);
    assert UpToSaving(job, env)[..7] == opening + middle + [Progress(15)];
  }

  /** With the flag first seen right after the inference, `run` returns after
      progress 80, with no result and no error. */
  lemma CancelAfterInference(job: Job, env: Environment)
    requires env.modelLoad.Ok? && env.audioLoad.Ok? && env.inference.Ok? && env.cancelFrom == Some(1)
    ensures Run(job, env) == UpToSaving(job, env)[..9]
  {
    var opening := [AudioInfo(AudioInfoOf(job, env)), Progress(5), StatusChanged(LoadingModel)];
    var middle := [Progress(10), DeviceInfo(DeviceName(env.gpu)), StatusChanged(Processing)];
    var late := [Progress(15), ArtificialProgressFinished, Progress(80)];
    assert AfterAudioLoad(job, env) == Returned([ArtificialProgressFinished, Progress(80)]);
    assert AfterModelLoad(job, env) == Returned(late);
    assert UpToSaving(job, env)[..9] == opening + middle + late;
  }

  /** A model that fails to load ends the run after LOADING_MODEL with the error,
      the ERROR status and a failed result. */
  lemma ModelLoadFails(job: Job, env: Environment)
    requires env.modelLoad.Fail?
    ensures Run(job, env) == UpToSaving(job, env)[..3] + FailureTail(env.modelLoad.message)
  {
  }

  /** Audio that fails to load ends the run after PROCESSING. */
  lemma AudioLoadFails(job: Job, env: Environment)
    requires env.modelLoad.Ok? && env.audioLoad.Fail?
    ensures Run(job, env) == UpToSaving(job, env)[..6] + FailureTail(env.audioLoad.message)
  {
    var opening := [AudioInfo(AudioInfoOf(job, env)), Progress(5), StatusChanged(LoadingModel)];
    var middle := [Progress(10), DeviceInfo(DeviceName(env.gpu)), StatusChanged(Processing)];
    assert UpToSaving(job, env)[..6] == opening + middle;
  }

  /** A failed inference ends the run after progress 15. */
  lemma InferenceFails(job: Job, env: Environment)
    requires env.modelLoad.Ok? && env.audioLoad.Ok? && !FlagSeen(env, 0) && env.inference.Fail?
    ensures Run(job, env) == UpToSaving(job, env)[..7] + FailureTail(env.inference.message)
  {
    var opening := [AudioInfo(AudioInfoOf(job, env)), Progress(5), StatusChanged(LoadingModel)];
    var middle := [Progress(10), DeviceInfo(DeviceName(env.gpu)), StatusChanged(Processing)];
    assert AfterModelLoad(job, env) == Raised([Progress(15)], env.inference.message);
    assert UpToSaving(job, env)[..7] == opening + middle + [Progress(15)];
  }

  /** Before its loop, `_save_stems` fails when the folder cannot be created, when
      the model is not in the registry, and when no stem is requested. */
  lemma SavingFailsEarly(job: Job, env: Environment, message: string)
    requires env.modelLoad.Ok? && env.audioLoad.Ok? && env.inference.Ok? && !FlagSeen(env, 1)
    requires || (env.mkdir.Fail? && message == env.mkdir.message)
             || (env.mkdir.Ok? && GetModel(job.modelName).None? && message == NoStemsOnNone)
             || (env.mkdir.Ok? && GetModel(job.modelName).Some? && job.stems == [] && message == "division by zero")
    ensures Run(job, env) == UpToSaving(job, env) + FailureTail(message)
  {
    ReachesSaving(job, env);
    var saving := SaveStems(job, env);
    assert saving == Raised([], message);
    assert Then(UpToSaving(job, env), saving) == Raised(UpToSaving(job, env), message);
  }

  /** Inside the loop, the first stem that is missing from the model's vocabulary
      or whose write fails ends the run with that error, after the progress of the
      stems saved before it. */
  lemma SavingFailsAt(job: Job, env: Environment, model: ModelInfo, m: nat)
    requires env.modelLoad.Ok? && env.audioLoad.Ok? && env.inference.Ok? && env.mkdir.Ok?
    requires !FlagSeen(env, 2 + m) && GetModel(job.modelName) == Some(model) && m < |job.stems|
    requires forall k :: 0 <= k < m ==> Saves(job.stems, env, model.stems, k)
    requires job.stems[m] !in model.stems || m in env.writeFails
    ensures Run(job, env) == UpToSaving(job, env) + StemProgress(|job.stems|)[..m]
      + FailureTail(if job.stems[m] !in model.stems then NotInList(job.stems[m]) else env.writeFails[m])
  {
    ReachesSaving(job, env);
    assert SaveStems(job, env) == SaveFrom(job.stems, env, model.stems, PathIn(job), 0);
    SaveRaisesAt(job.stems, env, model.stems, PathIn(job), m);
  }

  /** An event the `try` block may emit: neither a result nor an error, and no
      status other than LOADING_MODEL, PROCESSING or SAVING. */
  predicate MidRun(e: Event) {
    && !e.Finished? && !e.ErrorSignal?
    && (e.StatusChanged? ==> e.status == LoadingModel || e.status == Processing || e.status == Saving)
  }

  /** Every progress value lies in [lo, 100]. */
  predicate ProgressWithin(events: seq<Event>, lo: int) {
    forall i :: 0 <= i < |events| && events[i].Progress? ==> lo <= events[i].value <= 100
  }

  /** Progress values never decrease along the events. */
  predicate ProgressMonotone(events: seq<Event>) {
    forall i, j :: 0 <= i < j < |events| && events[i].Progress? && events[j].Progress? ==>
      events[i].value <= events[j].value
  }

  /** Events of the `try` block whose progress starts at lo, never falls and ends
      at most at 100. */
  predicate Orderly(events: seq<Event>, lo: int) {
    && (forall i :: 0 <= i < |events| ==> MidRun(events[i]))
    && ProgressWithin(events, lo)
    && ProgressMonotone(events)
  }

  /** Multiplication by a natural number is monotone. */
  lemma {:induction false} MulMonotone(n: nat, x: nat, y: nat)
    requires x <= y
    ensures n * x <= n * y
  {
    if n > 0 {
      MulMonotone(n - 1, x, y);
      assert n * x == (n - 1) * x + x;
      assert n * y == (n - 1) * y + y;
    }
  }

  /** Integer division by a positive number is monotone. */
  lemma DivMonotone(a: nat, b: nat, n: nat)
    requires a <= b && n > 0
    ensures a / n <= b / n
  {
    var q1, q2 := a / n, b / n;
    assert n * q1 <= a;
    assert b < n * q2 + n;
    if q1 > q2 {
      MulMonotone(n, q2 + 1, q1);
    }
  }

  /** The progress after k of n stems grows with k, from 80 to 100. */
  lemma ProgressAfterBounds(k1: nat, k2: nat, n: nat)
    requires k1 <= k2 <= n && n > 0
    ensures 80 <= ProgressAfter(k1, n) <= ProgressAfter(k2, n) <= 100
  {
    DivMonotone(20 * k1, 20 * k2, n);
    DivMonotone(20 * k2, 20 * n, n);
    assert (20 * n) / n == 20;
  }

  /** The stem progress events are orderly from 80 on, and so is every slice. */
  lemma StemProgressOrderly(n: nat, i: nat, j: nat)
    requires n > 0 && i <= j <= n
    ensures Orderly(StemProgress(n)[i..j], 80)
  {
    var s := StemProgress(n)[i..j];
    forall a | 0 <= a < |s|
      ensures s[a] == Progress(ProgressAfter(i + a + 1, n)) && 80 <= s[a].value <= 100
    {
      ProgressAfterBounds(i + a + 1, i + a + 1, n);
    }
    forall a, b | 0 <= a < b < |s|
      ensures s[a].value <= s[b].value
    {
      ProgressAfterBounds(i + a + 1, i + b + 1, n);
    }
  }

  /** Orderly events after a prefix whose progress stays within [lo, mid] are
      orderly from lo. */
  lemma OrderlyAppend(prefix: seq<Event>, events: seq<Event>, lo: int, mid: int)
    requires lo <= mid <= 100
    requires forall i :: 0 <= i < |prefix| ==> MidRun(prefix[i])
    requires forall i :: 0 <= i < |prefix| && prefix[i].Progress? ==> lo <= prefix[i].value <= mid
    requires ProgressMonotone(prefix) && Orderly(events, mid)
    ensures Orderly(prefix + events, lo)
  {
    var r := prefix + events;
    forall i, j | 0 <= i < j < |r| && r[i].Progress? && r[j].Progress?
      ensures r[i].value <= r[j].value
    {
      if j < |prefix| {
        assert r[i] == prefix[i] && r[j] == prefix[j];
      } else if i >= |prefix| {
        assert r[i] == events[i - |prefix|] && r[j] == events[j - |prefix|];
      } else {
        assert r[i] == prefix[i] && r[j] == events[j - |prefix|];
      }
    }
    forall i | 0 <= i < |r|
      ensures MidRun(r[i]) && (r[i].Progress? ==> lo <= r[i].value <= 100)
    {
      if i < |prefix| {
        assert r[i] == prefix[i];
      } else {
        assert r[i] == events[i - |prefix|];
      }
    }
  }

  lemma SaveStemsOrderly(job: Job, env: Environment)
    ensures Orderly(SaveStems(job, env).events, 80)
  {
    if env.mkdir.Ok? && GetModel(job.modelName).Some? && |job.stems| > 0 {
      SaveFromOrderly(job.stems, env, GetModel(job.modelName).value.stems, PathIn(job));
    }
  }

  /** The saving loop's events are orderly from 80 on. */
  lemma SaveFromOrderly(stems: seq<string>, env: Environment, vocabulary: seq<string>, pathOf: string -> string)
    requires 0 < |stems|
    ensures Orderly(SaveFrom(stems, env, vocabulary, pathOf, 0).events, 80)
  {
    var r := SaveFrom(stems, env, vocabulary, pathOf, 0);
    SaveFromEvents(stems, env, vocabulary, pathOf, 0);
    StemProgressOrderly(|stems|, 0, |r.events|);
  }


  lemma AfterAudioLoadOrderly(job: Job, env: Environment)
    ensures Orderly(AfterAudioLoad(job, env).events, 80)
  {
    if !FlagSeen(env, 0) && env.inference.Ok? {
      SaveStemsOrderly(job, env);
      if !FlagSeen(env, 1) {
        OrderlyAppend([StatusChanged(Saving)], SaveStems(job, env).events, 80, 80);
      }
      OrderlyAppend([ArtificialProgressFinished, Progress(80)], AfterInference(job, env).events, 80, 80);
    }
  }

  /** The events of the `try` block are orderly from 5 on. */
  lemma TryBlockOrderly(job: Job, env: Environment)
    ensures Orderly(TryBlock(job, env).events, 5)
  {
    var opening := [AudioInfo(AudioInfoOf(job, env)), Progress(5), StatusChanged(LoadingModel)];
    var middle := [Progress(10), DeviceInfo(DeviceName(env.gpu)), StatusChanged(Processing)];
    if env.modelLoad.Ok? {
      if env.audioLoad.Ok? {
        AfterAudioLoadOrderly(job, env);
        OrderlyAppend([Progress(15)], AfterAudioLoad(job, env).events, 15, 80);
      }
      OrderlyAppend(opening + middle, AfterModelLoad(job, env).events, 5, 15);
    }
  }

  /** What `run` adds to the events of a `try` block that ended as given. */
  function Ending(t: Outcome, elapsedTenths: nat): seq<Event> {
    match t
    case Returned(_) => []
    case Ran(_, files) => SuccessTail(files, elapsedTenths)
    case Raised(_, message) => FailureTail(message)
  }

  /** What the `try` block emitted, followed by the tail `run` adds to it. */
  lemma RunTail(job: Job, env: Environment)
    ensures Run(job, env) == TryBlock(job, env).events + Ending(TryBlock(job, env), env.elapsedTenths)
  {
  }

  /** Progress never decreases over a run and stays within [5, 100]. */
  lemma RunProgressMonotone(job: Job, env: Environment)
    ensures ProgressMonotone(Run(job, env)) && ProgressWithin(Run(job, env), 5)
  {
    var t := TryBlock(job, env);
    TryBlockOrderly(job, env);
    RunTail(job, env);
    EndingAtHundred(t, env.elapsedTenths);
    OrderlyThenHundred(t.events, Ending(t, env.elapsedTenths));
  }

  /** The only progress the tail of `run` reports is 100. */
  lemma EndingAtHundred(t: Outcome, elapsedTenths: nat)
    ensures var e := Ending(t, elapsedTenths);
      forall i :: 0 <= i < |e| && e[i].Progress? ==> e[i].value == 100
  {
  }

  /** Orderly events followed by events whose only progress is 100 keep progress
      monotone and within [5, 100]. */
  lemma OrderlyThenHundred(a: seq<Event>, tail: seq<Event>)
    requires Orderly(a, 5)
    requires forall i :: 0 <= i < |tail| && tail[i].Progress? ==> tail[i].value == 100
    ensures ProgressMonotone(a + tail) && ProgressWithin(a + tail, 5)
  {
    var r := a + tail;
    assert forall i :: 0 <= i < |a| ==> r[i] == a[i];
    assert forall i :: |a| <= i < |r| ==> r[i] == tail[i - |a|];
  }

  /** Every run opens with the audio information, the fallback values included. */
  lemma RunOpens(job: Job, env: Environment)
    ensures Run(job, env)[0] == AudioInfo(AudioInfoOf(job, env))
  {
    var t := TryBlock(job, env);
    RunTail(job, env);
    var opening := [AudioInfo(AudioInfoOf(job, env)), Progress(5), StatusChanged(LoadingModel)];
    var middle := [Progress(10), DeviceInfo(DeviceName(env.gpu)), StatusChanged(Processing)];
    assert t.events[0] == opening[0] by {
      if env.modelLoad.Ok? {
        assert t.events == (opening + middle) + AfterModelLoad(job, env).events;
      }
    }
  }

  /** How every run ends: a result is only ever the last event; an error is
      always followed by the ERROR status and a failed result with the same
      message, and nothing else; a failed result always comes after its error,
      and a successful one right after progress 100 and COMPLETED. */
  lemma RunEnds(job: Job, env: Environment)
    ensures var r := Run(job, env);
      && (forall i :: 0 <= i < |r| && r[i].Finished? ==> i == |r| - 1)
      && (forall i :: 0 <= i < |r| && r[i].ErrorSignal? ==> i == |r| - 3 && r[i..] == FailureTail(r[i].message))
      && (r[|r| - 1].Finished? && !r[|r| - 1].result.success ==>
            r[|r| - 3..] == FailureTail(r[|r| - 1].result.errorMessage))
      && (r[|r| - 1].Finished? && r[|r| - 1].result.success ==>
            r[|r| - 3..] == SuccessTail(r[|r| - 1].result.outputFiles, env.elapsedTenths))
  {
    var t := TryBlock(job, env);
    TryBlockOrderly(job, env);
    RunTail(job, env);
    var r, a := Run(job, env), t.events;
    assert forall i :: 0 <= i < |a| ==> r[i] == a[i] && MidRun(a[i]);
  }

  /** `run` never reports INITIALIZING or CANCELLED; only `cancel` reports the latter. */
  lemma RunStatuses(job: Job, env: Environment)
    ensures var r := Run(job, env);
      forall i :: 0 <= i < |r| && r[i].StatusChanged? ==> r[i].status != Initializing && r[i].status != Cancelled
  {
    var t := TryBlock(job, env);
    TryBlockOrderly(job, env);
    RunTail(job, env);
    var r, a := Run(job, env), t.events;
    assert forall i :: 0 <= i < |a| ==> r[i] == a[i] && MidRun(a[i]);
  }

  /** The worker as `cancel` sees it: its job and the cancel flag. */
  datatype Worker = Worker(job: Job, cancelled: bool)

  /** `cancel`: raise the flag, keep the job, and emit CANCELLED. */
  function Cancel(w: Worker): (r: (Worker, seq<Event>))
    ensures r.0.cancelled && r.0.job == w.job
    ensures |r.1| == 1 && r.1[0].StatusChanged? && r.1[0].status == Cancelled
  {
    (w.(cancelled := true), [StatusChanged(Cancelled)])
  }

  /** Cancelling twice leaves the worker as cancelling once. */
  lemma CancelIdempotent(w: Worker)
    ensures Cancel(Cancel(w).0).0 == Cancel(w).0
  {
  }

  /** The event `cancel` emits is one `run` never emits, whatever happens. */
  lemma CancelOnlyByCancel(w: Worker, env: Environment)
    ensures var r := Run(w.job, env);
      forall i :: 0 <= i < |r| ==> r[i] != Cancel(w).1[0]
  {
    RunStatuses(w.job, env);
  }

  /** A failed probe changes only the first event: the fallback information is
      reported and the run continues exactly as with a successful probe. */
  lemma ProbeFailureContinues(job: Job, env: Environment)
    ensures var failed := env.(probe := None);
      && Run(job, failed)[0] == AudioInfo(AudioFileInfo(job.inputFile, 0, 44100, 2, "unknown"))
      && Run(job, failed)[1..] == Run(job, env)[1..]
  {
    var failed := env.(probe := None);
    RunOpens(job, failed);
    var t, u := TryBlock(job, env), TryBlock(job, failed);
    TryBlockIgnoresProbe(job, env);
    RunTail(job, env);
    RunTail(job, failed);
    var tail := Ending(t, env.elapsedTenths);
    assert Ending(u, env.elapsedTenths) == tail;
    DropFirst(u.events, tail);
    DropFirst(t.events, tail);
  }

  /** The `try` block ends the same way with or without the probe, and emits the
      same events after the first. */
  lemma TryBlockIgnoresProbe(job: Job, env: Environment)
    ensures var t, u := TryBlock(job, env), TryBlock(job, env.(probe := None));
      && |t.events| == |u.events| && t.events[1..] == u.events[1..]
      && t.Returned? == u.Returned? && t.Ran? == u.Ran?
      && (t.Ran? ==> t.files == u.files)
      && (t.Raised? ==> u.Raised? && t.message == u.message)
  {
    var failed := env.(probe := None);
    var opening := [AudioInfo(AudioInfoOf(job, env)), Progress(5), StatusChanged(LoadingModel)];
    var opening' := [AudioInfo(AudioInfoOf(job, failed)), Progress(5), StatusChanged(LoadingModel)];
    if env.modelLoad.Fail? {
      assert opening[1..] == opening'[1..];
    } else {
      var middle := [Progress(10), DeviceInfo(DeviceName(env.gpu)), StatusChanged(Processing)];
      AfterModelLoadIgnoresProbe(job, env);
      assert (opening + middle)[1..] == (opening' + middle)[1..];
      ThenSameAfterFirst(opening + middle, opening' + middle, AfterModelLoad(job, env));
    }
  }

  /** Two prefixes that differ at most in their first event give outcomes that
      differ at most in their first event. */
  lemma ThenSameAfterFirst(p: seq<Event>, q: seq<Event>, o: Outcome)
    requires |p| == |q| > 0 && p[1..] == q[1..]
    ensures |Then(p, o).events| == |Then(q, o).events|
    ensures Then(p, o).events[1..] == Then(q, o).events[1..]
  {
    assert (p + o.events)[1..] == p[1..] + o.events;
    assert (q + o.events)[1..] == q[1..] + o.events;
  }

  /** Everything after the model load does not read the probe. */
  lemma AfterModelLoadIgnoresProbe(job: Job, env: Environment)
    ensures AfterModelLoad(job, env.(probe := None)) == AfterModelLoad(job, env)
  {
    var failed := env.(probe := None);
    SaveStemsIgnoresProbe(job, env);
    assert AfterInference(job, failed) == AfterInference(job, env);
    assert AfterAudioLoad(job, failed) == AfterAudioLoad(job, env);
  }

  /** `_save_stems` does not read the probe. */
  lemma SaveStemsIgnoresProbe(job: Job, env: Environment)
    ensures SaveStems(job, env.(probe := None)) == SaveStems(job, env)
  {
    if env.mkdir.Ok? && GetModel(job.modelName).Some? && |job.stems| > 0 {
      SaveFromIgnoresProbe(job.stems, env, GetModel(job.modelName).value.stems, PathIn(job), 0);
    }
  }

  /** The save loop does not read the probe. */
  lemma {:induction false} SaveFromIgnoresProbe(stems: seq<string>, env: Environment, vocabulary: seq<string>, pathOf: string -> string, i: nat)
    requires 0 < |stems| && i <= |stems|
    ensures SaveFrom(stems, env.(probe := None), vocabulary, pathOf, i) == SaveFrom(stems, env, vocabulary, pathOf, i)
    decreases |stems| - i
  {
    if i < |stems| {
      SaveFromIgnoresProbe(stems, env, vocabulary, pathOf, i + 1);
    }
  }

  /** A successful result lists the paths of a prefix of the requested stems,
      whether the loop saved all of them or met the flag part way. */
  lemma SuccessListsSavedPrefix(job: Job, env: Environment)
    ensures var r := Run(job, env);
      var last := r[|r| - 1];
      last.Finished? && last.result.success ==>
        var files := last.result.outputFiles;
        |files| <= |job.stems| && files == StemPaths(job)[..|files|]
  {
    var t := TryBlock(job, env);
    var tail := Ending(t, env.elapsedTenths);
    RunTail(job, env);
    if t.Ran? {
      SavedFilesPrefix(job, env);
    } else if t.Returned? {
      TryBlockOrderly(job, env);
      assert tail == [];
      assert MidRun(t.events[|t.events| - 1]);
    }
  }

  /** A `try` block that runs to its end saved a prefix of the requested stems. */
  lemma SavedFilesPrefix(job: Job, env: Environment)
    requires TryBlock(job, env).Ran?
    ensures var files := TryBlock(job, env).files;
      |files| <= |job.stems| && files == StemPaths(job)[..|files|]
  {
    RanReachesSaving(job, env);
    var model := GetModel(job.modelName).value;
    assert SaveStems(job, env) == SaveFrom(job.stems, env, model.stems, PathIn(job), 0);
    SaveFromFiles(job.stems, env, model.stems, PathIn(job), 0);
  }

  /** A `try` block that runs to its end got past every stage into the save loop,
      and ran that to its end. */
  lemma RanReachesSaving(job: Job, env: Environment)
    requires TryBlock(job, env).Ran?
    ensures env.modelLoad.Ok? && env.audioLoad.Ok? && env.inference.Ok? && !FlagSeen(env, 1)
    ensures SaveStems(job, env).Ran? && TryBlock(job, env).files == SaveStems(job, env).files
  {
    assert env.modelLoad.Ok? && env.audioLoad.Ok? && env.inference.Ok? && !FlagSeen(env, 1);
    ReachesSaving(job, env);
  }


  /** Without the cancel flag the `try` block never returns early, so every run
      ends with a result. */
  lemma ResultLast(job: Job, env: Environment)
    requires env.cancelFrom.None?
    ensures Run(job, env)[|Run(job, env)| - 1].Finished?
  {
    RunTail(job, env);
    assert !AfterInference(job, env).Returned?;
    assert !AfterAudioLoad(job, env).Returned?;
    assert !TryBlock(job, env).Returned?;
  }
}
