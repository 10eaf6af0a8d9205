# waveweaver in Dafny

waveweaver is a desktop tool that splits a song into stems (drums, bass, other,
vocals, and for one model piano and guitar) with Demucs models, behind a PySide6
window. This project models its deterministic core in Dafny and proves
properties of that model:

- **Filename and string utilities**, in `helpers.dfy` and `file_handler.dfy`:
  - middle and word-boundary truncation;
  - the two copies of safe-file-name creation (`Path.suffix` against `os.path.splitext`);
  - the audio-extension check and the dropped-URL filter;
  - stem output names;
  - `M:SS` durations and clamping;
  - collision-free renaming against a finite set of existing paths.
- **The catalogue**, in `models.dfy`:
  - the eight processing statuses;
  - the five-entry model registry and its stem vocabularies;
  - the partial `get_model`;
  - the display and duration formatters.
- **The separation worker**, in `stem_separator.dfy`. `run` is a function from the outcomes of the foreign calls to the list of signals it emits:
  - the outcomes are the metadata probe, model load, audio load, inference, the output folder, each stem write, and the first checkpoint that sees the cancel flag;
  - the stem-saving loop is modelled with its naming, request-order iteration, vocabulary lookup, cancellation break and the 80→100 progress split;
  - `cancel` and the probe fallback are modelled too.
- **The window's components**, each a record with pure transitions:
  - `progress_section.dfy`: `update_progress`, which never moves the bar back (the artificial counter and the ramp set it directly), the line-structured status label, and the artificial counter with its 79 and 80 caps;
  - `stem_selection.dfy`: the ordered stem→checked dictionary;
  - `model_selection.dfy`: the model combo box;
  - `output_section.dfy` and `audio_section.dfy`: the folder and file labels.
- **The main window**, in `main_window.dfy`:
  - the slots: enable rule, file/folder/model handlers, start, completion, error, drag and drop, close, force cancel;
  - the routing of worker signals;
  - `Step`, one user or timer or worker action;
  - `Session`, any sequence of actions from start-up.

  Every reachable window satisfies the invariant `Consistent`:
  - cancel is shown exactly while a worker is held;
  - extract is enabled exactly when extraction is possible;
  - the stem panel shows the vocabulary of the combo's model.

Support modules:
- `wrappers.dfy`: `Option`.
- `seqs.dfy`: first and last index.
- `text.dfy`: Python string semantics, i.e. negative-index slices, `split`, `in`, ASCII `lower`, decimal digits.
- `paths.dfy`: the pathlib and `os.path` name, stem, suffix, `splitext` and basename.
- `settings.dfy`: the default settings.

Python quirks the model keeps:
- `text[-0:]` is the whole text. As a result, `truncate_middle` with a maximum of 4 returns `"..." + text`, and the folder label with a maximum of 0 shows `"..." + path`.
- pathlib sees no suffix in `.mp3` or `abc.`, while `os.path.splitext` sees `.` in `abc.`. The two `create_safe_filename` copies therefore disagree (`FileHandler.SafeFilenameCopiesDiffer`).
- Empty strings are false, so an empty input or output path disables extraction.
- The drop handler's `endswith` test accepts `.mp3`, which `is_audio_file` rejects.

Foreign effects become parameters:
- sound-file probing, model loading, audio loading, inference, `mkdir` and `sf.write`: each is an `Outcome` (returns, or raises with a message);
- the GPU name;
- the elapsed time, in tenths of a second;
- the user's answers to dialogs;
- the random increments of the artificial progress, in hundredths of a percent;
- the set of paths that exist on disk.

Python exceptions the source raises itself are modelled with their messages (for `list.index`, exactly for stems whose `repr` is plain single quotes):
- `list.index` on a stem the model lacks;
- `20 / 0` on an empty stem list;
- `None.stems` for an unknown model key.

## Model

| member | source | states |
|---|---|---|
| Helpers.TruncateMiddle | src/waveweaver/utils/helpers.py:21-30 | unchanged when it fits; the first max characters when 0 ≤ max ≤ 3 (Python's negative-index slice when max < 0); `"..." + text` at max 4; for max ≥ 5 the first and last k = (max−3)/2 ≥ 1 characters around "...", max−1 or max long |
| Helpers.TruncateMiddleKeepsEnds | src/waveweaver/utils/helpers.py:26-30 | a too-long text at max ≥ 5 keeps its first and last (max−3)/2 characters around "...", whatever lies between them |
| Helpers.TruncateMiddleExample | tests/test_utils/test_helpers.py:26-32 | "this is a very long text" at 15 is "this i...g text" |
| Helpers.TruncateFilename | src/waveweaver/utils/helpers.py:44-54 | always a prefix of the input; unchanged when it fits; otherwise between max/2 and max characters: cut just before the last space of the first max characters, or at max exactly when no space lies in the second half |
| Helpers.TruncateFilenameIdempotent | src/waveweaver/utils/helpers.py:44-54 | truncating twice is truncating once |
| Helpers.FilterSafe | src/waveweaver/utils/helpers.py:69-72 | only safe characters, never longer than the input, no '/', and the identity on an all-safe name |
| Helpers.FilterSafeSubsequence | src/waveweaver/utils/helpers.py:69-72 | the kept characters stay in their order: the result is a subsequence of the input |
| Helpers.FilterSafeCounts | src/waveweaver/utils/helpers.py:69-72 | every safe character is kept exactly as often as it occurs, every other character is dropped |
| Helpers.CreateSafeFilename | src/waveweaver/utils/helpers.py:57-80 | only safe characters; the filtered name when it fits; otherwise, when the suffix fits, `stem[:max−len(suffix)] + suffix` with pathlib's split, exactly max long |
| Helpers.CreateSafeFilenameIdempotent | src/waveweaver/utils/helpers.py:75-80 | applying it to its own result changes nothing when the suffix fits |
| Helpers.FormatDuration | src/waveweaver/utils/helpers.py:83-95 | the text reads back (decimal minutes without a leading zero, colon, two digits below 60) as the number of seconds |
| Helpers.ParseDurationExact | src/waveweaver/utils/helpers.py:83-95 | any text that reads back as a duration is exactly the text formatted for it, so format and reader are inverse both ways |
| Helpers.FormatDurationInjective | src/waveweaver/utils/helpers.py:93-95 | different durations never format the same |
| Helpers.FormatDurationExamples | tests/test_utils/test_helpers.py:34-37 | 65 gives "1:05" and 3661 gives "61:01" |
| Helpers.OutputFolderName | src/waveweaver/utils/helpers.py:135-145 | the name followed by the input's suffix is the input's final component; no '/' |
| Helpers.Clamp | src/waveweaver/utils/helpers.py:148-160 | inside [lo, hi] when lo ≤ hi; the value itself when already inside; hi above, lo below; lo whenever lo > hi |
| Helpers.ClampExamples | tests/test_utils/test_helpers.py:51-55 | (5,0,10)→5, (−1,0,10)→0, (15,0,10)→10, and a fraction inside [0, 1] is kept |
| FileHandler.IsAudioFileCharacterized | src/waveweaver/utils/file_handler.py:14-19 | a path is an audio file iff its final component is a non-empty stem followed by one of the five extensions in any letter case |
| FileHandler.IsAudioFileOfName | src/waveweaver/utils/file_handler.py:17-19 | for a plain name, acceptance depends on the extension alone |
| FileHandler.BareExtensionRejected | src/waveweaver/utils/file_handler.py:17-19 | ".mp3" alone has no suffix and is rejected |
| FileHandler.SupportedExtensionExamples | tests/test_utils/test_file_handler.py:15-38 | .mp3, .flac, .M4A accepted; .txt, .mp4 rejected |
| FileHandler.AudioFilesFromUrls | src/waveweaver/utils/file_handler.py:21-30 | exactly the local paths of the URLs that are audio files, never more entries than URLs |
| FileHandler.AudioFilesFromUrlsAppend | src/waveweaver/utils/file_handler.py:24-30 | the filter distributes over concatenation, so it keeps URL order |
| FileHandler.AudioFilesFromOneUrl | src/waveweaver/utils/file_handler.py:25-29 | one URL contributes its path iff it is local and an audio file |
| FileHandler.CreateSafeFilename | src/waveweaver/utils/file_handler.py:32-46 | only safe characters; the filtered name when it fits; otherwise, when the extension fits, `root[:max−len(ext)] + ext` with the `splitext` split, exactly max long |
| FileHandler.SafeFilenameExample | tests/test_utils/test_file_handler.py:40-45 | `song<>:"/\|?*.mp3` becomes "song.mp3" |
| FileHandler.SafeFilenameCopiesDiffer | src/waveweaver/utils/file_handler.py:42-44 | on "abc." at 3 the two copies give different names |
| FileHandler.CreateOutputFilename | src/waveweaver/utils/file_handler.py:68-82 | always ends " - stem.wav"; the pathlib stem in front when it fits, else the word-boundary truncation plus "..." |
| FileHandler.OutputHeadTruncates | src/waveweaver/utils/file_handler.py:75-80 | the inline truncation is `truncate_filename` followed by "..." |
| FileHandler.CreateOutputFilenameOfName | tests/test_utils/test_file_handler.py:70-75 | "My Song Title.mp3" style names give "<title> - <stem>.wav" |
| FileHandler.FirstFreeCounter | src/waveweaver/utils/file_handler.py:94-101 | the least counter from 1 whose numbered name is free |
| FileHandler.LargeCandidatesFree | src/waveweaver/utils/file_handler.py:96-101 | beyond some bound no candidate exists, so the loop ends |
| FileHandler.AvailableFilename | src/waveweaver/utils/file_handler.py:84-101 | never an existing path; the path itself when free; otherwise `parent/base (n)suffix` with every smaller counter taken |
| Models.StatusValueInjective | src/waveweaver/core/models.py:10-19 | distinct statuses have distinct values |
| Models.AllStatusesComplete | src/waveweaver/core/models.py:10-19 | every status is one of the eight listed |
| Models.DisplayName | src/waveweaver/core/models.py:30-33 | starts with "name - ", ends with the description, and has exactly their lengths plus 3 |
| Models.DurationFormatted | src/waveweaver/core/models.py:45-50 | agrees with `format_duration` and reads back as the duration |
| Models.ModelKeysListed | src/waveweaver/core/models.py:108-111 | the keys are htdemucs, htdemucs_ft, mdx_extra, mdx_extra_q, htdemucs_6s, in that order, no repeat |
| Models.GetModel | src/waveweaver/core/models.py:98-101 | None exactly for a key outside the registry; otherwise the registry entry with that key |
| Models.GetModelAt | src/waveweaver/core/models.py:98-101 | each entry is found under its own key |
| Models.AllModels | src/waveweaver/core/models.py:103-106 | the copy has exactly the registry's keys, each mapping to what `get_model` returns |
| Models.StemVocabulary | src/waveweaver/core/models.py:65-96 | every vocabulary starts drums, bass, other, vocals and is the four- or the six-stem list |
| Models.SixStemModel | src/waveweaver/core/models.py:90-95 | piano and guitar belong to a model iff it is htdemucs_6s |
| Models.DefaultModelKnown | src/waveweaver/core/models.py:72-77 | the default key htdemucs_ft is in the registry with the four-stem vocabulary |
| StemSeparator.AudioInfoOf | src/waveweaver/core/stem_separator.py:116-134 | the input path always; the fallback 0 s, 44100 Hz, 2 channels, "unknown" when the probe raises; the probed values otherwise |
| StemSeparator.ProbeFailureContinues | src/waveweaver/core/stem_separator.py:116-134 | a failing probe changes only the first signal; the rest of the run is the same |
| StemSeparator.StemPath | src/waveweaver/core/stem_separator.py:179-201 | a stem's file ends " - stem.wav" |
| StemSeparator.StemPathNamed | src/waveweaver/core/stem_separator.py:179-201 | a stem without '/' is written into the folder output_dir / stem(input), under the name `truncate_filename(stem(input), 25)` + " - " + stem + ".wav" |
| StemSeparator.StemPathInjective | src/waveweaver/core/stem_separator.py:199-201 | two different stems of one job never get the same path, so no stem file overwrites another |
| StemSeparator.SaveFromEvents | src/waveweaver/core/stem_separator.py:187-209 | the loop emits, in order, the progress after each stem it saves |
| StemSeparator.SaveFromFiles | src/waveweaver/core/stem_separator.py:191-207 | the files listed are the paths of the saved stems, in request order |
| StemSeparator.SaveFromStops | src/waveweaver/core/stem_separator.py:191-205 | every stem the loop got past was saved; it stops at the end, at the flag, or raising at the stem that is unknown or fails to write |
| StemSeparator.ProgressAfterBounds | src/waveweaver/core/stem_separator.py:187-209 | the progress after k of n stems grows with k and stays within [80, 100] |
| StemSeparator.HappyPath | src/waveweaver/core/stem_separator.py:48-98 | without failure or flag: the ten signals up to SAVING, one progress per stem, 100, COMPLETED, and a success listing every stem's path |
| StemSeparator.CancelAfterAudioLoad | src/waveweaver/core/stem_separator.py:73-74 | a flag seen after the audio load ends the run after progress 15, with no result |
| StemSeparator.CancelAfterInference | src/waveweaver/core/stem_separator.py:82-83 | a flag first seen after the inference ends the run after progress 80, with no result |
| StemSeparator.CancelWhileSaving | src/waveweaver/core/stem_separator.py:191-193 | a flag seen in the save loop only breaks it: the run still completes successfully with the stems saved so far |
| StemSeparator.ModelLoadFails | src/waveweaver/core/stem_separator.py:59-61 | a failed model load ends after LOADING_MODEL with error, ERROR and a failed result |
| StemSeparator.AudioLoadFails | src/waveweaver/core/stem_separator.py:68-70 | a failed audio load ends after PROCESSING with the failure signals |
| StemSeparator.InferenceFails | src/waveweaver/core/stem_separator.py:76-77 | a failed inference ends after progress 15 with the failure signals |
| StemSeparator.SavingFailsEarly | src/waveweaver/core/stem_separator.py:179-188 | a folder that cannot be made, an unknown model or an empty stem list fails right after SAVING |
| StemSeparator.SavingFailsAt | src/waveweaver/core/stem_separator.py:195-205 | the first stem that is unknown or fails to write ends the run with the failure signals after the earlier stems' progress |
| StemSeparator.RunEnds | src/waveweaver/core/stem_separator.py:86-109 | a result is only ever the last signal; an error is always followed by ERROR and a failed result with the same message; a success comes right after 100 and COMPLETED |
| StemSeparator.RunStatuses | src/waveweaver/core/stem_separator.py:48-109 | `run` never reports INITIALIZING or CANCELLED |
| StemSeparator.RunProgressMonotone | src/waveweaver/core/stem_separator.py:48-98 | progress never decreases over a run and stays within [5, 100] |
| StemSeparator.RunOpens | src/waveweaver/core/stem_separator.py:54-57 | every run opens with the audio information |
| StemSeparator.ResultLast | src/waveweaver/core/stem_separator.py:48-109 | without the flag every run ends with a result |
| StemSeparator.SuccessListsSavedPrefix | src/waveweaver/core/stem_separator.py:86-98 | a successful result lists the paths of a prefix of the requested stems |
| StemSeparator.Cancel | src/waveweaver/core/stem_separator.py:111-114 | raises the flag, keeps the job, emits CANCELLED once |
| StemSeparator.CancelIdempotent | src/waveweaver/core/stem_separator.py:111-114 | cancelling twice leaves the worker as cancelling once |
| StemSeparator.CancelOnlyByCancel | src/waveweaver/core/stem_separator.py:111-114 | the CANCELLED status `cancel` emits is one `run` never emits |
| ProgressSection.StartProcessing | src/waveweaver/gui/components/progress_section.py:47-51 | bar 0 and shown, label "Processing...", the counter and timer untouched |
| ProgressSection.StopProcessing | src/waveweaver/gui/components/progress_section.py:53-58 | timer dropped and bar hidden; bar value and label kept |
| ProgressSection.UpdateProgress | src/waveweaver/gui/components/progress_section.py:60-63 | the bar only moves, and only to the new value when it is larger; nothing else changes |
| ProgressSection.UpdateProgressMonotone | src/waveweaver/gui/components/progress_section.py:60-63 | the bar never decreases and resending a value changes nothing |
| ProgressSection.UpdateStatusLines | src/waveweaver/gui/components/progress_section.py:65-88 | the label's lines are the status message followed by the old label's lines after the first, verbatim |
| ProgressSection.UpdateDeviceInfo | src/waveweaver/gui/components/progress_section.py:90-97 | for a one-line device name, the label's lines are "Processing...", "Using device", and the old last line exactly when the old label mentions "Duration:"; nothing else changes |
| ProgressSection.UpdateAudioInfo | src/waveweaver/gui/components/progress_section.py:99-110 | the duration is always recorded; the label changes only while it says "Processing...": to "Processing..." and the duration line when no device is shown, and to the old first two lines followed by the duration line when a device is shown |
| ProgressSection.AudioAfterTwoLines | src/waveweaver/gui/components/progress_section.py:105-108 | on a two-line label with a device the duration becomes the third line |
| ProgressSection.DeviceThenAudio | src/waveweaver/gui/components/progress_section.py:90-110 | device then audio information gives the three lines "Processing...", device, duration |
| ProgressSection.ArtificialTick | src/waveweaver/gui/components/progress_section.py:133-140 | below 80 the counter ends at most 79, never decreases when it was at most 79, and the bar shows its whole percent; from 80 on nothing changes |
| ProgressSection.Ticks | src/waveweaver/gui/components/progress_section.py:133-140 | any non-empty sequence of ticks from below 80 leaves the counter at most 79, and from at most 79 it never falls |
| ProgressSection.StartArtificialProgress | src/waveweaver/gui/components/progress_section.py:112-131 | the counter restarts at 15 and a timer is running; nothing else changes |
| ProgressSection.StopArtificialProgress | src/waveweaver/gui/components/progress_section.py:158-166 | without a timer nothing changes; otherwise the timer stops and the ramp starts when the counter is below 80 |
| ProgressSection.RampStep | src/waveweaver/gui/components/progress_section.py:168-174 | below 80 the counter grows, never past 80, and the bar follows; at 80 the ramp stops |
| ProgressSection.RampReaches80 | src/waveweaver/gui/components/progress_section.py:168-174 | the ramp reaches exactly 80 after one step per half percent still missing |
| StemSelection.Put | src/waveweaver/gui/components/stem_selection.py:41 | a new stem goes last, a known stem keeps its place; the keys stay distinct; only that stem's tick changes |
| StemSelection.UpdateStemsSelectsAll | src/waveweaver/gui/components/stem_selection.py:32-42 | with distinct stems the boxes are exactly those stems in order and the selection is the whole list; older boxes are gone |
| StemSelection.SelectedStems | src/waveweaver/gui/components/stem_selection.py:51-56 | a stem is selected iff some box for it is ticked |
| StemSelection.SelectedStemsInOrder | src/waveweaver/gui/components/stem_selection.py:51-56 | the selection is an order-preserving subsequence of the ticked boxes |
| StemSelection.SelectAll | src/waveweaver/gui/components/stem_selection.py:58-61 | the selection becomes every stem, in order; the stems are unchanged |
| StemSelection.DeselectAll | src/waveweaver/gui/components/stem_selection.py:63-66 | the selection becomes empty; the stems are unchanged |
| StemSelection.SetStemSelection | src/waveweaver/gui/components/stem_selection.py:68-71 | an unknown stem changes nothing; a known one changes only its own tick |
| StemSelection.SetThenIsSelected | src/waveweaver/gui/components/stem_selection.py:68-78 | after setting a known stem `is_stem_selected` reports the value set, and every other stem keeps its state |
| StemSelection.IsStemSelectedListed | src/waveweaver/gui/components/stem_selection.py:73-78 | selected iff listed by `get_selected_stems`; an unknown stem never is |
| ModelSelection.Populate | src/waveweaver/gui/components/model_selection.py:47-59 | the registry's entries in order as (display name, key); current at the default key when the registry has it, else 0 |
| ModelSelection.PopulatedSelection | src/waveweaver/gui/components/model_selection.py:47-69 | the populated combo selects a registry key: the default when known, "htdemucs" otherwise |
| ModelSelection.PopulateDefaults | src/waveweaver/gui/components/model_selection.py:52-59 | with the default settings the combo starts on the second entry |
| ModelSelection.OnModelChanged | src/waveweaver/gui/components/model_selection.py:61-65 | sends the current key exactly when it is present and non-empty |
| ModelSelection.SelectedModel | src/waveweaver/gui/components/model_selection.py:67-69 | the current key, or the configured default when it is missing or empty |
| ModelSelection.SetSelectedModel | src/waveweaver/gui/components/model_selection.py:71-76 | an unknown key leaves the combo alone; a known one becomes current |
| ModelSelection.SetThenSelected | src/waveweaver/gui/components/model_selection.py:71-76 | a registry key becomes the selected model, with a change notification iff it differs from the previous one |
| OutputSection.DisplayPath | src/waveweaver/gui/components/output_section.py:62-65 | the path when it fits; otherwise "..." and a suffix of the path, max + 3 long for max ≥ 1, `"..."` and the whole path at max 0 |
| OutputSection.DisplayPathIsTail | src/waveweaver/gui/components/output_section.py:63-65 | a long path shows exactly its last max characters |
| OutputSection.DisplayPathExamples | src/waveweaver/gui/components/output_section.py:63-65 | at the default 40 a 50-character path loses its first ten characters; at 0 it is shown whole |
| OutputSection.SetSelectedFolder | src/waveweaver/gui/components/output_section.py:57-67 | stores the path verbatim and shows "Selected: " and its display form |
| OutputSection.SelectedFolderAfterSet | src/waveweaver/gui/components/output_section.py:57-71 | the getter returns the last folder set |
| OutputSection.SelectFolder | src/waveweaver/gui/components/output_section.py:46-55 | a cancelled dialog changes nothing; a chosen folder is stored and announced |
| OutputSection.ClearSelection | src/waveweaver/gui/components/output_section.py:73-76 | back to no folder and "No folder selected" |
| AudioSection.FileLabel | src/waveweaver/gui/components/audio_section.py:65-69 | "Selected: " then the final component, with no '/': the whole component when it fits, otherwise (for a limit of at least 5) its first and last (limit − 3) / 2 characters around "...", within the limit |
| AudioSection.LabelIgnoresFolder | src/waveweaver/gui/components/audio_section.py:65-67 | the same file name in any folder is shown the same |
| AudioSection.SelectedFileAfterSet | src/waveweaver/gui/components/audio_section.py:62-73 | the getter returns the full path set, not the shown name |
| AudioSection.SelectFile | src/waveweaver/gui/components/audio_section.py:49-60 | a cancelled dialog changes nothing; a chosen file is stored and announced |
| AudioSection.ClearSelection | src/waveweaver/gui/components/audio_section.py:75-78 | back to no file and "No file selected" |
| MainWindow.Init | src/waveweaver/gui/main_window.py:30-42 | no input, output or worker, extract disabled, cancel hidden, fresh panels, the combo populated |
| MainWindow.InitSelectsVocabulary | src/waveweaver/gui/main_window.py:117-120 | at start-up the combo model's whole vocabulary is ticked; by default HTDemucs Fine-tuned with its four stems |
| MainWindow.InitConsistent | src/waveweaver/gui/main_window.py:30-42 | the window built at start-up satisfies the invariant |
| MainWindow.OnFileSelected | src/waveweaver/gui/main_window.py:226-229 | stores the file and recomputes the extract button; nothing else changes |
| MainWindow.OnOutputFolderSelected | src/waveweaver/gui/main_window.py:236-239 | stores the folder and recomputes the extract button; nothing else changes |
| MainWindow.ModelChangedShowsVocabulary | src/waveweaver/gui/main_window.py:231-234 | afterwards the stems are the model's vocabulary, all selected, in catalogue order |
| MainWindow.PickSelectsVocabulary | src/waveweaver/gui/main_window.py:231-234 | picking another combo entry ticks every stem of its vocabulary, in order |
| MainWindow.StartExtraction | src/waveweaver/gui/main_window.py:250-288 | nothing without input and output; a warning and no worker without ticked stems; else a worker for file, folder, ticked stems and selected model, extract off, cancel shown |
| MainWindow.ClickWhileRunning | src/waveweaver/gui/main_window.py:241-248 | in a consistent window a click while a worker runs does nothing |
| MainWindow.ClickedJob | src/waveweaver/gui/main_window.py:255-272 | the job a click starts carries the ticked stems, of which there is at least one, and the selected model |
| MainWindow.StartedJobFits | src/waveweaver/gui/main_window.py:255-272 | a started job names a registry model, has at least one stem, and only stems of that model |
| MainWindow.StartedJobSucceeds | src/waveweaver/gui/main_window.py:266-285 | without failures or cancellation the started run ends with a success listing every requested stem's path |
| MainWindow.Complete | src/waveweaver/gui/main_window.py:308-323 | no worker, extract on, cancel and bar hidden, "Extraction failed!" iff the result failed; nothing else changes |
| MainWindow.CompletionMessage | src/waveweaver/gui/main_window.py:314-319 | "Extraction failed!" for a failure, and for a success "Extraction complete! (" then the time with one decimal then "s)" |
| MainWindow.CompletionTimeReadsBack | src/waveweaver/gui/main_window.py:314-317 | the time inside a success message reads back as the processing time in tenths of a second |
| MainWindow.CompletionMessageExample | tests/test_gui/test_main_window.py:205-214 | a success after 10.5 s reads "Extraction complete! (10.5s)" |
| MainWindow.TenthsRoundTrip | src/waveweaver/gui/main_window.py:316 | the shown seconds give back the time in tenths |
| MainWindow.CompleteTwice | src/waveweaver/gui/main_window.py:303-323 | completing twice is completing once with the second result |
| MainWindow.HandleError | src/waveweaver/gui/main_window.py:303-306 | one error box with the message is added, then the window completes as a failure: no worker, extract on, cancel and bar hidden, "Extraction failed!"; nothing else changes |
| MainWindow.HandleErrorNested | src/waveweaver/gui/main_window.py:303-306 | whatever signals the modal error box lets through, the window still ends with no worker, extract on, cancel and bar hidden, "Extraction failed!" |
| MainWindow.Deliver | src/waveweaver/gui/main_window.py:274-283 | progress-panel signals only touch that panel; error goes to `handle_error`, finished to `on_extraction_complete` |
| MainWindow.DeliverAllAppend | src/waveweaver/gui/main_window.py:274-283 | delivering two lists of signals is delivering their concatenation |
| MainWindow.QuietSignals | src/waveweaver/gui/main_window.py:275-283 | signals other than error and finished leave all but the progress panel alone |
| MainWindow.FailureSettles | src/waveweaver/gui/main_window.py:303-306 | the failure signals give the same window whether they arrive in turn or while the error box is open |
| MainWindow.SuccessSettles | src/waveweaver/gui/main_window.py:308-319 | the success signals raise the bar to 100 and complete with the result |
| MainWindow.RunSettles | src/waveweaver/gui/main_window.py:274-323 | without cancellation, once a run's signals are delivered the window has no worker, extract on, cancel hidden, the outcome shown, and one error box more iff it failed |
| MainWindow.FirstDroppable | src/waveweaver/gui/main_window.py:393-403 | None iff no local URL ends with an audio extension; otherwise the first such one |
| MainWindow.Drop | src/waveweaver/gui/main_window.py:393-403 | an accepted drop sets the audio panel and the input file; a rejected one changes nothing |
| MainWindow.DragMatchesDrop | src/waveweaver/gui/main_window.py:382-403 | a drag is accepted iff the drop would be |
| MainWindow.AudioFileDroppable | src/waveweaver/gui/main_window.py:386-389 | every path `is_audio_file` accepts can be dropped |
| MainWindow.DropLooserThanAudioCheck | src/waveweaver/gui/main_window.py:397-398 | ".mp3" can be dropped although `is_audio_file` rejects it |
| MainWindow.CloseEvent | src/waveweaver/gui/main_window.py:356-371 | asks iff a worker is held; closes iff none is held or the answer is yes |
| MainWindow.ForceCancel | src/waveweaver/gui/main_window.py:290-301 | restarts iff a worker is held and the answer is yes |
| MainWindow.CloseAndCancel | src/waveweaver/gui/main_window.py:356-371 | a settled window closes without asking; while cancel is shown, yes restarts and no keeps the window |
| MainWindow.StepConsistent | src/waveweaver/gui/main_window.py:241-248 | every action keeps the invariant, so the extract button always tells whether extraction is possible |
| MainWindow.Session | src/waveweaver/gui/main_window.py:211-224 | every window reachable from start-up through connected slots satisfies the invariant |

## Left out
- StemSeparator.StemPathNamed: the folder and file name are stated for stems without '/'; a stem with '/' would make pathlib descend into sub-folders, which the registry's stem names never do.
- StemSeparator.NotInList: the message quotes the stem in single quotes, which is `repr` only for stems without quotes, backslashes or non-printable characters; `repr`'s choice of double quotes and its escapes are not modelled. Such stems cannot reach the worker from the window, whose stems come from the model registry.

- Demucs, torch, `AudioFile`, `sf.info` and `sf.write` are foreign libraries. Each is one `Outcome` parameter; device detection is an optional GPU name.
- The real-time Qt machinery is not modelled: the QThread, signal queues across threads, and the visibility of `_is_cancelled` between threads. `run` is a sequential list of signals, and the cancel flag is a "first checkpoint that sees it" parameter.
- StemSeparator.ProgressAfter: progress is computed exactly, as `80 + (20·k)/n` rounded down. The source adds `20 / len(stems)` as a float on each pass, which can truncate a final 100 to 99.
- Floats: durations are whole seconds, processing time is kept in tenths (`:.1f` is `TenthsText`), and the artificial counter is in hundredths of a percent.
- Randomness: the timer intervals, the `** 0.4` and `** 1.2` scaling, `calculate_increment_range` and the `torch.cuda` checks of the artificial progress are out. The random increment is a parameter of each tick; only the 79 and 80 caps are modelled.
- The QTimer objects of the artificial progress are not modelled as objects. The animation timer is a three-state field. The ramp's unparented local timer is a `ramping` flag that keeps running until the ramp stops it, with no garbage-collection effect.
- Qt's progress-bar range rule (values outside 0–100 ignored) is not modelled. The bar starts at Qt's reset value −1.
- The bodies of `_restart_application`, `QMessageBox`, `QFileDialog` and `QDesktopServices` are out. Dialog answers are parameters, and a restart is the boolean that `ForceCancel` returns.
- The window never calls `StemSeparatorThread.cancel()`, so a cancelled run (which sends no result) is never followed by completion in `MainWindow.RunSettles`. That lemma requires no cancellation.
- `resizeEvent`, `dragMoveEvent`, layout and styling (theme.py), `format_file_size`, `lerp` and `validate_audio_file` are presentation or filesystem code.
- `ensure_directory_exists` and `get_file_info` are filesystem effects. The same applies to the `mkdir` in `_save_stems`, which is an `Outcome`.
- app.py, main.py, setup.py and the package `__init__` files are out. Environment variables in settings.py are out; the defaults (`max_filename_display` 40, `default_model` "htdemucs_ft") are constants.
- Path normalisation by pathlib (repeated or trailing '/', '.' components) and Windows separators are out: paths are POSIX strings split at '/'.
- QThread's own `finished` signal is out: the worker's `finished` is taken to be the one `run` emits with the result.
- Helpers.Clamp: works on Dafny reals; the float NaN and infinities and floating-point rounding are not modelled.
- ProgressSection.UpdateDeviceInfo: the lines of the new label are stated only for a device name without a newline; for other names only the frame (nothing but the label changes) is stated.
- ProgressSection.UpdateAudioInfo: a label that says "Processing..." and "Using" but has a single line makes `lines[1]` raise inside the slot. The model leaves the label unchanged in that case.
