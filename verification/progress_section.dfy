/** The progress panel: a progress bar that `update_progress` never moves back
    (the artificial counter and the final ramp set it directly), a status label
    whose first line names the stage and whose later lines carry the device and
    the audio duration, and the artificial progress that fills the bar while the
    separation itself reports nothing. */
module ProgressSection {
  import opened Text
  import opened Models

  /** The animation timer: never started (None), running, or stopped but kept. */
  datatype Timer = NoTimer | Running | Stopped

  /** The panel's state.  The artificial counter is kept in hundredths of a percent
      (the source holds it as a float); `ramping` tells whether the 50 ms timer of
      the ramp to 80 is running. */
  datatype Section = Section(
    bar: int,
    barVisible: bool,
    labelText: string,
    timer: Timer,
    ramping: bool,
    artificial: int,
    audioDuration: int)

  /** The panel as it is built: Qt's bar starts at its reset value -1, the label
      is empty and the counter holds 20. */
  const Initial := Section(-1, false, "", NoTimer, false, 2000, 0)

  /** The status label text while processing starts. */
  const ProcessingText := "Processing..."

  /** `start_processing`. */
  function StartProcessing(s: Section): (r: Section)
    ensures r.bar == 0 && r.barVisible && r.labelText == ProcessingText
    ensures r.timer == s.timer && r.artificial == s.artificial && r.audioDuration == s.audioDuration
    ensures r == s.(bar := 0, barVisible := true, labelText := ProcessingText)
  {
    s.(bar := 0, barVisible := true, labelText := ProcessingText)
  }

  /** `stop_processing`: drop the animation timer and hide the bar. */
  function StopProcessing(s: Section): (r: Section)
    ensures r.timer == NoTimer && !r.barVisible
    ensures r.bar == s.bar && r.labelText == s.labelText && r.artificial == s.artificial
    ensures r == s.(timer := NoTimer, barVisible := false)
  {
    s.(timer := NoTimer, barVisible := false)
  }

  /** `update_progress`: the bar moves only to a larger value. */
  function UpdateProgress(s: Section, value: int): (r: Section)
    ensures r.bar >= s.bar && r.bar >= value
    ensures r.bar == s.bar || r.bar == value
    ensures r.(bar := s.bar) == s
  {
    if value > s.bar then s.(bar := value) else s
  }

  /** The message `update_status` shows for each status. */
  function StatusMessage(status: ProcessingStatus): (r: string)
    ensures '\n' !in r
  {
    match status
    case Idle => ""
    case Initializing => "Initializing..."
    case LoadingModel => "Loading model..."
    case Processing => "Processing audio..."
    case Saving => "Saving stems..."
    case Completed => "Extraction complete!"
    case Error => "Error occurred!"
    case Cancelled => "Operation cancelled!"
  }

  /** `update_status`: the status message replaces the first line of the label;
      the later lines, if any, are kept. */
  function UpdateStatus(s: Section, status: ProcessingStatus): (r: Section)
    ensures r == s.(labelText := r.labelText)
  {
    var message := StatusMessage(status);
    var text := if '\n' in s.labelText then
        var lines := Split(s.labelText, '\n');
        if |lines| > 1 then message + "\n" + Join(lines[1..], '\n') else message
      else message;
    s.(labelText := text)
  }

  /** `update_device_info`: the label becomes "Processing...", then the device,
      then the last line of the old label when that label mentions the duration;
      nothing else changes. */
  function UpdateDeviceInfo(s: Section, device: string): (r: Section)
    ensures r == s.(labelText := r.labelText)
    ensures '\n' !in device ==>
      var before := Split(s.labelText, '\n');
      Split(r.labelText, '\n')
        == [ProcessingText, "Using " + device]
           + (if Contains(s.labelText, "Duration:") then [before[|before| - 1]] else [])
  {
    var text := Lines(ProcessingText, "Using " + device, KeptLine(s.labelText));
    if '\n' !in device then
      ProcessingSingle();
      UsingSingle(device);
      DeviceLines(s.labelText, ProcessingText, "Using " + device);
      s.(labelText := text)
    else s.(labelText := text)
  }

  /** The two given lines, then the old label's last line exactly when the old
      label mentions the duration. */
  lemma DeviceLines(text: string, first: string, second: string)
    requires '\n' !in first && '\n' !in second
    ensures var before := Split(text, '\n');
      Split(Lines(first, second, KeptLine(text)), '\n')
        == [first, second] + (if Contains(text, "Duration:") then [before[|before| - 1]] else [])
  {
    var before := Split(text, '\n');
    if Contains(text, "Duration:") {
      assert KeptLine(text) == [before[|before| - 1]];
    } else {
      assert KeptLine(text) == [];
    }
  }

  /** "Using " and a one-line device name make one line. */
  lemma UsingSingle(device: string)
    requires '\n' !in device
    ensures '\n' !in "Using " + device
  {
    assert '\n' !in "Using ";
  }

  /** Two lines and at most one more, joined by newlines. */
  function Lines(first: string, second: string, tail: seq<string>): (r: string)
    requires |tail| <= 1
    ensures '\n' !in first && '\n' !in second && (|tail| == 1 ==> '\n' !in tail[0]) ==>
      Split(r, '\n') == [first, second] + tail
  {
    var r := first + "\n" + second + (if |tail| == 1 then "\n" + tail[0] else "");
    if '\n' !in first && '\n' !in second && (|tail| == 1 ==> '\n' !in tail[0]) then
      LinesWithTail(first, second, tail);
      r
    else r
  }

  /** "Processing..." is a single line. */
  lemma ProcessingSingle()
    ensures '\n' !in ProcessingText
  {
  }

  /** What `update_device_info` keeps of the old label: its last line when it
      mentions "Duration:", nothing otherwise. */
  function KeptLine(text: string): (r: seq<string>)
    ensures |r| <= 1 && (|r| == 1 ==> '\n' !in r[0])
  {
    if Contains(text, "Duration:") then
      var lines := Split(text, '\n');
      [lines[|lines| - 1]]
    else []
  }

  /** The duration line `update_audio_info` writes. */
  function DurationLine(info: AudioFileInfo): string {
    "Audio Duration: " + DurationFormatted(info)
  }

  /** The duration line is a single line: the formatted duration holds digits,
      a colon and at most a minus sign. */
  lemma DurationLineSingle(info: AudioFileInfo)
    ensures '\n' !in DurationLine(info)
  {
    var m, q := info.duration / 60, info.duration % 60;
    var sign: string := if m >= 0 then "" else "-";
    var digits := NatToString(if m >= 0 then m else -m);
    assert IntToString(m) == sign + digits;
    NoDigitIsNewline(digits);
    NoDigitIsNewline(ZeroPad2(q));
    var prefix := "Audio Duration: ";
    assert '\n' !in prefix;
    assert DurationLine(info) == prefix + (sign + digits + ":" + ZeroPad2(q));
  }

  /** A run of digits holds no newline. */
  lemma NoDigitIsNewline(digits: string)
    requires AllDigits(digits)
    ensures '\n' !in digits
  {
    assert !IsDigit('\n');
  }

  /** `update_audio_info`: always record the duration; while the label says
      "Processing...", put the duration line after the first line, or after the
      first two when a device is shown.  A label that mentions "Using" but has a
      single line makes `lines[1]` raise IndexError in the slot, which leaves the
      label as it was. */
  function UpdateAudioInfo(s: Section, info: AudioFileInfo): (r: Section)
    ensures r == s.(audioDuration := info.duration, labelText := r.labelText)
    ensures !Contains(s.labelText, ProcessingText) ==> r.labelText == s.labelText
    ensures Contains(s.labelText, ProcessingText) && !Contains(s.labelText, "Using") ==>
      r.labelText == ProcessingText + "\n" + DurationLine(info)
    ensures Contains(s.labelText, ProcessingText) && Contains(s.labelText, "Using") ==>
      var lines := Split(s.labelText, '\n');
      (|lines| >= 2 ==> Split(r.labelText, '\n') == lines[..2] + [DurationLine(info)])
      && (|lines| < 2 ==> r.labelText == s.labelText)
  {
    var recorded := s.(audioDuration := info.duration);
    if Contains(s.labelText, ProcessingText) then
      if Contains(s.labelText, "Using") then
        var lines := Split(s.labelText, '\n');
        if |lines| >= 2 then
          DurationLineSingle(info);
          assert lines[..2] == [lines[0], lines[1]];
          recorded.(labelText := Lines(lines[0], lines[1], [DurationLine(info)]))
        else recorded
      else recorded.(labelText := ProcessingText + "\n" + DurationLine(info))
    else recorded
  }

  /** `show_completion_message` and `show_error_message`. */
  function ShowMessage(s: Section, message: string): (r: Section)
    ensures r == s.(labelText := message)
  {
    s.(labelText := message)
  }

  /** `start_artificial_progress`: the counter restarts at 15 and the timer runs
      (its randomised interval is not modelled). */
  function StartArtificialProgress(s: Section): (r: Section)
    ensures r.artificial == 1500 && r.timer == Running
    ensures r == s.(artificial := 1500, timer := Running)
  {
    s.(artificial := 1500, timer := Running)
  }

  /** `update_artificial_progress` with the random increment in hundredths: below
      80 the counter grows but is capped at 79, and the bar shows its integer part;
      from 80 on nothing happens. */
  function ArtificialTick(s: Section, increment: nat): (r: Section)
    ensures s.artificial < 8000 ==> r.artificial <= 7900 && r.bar == r.artificial / 100
    ensures s.artificial < 8000 && s.artificial <= 7900 ==> s.artificial <= r.artificial
    ensures s.artificial >= 8000 ==> r == s
  {
    if s.artificial < 8000 then
      var next := if s.artificial + increment < 7900 then s.artificial + increment else 7900;
      s.(artificial := next, bar := next / 100)
    else s
  }

  /** `stop_artificial_progress`: stop the animation timer if there is one, and
      start the ramp to 80 when the counter is still below it. */
  function StopArtificialProgress(s: Section): (r: Section)
    ensures s.timer == NoTimer ==> r == s
    ensures s.timer != NoTimer ==> r.timer == Stopped && r.ramping == (s.ramping || s.artificial < 8000)
  {
    if s.timer != NoTimer then
      s.(timer := Stopped, ramping := s.ramping || s.artificial < 8000)
    else s
  }

  /** `smooth_transition_to_80`: below 80 the counter climbs half a percent, never
      past 80, and the bar follows; from 80 on the ramp's timer stops. */
  function RampStep(s: Section): (r: Section)
    ensures s.artificial < 8000 ==> s.artificial < r.artificial <= 8000 && r.bar == r.artificial / 100
    ensures s.artificial >= 8000 ==> r == s.(ramping := false)
  {
    if s.artificial < 8000 then
      var next := if s.artificial + 50 < 8000 then s.artificial + 50 else 8000;
      s.(artificial := next, bar := next / 100)
    else s.(ramping := false)
  }

  /** The section after k steps of the ramp. */
  function Ramp(s: Section, k: nat): Section
    decreases k
  {
    if k == 0 then s else Ramp(RampStep(s), k - 1)
  }

  /** The section after one tick per increment: whatever the increments, a
      counter that starts below 80 stays at most at 79 and, from 79 down, never
      falls. */
  function Ticks(s: Section, increments: seq<nat>): (r: Section)
    requires s.artificial < 8000
    ensures r.artificial < 8000
    ensures |increments| > 0 ==> r.artificial <= 7900
    ensures s.artificial <= 7900 ==> s.artificial <= r.artificial
    decreases |increments|
  {
    if |increments| == 0 then s else Ticks(ArtificialTick(s, increments[0]), increments[1..])
  }

  /** The ramp reaches exactly 80, and the bar 80, from any counter in [0, 80)
      after one step per half percent still missing, rounded up. */
  lemma {:induction false} RampReaches80(s: Section)
    requires 0 <= s.artificial <= 8000
    ensures var r := Ramp(s, (8000 - s.artificial + 49) / 50);
      r.artificial == 8000 && (s.artificial < 8000 ==> r.bar == 80)
    decreases 8000 - s.artificial
  {
    if s.artificial < 8000 {
      var next := RampStep(s);
      var k := (8000 - s.artificial + 49) / 50;
      assert k >= 1;
      if s.artificial + 50 < 8000 {
        assert (8000 - next.artificial + 49) / 50 == k - 1;
        RampReaches80(next);
      } else {
        assert k == 1;
      }
    }
  }

  /** The bar never moves back under `update_progress`, and resending a value it
      already took changes nothing. */
  lemma UpdateProgressMonotone(s: Section, a: int, b: int)
    ensures UpdateProgress(UpdateProgress(s, a), b).bar >= UpdateProgress(s, a).bar
    ensures UpdateProgress(UpdateProgress(s, a), a) == UpdateProgress(s, a)
  {
  }

  /** The lines of the label after `update_status`: the message first, then the
      old label's lines after its first, verbatim. */
  lemma UpdateStatusLines(s: Section, status: ProcessingStatus)
    ensures var lines := Split(UpdateStatus(s, status).labelText, '\n');
      lines == [StatusMessage(status)] + Split(s.labelText, '\n')[1..]
  {
    var message := StatusMessage(status);
    var before := Split(s.labelText, '\n');
    JoinSplit(s.labelText, '\n');
    if |before| > 1 {
      SplitJoin(before[1..], '\n');
      SplitCons(message, '\n', Join(before[1..], '\n'));
    } else {
      assert FirstIndex(message, '\n').None?;
    }
  }

  /** After `update_device_info` on a label without a duration, `update_audio_info`
      puts the duration line third, under "Processing..." and the device. */
  lemma DeviceThenAudio(s: Section, device: string, info: AudioFileInfo)
    requires '\n' !in device && !Contains(s.labelText, "Duration:")
    ensures UpdateAudioInfo(UpdateDeviceInfo(s, device), info).labelText
         == ProcessingText + "\n" + ("Using " + device) + "\n" + DurationLine(info)
  {
    var t := UpdateDeviceInfo(s, device);
    var first, second := ProcessingText, "Using " + device;
    ProcessingSingle();
    UsingSingle(device);
    assert KeptLine(s.labelText) == [];
    assert t.labelText == first + "\n" + second;
    assert t.labelText[..|first|] == first;
    assert t.labelText[14..14 + 5] == "Using";
    ContainsAt(t.labelText, "Using", 14);
    AudioAfterTwoLines(t, first, second, info);
  }

  /** On a two-line label that says "Processing..." and "Using", the duration line
      becomes the third line. */
  lemma AudioAfterTwoLines(s: Section, first: string, second: string, info: AudioFileInfo)
    requires s.labelText == first + "\n" + second && '\n' !in first && '\n' !in second
    requires Contains(s.labelText, ProcessingText) && Contains(s.labelText, "Using")
    ensures UpdateAudioInfo(s, info).labelText == first + "\n" + second + "\n" + DurationLine(info)
  {
    SplitTwo(first, second, '\n');
    var lines := Split(s.labelText, '\n');
    assert lines == [first, second];
    assert Lines(first, second, [DurationLine(info)]) == first + "\n" + second + "\n" + DurationLine(info);
  }

  /** Two lines and at most one more, joined by newlines, split back into those
      lines. */
  lemma LinesWithTail(first: string, second: string, tail: seq<string>)
    requires '\n' !in first && '\n' !in second
    requires |tail| <= 1 && (|tail| == 1 ==> '\n' !in tail[0])
    ensures Split(first + "\n" + second + (if |tail| == 1 then "\n" + tail[0] else ""), '\n')
         == [first, second] + tail
  {
    if |tail| == 1 {
      assert first + "\n" + second + ("\n" + tail[0]) == first + ['\n'] + second + ['\n'] + tail[0];
      SplitThree(first, second, tail[0], '\n');
    } else {
      assert first + "\n" + second + "" == first + ['\n'] + second;
      SplitTwo(first, second, '\n');
    }
  }
}
