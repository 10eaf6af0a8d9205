/** The audio-file panel: the file it holds and the label that shows the file's
    name, middle-truncated to `max_filename_display` characters. */
module AudioSection {
  import opened Wrappers
  import opened Text
  import opened Paths
  import opened Settings
  import Helpers

  /** The selected file (None until one is chosen) and the label text. */
  datatype Section = Section(selectedFile: Option<string>, labelText: string)

  /** The label text while no file is selected. */
  const NoFile := "No file selected"

  /** The panel as it is built. */
  const Initial := Section(None, NoFile)

  /** The label for a selected file: its final component, truncated in the middle. */
  function FileLabel(filePath: string, maxDisplay: int): (r: string)
    ensures StartsWith(r, "Selected: ")
    ensures '/' !in r[10..]
    ensures |Basename(filePath)| <= maxDisplay ==> r == "Selected: " + Basename(filePath)
    ensures |Basename(filePath)| > maxDisplay >= 5 ==>
      var name, k := Basename(filePath), (maxDisplay - 3) / 2;
      && k >= 1
      && r == "Selected: " + (name[..k] + "..." + name[|name| - k..])
      && |r| <= 10 + maxDisplay
  {
    var name := Basename(filePath);
    var shown := Helpers.TruncateMiddle(name, maxDisplay);
    assert '/' !in shown by {
      if '/' in shown {
        var i :| 0 <= i < |shown| && shown[i] == '/';
        TruncateMiddleChars(name, maxDisplay, i);
      }
    }
    var prefix := "Selected: ";
    assert |prefix| == 10;
    prefix + shown
  }

  /** Middle truncation only keeps characters of its text, plus the dots. */
  lemma TruncateMiddleChars(text: string, maxLength: int, i: nat)
    requires i < |Helpers.TruncateMiddle(text, maxLength)|
    ensures var c := Helpers.TruncateMiddle(text, maxLength)[i]; c == '.' || c in text
  {
    var r := Helpers.TruncateMiddle(text, maxLength);
    if |text| > maxLength >= 5 {
      var k := (maxLength - 3) / 2;
      if i >= k + 3 {
        assert r[i] == text[|text| - k + (i - k - 3)];
      } else if i < k {
        assert r[i] == text[i];
      }
    } else if |text| > maxLength && maxLength == 4 {
      if i >= 3 {
        assert r[i] == text[i - 3];
      }
    } else {
      assert r[i] == text[i];
    }
  }

  /** `set_selected_file`: remember the full path and show its truncated name. */
  function SetSelectedFile(s: Section, filePath: string, settings: AppSettings): (r: Section)
    ensures r.selectedFile == Some(filePath)
    ensures r.labelText == FileLabel(filePath, settings.maxFilenameDisplay)
  {
    Section(Some(filePath), FileLabel(filePath, settings.maxFilenameDisplay))
  }

  /** `get_selected_file`. */
  function SelectedFile(s: Section): Option<string> {
    s.selectedFile
  }

  /** `clear_selection`. */
  function ClearSelection(s: Section): (r: Section)
    ensures r == Initial
  {
    Section(None, NoFile)
  }

  /** `select_file` after the dialog: an empty answer (dialog cancelled) changes
      nothing; otherwise the file is stored and `file_selected` carries it. */
  function SelectFile(s: Section, chosen: string, settings: AppSettings): (r: (Section, Option<string>))
    ensures chosen == "" ==> r == (s, None)
    ensures chosen != "" ==> r.1 == Some(chosen) && SelectedFile(r.0) == Some(chosen)
  {
    if chosen != "" then (SetSelectedFile(s, chosen, settings), Some(chosen)) else (s, None)
  }

  /** The getter returns the full path last set, not the shown name. */
  lemma SelectedFileAfterSet(s: Section, filePath: string, settings: AppSettings)
    ensures SelectedFile(SetSelectedFile(s, filePath, settings)) == Some(filePath)
  {
  }

  /** The label depends only on the final component: the same file name in any
      folder is shown the same way. */
  lemma LabelIgnoresFolder(dir: string, name: string, maxDisplay: int)
    requires '/' !in name
    ensures FileLabel(Paths.Join(dir, name), maxDisplay) == FileLabel(name, maxDisplay)
  {
    BasenameJoin(dir, name);
  }
}
