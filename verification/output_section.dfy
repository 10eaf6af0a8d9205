/** The output-folder panel: the folder it holds and the label that shows it,
    cut to its last `max_filename_display` characters when too long. */
module OutputSection {
  import opened Wrappers
  import opened Text
  import opened Settings

  /** The selected folder (None until one is chosen) and the label text. */
  datatype Section = Section(selectedFolder: Option<string>, labelText: string)

  /** The label text while no folder is selected. */
  const NoFolder := "No folder selected"

  /** The panel as it is built. */
  const Initial := Section(None, NoFolder)

  /** The shown form of a path: the path itself when short enough, otherwise
      "..." and the path's last maxDisplay characters.  Python's `p[-0:]` is all
      of p, so a zero maximum shows the whole path after "...", and a negative
      one drops characters from the front instead. */
  function DisplayPath(folderPath: string, maxDisplay: int): (r: string)
    ensures |folderPath| <= maxDisplay ==> r == folderPath
    ensures |folderPath| > maxDisplay ==> StartsWith(r, "...") && EndsWith(folderPath, r[3..])
    ensures |folderPath| > maxDisplay >= 1 ==> |r| == maxDisplay + 3
    ensures |folderPath| > maxDisplay && maxDisplay == 0 ==> r == "..." + folderPath
  {
    if |folderPath| > maxDisplay then "..." + Drop(folderPath, -maxDisplay)
    else folderPath
  }

  /** `set_selected_folder`: remember the path verbatim and show its display form. */
  function SetSelectedFolder(s: Section, folderPath: string, settings: AppSettings): (r: Section)
    ensures r.selectedFolder == Some(folderPath)
    ensures r.labelText == "Selected: " + DisplayPath(folderPath, settings.maxFilenameDisplay)
  {
    Section(Some(folderPath), "Selected: " + DisplayPath(folderPath, settings.maxFilenameDisplay))
  }

  /** `get_selected_folder`. */
  function SelectedFolder(s: Section): Option<string> {
    s.selectedFolder
  }

  /** `clear_selection`. */
  function ClearSelection(s: Section): (r: Section)
    ensures r == Initial
  {
    Section(None, NoFolder)
  }

  /** `select_folder` after the dialog: an empty answer (dialog cancelled) changes
      nothing; otherwise the folder is stored and `folder_selected` carries it. */
  function SelectFolder(s: Section, chosen: string, settings: AppSettings): (r: (Section, Option<string>))
    ensures chosen == "" ==> r == (s, None)
    ensures chosen != "" ==> r.1 == Some(chosen) && SelectedFolder(r.0) == Some(chosen)
  {
    if chosen != "" then (SetSelectedFolder(s, chosen, settings), Some(chosen)) else (s, None)
  }

  /** The getter returns the last folder set, whatever was there before. */
  lemma SelectedFolderAfterSet(s: Section, folderPath: string, settings: AppSettings)
    ensures SelectedFolder(SetSelectedFolder(s, folderPath, settings)) == Some(folderPath)
  {
  }

  /** A long path is shown by its last maxDisplay characters: two long paths with
      the same ending look the same, and the shown text is exactly that ending. */
  lemma DisplayPathIsTail(folderPath: string, maxDisplay: int)
    requires |folderPath| > maxDisplay >= 1
    ensures DisplayPath(folderPath, maxDisplay) == "..." + folderPath[|folderPath| - maxDisplay..]
  {
    var r := DisplayPath(folderPath, maxDisplay);
    assert r[3..] == folderPath[|folderPath| - maxDisplay..];
    assert r == r[..3] + r[3..];
  }

  /** With the default maximum of 40, a 50-character path loses its first ten
      characters, and a zero maximum shows the whole path after "...". */
  lemma DisplayPathExamples(p: string)
    requires |p| == 50
    ensures DisplayPath(p, Defaults.maxFilenameDisplay) == "..." + p[10..]
    ensures DisplayPath(p, 0) == "..." + p
  {
    DisplayPathIsTail(p, 40);
  }
}
