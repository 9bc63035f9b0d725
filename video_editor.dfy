/** The video editor (ui/video_editor_browser.py): a table of the video files of one folder, muting
    the ticked ones, and the preview dialog's trim panel with its two second spin boxes. */
module VideoEditor {
  import opened Wrappers
  import opened Strings
  import opened Paths
  import opened Io
  import opened Listing

  /** `SUPPORTED_VIDEO_FORMATS`. */
  function SupportedVideoFormats(): seq<string> {
    [".mp4", ".mov", ".avi", ".mkv"]
  }

  // ---- Trim ----

  /** The file a trim writes: the input's stem, the range in whole seconds, and ".mp4". */
  function TrimOutput(file: string, start: nat, end: nat): string {
    Root(file) + "_trimmed_" + NatToString(start) + "_" + NatToString(end) + ".mp4"
  }

  /** The shell command a trim runs: a stream copy of the range. */
  function TrimCommand(file: string, start: nat, end: nat): string {
    "ffmpeg -y -i \"" + file + "\" -ss " + NatToString(start) + " -to " + NatToString(end)
    + " -c copy \"" + TrimOutput(file, start, end) + "\""
  }

  /** A trim never writes over the video it reads. */
  lemma TrimOutputIsNew(file: string, start: nat, end: nat)
    ensures TrimOutput(file, start, end) != file
  {
    var suffix := "_trimmed_" + NatToString(start) + "_" + NatToString(end) + ".mp4";
    assert TrimOutput(file, start, end) == Root(file) + suffix;
    RootWithSuffixIsNew(file, suffix);
  }

  /** Different ranges of one video are written to different files: the name determines the range. */
  lemma TrimOutputDistinct(file: string, s1: nat, e1: nat, s2: nat, e2: nat)
    requires TrimOutput(file, s1, e1) == TrimOutput(file, s2, e2)
    ensures s1 == s2 && e1 == e2
  {
    var p := Root(file) + "_trimmed_";
    var a1, b1, a2, b2 := NatToString(s1), NatToString(e1), NatToString(s2), NatToString(e2);
    var x1, x2 := a1 + "_" + b1, a2 + "_" + b2;
    var t := TrimOutput(file, s1, e1);
    assert t == p + x1 + ".mp4";
    assert t == p + x2 + ".mp4";
    assert x1 == t[|p|..|t| - 4];
    assert x2 == t[|p|..|t| - 4];
    assert '_' !in a1 && '_' !in a2 by {
      assert forall i :: 0 <= i < |a1| ==> IsDigit(a1[i]);
      assert forall i :: 0 <= i < |a2| ==> IsDigit(a2[i]);
    }
    SplitAtSeparator(a1, b1, a2, b2, '_');
    NatToStringInjective(s1, s2);
    NatToStringInjective(e1, e2);
  }

  /** `QSpinBox` keeps its value inside its range. */
  function Clamp(v: int, lo: int, hi: int): (r: int)
    requires lo <= hi
    ensures lo <= r <= hi
    ensures lo <= v <= hi ==> r == v
    ensures v < lo ==> r == lo
    ensures v > hi ==> r == hi
  {
    if v < lo then lo else if v > hi then hi else v
  }

  /** The trim controls of the preview dialog: the start and end spin boxes (seconds, minimum 0). */
  class TrimPanel {
    const filePath: string
    var startMaximum: int
    var endMaximum: int
    var startValue: int
    var endValue: int

    /** Each spin box holds a value inside its range. */
    predicate Valid()
      reads this
    {
      0 <= startValue <= startMaximum && 0 <= endValue <= endMaximum
    }

    /** Both spin boxes start with the range 0 to 0. */
    constructor (filePath: string)
      ensures this.filePath == filePath && Valid()
      ensures startMaximum == 0 && endMaximum == 0 && startValue == 0 && endValue == 0
    {
      this.filePath := filePath;
      startMaximum := 0;
      endMaximum := 0;
      startValue := 0;
      endValue := 0;
    }

    /** The user sets the start box; the box clamps the value into its range. */
    method SetStart(v: int)
      requires Valid()
      modifies this`startValue
      ensures Valid() && startValue == Clamp(v, 0, startMaximum)
    {
      startValue := Clamp(v, 0, startMaximum);
    }

    /** The user sets the end box. */
    method SetEnd(v: int)
      requires Valid()
      modifies this`endValue
      ensures Valid() && endValue == Clamp(v, 0, endMaximum)
    {
      endValue := Clamp(v, 0, endMaximum);
    }

    /** `update_duration(duration)`, with the player's duration in milliseconds: both boxes reach to
        the whole seconds of the video, the start keeps its value if it still fits, and the end moves
        to the last second. Trimming is then possible exactly when the start lies before that second. */
    method UpdateDuration(duration: nat)
      requires Valid()
      modifies this`startMaximum, this`endMaximum, this`startValue, this`endValue
      ensures Valid()
      ensures startMaximum == duration / 1000 && endMaximum == duration / 1000 && endValue == duration / 1000
      ensures startValue == Clamp(old(startValue), 0, duration / 1000)
      ensures endValue > startValue <==> old(startValue) < duration / 1000
    {
      var seconds := duration / 1000;
      startMaximum := seconds;
      startValue := Clamp(startValue, 0, seconds);
      endMaximum := seconds;
      endValue := Clamp(endValue, 0, seconds);
      endValue := Clamp(seconds, 0, seconds);
    }

    /** `trim_video`: an empty or reversed range is refused with a warning and runs nothing;
        otherwise one ffmpeg command writes the range to its own file. */
    method Trim() returns (effects: seq<Effect>, dialog: Dialog)
      requires Valid()
      ensures endValue <= startValue ==>
                effects == [] && dialog == Warning("Invalid Range", "End time must be greater than start time.")
      ensures endValue > startValue ==>
                effects == [Shell(TrimCommand(filePath, startValue, endValue))]
                && dialog == Information("Trim Complete", "Saved to: " + TrimOutput(filePath, startValue, endValue))
    {
      var start := startValue;
      var end := endValue;
      if end <= start {
        return [], Warning("Invalid Range", "End time must be greater than start time.");
      }
      var output := TrimOutput(filePath, start, end);
      effects := [Shell(TrimCommand(filePath, start, end))];
      dialog := Information("Trim Complete", "Saved to: " + output);
    }
  }

  // ---- Mute ----

  /** The file a mute writes: the input's stem and "_muted.mp4". */
  function MutedPath(file: string): (r: string)
    ensures r != file
  {
    RootWithSuffixIsNew(file, "_muted.mp4");
    Root(file) + "_muted.mp4"
  }

  function MuteCommand(file: string): string {
    "ffmpeg -y -i \"" + file + "\" -an \"" + MutedPath(file) + "\""
  }

  /** One mute command per ticked file, in table order. */
  function MuteRuns(paths: seq<string>): (effects: seq<Effect>)
    ensures |effects| == |paths|
    ensures forall i :: 0 <= i < |paths| ==> effects[i] == Shell(MuteCommand(paths[i]))
  {
    if paths == [] then [] else MuteRuns(paths[..|paths| - 1]) + [Shell(MuteCommand(paths[|paths| - 1]))]
  }

  /** The message after muting: the count, or "No Selection" when nothing was ticked. */
  function MuteDialog(muted: nat): (d: Dialog)
    ensures d.Information?
    ensures d.title == "Muted" <==> muted > 0
  {
    if muted > 0 then Information("Muted", "Muted " + NatToString(muted) + " video(s) successfully.")
    else Information("No Selection", "No videos were selected for muting.")
  }

  /** `VideoEditorBrowser`: the folder label, the folder last imported and the table. */
  class Editor {
    var folderLabel: string
    /** `current_folder`, `None` until a folder is imported. */
    var currentFolder: Option<string>
    var rows: seq<Row>

    constructor ()
      ensures folderLabel == "No folder selected" && currentFolder == None && rows == []
    {
      folderLabel := "No folder selected";
      currentFolder := None;
      rows := [];
    }

    /** `import_folder(folder)`; `isDir` is what `os.path.isdir` says of it and `entries` what listing
        it gives. An empty choice or a path that is not a directory changes nothing. */
    method ImportFolder(folder: string, isDir: bool, entries: seq<Entry>)
      modifies this`folderLabel, this`currentFolder, this`rows
      ensures folder == "" || !isDir ==>
                folderLabel == old(folderLabel) && currentFolder == old(currentFolder) && rows == old(rows)
      ensures folder != "" && isDir ==>
                folderLabel == "Imported: " + folder && currentFolder == Some(folder)
                && rows == ListedRows(folder, entries, SupportedVideoFormats())
    {
      if folder == "" || !isDir {
        return;
      }
      folderLabel := "Imported: " + folder;
      currentFolder := Some(folder);
      rows := ListRows(folder, entries, SupportedVideoFormats());
    }

    /** `refresh_folder`: lists the current folder again, if there is one and it is still a directory. */
    method Refresh(isDir: bool, entries: seq<Entry>)
      modifies this`folderLabel, this`currentFolder, this`rows
      ensures currentFolder == old(currentFolder)
      ensures old(currentFolder).Some? && old(currentFolder).value != "" && isDir ==>
                folderLabel == "Imported: " + old(currentFolder).value
                && rows == ListedRows(old(currentFolder).value, entries, SupportedVideoFormats())
      ensures !(old(currentFolder).Some? && old(currentFolder).value != "" && isDir) ==>
                folderLabel == old(folderLabel) && rows == old(rows)
    {
      if currentFolder.Some? && currentFolder.value != "" && isDir {
        ImportFolder(currentFolder.value, isDir, entries);
      }
    }

    /** `mute_selected_videos`: one command per ticked row, counting every ticked row. */
    method Mute() returns (effects: seq<Effect>, dialog: Dialog)
      ensures effects == MuteRuns(CheckedPaths(rows))
      ensures |effects| == CountChecked(rows)
      ensures dialog == MuteDialog(CountChecked(rows))
    {
      effects := [];
      var muted := 0;
      var i := 0;
      while i < |rows|
        invariant 0 <= i <= |rows|
        invariant effects == MuteRuns(CheckedPaths(rows[..i])) && muted == CountChecked(rows[..i])
      {
        CheckedPathsAppend(rows[..i], [rows[i]]);
        assert rows[..i + 1] == rows[..i] + [rows[i]];
        if rows[i].checked {
          ghost var done := CheckedPaths(rows[..i]);
          assert (done + [rows[i].path])[..|done|] == done;
          var file := rows[i].path;
          effects := effects + [Shell(MuteCommand(file))];
          muted := muted + 1;
        }
        i := i + 1;
      }
      assert rows[..|rows|] == rows;
      CheckedPathsSpec(rows);
      dialog := MuteDialog(muted);
    }
  }
}
