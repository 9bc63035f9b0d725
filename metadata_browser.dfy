/** The folder browser of the metadata editor (ui/metadata_browser.py): a table of the supported
    files of one folder, exporting the ticked files' tags to sidecar text files, clearing their
    tags, and its own variant of the single-file editor. */
module MetadataBrowser {
  import opened Wrappers
  import opened Strings
  import opened Dicts
  import opened Values
  import opened Io
  import opened Seqs
  import opened Paths
  import opened Listing
  import opened Exif
  import opened MetadataViewer

  /** `SUPPORTED_EXTENSIONS`. */
  function SupportedExtensions(): seq<string> {
    [".jpg", ".jpeg", ".png", ".heic", ".mp4", ".mov", ".avi", ".mkv"]
  }

  // ---- The editor variant ----

  /** The message after the copy: one handler catches everything, a failing tool run showing the
      exception's `str()`. */
  function BrowserCopyDialog(run: ToolRun, target: string): (d: Dialog)
    ensures d.Information? <==> run.Succeeded?
    ensures run.Failed? ==> d == Critical("Error", "Failed: " + run.summary)
  {
    match run
    case Succeeded => Information("Copied", "Metadata copied to:\n" + target)
    case Failed(_, summary) => Critical("Error", "Failed: " + summary)
  }

  /** The message after the import: any exception shows its `str()` under "Error". */
  function BrowserImportDialog(run: ToolRun): (d: Dialog)
    ensures d.Information? <==> run.Succeeded?
    ensures run.Failed? ==> d == Critical("Error", run.summary)
  {
    match run
    case Succeeded => Information("Imported", "Metadata imported successfully from TXT.")
    case Failed(_, summary) => Critical("Error", summary)
  }

  /** `MetadataViewer` of the browser: the same form and save as the single-file editor, with
      one error handler each for copy and import. */
  class Viewer {
    const filePath: string
    const host: Host
    const dateOf: string -> WidgetDateTime
    const metadata: Record
    var fieldWidgets: Dict<string, Widget>

    constructor (filePath: string, host: Host, dateOf: string -> WidgetDateTime)
      ensures this.filePath == filePath && this.host == host && this.dateOf == dateOf
      ensures metadata == host.readMetadata(filePath)
      ensures fieldWidgets == Populated([], metadata, dateOf)
    {
      this.filePath := filePath;
      this.host := host;
      this.dateOf := dateOf;
      metadata := host.readMetadata(filePath);
      fieldWidgets := [];
      new;
      PopulateFields();
    }

    /** `populate_fields`. */
    method PopulateFields()
      modifies this`fieldWidgets
      ensures fieldWidgets == Populated(old(fieldWidgets), metadata, dateOf)
    {
      ghost var start := fieldWidgets;
      var i := 0;
      while i < |metadata|
        invariant 0 <= i <= |metadata|
        invariant fieldWidgets == Populated(start, metadata[..i], dateOf)
      {
        var (key, value) := metadata[i];
        assert metadata[..i + 1][..i] == metadata[..i];
        var field := Classify(key, value, dateOf);
        if field.Some? {
          fieldWidgets := Put(fieldWidgets, key, field.value);
        }
        i := i + 1;
      }
      assert metadata[..|metadata|] == metadata;
    }

    /** `save_metadata`: the same command and messages as the single-file editor. */
    method Save() returns (argv: seq<string>, dialog: Dialog)
      ensures argv == SaveArgv(fieldWidgets, filePath)
      ensures dialog == SaveDialog(host.run(argv))
    {
      argv := BuildSaveArgv(fieldWidgets, filePath);
      dialog := SaveDialog(host.run(argv));
    }

    /** `copy_metadata_to_other_file`: back the target up, then copy the tags; the first failure
        is reported once and ends the operation. */
    method Copy(target: string) returns (effects: seq<Effect>, dialog: Option<Dialog>)
      ensures target == "" ==> effects == [] && dialog == None
      ensures target != "" ==>
                var content := Sidecar(host.readMetadata(target));
                match host.writeText(SidecarPath(target), content)
                case Some(e) => effects == [] && dialog == Some(Critical("Error", "Failed: " + e))
                case None =>
                  effects == [WroteFile(SidecarPath(target), content), Exec(SeparateCopyArgv(filePath, target))]
                  && dialog == Some(BrowserCopyDialog(host.run(SeparateCopyArgv(filePath, target)), target))
    {
      if target == "" {
        return [], None;
      }
      var backup := SidecarPath(target);
      var content := WriteSidecar(host.readMetadata(target));
      var failure := host.writeText(backup, content);
      if failure.Some? {
        return [], Some(Critical("Error", "Failed: " + failure.value));
      }
      var argv := SeparateCopyArgv(filePath, target);
      effects := [WroteFile(backup, content), Exec(argv)];
      dialog := Some(BrowserCopyDialog(host.run(argv), target));
    }

    /** `import_metadata_from_txt`: the same parser and command as the single-file editor. */
    method Import(txt: string) returns (effects: seq<Effect>, dialog: Option<Dialog>)
      ensures txt == "" ==> effects == [] && dialog == None
      ensures txt != "" ==>
                match host.readText(txt)
                case Failure(e) => effects == [] && dialog == Some(Critical("Error", e))
                case Success(text) =>
                  effects == [Exec(ImportArgv(Lines(text), filePath))]
                  && dialog == Some(BrowserImportDialog(host.run(ImportArgv(Lines(text), filePath))))
    {
      if txt == "" {
        return [], None;
      }
      var read := host.readText(txt);
      if read.Failure? {
        return [], Some(Critical("Error", read.error));
      }
      var argv := BuildImportArgv(Lines(read.value), filePath);
      effects := [Exec(argv)];
      dialog := Some(BrowserImportDialog(host.run(argv)));
    }
  }

  // ---- The folder label ----

  const LabelPrefix := "Imported: "

  /** `refresh_folder` as written: `current.replace("Imported: ", "")` deletes EVERY occurrence. */
  function RefreshTargetAsWritten(text: string): string {
    ReplaceAll(text, LabelPrefix, "")
  }

  /** A folder whose path itself holds "Imported: " is not the folder the refresh re-imports: the
      replacement deletes that part of the path too. */
  lemma RefreshAsWrittenLosesFolder(folder: string, k: nat)
    requires k + |LabelPrefix| <= |folder| && folder[k..k + |LabelPrefix|] == LabelPrefix
    ensures RefreshTargetAsWritten(LabelPrefix + folder) != folder
  {
    var shown := LabelPrefix + folder;
    assert shown[..|LabelPrefix|] == LabelPrefix;
    assert shown[|LabelPrefix|..] == folder;
    ReplaceAllShrinks(folder, LabelPrefix, k);
  }

  /** The folder a label names: the label without its leading "Imported: ", when it has one. */
  function RefreshTarget(text: string): (r: Option<string>)
    ensures r.Some? <==> StartsWith(text, LabelPrefix)
    ensures r.Some? ==> LabelPrefix + r.value == text
  {
    if StartsWith(text, LabelPrefix) then Some(text[|LabelPrefix|..]) else None
  }

  /** The label of an imported folder names that folder again, whatever the folder's path. */
  lemma RefreshTargetRoundTrip(folder: string)
    ensures RefreshTarget(LabelPrefix + folder) == Some(folder)
  {
    assert (LabelPrefix + folder)[..|LabelPrefix|] == LabelPrefix;
    assert (LabelPrefix + folder)[|LabelPrefix|..] == folder;
  }

  // ---- Export and delete ----

  /** `export_selected_metadata` as written: `guess_type(path)[0].startswith` is evaluated outside
      the `try`, so a ticked file of unknown type raises and ends the whole export, with no message;
      the sidecar writes done so far stay. */
  datatype ExportRun = ExportRun(effects: seq<Effect>, exported: nat, aborted: bool)

  function ExportAsWritten(paths: seq<string>, host: Host): ExportRun {
    if paths == [] then ExportRun([], 0, false)
    else if host.guessType(paths[0]).None? then ExportRun([], 0, true)
    else
      var rest := ExportAsWritten(paths[1..], host);
      var content := Sidecar(host.readMetadata(paths[0]));
      if host.writeText(SidecarPath(paths[0]), content).None? then
        ExportRun([WroteFile(SidecarPath(paths[0]), content)] + rest.effects, rest.exported + 1, rest.aborted)
      else rest
  }

  /** A ticked file of unknown type stops the export before every later file: they get no sidecar
      and no message is shown, whatever their type. Such a file can be a row: one with a supported
      extension (".mkv", say) that the host's type table does not know. */
  lemma ExportAsWrittenStops(folder: string, entry: Entry, later: seq<string>, host: Host)
    requires Supported(entry, SupportedExtensions())
    requires host.guessType(Join(folder, entry.name)).None?
    ensures Row(Join(folder, entry.name), false) in EntryRows(folder, entry, SupportedExtensions())
    ensures ExportAsWritten([Join(folder, entry.name)] + later, host) == ExportRun([], 0, true)
  {
    var first := Join(folder, entry.name);
    assert ([first] + later)[0] == first;
  }

  /** What exporting one ticked file does when its type plays no part, as the editor's own
      `load_metadata` treats an unknown type: write its sidecar, if the write works. */
  function ExportOne(host: Host, path: string): seq<Effect> {
    var content := Sidecar(host.readMetadata(path));
    if host.writeText(SidecarPath(path), content).None? then [WroteFile(SidecarPath(path), content)] else []
  }

  /** The sidecars exporting the ticked files writes, in table order. */
  function Exported(paths: seq<string>, host: Host): seq<Effect> {
    ConcatMap((p: string) => ExportOne(host, p), paths)
  }

  lemma ExportedLast(paths: seq<string>, host: Host, i: nat)
    requires i < |paths|
    ensures Exported(paths[..i + 1], host) == Exported(paths[..i], host) + ExportOne(host, paths[i])
  {
    ConcatMapPrefix((p: string) => ExportOne(host, p), paths, i);
  }

  /** A sidecar is written exactly for the ticked files whose write works, with that file's record. */
  lemma ExportedSpec(paths: seq<string>, host: Host, e: Effect)
    ensures e in Exported(paths, host) <==>
            exists i :: 0 <= i < |paths| && host.writeText(SidecarPath(paths[i]), Sidecar(host.readMetadata(paths[i]))).None?
                        && e == WroteFile(SidecarPath(paths[i]), Sidecar(host.readMetadata(paths[i])))
  {
    ConcatMapIn((p: string) => ExportOne(host, p), paths, e);
  }

  /** The export count follows every write that worked, and no other. */
  lemma {:induction false} ExportedCount(paths: seq<string>, host: Host)
    ensures |Exported(paths, host)| <= |paths|
    ensures (forall i :: 0 <= i < |paths| ==> host.writeText(SidecarPath(paths[i]), Sidecar(host.readMetadata(paths[i]))).None?)
            ==> |Exported(paths, host)| == |paths|
  {
    if paths != [] {
      ExportedLast(paths, host, |paths| - 1);
      assert paths[..|paths|] == paths;
      ExportedCount(paths[..|paths| - 1], host);
    }
  }

  function CountMessage(count: nat, counted: string): string {
    if count > 0 then counted + " metadata for " + NatToString(count) + " file(s)." else "No files selected."
  }

  /** The commands deleting the ticked files' tags, one per file in table order. */
  function DeleteRuns(paths: seq<string>): (effects: seq<Effect>)
    ensures |effects| == |paths|
    ensures forall i :: 0 <= i < |paths| ==> effects[i] == Exec(DeleteArgv(paths[i]))
  {
    if paths == [] then [] else DeleteRuns(paths[..|paths| - 1]) + [Exec(DeleteArgv(paths[|paths| - 1]))]
  }

  /** How many of those commands succeed. */
  function Deleted(paths: seq<string>, host: Host): nat {
    if paths == [] then 0
    else Deleted(paths[..|paths| - 1], host) + (if host.run(DeleteArgv(paths[|paths| - 1])).Succeeded? then 1 else 0)
  }

  /** The delete count never exceeds the ticked files; it is all of them when every run succeeds,
      and none when every run fails. */
  lemma {:induction false} DeletedCount(paths: seq<string>, host: Host)
    ensures Deleted(paths, host) <= |paths|
    ensures (forall i :: 0 <= i < |paths| ==> host.run(DeleteArgv(paths[i])).Succeeded?) ==> Deleted(paths, host) == |paths|
    ensures (forall i :: 0 <= i < |paths| ==> host.run(DeleteArgv(paths[i])).Failed?) ==> Deleted(paths, host) == 0
  {
    if paths != [] {
      var init := paths[..|paths| - 1];
      assert forall i :: 0 <= i < |init| ==> init[i] == paths[i];
      DeletedCount(init, host);
    }
  }

  // ---- The browser ----

  class Browser {
    const host: Host
    /** `folder_label`'s text. */
    var folderLabel: string
    /** The table: each row's file and its check box. */
    var rows: seq<Row>

    constructor (host: Host)
      ensures this.host == host && folderLabel == "No folder selected" && rows == []
    {
      this.host := host;
      folderLabel := "No folder selected";
      rows := [];
    }

    /** `import_folder(folder)`; `entries` is what listing it gives. An empty choice changes nothing. */
    method ImportFolder(folder: string, entries: seq<Entry>)
      modifies this`rows, this`folderLabel
      ensures folder == "" ==> rows == old(rows) && folderLabel == old(folderLabel)
      ensures folder != "" ==>
                folderLabel == LabelPrefix + folder && rows == ListedRows(folder, entries, SupportedExtensions())
    {
      if folder == "" {
        return;
      }
      folderLabel := LabelPrefix + folder;
      rows := ListRows(folder, entries, SupportedExtensions());
    }

    /** Ticking or clearing the check box of one row. */
    method SetChecked(i: nat, checked: bool)
      requires i < |rows|
      modifies this`rows
      ensures rows == old(rows)[i := Row(old(rows)[i].path, checked)]
    {
      rows := rows[i := Row(rows[i].path, checked)];
    }

    /** `refresh_folder`, with the label read as the folder after "Imported: "; `picked` is what the
        folder dialog returns when that folder is empty. */
    method Refresh(entries: seq<Entry>, picked: string)
      modifies this`rows, this`folderLabel
      ensures RefreshTarget(old(folderLabel)).None? ==> rows == old(rows) && folderLabel == old(folderLabel)
      ensures RefreshTarget(old(folderLabel)).Some? ==>
                var folder := if RefreshTarget(old(folderLabel)).value != "" then RefreshTarget(old(folderLabel)).value else picked;
                (folder == "" ==> rows == old(rows) && folderLabel == old(folderLabel))
                && (folder != "" ==> folderLabel == LabelPrefix + folder && rows == ListedRows(folder, entries, SupportedExtensions()))
    {
      var target := RefreshTarget(folderLabel);
      if target.Some? {
        var folder := if target.value != "" then target.value else picked;
        ImportFolder(folder, entries);
      }
    }

    /** `export_selected_metadata`, writing every ticked file's sidecar that can be written. */
    method Export() returns (effects: seq<Effect>, dialog: Dialog)
      ensures effects == Exported(CheckedPaths(rows), host)
      ensures dialog == Information("Export", CountMessage(|effects|, "Exported"))
    {
      var paths := SelectedPaths();
      effects := [];
      var exported := 0;
      var i := 0;
      while i < |paths|
        invariant 0 <= i <= |paths|
        invariant effects == Exported(paths[..i], host) && exported == |effects|
      {
        ExportedLast(paths, host, i);
        var path := paths[i];
        var content := WriteSidecar(host.readMetadata(path));
        var failure := host.writeText(SidecarPath(path), content);
        if failure.None? {
          effects := effects + [WroteFile(SidecarPath(path), content)];
          exported := exported + 1;
        }
        i := i + 1;
      }
      assert paths[..|paths|] == paths;
      dialog := Information("Export", CountMessage(exported, "Exported"));
    }

    /** `delete_selected_metadata`: one clearing command per ticked file, counting those that succeed. */
    method Delete() returns (effects: seq<Effect>, dialog: Dialog)
      ensures effects == DeleteRuns(CheckedPaths(rows))
      ensures dialog == Information("Deleted", CountMessage(Deleted(CheckedPaths(rows), host), "Deleted"))
    {
      var paths := SelectedPaths();
      effects := [];
      var deleted := 0;
      var i := 0;
      while i < |paths|
        invariant 0 <= i <= |paths|
        invariant effects == DeleteRuns(paths[..i]) && deleted == Deleted(paths[..i], host)
      {
        assert paths[..i + 1][..i] == paths[..i];
        var argv := DeleteArgv(paths[i]);
        effects := effects + [Exec(argv)];
        if host.run(argv).Succeeded? {
          deleted := deleted + 1;
        }
        i := i + 1;
      }
      assert paths[..|paths|] == paths;
      dialog := Information("Deleted", CountMessage(deleted, "Deleted"));
    }

    /** The ticked rows' files, in table order. */
    method SelectedPaths() returns (paths: seq<string>)
      ensures paths == CheckedPaths(rows)
    {
      paths := [];
      var i := 0;
      while i < |rows|
        invariant 0 <= i <= |rows|
        invariant paths == CheckedPaths(rows[..i])
      {
        CheckedPathsAppend(rows[..i], [rows[i]]);
        assert rows[..i + 1] == rows[..i] + [rows[i]];
        if rows[i].checked {
          paths := paths + [rows[i].path];
        }
        i := i + 1;
      }
      assert rows[..|rows|] == rows;
    }
  }
}
