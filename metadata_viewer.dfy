/** The single-file metadata editor (ui/metadata_viewer.py): one editor per field, saving the form
    through ExifTool, copying all tags to another file after backing that file's tags up to a
    sidecar text file, and importing such a sidecar back. */
module MetadataViewer {
  import opened Wrappers
  import opened Dicts
  import opened Values
  import opened Io
  import opened Exif

  /** What the editors depend on outside the program: the outcome of running ExifTool on an
      argument vector, the record the metadata readers return for a path (they catch their own
      failures), the file type `mimetypes` guesses, writing a text file (`None` when it worked,
      otherwise the exception's text), and reading one. */
  datatype Host = Host(
    run: seq<string> -> ToolRun,
    readMetadata: string -> Record,
    guessType: string -> Option<string>,
    writeText: (string, string) -> Option<string>,
    readText: string -> Result<string>)

  /** The message `save_metadata` shows once the tool has run. */
  function SaveDialog(run: ToolRun): (d: Dialog)
    ensures d.Information? <==> run.Succeeded?
    ensures run.Failed? ==> d == Critical("Error", "Failed to save metadata:\n" + run.stderr)
  {
    match run
    case Succeeded => Information("Success", "Metadata saved successfully.")
    case Failed(err, _) => Critical("Error", "Failed to save metadata:\n" + err)
  }

  /** The message after the copy command has run. */
  function CopyDialog(run: ToolRun, target: string): (d: Dialog)
    ensures d.Information? <==> run.Succeeded?
    ensures run.Succeeded? ==> d == Information("Copied", "Metadata copied to:\n" + target)
  {
    match run
    case Succeeded => Information("Copied", "Metadata copied to:\n" + target)
    case Failed(err, _) => Critical("Error", "Failed to copy metadata:\n" + err)
  }

  /** The message after the import command has run; a failure shows the tool's own error text. */
  function ImportDialog(run: ToolRun): (d: Dialog)
    ensures d.Information? <==> run.Succeeded?
    ensures run.Failed? ==> d == Critical("ExifTool Error", run.stderr)
  {
    match run
    case Succeeded => Information("Imported", "Metadata imported successfully from TXT.")
    case Failed(err, _) => Critical("ExifTool Error", err)
  }

  class Viewer {
    const filePath: string
    const host: Host
    /** The date a `QDateTimeEdit` ends up showing for a field's text. */
    const dateOf: string -> WidgetDateTime
    /** `load_metadata()`. */
    const metadata: Record
    /** `field_widgets`: the editor of each field, in the order they were added. */
    var fieldWidgets: Dict<string, Widget>

    constructor (filePath: string, host: Host, dateOf: string -> WidgetDateTime)
      ensures this.filePath == filePath && this.host == host && this.dateOf == dateOf
      ensures metadata == host.readMetadata(filePath)
      ensures fieldWidgets == Populated([], metadata, dateOf)
    {
      this.filePath := filePath;
      this.host := host;
      this.dateOf := dateOf;
      metadata := host.readMetadata(filePath);
      fieldWidgets := [];
      new;
      PopulateFields();
    }

    /** `populate_fields`: one editor per entry that gets one, under the entry's key. */
    method PopulateFields()
      modifies this`fieldWidgets
      ensures fieldWidgets == Populated(old(fieldWidgets), metadata, dateOf)
    {
      ghost var start := fieldWidgets;
      var i := 0;
      while i < |metadata|
        invariant 0 <= i <= |metadata|
        invariant fieldWidgets == Populated(start, metadata[..i], dateOf)
      {
        var (key, value) := metadata[i];
        assert metadata[..i + 1][..i] == metadata[..i];
        var field := Classify(key, value, dateOf);
        if field.Some? {
          fieldWidgets := Put(fieldWidgets, key, field.value);
        }
        i := i + 1;
      }
      assert metadata[..|metadata|] == metadata;
    }

    /** `save_metadata`: the command it runs and the message it shows. The tool always runs, even
        when no field is kept. */
    method Save() returns (argv: seq<string>, dialog: Dialog)
      ensures argv == SaveArgv(fieldWidgets, filePath)
      ensures dialog == SaveDialog(host.run(argv))
    {
      argv := BuildSaveArgv(fieldWidgets, filePath);
      dialog := SaveDialog(host.run(argv));
    }

    /** `copy_metadata_to_other_file` with `target` chosen in the file dialog (`""` when cancelled):
        the target's current tags are backed up first, and a failed backup stops before the copy. */
    method Copy(target: string) returns (effects: seq<Effect>, dialog: Option<Dialog>)
      ensures target == "" ==> effects == [] && dialog == None
      ensures target != "" ==>
                var content := Sidecar(host.readMetadata(target));
                match host.writeText(SidecarPath(target), content)
                case Some(e) =>
                  effects == [] && dialog == Some(Critical("Error", "Failed to back up target metadata:\n" + e))
                case None =>
                  effects == [WroteFile(SidecarPath(target), content), Exec(SeparateCopyArgv(filePath, target))]
                  && dialog == Some(CopyDialog(host.run(SeparateCopyArgv(filePath, target)), target))
    {
      if target == "" {
        return [], None;
      }
      var backup := SidecarPath(target);
      var content := WriteSidecar(host.readMetadata(target));
      var failure := host.writeText(backup, content);
      if failure.Some? {
        return [], Some(Critical("Error", "Failed to back up target metadata:\n" + failure.value));
      }
      var argv := SeparateCopyArgv(filePath, target);
      effects := [WroteFile(backup, content), Exec(argv)];
      dialog := Some(CopyDialog(host.run(argv), target));
    }

    /** `import_metadata_from_txt` with `txt` chosen in the file dialog (`""` when cancelled). */
    method Import(txt: string) returns (effects: seq<Effect>, dialog: Option<Dialog>)
      ensures txt == "" ==> effects == [] && dialog == None
      ensures txt != "" ==>
                match host.readText(txt)
                case Failure(e) => effects == [] && dialog == Some(Critical("Error", e))
                case Success(text) =>
                  effects == [Exec(ImportArgv(Lines(text), filePath))]
                  && dialog == Some(ImportDialog(host.run(ImportArgv(Lines(text), filePath))))
    {
      if txt == "" {
        return [], None;
      }
      var read := host.readText(txt);
      if read.Failure? {
        return [], Some(Critical("Error", read.error));
      }
      var argv := BuildImportArgv(Lines(read.value), filePath);
      effects := [Exec(argv)];
      dialog := Some(ImportDialog(host.run(argv)));
    }
  }
}
