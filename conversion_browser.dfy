/** The bulk converter window (ui/conversion_browser.py) and the conversion helpers it defines for itself:
    outputs go next to the input as an absolute `<stem>_converted.<fmt>`, videos are re-encoded with
    H.264 and AAC, and the batch converts every listed name with a supported extension. */
module ConversionBrowser {
  import opened Wrappers
  import opened Strings
  import opened Paths
  import opened Seqs
  import opened Values
  import opened Io
  import Conversion
  import ConversionService

  /** What the window depends on outside the program: `os.path.abspath`, `Image.open` (the image's mode,
      or the exception's text), `save`, `os.path.exists`, `os.path.isfile`, `subprocess.run(argv,
      check=True)` and `os.startfile` (the exception's text, or `None`). */
  datatype Host = Host(
    absPath: string -> string,
    open: string -> Result<string>,
    save: Conversion.ConvertedImage -> Option<string>,
    fileExists: string -> bool,
    isFile: string -> bool,
    run: seq<string> -> ToolRun,
    startFile: string -> Option<string>)

  /** `os.path.abspath(os.path.splitext(input_path)[0] + f"_converted.{output_format}")`. */
  function OutputPath(host: Host, input: string, fmt: string): string {
    host.absPath(Root(input) + "_converted." + fmt)
  }

  /** `img.convert("RGB")` for the modes with an alpha channel. */
  function SavedMode(mode: string): string {
    if mode in ["RGBA", "LA"] then "RGB" else mode
  }

  /** `convert_image(input_path, output_format, strip_metadata)`: Pillow picks the format from the
      extension, and no folder is created. */
  function ConvertImage(host: Host, input: string, fmt: string, strip: bool): Conversion.ImageConversion {
    var out := OutputPath(host, input, fmt);
    if host.open(input).Failure? then Conversion.ImageConversion(None, Some(Conversion.ImageError(host.open(input).error)))
    else
      var image := Conversion.ConvertedImage(out, None, SavedMode(host.open(input).value), strip);
      if host.save(image).Some? then Conversion.ImageConversion(Some(image), Some(Conversion.ImageError(host.save(image).value)))
      else Conversion.ImageConversion(Some(image), if host.fileExists(out) then Some(out) else None)
  }

  /** Pillow is never told a format here, and the image written is the one at the output path. */
  lemma ConvertImageOutcome(host: Host, input: string, fmt: string, strip: bool)
    ensures var c := ConvertImage(host, input, fmt, strip); var out := OutputPath(host, input, fmt);
      && (c.saved.Some? <==> host.open(input).Success?)
      && (c.saved.Some? ==> c.saved.value.path == out && c.saved.value.format == None)
      && (c.result.Some? ==> c.result.value == out || StartsWith(c.result.value, "Image conversion error: "))
      && (c.result == Some(out) && !StartsWith(out, "Image conversion error: ") ==>
            c.saved.Some? && host.save(c.saved.value).None? && host.fileExists(out))
  {
    if host.open(input).Success? {
      var image := Conversion.ConvertedImage(OutputPath(host, input, fmt), None, SavedMode(host.open(input).value), strip);
      if host.save(image).Some? {
        Conversion.ImageErrorPrefix(host.save(image).value);
      }
    } else {
      Conversion.ImageErrorPrefix(host.open(input).error);
    }
  }

  /** Only the alpha modes are changed, and the saved mode never has an alpha channel. */
  lemma SavedModeNoAlpha(mode: string)
    ensures SavedMode(mode) !in ["RGBA", "LA"]
    ensures mode !in ["RGBA", "LA"] ==> SavedMode(mode) == mode
  {
  }

  /** The fixed re-encoding options: H.264 video at CRF 23 with the "fast" preset, AAC audio at 128k. */
  function EncodeOptions(): seq<string> {
    ["-c:v", "libx264", "-preset", "fast", "-crf", "23", "-c:a", "aac", "-b:a", "128k"]
  }

  /** The argv `convert_video` runs: the input, the metadata options, the encoding options, the output. */
  function BrowserArgv(input: string, options: seq<string>, out: string): seq<string> {
    ["ffmpeg", "-y", "-i", input] + options + EncodeOptions() + [out]
  }

  /** Stripping still wins over custom pairs, and the output path is the last argument. */
  lemma BrowserArgvShape(input: string, strip: bool, custom: Record, out: string)
    ensures var argv := BrowserArgv(input, Conversion.MetadataOptions(strip, custom), out);
      && argv[..4] == ["ffmpeg", "-y", "-i", input]
      && argv[|argv| - 1] == out
      && argv[|argv| - 11..|argv| - 1] == EncodeOptions()
      && (strip ==> argv[4..6] == ["-map_metadata", "-1"] && |argv| == 17)
      && (!strip ==> |argv| == 15 + 2 * |custom|)
  {
    Conversion.MetadataPairsAt(custom);
    var options := Conversion.MetadataOptions(strip, custom);
    var argv := BrowserArgv(input, options, out);
    assert argv == (["ffmpeg", "-y", "-i", input] + options) + EncodeOptions() + [out];
  }

  /** `convert_video(input_path, output_format, strip_metadata, custom_metadata)`, as a value. */
  function VideoConverted(host: Host, input: string, fmt: string, strip: bool, custom: Record): Conversion.VideoConversion {
    var out := OutputPath(host, input, fmt);
    var argv := BrowserArgv(input, Conversion.MetadataOptions(strip, custom), out);
    match host.run(argv)
    case Failed(_, summary) => Conversion.VideoConversion(Some(argv), Some("FFmpeg error: " + summary))
    case Succeeded => Conversion.VideoConversion(Some(argv), if host.fileExists(out) then Some(out) else None)
  }

  /** The result is the output path, `None`, or a message starting "FFmpeg error: "; it is the path
      only once the command succeeded and the file exists. */
  lemma VideoConvertedOutcome(host: Host, input: string, fmt: string, strip: bool, custom: Record)
    ensures var c := VideoConverted(host, input, fmt, strip, custom); var out := OutputPath(host, input, fmt);
      && c.argv == Some(BrowserArgv(input, Conversion.MetadataOptions(strip, custom), out))
      && (c.result.Some? ==> c.result.value == out || StartsWith(c.result.value, "FFmpeg error: "))
      && (c.result == Some(out) && !StartsWith(out, "FFmpeg error: ") ==>
            host.run(c.argv.value).Succeeded? && host.fileExists(out))
  {
    var c := VideoConverted(host, input, fmt, strip, custom);
    if host.run(c.argv.value).Failed? {
      PrefixOf("FFmpeg error: ", host.run(c.argv.value).summary);
    }
  }

  /** `convert_video`, extending the command in its loop over the custom pairs. */
  method ConvertVideo(host: Host, input: string, fmt: string, strip: bool, custom: Record)
    returns (argv: Option<seq<string>>, result: Option<string>)
    ensures Conversion.VideoConversion(argv, result) == VideoConverted(host, input, fmt, strip, custom)
  {
    var outputPath := OutputPath(host, input, fmt);
    var head := ["ffmpeg", "-y", "-i", input];
    var cmd := head;
    if strip {
      cmd := cmd + ["-map_metadata", "-1"];
    } else if custom != [] {
      var i := 0;
      while i < |custom|
        invariant 0 <= i <= |custom|
        invariant cmd == head + ConcatMap(Conversion.MetadataPair, custom[..i])
      {
        ConcatMapPrefix(Conversion.MetadataPair, custom, i);
        var (k, v) := custom[i];
        cmd := cmd + ["-metadata", k + "=" + Show(v)];
        i := i + 1;
      }
      assert custom[..|custom|] == custom;
    } else {
      assert ConcatMap(Conversion.MetadataPair, custom) == [];
      assert cmd == head + [];
    }
    cmd := cmd + EncodeOptions() + [outputPath];
    assert cmd == BrowserArgv(input, Conversion.MetadataOptions(strip, custom), outputPath);
    argv := Some(cmd);
    match host.run(cmd)
    case Failed(_, summary) =>
      result := Some("FFmpeg error: " + summary);
    case Succeeded =>
      result := if host.fileExists(outputPath) then Some(outputPath) else None;
  }

  // ---- The batch ----

  /** The names the batch converts: a supported extension and a stem not ending in "_converted". Unlike
      the service's batch, directories are not skipped. */
  predicate Candidate(e: Entry) {
    var (name, ext) := SplitExt(e.name);
    Lower(ext) in Conversion.ImageFormats() + Conversion.VideoFormats() && !EndsWith(name, "_converted")
  }

  /** The two batches agree on files; only this one also tries a directory with a supported name. */
  lemma CandidateAgainstService(e: Entry)
    ensures ConversionService.Candidate(e) <==> !e.isDir && Candidate(e)
    ensures e.isDir && Candidate(e) ==> !ConversionService.Candidate(e)
  {
  }

  /** A file this window wrote, `<stem>_converted.<fmt>`, is not converted again. */
  lemma ConvertedOutputSkipped(stem: string, fmt: string, isFile: bool, isDir: bool)
    requires '/' !in stem && '/' !in fmt && '.' !in fmt
    ensures !Candidate(Entry(stem + "_converted." + fmt, isFile, isDir))
  {
    ConversionService.ConvertedOutputSkipped(stem, fmt, isFile, false);
  }

  function ConvertEntry(host: Host, folder: string, fmt: string, e: Entry): Option<string> {
    var full := Join(folder, e.name);
    if Lower(Ext(e.name)) in Conversion.ImageFormats() then ConvertImage(host, full, fmt, false).result
    else VideoConverted(host, full, fmt, false, []).result
  }

  function ReportFor(host: Host, folder: string, fmt: string, e: Entry): ConversionService.BatchEntry {
    ConversionService.Report(fmt, ConvertEntry(host, folder, fmt, e))
  }

  function EntryReport(host: Host, folder: string, fmt: string): Entry -> ConversionService.BatchEntry {
    (e: Entry) => ReportFor(host, folder, fmt, e)
  }

  /** The results of this module's `batch_convert_folder` for a listing: one report per candidate. */
  function BatchResults(host: Host, folder: string, fmt: string, entries: seq<Entry>): seq<ConversionService.BatchEntry> {
    Collect(Candidate, EntryReport(host, folder, fmt), entries)
  }

  /** One pass of the batch loop. */
  method ConvertOne(host: Host, folder: string, fmt: string, e: Entry) returns (report: Option<ConversionService.BatchEntry>)
    ensures Candidate(e) ==> report == Some(ReportFor(host, folder, fmt, e))
    ensures !Candidate(e) ==> report == None
  {
    var fullPath := Join(folder, e.name);
    var (name, ext) := SplitExt(e.name);
    if Lower(ext) !in Conversion.ImageFormats() + Conversion.VideoFormats() {
      return None;
    }
    if EndsWith(name, "_converted") {
      return None;
    }
    var result: Option<string>;
    if Lower(ext) in Conversion.ImageFormats() {
      result := ConvertImage(host, fullPath, fmt, false).result;
    } else {
      var _, r := ConvertVideo(host, fullPath, fmt, false, []);
      result := r;
    }
    var outputExt := "." + Lower(fmt);
    if result.Some? && EndsWith(result.value, outputExt) {
      report := Some(ConversionService.ResultEntry(result.value));
    } else {
      report := Some(ConversionService.ErrorEntry(result));
    }
  }

  /** `batch_convert_folder(folder_path, output_format)`, over the folder's listing. */
  method BatchConvertFolder(host: Host, folder: string, fmt: string, entries: seq<Entry>)
    returns (results: seq<ConversionService.BatchEntry>)
    ensures results == BatchResults(host, folder, fmt, entries)
  {
    results := [];
    var i := 0;
    while i < |entries|
      invariant 0 <= i <= |entries|
      invariant results == BatchResults(host, folder, fmt, entries[..i])
    {
      CollectPrefix(Candidate, EntryReport(host, folder, fmt), entries, i);
      var report := ConvertOne(host, folder, fmt, entries[i]);
      if report.Some? {
        results := results + [report.value];
      } else {
        assert results + [] == results;
      }
      i := i + 1;
    }
    assert entries[..|entries|] == entries;
  }

  /** One result per candidate, in listing order, and only candidates are converted. */
  lemma BatchResultsFor(host: Host, folder: string, fmt: string, entries: seq<Entry>, e: Entry)
    ensures var cs := Filter(Candidate, entries);
      && |BatchResults(host, folder, fmt, entries)| == |cs|
      && (forall k :: 0 <= k < |cs| ==>
            BatchResults(host, folder, fmt, entries)[k] == ConversionService.Report(fmt, ConvertEntry(host, folder, fmt, cs[k])))
      && (e in cs <==> e in entries && Candidate(e))
  {
    CollectIsMapFilter(Candidate, EntryReport(host, folder, fmt), entries);
    FilterIn(Candidate, entries, e);
  }

  // ---- The window ----

  function Placeholder(): string { "Select output format" }

  /** The drop-down: the placeholder, then each supported extension without its dot. */
  function DropdownItems(): seq<string> {
    [Placeholder()] + Mapped(DotLess, Conversion.ImageFormats() + Conversion.VideoFormats())
  }

  function DotLess(fmt: string): string { LStripChar(fmt, '.') }

  /** The loop of `__init__` filling the drop-down: the placeholder, then each format with its
      leading dots stripped. */
  method FillDropdown(formats: seq<string>) returns (items: seq<string>)
    ensures items == [Placeholder()] + Mapped(DotLess, formats)
  {
    items := [Placeholder()];
    var i := 0;
    while i < |formats|
      invariant 0 <= i <= |formats|
      invariant items == [Placeholder()] + Mapped(DotLess, formats[..i])
    {
      assert formats[..i + 1] == formats[..i] + [formats[i]];
      MappedAppend(DotLess, formats[..i], [formats[i]]);
      items := items + [LStripChar(formats[i], '.')];
      i := i + 1;
    }
    assert formats[..|formats|] == formats;
  }

  /** The eight format names the drop-down offers after its placeholder. */
  const FormatNames: seq<string> := ["jpg", "jpeg", "png", "heic", "mp4", "mov", "avi", "mkv"]

  lemma DotLessOfDotted(name: string)
    requires name != [] && name[0] != '.'
    ensures DotLess("." + name) == name
  {
    var d := "." + name;
    assert d[1..] == name;
    assert LStripChar(d, '.') == LStripChar(d[1..], '.');
  }

  /** The drop-down lists the placeholder and then the eight formats, images first. */
  lemma DropdownItemsAre()
    ensures DropdownItems() == [Placeholder()] + FormatNames
  {
    var fs := Conversion.ImageFormats() + Conversion.VideoFormats();
    assert |fs| == 8;
    forall i | 0 <= i < 8
      ensures Mapped(DotLess, fs)[i] == FormatNames[i]
    {
      assert fs[i] == "." + FormatNames[i];
      DotLessOfDotted(FormatNames[i]);
    }
  }

  /** No format name is the placeholder or holds a dot or a slash, so the output paths end with it. */
  lemma FormatNamesPlain(i: nat)
    requires i < |FormatNames|
    ensures FormatNames[i] != Placeholder() && '.' !in FormatNames[i] && '/' !in FormatNames[i]
  {
  }

  /** `ConversionBrowser`: the folder last imported, the converted files of the last run, and the
      drop-down's items. */
  class Browser {
    var folderPath: Option<string>
    var convertedFilePaths: seq<string>
    var formatItems: seq<string>

    /** The window starts with no folder, nothing converted, and the drop-down filled in its loop. */
    constructor ()
      ensures folderPath == None && convertedFilePaths == [] && formatItems == DropdownItems()
    {
      var items := FillDropdown(Conversion.ImageFormats() + Conversion.VideoFormats());
      formatItems := items;
      folderPath := None;
      convertedFilePaths := [];
    }

    /** `import_folder`: a chosen folder becomes current and the previous run's files are forgotten;
        an empty choice changes nothing. */
    method ImportFolder(folder: string)
      modifies this`folderPath, this`convertedFilePaths
      ensures folder == "" ==> folderPath == old(folderPath) && convertedFilePaths == old(convertedFilePaths)
      ensures folder != "" ==> folderPath == Some(folder) && convertedFilePaths == []
    {
      if folder != "" {
        folderPath := Some(folder);
        convertedFilePaths := [];
      }
    }

    /** `run_bulk_conversion`, with `text` the drop-down's current text and `entries` the folder's
        listing. Without a folder, or with the placeholder selected, it only warns; otherwise it converts
        the folder and keeps the reported outputs that are files. */
    method RunBulkConversion(host: Host, text: string, entries: seq<Entry>)
      returns (results: Option<seq<ConversionService.BatchEntry>>, dialog: Dialog)
      modifies this`convertedFilePaths
      ensures old(folderPath).None? || old(folderPath).value == "" ==>
                results == None && dialog == Warning("No Folder", "Please select a folder first.")
                && convertedFilePaths == old(convertedFilePaths)
      ensures old(folderPath).Some? && old(folderPath).value != "" && Strip(text) == Placeholder() ==>
                results == None && dialog == Warning("No Format", "Please select an output format.")
                && convertedFilePaths == old(convertedFilePaths)
      ensures old(folderPath).Some? && old(folderPath).value != "" && Strip(text) != Placeholder() ==>
                results == Some(BatchResults(host, old(folderPath).value, Strip(text), entries))
                && convertedFilePaths == ConvertedPaths(host, results.value)
                && dialog == CompletionDialog(|convertedFilePaths|)
    {
      if folderPath.None? || folderPath.value == "" {
        return None, Warning("No Folder", "Please select a folder first.");
      }
      var outputFormat := Strip(text);
      if outputFormat == Placeholder() {
        return None, Warning("No Format", "Please select an output format.");
      }
      var batch := BatchConvertFolder(host, folderPath.value, outputFormat, entries);
      results := Some(batch);
      var converted := [];
      var i := 0;
      while i < |batch|
        invariant 0 <= i <= |batch|
        invariant converted == ConvertedPaths(host, batch[..i])
      {
        CollectPrefix(IsConvertedFile(host), PathOf, batch, i);
        if batch[i].ResultEntry? && host.isFile(batch[i].path) {
          converted := converted + [batch[i].path];
        } else {
          assert converted + [] == converted;
        }
        i := i + 1;
      }
      assert batch[..|batch|] == batch;
      convertedFilePaths := converted;
      dialog := CompletionDialog(|converted|);
    }

    /** `download_all_files`: opens the folder of the first converted file, or warns that there is none.
        Returns the folder it asked the system to open and the dialog it showed, if any. */
    method DownloadAll(host: Host) returns (shown: Option<string>, dialog: Option<Dialog>)
      ensures convertedFilePaths == [] ==>
                shown == None && dialog == Some(Warning("No Files", "There are no converted files to download."))
      ensures convertedFilePaths != [] ==> shown == Some(Dirname(convertedFilePaths[0]))
      ensures convertedFilePaths != [] ==>
                dialog == (if host.startFile(shown.value).Some?
                           then Some(Critical("Error", "Could not open folder:\n" + host.startFile(shown.value).value))
                           else None)
    {
      if convertedFilePaths == [] {
        return None, Some(Warning("No Files", "There are no converted files to download."));
      }
      var outputDir := Dirname(convertedFilePaths[0]);
      shown := Some(outputDir);
      var failure := host.startFile(outputDir);
      dialog := if failure.Some? then Some(Critical("Error", "Could not open folder:\n" + failure.value)) else None;
    }
  }

  /** A result entry whose path is a file. */
  function IsConvertedFile(host: Host): ConversionService.BatchEntry -> bool {
    (b: ConversionService.BatchEntry) => b.ResultEntry? && host.isFile(b.path)
  }

  function PathOf(b: ConversionService.BatchEntry): string {
    if b.ResultEntry? then b.path else ""
  }

  /** The files a run keeps: the reported outputs that exist as files, in result order. */
  function ConvertedPaths(host: Host, results: seq<ConversionService.BatchEntry>): seq<string> {
    Collect(IsConvertedFile(host), PathOf, results)
  }

  /** A path is kept exactly when some result reports it and it is a file. */
  lemma ConvertedPathsIn(host: Host, results: seq<ConversionService.BatchEntry>, x: string)
    ensures x in ConvertedPaths(host, results) <==>
              host.isFile(x) && ConversionService.ResultEntry(x) in results
  {
    CollectIsMapFilter(IsConvertedFile(host), PathOf, results);
    var kept := Filter(IsConvertedFile(host), results);
    FilterIn(IsConvertedFile(host), results, ConversionService.ResultEntry(x));
    if x in ConvertedPaths(host, results) {
      var j :| 0 <= j < |kept| && x == PathOf(kept[j]);
      FilterIn(IsConvertedFile(host), results, kept[j]);
    }
    if host.isFile(x) && ConversionService.ResultEntry(x) in results {
      var j :| 0 <= j < |kept| && kept[j] == ConversionService.ResultEntry(x);
      assert Mapped(PathOf, kept)[j] == x;
    }
  }

  /** The closing message: how many files were converted, or that none were. */
  function CompletionDialog(n: nat): (d: Dialog)
    ensures d.Information?
    ensures d.title == "Success" <==> n > 0
  {
    if n == 0 then Information("Conversion Complete", "No valid files converted.")
    else Information("Success", NatToString(n) + " file(s) converted.")
  }
}
