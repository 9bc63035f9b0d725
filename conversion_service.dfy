/** The conversion service (services/conversion_service.py): which files can be converted, converting one
    file by its extension, and converting every eligible file of a folder into one output folder. */
module ConversionService {
  import opened Wrappers
  import opened Strings
  import opened Paths
  import opened Seqs
  import opened Values
  import opened Io
  import opened Conversion

  /** The lower-cased extension `splitext` finds. */
  function LowerExt(p: string): string {
    Lower(Ext(p))
  }

  /** `is_supported_format`. */
  predicate IsSupportedFormat(p: string) {
    LowerExt(p) in ImageFormats() + VideoFormats()
  }

  /** The dictionary `run_conversion` returns. */
  datatype Reply =
    | Converted(kind: string, result: Option<string>)
    | Unsupported(error: string)

  /** `run_conversion`: images first, then videos, else an error naming the extension. */
  function RunConversion(host: Host, p: string, fmt: string, strip: bool, custom: Record): Reply {
    var ext := LowerExt(p);
    if ext in ImageFormats() then Converted("image", ConvertImage(host, p, fmt, strip, None).result)
    else if ext in VideoFormats() then Converted("video", VideoConverted(host, p, fmt, strip, custom, None).result)
    else Unsupported("Unsupported file format: " + ext)
  }

  /** A file is refused exactly when its format is unsupported, with a message naming the extension;
      a supported one is handed to the image converter for an image extension and to the video
      converter otherwise. */
  lemma RunConversionCases(host: Host, p: string, fmt: string, strip: bool, custom: Record)
    ensures RunConversion(host, p, fmt, strip, custom).Unsupported? <==> !IsSupportedFormat(p)
    ensures !IsSupportedFormat(p) ==>
              RunConversion(host, p, fmt, strip, custom) == Unsupported("Unsupported file format: " + LowerExt(p))
    ensures LowerExt(p) in ImageFormats() ==>
              RunConversion(host, p, fmt, strip, custom) == Converted("image", ConvertImage(host, p, fmt, strip, None).result)
    ensures IsSupportedFormat(p) && LowerExt(p) !in ImageFormats() ==>
              RunConversion(host, p, fmt, strip, custom) == Converted("video", VideoConverted(host, p, fmt, strip, custom, None).result)
  {
  }

  /** `output_dir`, or `<folder>/converted_output` when none is given. */
  function BatchOutputDir(folder: string, outputDir: Option<string>): string {
    if outputDir.Some? then outputDir.value else Join(folder, "converted_output")
  }

  /** The entries the batch converts: not a directory, a supported extension, and a stem not already
      ending in "_converted". */
  predicate Candidate(e: Entry) {
    var (name, ext) := SplitExt(e.name);
    !e.isDir && Lower(ext) in ImageFormats() + VideoFormats() && !EndsWith(name, "_converted")
  }

  /** What one converted file contributes to the batch's results. */
  datatype BatchEntry = ResultEntry(path: string) | ErrorEntry(error: Option<string>)

  /** `{"result": r}` when the converter returned a string ending with the lower-cased format's
      extension, `{"error": r}` otherwise. */
  function Report(fmt: string, r: Option<string>): (b: BatchEntry)
    ensures b.ResultEntry? <==> r.Some? && EndsWith(r.value, "." + Lower(fmt))
    ensures b.ResultEntry? ==> b.path == r.value
    ensures b.ErrorEntry? ==> b.error == r
  {
    if r.Some? && EndsWith(r.value, "." + Lower(fmt)) then ResultEntry(r.value) else ErrorEntry(r)
  }

  /** The converter's return value for one candidate of the folder. */
  function ConvertEntry(host: Host, folder: string, fmt: string, outputDir: string, e: Entry): Option<string> {
    var full := Join(folder, e.name);
    if Lower(Ext(e.name)) in ImageFormats() then ConvertImage(host, full, fmt, false, Some(outputDir)).result
    else VideoConverted(host, full, fmt, false, [], Some(outputDir)).result
  }

  function ReportFor(host: Host, folder: string, fmt: string, outputDir: string, e: Entry): BatchEntry {
    Report(fmt, ConvertEntry(host, folder, fmt, outputDir, e))
  }

  function EntryReport(host: Host, folder: string, fmt: string, outputDir: string): Entry -> BatchEntry {
    e => ReportFor(host, folder, fmt, outputDir, e)
  }

  /** The results of `batch_convert_folder` for a listing, once the output folder exists: one report
      per candidate. */
  function BatchResults(host: Host, folder: string, fmt: string, outputDir: string, entries: seq<Entry>): seq<BatchEntry> {
    Collect(Candidate, EntryReport(host, folder, fmt, outputDir), entries)
  }

  /** One pass of the batch loop: a skipped entry gives nothing, a candidate its report. */
  method ConvertOne(host: Host, folder: string, fmt: string, outputDir: string, e: Entry)
    returns (report: Option<BatchEntry>)
    ensures Candidate(e) ==> report == Some(ReportFor(host, folder, fmt, outputDir, e))
    ensures !Candidate(e) ==> report == None
  {
    var fullPath := Join(folder, e.name);
    if e.isDir {
      return None;
    }
    var (name, ext) := SplitExt(e.name);
    ext := Lower(ext);
    if ext !in ImageFormats() + VideoFormats() {
      return None;
    }
    if EndsWith(name, "_converted") {
      return None;
    }
    var result: Option<string>;
    if ext in ImageFormats() {
      result := ConvertImage(host, fullPath, fmt, false, Some(outputDir)).result;
    } else {
      var _, r := ConvertVideo(host, fullPath, fmt, false, [], Some(outputDir));
      result := r;
    }
    var outputExt := "." + Lower(fmt);
    if result.Some? && EndsWith(result.value, outputExt) {
      report := Some(ResultEntry(result.value));
    } else {
      report := Some(ErrorEntry(result));
    }
  }

  /** `batch_convert_folder(folder_path, output_format, output_dir)`, over the folder's listing. The
      `os.makedirs` before the loop is not guarded: its exception is the call's failure. */
  method BatchConvertFolder(host: Host, folder: string, fmt: string, outputDir: Option<string>, entries: seq<Entry>)
    returns (results: Result<seq<BatchEntry>>)
    ensures var out := BatchOutputDir(folder, outputDir);
      && (host.makeDirs(out).Some? ==> results == Failure(host.makeDirs(out).value))
      && (host.makeDirs(out).None? ==> results == Success(BatchResults(host, folder, fmt, out, entries)))
  {
    var out := BatchOutputDir(folder, outputDir);
    var made := host.makeDirs(out);
    if made.Some? {
      return Failure(made.value);
    }
    var done: seq<BatchEntry> := [];
    var i := 0;
    while i < |entries|
      invariant 0 <= i <= |entries|
      invariant done == BatchResults(host, folder, fmt, out, entries[..i])
    {
      CollectPrefix(Candidate, EntryReport(host, folder, fmt, out), entries, i);
      var report := ConvertOne(host, folder, fmt, out, entries[i]);
      if report.Some? {
        done := done + [report.value];
      } else {
        assert done + [] == done;
      }
      i := i + 1;
    }
    assert entries[..|entries|] == entries;
    results := Success(done);
  }

  /** Every result belongs to a candidate of the listing, one per candidate in listing order: the
      `k`-th result reports the `k`-th candidate, and a file is reported exactly when it is a candidate. */
  lemma BatchResultsFor(host: Host, folder: string, fmt: string, outputDir: string, entries: seq<Entry>, e: Entry)
    ensures var cs := Filter(Candidate, entries);
      && |BatchResults(host, folder, fmt, outputDir, entries)| == |cs|
      && (forall k :: 0 <= k < |cs| ==>
            BatchResults(host, folder, fmt, outputDir, entries)[k] == Report(fmt, ConvertEntry(host, folder, fmt, outputDir, cs[k])))
      && (e in cs <==> e in entries && Candidate(e))
  {
    CollectIsMapFilter(Candidate, EntryReport(host, folder, fmt, outputDir), entries);
    FilterIn(Candidate, entries, e);
  }

  /** A file this service wrote (`<stem>_converted.<fmt>`, with a stem of its own) is skipped when the
      folder is converted again. */
  lemma ConvertedOutputSkipped(stem: string, fmt: string, isFile: bool, isDir: bool)
    requires '/' !in stem && '/' !in fmt && '.' !in fmt
    ensures !Candidate(Entry(stem + "_converted." + fmt, isFile, isDir))
  {
    var base := stem + "_converted";
    assert base[|base| - 1] == 'd';
    assert HasNonDot(base);
    assert '/' !in "_converted";
    assert '.' !in fmt && '/' !in ("." + fmt)[1..] by {
      assert ("." + fmt)[1..] == fmt;
    }
    assert ("." + fmt)[1..] == fmt;
    KeepsExtension(base, "." + fmt);
    assert stem + "_converted." + fmt == base + ("." + fmt);
    EndsWithAppend(stem, "_converted");
  }

  /** With an upper-case format a converted file is reported under "error": its path ends with the
      format as given, but the test is against the lower-cased one. */
  lemma UpperCaseFormatReportedAsError(path: string)
    requires EndsWith(path, ".JPG")
    ensures Report("JPG", Some(path)) == ErrorEntry(Some(path))
  {
    assert Lower("JPG") == "jpg";
    assert path[|path| - 4..][3] == 'G';
  }
}
