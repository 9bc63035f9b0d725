/** Format conversion (ui/conversion.py): an image re-saved by Pillow in another format, and a video
    re-muxed by ffmpeg, both written next to the input (or into a chosen folder) as `<stem>_converted.<fmt>`.
    Every failure comes back as a message, never as an exception. */
module Conversion {
  import opened Wrappers
  import opened Strings
  import opened Paths
  import opened Seqs
  import opened Values
  import opened Io

  /** `SUPPORTED_IMAGE_FORMATS`. */
  function ImageFormats(): seq<string> { [".jpg", ".jpeg", ".png", ".heic"] }

  /** `SUPPORTED_VIDEO_FORMATS`. */
  function VideoFormats(): seq<string> { [".mp4", ".mov", ".avi", ".mkv"] }

  /** The file Pillow is asked to write: the path, the format it is told to use (`None` lets Pillow
      choose by the extension), the image's mode after conversion, and whether the pixels were copied
      into a new image without metadata. */
  datatype ConvertedImage = ConvertedImage(path: string, format: Option<string>, mode: string, stripped: bool)

  /** What conversion depends on outside the program: `os.makedirs(d, exist_ok=True)` (the exception's
      text, or `None`), `Image.open` (the image's mode, or the exception's text), `save` (the exception's
      text, or `None`), `os.path.exists`, `subprocess.run(argv, check=True)`, and whether `pillow_heif`
      could be imported. */
  datatype Host = Host(
    makeDirs: string -> Option<string>,
    open: string -> Result<string>,
    save: ConvertedImage -> Option<string>,
    fileExists: string -> bool,
    run: seq<string> -> ToolRun,
    heifAvailable: bool)

  // ---- Output paths ----

  /** `output_dir or os.path.dirname(input_path)`. */
  function OutputFolder(input: string, outputDir: Option<string>): string {
    if outputDir.Some? && outputDir.value != "" then outputDir.value else Dirname(input)
  }

  /** `f"{filename_wo_ext}_converted.{output_format}"`. */
  function ConvertedName(input: string, fmt: string): string {
    Root(Basename(input)) + "_converted." + fmt
  }

  function ConvertedPath(input: string, fmt: string, outputDir: Option<string>): string {
    Join(OutputFolder(input, outputDir), ConvertedName(input, fmt))
  }

  /** The text after the stem: no `/`, not an extension of its own, and ending with the format's. */
  lemma ConvertedSuffix(fmt: string)
    requires '/' !in fmt
    ensures var suffix := "_converted." + fmt;
      '/' !in suffix && suffix[0] != '.' && EndsWith(suffix, "." + fmt)
  {
    var suffix := "_converted." + fmt;
    assert suffix[|suffix| - |fmt| - 1..] == "." + fmt;
    assert '/' !in "_converted.";
  }

  /** The converted name has no `/`, ends with the format's extension, and differs from the input's
      own name. */
  lemma ConvertedNameShape(input: string, fmt: string)
    requires '/' !in fmt
    ensures '/' !in ConvertedName(input, fmt)
    ensures EndsWith(ConvertedName(input, fmt), "." + fmt)
    ensures ConvertedName(input, fmt) != Basename(input)
  {
    var b := Basename(input);
    var suffix := "_converted." + fmt;
    PathSplitsAtLastSlash(input);
    RootNoSlash(b);
    ConvertedSuffix(fmt);
    assert ConvertedName(input, fmt) == Root(b) + suffix;
    EndsWithAppend(Root(b), suffix);
    EndsWithTrans(ConvertedName(input, fmt), suffix, "." + fmt);
    RootWithSuffixIsNew(b, suffix);
  }

  /** The output is named after the input's stem, ends with the format's extension, and is never the
      input itself. */
  lemma ConvertedPathNamed(input: string, fmt: string, outputDir: Option<string>)
    requires '/' !in fmt
    ensures Basename(ConvertedPath(input, fmt, outputDir)) == ConvertedName(input, fmt)
    ensures EndsWith(ConvertedPath(input, fmt, outputDir), "." + fmt)
    ensures ConvertedPath(input, fmt, outputDir) != input
  {
    var n := ConvertedName(input, fmt);
    ConvertedNameShape(input, fmt);
    JoinEndsWith(OutputFolder(input, outputDir), n);
    EndsWithTrans(ConvertedPath(input, fmt, outputDir), n, "." + fmt);
  }

  // ---- Images ----

  /** `"JPEG" if output_format.lower() in ["jpg", "jpeg"] else output_format.upper()`. */
  function PilFormat(fmt: string): string {
    if Lower(fmt) in ["jpg", "jpeg"] then "JPEG" else Upper(fmt)
  }

  /** Pillow is told "JPEG" exactly for "jpg" and "jpeg", in any case. */
  lemma PilFormatJpeg(fmt: string)
    ensures PilFormat(fmt) == "JPEG" <==> Lower(fmt) in ["jpg", "jpeg"]
  {
    if Upper(fmt) == "JPEG" {
      LowerOfUpper(fmt);
      LowerJpeg();
    }
  }

  /** Pillow is told "HEIC" exactly for "heic", in any case. */
  lemma PilFormatHeic(fmt: string)
    ensures PilFormat(fmt) == "HEIC" <==> Lower(fmt) == "heic"
  {
    if Upper(fmt) == "HEIC" {
      LowerOfUpper(fmt);
      LowerHeic();
    }
    if Lower(fmt) == "heic" {
      UpperOfLower(fmt);
      UpperHeic();
    }
  }

  /** The Pillow format does not depend on the case the format is written in. */
  lemma PilFormatCaseFree(fmt: string)
    ensures PilFormat(Upper(fmt)) == PilFormat(fmt) && PilFormat(Lower(fmt)) == PilFormat(fmt)
  {
    LowerOfUpper(fmt);
    UpperOfLower(fmt);
    LowerIdempotent(fmt);
    UpperOfUpper(fmt);
  }

  lemma LowerJpeg()
    ensures Lower("JPEG") == "jpeg"
  {
  }

  lemma LowerHeic()
    ensures Lower("HEIC") == "heic"
  {
  }

  lemma UpperHeic()
    ensures Upper("heic") == "HEIC"
  {
  }

  /** `img.convert("RGB")` for every mode other than "RGB" and "L". */
  function SavedMode(mode: string): string {
    if mode in ["RGB", "L"] then mode else "RGB"
  }

  /** The message of the exception raised for HEIC output without `pillow_heif`. */
  const HeicMissing: string := "HEIC output requires pillow-heif. Install it via `pip install pillow-heif`"

  function ImageError(e: string): string {
    "Image conversion error: " + e
  }

  /** What `convert_image` did: the file it asked Pillow to write, if it got that far, and its return
      value (the output path, `None`, or an error message). */
  datatype ImageConversion = ImageConversion(saved: Option<ConvertedImage>, result: Option<string>)

  /** `convert_image(input_path, output_format, strip_metadata, output_dir)`. */
  function ConvertImage(host: Host, input: string, fmt: string, strip: bool, outputDir: Option<string>): ImageConversion {
    var folder := OutputFolder(input, outputDir);
    var out := ConvertedPath(input, fmt, outputDir);
    if host.makeDirs(folder).Some? then ImageConversion(None, Some(ImageError(host.makeDirs(folder).value)))
    else if host.open(input).Failure? then ImageConversion(None, Some(ImageError(host.open(input).error)))
    else if PilFormat(fmt) == "HEIC" && !host.heifAvailable then ImageConversion(None, Some(ImageError(HeicMissing)))
    else
      var image := ConvertedImage(out, Some(PilFormat(fmt)), SavedMode(host.open(input).value), strip);
      if host.save(image).Some? then ImageConversion(Some(image), Some(ImageError(host.save(image).value)))
      else ImageConversion(Some(image), if host.fileExists(out) then Some(out) else None)
  }

  /** The result is the output path, `None`, or a message starting "Image conversion error: "; it is the
      path only once the image was handed to Pillow and the file exists. */
  lemma ConvertImageOutcome(host: Host, input: string, fmt: string, strip: bool, outputDir: Option<string>)
    ensures var c := ConvertImage(host, input, fmt, strip, outputDir); var out := ConvertedPath(input, fmt, outputDir);
      && (c.result.Some? ==> c.result.value == out || StartsWith(c.result.value, "Image conversion error: "))
      && (c.result == Some(out) && !StartsWith(out, "Image conversion error: ") ==>
            c.saved.Some? && c.saved.value.path == out && host.save(c.saved.value).None? && host.fileExists(out))
  {
    var folder := OutputFolder(input, outputDir);
    if host.makeDirs(folder).Some? {
      ImageErrorPrefix(host.makeDirs(folder).value);
    } else if host.open(input).Failure? {
      ImageErrorPrefix(host.open(input).error);
    } else if PilFormat(fmt) == "HEIC" && !host.heifAvailable {
      ImageErrorPrefix(HeicMissing);
    } else {
      var image := ConvertedImage(ConvertedPath(input, fmt, outputDir), Some(PilFormat(fmt)), SavedMode(host.open(input).value), strip);
      if host.save(image).Some? {
        ImageErrorPrefix(host.save(image).value);
      }
    }
  }

  lemma ImageErrorPrefix(e: string)
    ensures StartsWith(ImageError(e), "Image conversion error: ")
  {
    assert ImageError(e)[..24] == "Image conversion error: ";
  }

  /** HEIC output without `pillow_heif` is refused before anything is saved. */
  lemma HeicNeedsPlugin(host: Host, input: string, fmt: string, strip: bool, outputDir: Option<string>)
    requires Lower(fmt) == "heic" && !host.heifAvailable
    requires host.makeDirs(OutputFolder(input, outputDir)).None? && host.open(input).Success?
    ensures ConvertImage(host, input, fmt, strip, outputDir) == ImageConversion(None, Some(ImageError(HeicMissing)))
  {
    PilFormatHeic(fmt);
  }

  // ---- Videos ----

  /** `["-metadata", f"{k}={v}"]` for one custom pair. */
  function MetadataPair(pair: (string, Value)): seq<string> {
    ["-metadata", pair.0 + "=" + Show(pair.1)]
  }

  /** The metadata options: stripping wins over custom pairs. */
  function MetadataOptions(strip: bool, custom: Record): seq<string> {
    if strip then ["-map_metadata", "-1"] else ConcatMap(MetadataPair, custom)
  }

  /** Each custom pair contributes "-metadata" and "key=value", in order. */
  lemma {:induction false} MetadataPairsAt(custom: Record)
    ensures |ConcatMap(MetadataPair, custom)| == 2 * |custom|
    ensures forall i :: 0 <= i < |custom| ==>
              ConcatMap(MetadataPair, custom)[2 * i] == "-metadata"
              && ConcatMap(MetadataPair, custom)[2 * i + 1] == custom[i].0 + "=" + Show(custom[i].1)
  {
    if custom != [] {
      var init := custom[..|custom| - 1];
      MetadataPairsAt(init);
      forall i | 0 <= i < |init| ensures init[i] == custom[i] { }
    }
  }

  /** `cmd = ["ffmpeg", "-y", "-i", input_path] + options + ["-c", "copy", output_path]`. */
  function VideoArgv(input: string, options: seq<string>, out: string): seq<string> {
    ["ffmpeg", "-y", "-i", input] + options + ["-c", "copy", out]
  }

  /** The argv reads the input first and writes the output last, with the options between. */
  lemma VideoArgvShape(input: string, strip: bool, custom: Record, out: string)
    ensures var argv := VideoArgv(input, MetadataOptions(strip, custom), out);
      && argv[..4] == ["ffmpeg", "-y", "-i", input]
      && argv[|argv| - 3..] == ["-c", "copy", out]
      && (strip ==> argv == ["ffmpeg", "-y", "-i", input, "-map_metadata", "-1", "-c", "copy", out])
      && (!strip ==> |argv| == 7 + 2 * |custom|)
  {
    MetadataPairsAt(custom);
  }

  /** What `convert_video` did: the command it ran, if it got that far, and its return value. */
  datatype VideoConversion = VideoConversion(argv: Option<seq<string>>, result: Option<string>)

  /** `convert_video(input_path, output_format, strip_metadata, custom_metadata, output_dir)`, as a value. */
  function VideoConverted(host: Host, input: string, fmt: string, strip: bool, custom: Record, outputDir: Option<string>): VideoConversion {
    var folder := OutputFolder(input, outputDir);
    var out := ConvertedPath(input, fmt, outputDir);
    var argv := VideoArgv(input, MetadataOptions(strip, custom), out);
    if host.makeDirs(folder).Some? then VideoConversion(None, Some("Video conversion error: " + host.makeDirs(folder).value))
    else match host.run(argv)
      case Failed(_, summary) => VideoConversion(Some(argv), Some("FFmpeg error: " + summary))
      case Succeeded => VideoConversion(Some(argv), if host.fileExists(out) then Some(out) else None)
  }

  /** The result is the output path, `None`, or a message starting "Video conversion error: " (no
      output folder) or "FFmpeg error: " (the tool failed); it is the path only once the command ran
      and the file exists. */
  lemma VideoConvertedOutcome(host: Host, input: string, fmt: string, strip: bool, custom: Record, outputDir: Option<string>)
    ensures var c := VideoConverted(host, input, fmt, strip, custom, outputDir); var out := ConvertedPath(input, fmt, outputDir);
      && (c.argv.None? <==> host.makeDirs(OutputFolder(input, outputDir)).Some?)
      && (c.result.Some? ==>
            c.result.value == out || StartsWith(c.result.value, "Video conversion error: ") || StartsWith(c.result.value, "FFmpeg error: "))
      && (c.result == Some(out) && !StartsWith(out, "Video conversion error: ") && !StartsWith(out, "FFmpeg error: ") ==>
            c.argv.Some? && host.run(c.argv.value).Succeeded? && host.fileExists(out))
  {
    var c := VideoConverted(host, input, fmt, strip, custom, outputDir);
    if host.makeDirs(OutputFolder(input, outputDir)).Some? {
      PrefixOf("Video conversion error: ", host.makeDirs(OutputFolder(input, outputDir)).value);
    } else if host.run(c.argv.value).Failed? {
      PrefixOf("FFmpeg error: ", host.run(c.argv.value).summary);
    }
  }

  /** `convert_video`, extending the command in its loop over the custom pairs. */
  method ConvertVideo(host: Host, input: string, fmt: string, strip: bool, custom: Record, outputDir: Option<string>)
    returns (argv: Option<seq<string>>, result: Option<string>)
    ensures VideoConversion(argv, result) == VideoConverted(host, input, fmt, strip, custom, outputDir)
  {
    var folder := OutputFolder(input, outputDir);
    var made := host.makeDirs(folder);
    if made.Some? {
      return None, Some("Video conversion error: " + made.value);
    }
    var outputPath := Join(folder, ConvertedName(input, fmt));
    var head := ["ffmpeg", "-y", "-i", input];
    var cmd := head;
    if strip {
      cmd := cmd + ["-map_metadata", "-1"];
    } else if custom != [] {
      var i := 0;
      while i < |custom|
        invariant 0 <= i <= |custom|
        invariant cmd == head + ConcatMap(MetadataPair, custom[..i])
      {
        ConcatMapPrefix(MetadataPair, custom, i);
        var (k, v) := custom[i];
        cmd := cmd + ["-metadata", k + "=" + Show(v)];
        i := i + 1;
      }
      assert custom[..|custom|] == custom;
    } else {
      assert ConcatMap(MetadataPair, custom) == [];
      assert cmd == head + [];
    }
    cmd := cmd + ["-c", "copy", outputPath];
    assert cmd == VideoArgv(input, MetadataOptions(strip, custom), ConvertedPath(input, fmt, outputDir));
    argv := Some(cmd);
    match host.run(cmd)
    case Failed(_, summary) =>
      result := Some("FFmpeg error: " + summary);
    case Succeeded =>
      result := if host.fileExists(outputPath) then Some(outputPath) else None;
  }
}
