/** The backend metadata reader (backend/app/metadata/reader.py): classifies a path by its lower-cased
    suffix and reads image metadata (HEIF items or EXIF tags) or video metadata (an ffprobe report). */
module Reader {
  import opened Wrappers
  import opened Strings
  import opened Dicts
  import opened Values
  import opened Tags

  function ImageSuffixes(): seq<string> { [".jpg", ".jpeg", ".png", ".heic"] }
  function VideoSuffixes(): seq<string> { [".mp4", ".mov", ".avi"] }

  /** `is_image`: the lower-cased path ends with an image suffix. */
  predicate IsImage(p: string) {
    EndsWithAny(Lower(p), ImageSuffixes())
  }

  /** `is_video`: the lower-cased path ends with a video suffix (".mkv" is not one). */
  predicate IsVideo(p: string) {
    EndsWithAny(Lower(p), VideoSuffixes())
  }

  /** No path is both an image and a video, so the order of the two tests does not matter. */
  lemma ImageNotVideo(p: string)
    ensures !(IsImage(p) && IsVideo(p))
  {
    EndsWithAnyCharAt(Lower(p), ImageSuffixes(), 1, {'g', 'c'});
    EndsWithAnyCharAt(Lower(p), VideoSuffixes(), 1, {'4', 'v', 'i'});
  }

  /** One HEIF metadata item: its type (such as "Exif") and its data. */
  datatype HeifItem = HeifItem(kind: string, data: Value)

  /** What the reader depends on outside the program: whether a path exists, the metadata items
      `pyheif.read` finds (`None` when the file has none), the EXIF entries `Image.getexif()` gives, the
      tag name table, and the outcome of running ffprobe (its JSON report, or the exception's text). */
  datatype Host = Host(
    fileExists: string -> bool,
    heifItems: string -> Option<seq<HeifItem>>,
    exif: string -> Dict<int, ExifValue>,
    tags: Dict<int, string>,
    probe: seq<string> -> Result<Record>)

  /** The items as (key, value) pairs; `heif_file.metadata or []`. */
  function HeifPairs(items: Option<seq<HeifItem>>): (r: Dict<TagKey, ExifValue>)
    ensures items.None? ==> r == []
    ensures items.Some? ==> |r| == |items.value|
    ensures items.Some? ==> forall i :: 0 <= i < |r| ==> r[i] == (Name(items.value[i].kind), Scalar(items.value[i].data))
  {
    match items
    case None => []
    case Some(its) => seq(|its|, i requires 0 <= i < |its| => (Name(its[i].kind), Scalar(its[i].data)))
  }

  /** `for item in heif_file.metadata or []: metadata[item['type']] = item['data']`. */
  method FlattenHeif(items: Option<seq<HeifItem>>) returns (metadata: Dict<TagKey, ExifValue>)
    ensures metadata == PutAll([], HeifPairs(items))
  {
    metadata := [];
    if items.None? {
      return;
    }
    var its := items.value;
    var i := 0;
    while i < |its|
      invariant 0 <= i <= |its|
      invariant metadata == PutAll([], HeifPairs(items)[..i])
    {
      PutAllPrefix([], HeifPairs(items), i);
      metadata := Put(metadata, Name(its[i].kind), Scalar(its[i].data));
      i := i + 1;
    }
    assert HeifPairs(items)[..|its|] == HeifPairs(items);
  }

  /** Each item type appears once, holding the data of the last item of that type; without
      metadata the record is empty. */
  lemma HeifLastWins(items: Option<seq<HeifItem>>, i: nat)
    requires items.Some? && i < |items.value|
    requires forall j :: i < j < |items.value| ==> items.value[j].kind != items.value[i].kind
    ensures Get(PutAll([], HeifPairs(items)), Name(items.value[i].kind)) == Some(Scalar(items.value[i].data))
    ensures DistinctKeys(PutAll([], HeifPairs(items)))
  {
    var ps := HeifPairs(items);
    LastValueIs(ps, i);
    PutAllGet([], ps, Name(items.value[i].kind));
    PutAllDistinct([], ps);
  }

  /** `read_image_metadata`, as a value: HEIF items for a ".heic" path, otherwise the EXIF tags named
      through the table. */
  function ImageMetadata(host: Host, p: string): Dict<TagKey, ExifValue> {
    if EndsWith(Lower(p), ".heic") then PutAll([], HeifPairs(host.heifItems(p)))
    else Named(host.tags, host.exif(p))
  }

  /** `read_image_metadata`, with its two loops. */
  method ReadImageMetadata(host: Host, p: string) returns (metadata: Dict<TagKey, ExifValue>)
    ensures metadata == ImageMetadata(host, p)
  {
    if EndsWith(Lower(p), ".heic") {
      metadata := FlattenHeif(host.heifItems(p));
    } else {
      metadata := NameEntries(host.tags, host.exif(p));
    }
  }

  /** The ffprobe command `read_video_metadata` runs. */
  function ProbeArgv(p: string): (argv: seq<string>)
    ensures |argv| == 8 && argv[0] == "ffprobe" && argv[7] == p
  {
    ["ffprobe", "-v", "error", "-show_entries", "format=duration:format_tags", "-of", "json", p]
  }

  /** `read_video_metadata`: the parsed report, or `{"error": message}`. */
  function VideoMetadata(host: Host, p: string): Record {
    match host.probe(ProbeArgv(p))
    case Success(report) => report
    case Failure(e) => [("error", Str(e))]
  }

  /** A probe that raises gives a record whose only key is "error", holding the exception's text; a
      report is returned unchanged; and different files are probed with
      different commands. */
  lemma VideoMetadataReads(host: Host, p: string, q: string)
    ensures host.probe(ProbeArgv(p)).Failure? ==>
              Keys(VideoMetadata(host, p)) == ["error"] && Get(VideoMetadata(host, p), "error") == Some(Str(host.probe(ProbeArgv(p)).error))
    ensures host.probe(ProbeArgv(p)).Success? ==>
              VideoMetadata(host, p) == host.probe(ProbeArgv(p)).value
    ensures ProbeArgv(p) == ProbeArgv(q) ==> p == q
  {
    if host.probe(ProbeArgv(p)).Failure? {
      var r := VideoMetadata(host, p);
      assert Keys(r) == ["error"];
    }
    if ProbeArgv(p) == ProbeArgv(q) {
      assert ProbeArgv(p)[7] == ProbeArgv(q)[7];
    }
  }

  /** The dictionary `get_metadata` returns. */
  datatype Reply =
    | ImageReply(image: Dict<TagKey, ExifValue>)
    | VideoReply(video: Record)
    | ErrorReply(error: string)

  /** `get_metadata`. */
  function GetMetadata(host: Host, p: string): Reply {
    if !host.fileExists(p) then ErrorReply("File does not exist")
    else if IsImage(p) then ImageReply(ImageMetadata(host, p))
    else if IsVideo(p) then VideoReply(VideoMetadata(host, p))
    else ErrorReply("Unsupported file type")
  }

  /** A missing file is reported before its kind is looked at; an existing one is read as an image or a
      video exactly when its suffix says so, and otherwise reported as unsupported. */
  lemma GetMetadataCases(host: Host, p: string)
    ensures !host.fileExists(p) ==> GetMetadata(host, p) == ErrorReply("File does not exist")
    ensures host.fileExists(p) ==> (GetMetadata(host, p).ImageReply? <==> IsImage(p))
    ensures host.fileExists(p) ==> (GetMetadata(host, p).VideoReply? <==> IsVideo(p))
    ensures host.fileExists(p) && !IsImage(p) && !IsVideo(p) ==> GetMetadata(host, p) == ErrorReply("Unsupported file type")
  {
    ImageNotVideo(p);
  }

  /** An existing Matroska video is not read: ".mkv" is missing from the video suffixes. */
  lemma MatroskaUnsupported(host: Host, p: string)
    requires host.fileExists(p) && EndsWith(Lower(p), ".mkv")
    ensures GetMetadata(host, p) == ErrorReply("Unsupported file type")
  {
    var l := Lower(p);
    assert l[|l| - 1] == 'v' && l[|l| - 2] == 'k' by {
      assert l[|l| - 4..][3] == 'v' && l[|l| - 4..][2] == 'k';
    }
    EndsWithAnyCharAt(l, ImageSuffixes(), 1, {'g', 'c'});
    EndsWithAnyCharAt(l, VideoSuffixes(), 2, {'p', 'o', 'v'});
  }
}
