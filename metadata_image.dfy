/** EXIF reading and writing through Pillow (app/core/metadata_image.py): a record of the tags of an
    image, with GPS data nested under "GPSInfo" and the basic facts of the file added, and a copy of an
    image whose EXIF tags are updated by name. */
module MetadataImage {
  import opened Wrappers
  import opened Strings
  import opened Paths
  import opened Dicts
  import opened Values
  import opened Tags

  /** An opened image: its format (`None` when Pillow names none), mode, size, and EXIF entries
      (`None` when `_getexif()` finds none; `getexif()` then gives an empty table). */
  datatype ImageFile = ImageFile(format: Option<string>, mode: string, width: nat, height: nat,
                                 exif: Option<Dict<int, ExifValue>>)

  /** The file `img.save` is asked to write. */
  datatype SavedImage = SavedImage(path: string, format: string, exif: Dict<int, ExifValue>)

  /** What the module depends on outside the program: `Image.open` (an image, or the exception's text),
      `round(os.path.getsize(p) / 1024, 2)` (as a value, since floating point is not modelled, or the
      exception's text), `img.save` (the exception's text, `None` when it writes), and the tag tables
      `ExifTags.TAGS` and `ExifTags.GPSTAGS`. */
  datatype Host = Host(
    open: string -> Result<ImageFile>,
    sizeKb: string -> Result<Value>,
    save: SavedImage -> Option<string>,
    tags: Dict<int, string>,
    gpsTags: Dict<int, string>)

  /** A value of the record `read_image_metadata` returns: a plain value, an EXIF dictionary left keyed
      by id, or the GPS dictionary keyed by GPS tag names. */
  datatype Field = Plain(value: Value) | Raw(entries: Dict<int, Value>) | Gps(gps: Dict<TagKey, Value>)

  /** The metadata record: tag names (or raw ids) to fields, in insertion order. */
  type Metadata = Dict<TagKey, Field>

  /** The value stored for one EXIF entry that has been named `key`. */
  function FieldOf(gpsTags: Dict<int, string>, key: TagKey, v: ExifValue): (f: Field)
    ensures key == Name("GPSInfo") && v.Mapping? ==> f == Gps(Named(gpsTags, v.entries))
    ensures !(key == Name("GPSInfo") && v.Mapping?) && v.Scalar? ==> f == Plain(v.value)
    ensures !(key == Name("GPSInfo") && v.Mapping?) && v.Mapping? ==> f == Raw(v.entries)
  {
    if key == Name("GPSInfo") && v.Mapping? then Gps(Named(gpsTags, v.entries))
    else match v
      case Scalar(x) => Plain(x)
      case Mapping(m) => Raw(m)
  }

  /** The (key, field) pairs the EXIF loop stores, in entry order. */
  function ExifFields(host: Host, entries: Dict<int, ExifValue>): (r: seq<(TagKey, Field)>)
    ensures |r| == |entries|
    ensures forall i :: 0 <= i < |entries| ==>
              r[i] == (KeyOf(host.tags, entries[i].0), FieldOf(host.gpsTags, KeyOf(host.tags, entries[i].0), entries[i].1))
  {
    seq(|entries|, i requires 0 <= i < |entries| =>
      (KeyOf(host.tags, entries[i].0), FieldOf(host.gpsTags, KeyOf(host.tags, entries[i].0), entries[i].1)))
  }

  function ExifEntries(img: ImageFile): Dict<int, ExifValue> {
    if img.exif.Some? then img.exif.value else []
  }

  /** `f"{img.width} x {img.height}"`. */
  function SizeText(img: ImageFile): string {
    NatToString(img.width) + " x " + NatToString(img.height)
  }

  function FormatValue(format: Option<string>): Value {
    if format.Some? then Str(format.value) else NoneValue
  }

  /** The record after the EXIF loop and the four basic entries that cannot fail. */
  function BasicInfo(host: Host, p: string, img: ImageFile): Metadata {
    var m := PutAll([], ExifFields(host, ExifEntries(img)));
    var m := Put(m, Name("File Name"), Plain(Str(Basename(p))));
    var m := Put(m, Name("Format"), Plain(FormatValue(img.format)));
    var m := Put(m, Name("Mode"), Plain(Str(img.mode)));
    Put(m, Name("Image Size"), Plain(Str(SizeText(img))))
  }

  /** `read_image_metadata`, as a value: an exception from opening leaves only "Error"; one from reading
      the file size adds "Error" to everything stored before it. */
  function ImageMetadataOf(host: Host, p: string): Metadata {
    match host.open(p)
    case Failure(e) => [(Name("Error"), Plain(Str(e)))]
    case Success(img) =>
      match host.sizeKb(p)
      case Success(kb) => Put(BasicInfo(host, p, img), Name("File Size (KB)"), Plain(kb))
      case Failure(e) => Put(BasicInfo(host, p, img), Name("Error"), Plain(Str(e)))
  }

  /** `read_image_metadata`, with its loops over the EXIF entries and over the GPS dictionary. */
  method ReadImageMetadata(host: Host, p: string) returns (metadata: Metadata)
    ensures metadata == ImageMetadataOf(host, p)
  {
    var loaded := host.open(p);
    if loaded.Failure? {
      return [(Name("Error"), Plain(Str(loaded.error)))];
    }
    var img := loaded.value;
    metadata := [];
    var entries := ExifEntries(img);
    var i := 0;
    while i < |entries|
      invariant 0 <= i <= |entries|
      invariant metadata == PutAll([], ExifFields(host, entries)[..i])
    {
      PutAllPrefix([], ExifFields(host, entries), i);
      var (tag, value) := entries[i];
      var tagName := KeyOf(host.tags, tag);
      if tagName == Name("GPSInfo") && value.Mapping? {
        var gpsData := NameEntries(host.gpsTags, value.entries);
        metadata := Put(metadata, Name("GPSInfo"), Gps(gpsData));
      } else {
        metadata := Put(metadata, tagName, FieldOf(host.gpsTags, tagName, value));
      }
      i := i + 1;
    }
    assert ExifFields(host, entries)[..|entries|] == ExifFields(host, entries);
    metadata := Put(metadata, Name("File Name"), Plain(Str(Basename(p))));
    metadata := Put(metadata, Name("Format"), Plain(FormatValue(img.format)));
    metadata := Put(metadata, Name("Mode"), Plain(Str(img.mode)));
    metadata := Put(metadata, Name("Image Size"), Plain(Str(SizeText(img))));
    var size := host.sizeKb(p);
    if size.Failure? {
      metadata := Put(metadata, Name("Error"), Plain(Str(size.error)));
    } else {
      metadata := Put(metadata, Name("File Size (KB)"), Plain(size.value));
    }
  }

  /** The keys the reader stores itself, which win over EXIF tags of the same name. */
  predicate IsBasicKey(k: TagKey) {
    k in {Name("File Name"), Name("Format"), Name("Mode"), Name("Image Size"), Name("File Size (KB)"), Name("Error")}
  }

  /** Reading the basic entries of an opened image back from the record. */
  lemma BasicInfoGet(host: Host, p: string, img: ImageFile, k: TagKey)
    ensures Get(BasicInfo(host, p, img), k) ==
              if k == Name("Image Size") then Some(Plain(Str(SizeText(img))))
              else if k == Name("Mode") then Some(Plain(Str(img.mode)))
              else if k == Name("Format") then Some(Plain(FormatValue(img.format)))
              else if k == Name("File Name") then Some(Plain(Str(Basename(p))))
              else Get(PutAll([], ExifFields(host, ExifEntries(img))), k)
  {
    var m0 := PutAll([], ExifFields(host, ExifEntries(img)));
    var m1 := Put(m0, Name("File Name"), Plain(Str(Basename(p))));
    var m2 := Put(m1, Name("Format"), Plain(FormatValue(img.format)));
    var m3 := Put(m2, Name("Mode"), Plain(Str(img.mode)));
    PutGet(m0, Name("File Name"), Plain(Str(Basename(p))));
    PutGet(m1, Name("Format"), Plain(FormatValue(img.format)));
    PutGet(m2, Name("Mode"), Plain(Str(img.mode)));
    PutGet(m3, Name("Image Size"), Plain(Str(SizeText(img))));
  }

  /** A file that cannot be loaded gives the single entry "Error". */
  lemma ReadOpenFailure(host: Host, p: string)
    requires host.open(p).Failure?
    ensures ImageMetadataOf(host, p) == [(Name("Error"), Plain(Str(host.open(p).error)))]
  {
  }

  /** For an loaded image the basic entries describe the file, whatever its EXIF tags say; the size
      goes under "File Size (KB)", or its exception under "Error" with every earlier entry kept. */
  lemma ReadBasicEntries(host: Host, p: string)
    requires host.open(p).Success?
    ensures var r := ImageMetadataOf(host, p); var img := host.open(p).value;
      && Get(r, Name("File Name")) == Some(Plain(Str(Basename(p))))
      && Get(r, Name("Format")) == Some(Plain(FormatValue(img.format)))
      && Get(r, Name("Mode")) == Some(Plain(Str(img.mode)))
      && Get(r, Name("Image Size")) == Some(Plain(Str(SizeText(img))))
      && (host.sizeKb(p).Success? ==> Get(r, Name("File Size (KB)")) == Some(Plain(host.sizeKb(p).value)))
      && (host.sizeKb(p).Failure? ==> Get(r, Name("Error")) == Some(Plain(Str(host.sizeKb(p).error))))
  {
    var img := host.open(p).value;
    var m := BasicInfo(host, p, img);
    BasicInfoGet(host, p, img, Name("File Name"));
    BasicInfoGet(host, p, img, Name("Format"));
    BasicInfoGet(host, p, img, Name("Mode"));
    BasicInfoGet(host, p, img, Name("Image Size"));
    match host.sizeKb(p)
    case Success(kb) => PutGet(m, Name("File Size (KB)"), Plain(kb));
    case Failure(e) => PutGet(m, Name("Error"), Plain(Str(e)));
  }

  /** An EXIF entry is reported under its tag name (GPS data as a dictionary keyed by GPS tag names),
      unless a later entry has the same name or the name is one the reader stores itself. */
  lemma ReadExifEntry(host: Host, p: string, i: nat)
    requires host.open(p).Success? && i < |ExifEntries(host.open(p).value)|
    requires var es := ExifEntries(host.open(p).value);
      forall j :: i < j < |es| ==> KeyOf(host.tags, es[j].0) != KeyOf(host.tags, es[i].0)
    requires !IsBasicKey(KeyOf(host.tags, ExifEntries(host.open(p).value)[i].0))
    ensures var e := ExifEntries(host.open(p).value)[i]; var k := KeyOf(host.tags, e.0);
      Get(ImageMetadataOf(host, p), k) == Some(FieldOf(host.gpsTags, k, e.1))
  {
    var img := host.open(p).value;
    var es := ExifEntries(img);
    var fs := ExifFields(host, es);
    var k := fs[i].0;
    LastValueIs(fs, i);
    PutAllGet([], fs, k);
    ReadOtherKey(host, p, k);
  }

  /** A key the reader does not store itself is read from the EXIF entries alone. */
  lemma ReadOtherKey(host: Host, p: string, k: TagKey)
    requires host.open(p).Success? && !IsBasicKey(k)
    ensures Get(ImageMetadataOf(host, p), k) == Get(PutAll([], ExifFields(host, ExifEntries(host.open(p).value))), k)
  {
    var img := host.open(p).value;
    BasicInfoGet(host, p, img, k);
    var m := BasicInfo(host, p, img);
    match host.sizeKb(p)
    case Success(kb) => PutGet(m, Name("File Size (KB)"), Plain(kb));
    case Failure(e) => PutGet(m, Name("Error"), Plain(Str(e)));
  }

  /** The record never lists a key twice. */
  lemma ReadDistinct(host: Host, p: string)
    ensures DistinctKeys(ImageMetadataOf(host, p))
  {
    if host.open(p).Success? {
      var img := host.open(p).value;
      var m0 := PutAll([], ExifFields(host, ExifEntries(img)));
      PutAllDistinct([], ExifFields(host, ExifEntries(img)));
      var m1 := Put(m0, Name("File Name"), Plain(Str(Basename(p))));
      PutDistinct(m0, Name("File Name"), Plain(Str(Basename(p))));
      var m2 := Put(m1, Name("Format"), Plain(FormatValue(img.format)));
      PutDistinct(m1, Name("Format"), Plain(FormatValue(img.format)));
      var m3 := Put(m2, Name("Mode"), Plain(Str(img.mode)));
      PutDistinct(m2, Name("Mode"), Plain(Str(img.mode)));
      PutDistinct(m3, Name("Image Size"), Plain(Str(SizeText(img))));
      var m := BasicInfo(host, p, img);
      match host.sizeKb(p)
      case Success(kb) => PutDistinct(m, Name("File Size (KB)"), Plain(kb));
      case Failure(e) => PutDistinct(m, Name("Error"), Plain(Str(e)));
    }
  }

  // ---- Writing ----

  /** `output_path`, with ".jpg" added when `splitext` finds no extension. */
  function OutputPath(output: string): string {
    if Lower(Ext(output)) == "" then output + ".jpg" else output
  }

  /** A path keeps its extension; a plain file name without one gets ".jpg". */
  lemma OutputPathExtension(output: string)
    ensures Ext(output) != "" ==> OutputPath(output) == output
    ensures Ext(output) == "" && '/' !in output && HasNonDot(output) ==> Ext(OutputPath(output)) == ".jpg"
  {
    if Ext(output) == "" && '/' !in output && HasNonDot(output) {
      assert '.' !in "jpg";
      KeepsExtension(output, ".jpg");
    }
  }

  /** A path ending in `/` gets ".jpg" as a hidden file name, which `splitext` then reads as having no
      extension. */
  lemma OutputPathOfFolder()
    ensures OutputPath("out/") == "out/.jpg" && Ext("out/.jpg") == ""
  {
    var p := "out/.jpg";
    RFindAbsent("out/", '.');
    RFindLastIs(p, 3, '/');
    RFindLastIs(p, 4, '.');
    assert !HasNonDot("out/.jpg"[4..4]);
  }

  function Swap(pair: (int, string)): (string, int) { (pair.1, pair.0) }

  /** `{v: k for k, v in ExifTags.TAGS.items()}`. */
  function ReverseTags(tags: Dict<int, string>): Dict<string, int> {
    PutAll([], seq(|tags|, i requires 0 <= i < |tags| => Swap(tags[i])))
  }

  /** A name maps back to the id of the last tag with that name. */
  lemma ReverseTagsGet(tags: Dict<int, string>, i: nat)
    requires i < |tags|
    requires forall j :: i < j < |tags| ==> tags[j].1 != tags[i].1
    ensures Get(ReverseTags(tags), tags[i].1) == Some(tags[i].0)
  {
    var swapped := seq(|tags|, i requires 0 <= i < |tags| => Swap(tags[i]));
    LastValueIs(swapped, i);
    PutAllGet([], swapped, tags[i].1);
  }

  /** `reverse_tags.get(field)`, with `None` read as 0: both are false for `if tag_id`. */
  function TagIdOf(reverse: Dict<string, int>, field: string): int {
    match Get(reverse, field)
    case Some(id) => id
    case None => 0
  }

  /** The EXIF table after the update loop: each update whose name has a nonzero tag id is stored. */
  function Updated(exif: Dict<int, ExifValue>, reverse: Dict<string, int>, updates: Record): Dict<int, ExifValue> {
    if updates == [] then exif
    else
      var prev := Updated(exif, reverse, updates[..|updates| - 1]);
      var (field, value) := updates[|updates| - 1];
      if TagIdOf(reverse, field) != 0 then Put(prev, TagIdOf(reverse, field), Scalar(value)) else prev
  }

  /** A tag no update names keeps its value. */
  lemma {:induction false} UpdatedKeeps(exif: Dict<int, ExifValue>, reverse: Dict<string, int>, updates: Record, id: int)
    requires forall j :: 0 <= j < |updates| ==> TagIdOf(reverse, updates[j].0) != id
    ensures Get(Updated(exif, reverse, updates), id) == Get(exif, id)
  {
    if updates != [] {
      var prev := updates[..|updates| - 1];
      UpdatedKeeps(exif, reverse, prev, id);
      var (field, value) := updates[|updates| - 1];
      if TagIdOf(reverse, field) != 0 {
        PutGet(Updated(exif, reverse, prev), TagIdOf(reverse, field), Scalar(value));
      }
    }
  }

  /** The tag of an update with a known name reads as that update's value, unless a later update
      names the same tag. */
  lemma {:induction false} UpdatedSets(exif: Dict<int, ExifValue>, reverse: Dict<string, int>, updates: Record, i: nat)
    requires i < |updates| && TagIdOf(reverse, updates[i].0) != 0
    requires forall j :: i < j < |updates| ==> TagIdOf(reverse, updates[j].0) != TagIdOf(reverse, updates[i].0)
    ensures Get(Updated(exif, reverse, updates), TagIdOf(reverse, updates[i].0)) == Some(Scalar(updates[i].1))
  {
    var prev := updates[..|updates| - 1];
    var (field, value) := updates[|updates| - 1];
    if i < |updates| - 1 {
      UpdatedSets(exif, reverse, prev, i);
      if TagIdOf(reverse, field) != 0 {
        PutGet(Updated(exif, reverse, prev), TagIdOf(reverse, field), Scalar(value));
      }
    } else {
      PutGet(Updated(exif, reverse, prev), TagIdOf(reverse, field), Scalar(value));
    }
  }

  /** What `write_image_metadata` asks `img.save` to write, or `None` when the input cannot be loaded. */
  function ToSave(host: Host, input: string, updates: Record, output: string): Option<SavedImage> {
    match host.open(input)
    case Failure(_) => None
    case Success(img) =>
      Some(SavedImage(OutputPath(output), if img.format.Some? then img.format.value else "JPEG",
                      Updated(ExifEntries(img), ReverseTags(host.tags), updates)))
  }

  /** `write_image_metadata`: true exactly when the input opens and the save succeeds. */
  method WriteImageMetadata(host: Host, input: string, updates: Record, output: string)
    returns (saved: Option<SavedImage>, ok: bool)
    ensures saved == ToSave(host, input, updates, output)
    ensures ok <==> saved.Some? && host.save(saved.value).None?
  {
    var loaded := host.open(input);
    if loaded.Failure? {
      return None, false;
    }
    var img := loaded.value;
    var exifData := ExifEntries(img);
    var imageFormat := if img.format.Some? then img.format.value else "JPEG";
    var outputPath := output;
    var ext := Lower(Ext(output));
    if ext == "" {
      outputPath := outputPath + ".jpg";
    }
    var reverseTags := ReverseTags(host.tags);
    var i := 0;
    while i < |updates|
      invariant 0 <= i <= |updates|
      invariant exifData == Updated(ExifEntries(img), reverseTags, updates[..i])
    {
      assert updates[..i + 1][..i] == updates[..i];
      var (field, value) := updates[i];
      var tagId := TagIdOf(reverseTags, field);
      if tagId != 0 {
        exifData := Put(exifData, tagId, Scalar(value));
      }
      i := i + 1;
    }
    assert updates[..|updates|] == updates;
    saved := Some(SavedImage(outputPath, imageFormat, exifData));
    ok := host.save(saved.value).None?;
  }
}
