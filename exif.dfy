/** What the two metadata editors (ui/metadata_viewer.py and ui/metadata_browser.py) share: the
    editing widget chosen for each field, the ExifTool argument vectors they build, the `k: v`
    sidecar text they write, and the line parser that reads a sidecar back. */
module Exif {
  import opened Wrappers
  import opened Strings
  import opened Paths
  import opened Dicts
  import opened Values
  import opened Seqs

  // ---- Dates ----

  /** A date and time as a `QDateTimeEdit` holds it. */
  datatype DateTime = DateTime(year: nat, month: nat, day: nat, hour: nat, minute: nat, second: nat)

  /** The range a `QDateTimeEdit` accepts (its dates run from 1752 to 9999). */
  predicate InWidgetRange(dt: DateTime) {
    1752 <= dt.year <= 9999 && 1 <= dt.month <= 12 && 1 <= dt.day <= 31
    && dt.hour < 24 && dt.minute < 60 && dt.second < 60
  }

  type WidgetDateTime = dt: DateTime | InWidgetRange(dt) witness DateTime(2000, 1, 1, 0, 0, 0)

  /** The `yyyy:MM:dd HH:mm:ss` layout around six fields of two digits, the first of four. */
  function DateLayout(y: string, mo: string, d: string, h: string, mi: string, sec: string): (r: string)
    requires |y| == 4 && |mo| == 2 && |d| == 2 && |h| == 2 && |mi| == 2 && |sec| == 2
    ensures |r| == 19
    ensures r[4] == ':' && r[7] == ':' && r[10] == ' ' && r[13] == ':' && r[16] == ':'
    ensures r[0..4] == y && r[5..7] == mo && r[8..10] == d && r[11..13] == h && r[14..16] == mi && r[17..19] == sec
  {
    var r := y + ":" + mo + ":" + d + " " + h + ":" + mi + ":" + sec;
    assert r[0..4] == y && r[5..7] == mo && r[8..10] == d;
    assert r[11..13] == h && r[14..16] == mi && r[17..19] == sec;
    r
  }

  /** `dateTime().toString("yyyy:MM:dd HH:mm:ss")`. */
  function FormatExif(dt: WidgetDateTime): (r: string)
    ensures |r| == 19
    ensures r[4] == ':' && r[7] == ':' && r[10] == ' ' && r[13] == ':' && r[16] == ':'
  {
    PadLength(dt.year, 4);
    PadLength(dt.month, 2);
    PadLength(dt.day, 2);
    PadLength(dt.hour, 2);
    PadLength(dt.minute, 2);
    PadLength(dt.second, 2);
    DateLayout(Pad(dt.year, 4), Pad(dt.month, 2), Pad(dt.day, 2), Pad(dt.hour, 2), Pad(dt.minute, 2), Pad(dt.second, 2))
  }

  predicate AllDigits(s: string) {
    forall i :: 0 <= i < |s| ==> IsDigit(s[i])
  }

  /** Reading `yyyy:MM:dd HH:mm:ss` back: the reference against which the format is checked. */
  function ParseExif(s: string): Option<DateTime> {
    if |s| == 19 && s[4] == ':' && s[7] == ':' && s[10] == ' ' && s[13] == ':' && s[16] == ':'
       && AllDigits(s[0..4]) && AllDigits(s[5..7]) && AllDigits(s[8..10])
       && AllDigits(s[11..13]) && AllDigits(s[14..16]) && AllDigits(s[17..19])
    then Some(DateTime(DigitsValue(s[0..4]), DigitsValue(s[5..7]), DigitsValue(s[8..10]),
                       DigitsValue(s[11..13]), DigitsValue(s[14..16]), DigitsValue(s[17..19])))
    else None
  }

  /** Where each field of the date sits in the written text. */
  lemma FormatExifFields(dt: WidgetDateTime)
    ensures FormatExif(dt)[0..4] == Pad(dt.year, 4) && FormatExif(dt)[5..7] == Pad(dt.month, 2)
    ensures FormatExif(dt)[8..10] == Pad(dt.day, 2) && FormatExif(dt)[11..13] == Pad(dt.hour, 2)
    ensures FormatExif(dt)[14..16] == Pad(dt.minute, 2) && FormatExif(dt)[17..19] == Pad(dt.second, 2)
  {
    PadLength(dt.year, 4);
    PadLength(dt.month, 2);
    PadLength(dt.day, 2);
    PadLength(dt.hour, 2);
    PadLength(dt.minute, 2);
    PadLength(dt.second, 2);
  }

  /** The written date reads back as the widget's date: the format loses nothing. */
  lemma FormatExifRoundTrip(dt: WidgetDateTime)
    ensures ParseExif(FormatExif(dt)) == Some(dt)
  {
    PadRoundTrip(dt.year, 4);
    PadRoundTrip(dt.month, 2);
    PadRoundTrip(dt.day, 2);
    PadRoundTrip(dt.hour, 2);
    PadRoundTrip(dt.minute, 2);
    PadRoundTrip(dt.second, 2);
    FormatExifFields(dt);
  }

  /** Different dates are written differently. */
  lemma FormatExifInjective(a: WidgetDateTime, b: WidgetDateTime)
    requires FormatExif(a) == FormatExif(b)
    ensures a == b
  {
    FormatExifRoundTrip(a);
    FormatExifRoundTrip(b);
  }

  // ---- Fields ----

  /** The editor made for a field: a line edit with its text, or a date editor with its date. */
  datatype Widget = LineEdit(text: string) | DateEdit(value: WidgetDateTime)

  /** The value a field contributes to the save: the line's text, or the date in ExifTool's format. */
  function WidgetText(w: Widget): string {
    match w
    case LineEdit(t) => t
    case DateEdit(dt) => FormatExif(dt)
  }

  /** `populate_fields` for one entry: a string under a key containing "Date" gets a date editor
      holding what `dateOf` says the widget shows for it, any other `int`, `float` or `str` a line
      edit with its text, and anything else no editor. */
  function Classify(key: string, value: Value, dateOf: string -> WidgetDateTime): Option<Widget> {
    if HasSubstring(key, "Date") && value.Str? then Some(DateEdit(dateOf(value.s)))
    else if IsScalar(value) then Some(LineEdit(Show(value)))
    else None
  }

  /** The three classes are told apart exactly as the source says. */
  lemma ClassifyCases(key: string, value: Value, dateOf: string -> WidgetDateTime)
    ensures Classify(key, value, dateOf).Some? && Classify(key, value, dateOf).value.DateEdit?
            <==> HasSubstring(key, "Date") && value.Str?
    ensures Classify(key, value, dateOf).Some? && Classify(key, value, dateOf).value.LineEdit?
            <==> !(HasSubstring(key, "Date") && value.Str?) && (value.Str? || value.Int? || value.Bool? || value.Float?)
    ensures Classify(key, value, dateOf).None? <==> value.NoneValue? || value.Other?
    ensures Classify(key, value, dateOf) == Some(LineEdit(Show(value))) || !IsScalar(value) || HasSubstring(key, "Date")
  {
  }

  /** `field_widgets` after `populate_fields` has run over `metadata`, starting from `widgets`. */
  function Populated(widgets: Dict<string, Widget>, metadata: Record, dateOf: string -> WidgetDateTime): Dict<string, Widget> {
    if metadata == [] then widgets
    else
      var prior := Populated(widgets, metadata[..|metadata| - 1], dateOf);
      var (key, value) := metadata[|metadata| - 1];
      match Classify(key, value, dateOf)
      case Some(w) => Put(prior, key, w)
      case None => prior
  }

  /** From an empty form, a key has an editor exactly when the record holds it with a value that
      gets one, and it is that value's editor. */
  lemma {:induction false} PopulatedGet(metadata: Record, dateOf: string -> WidgetDateTime, k: string)
    requires DistinctKeys(metadata)
    ensures Get(Populated([], metadata, dateOf), k) ==
            match Get(metadata, k)
            case None => None
            case Some(v) => Classify(k, v, dateOf)
  {
    if metadata != [] {
      var init := metadata[..|metadata| - 1];
      var (key, value) := metadata[|metadata| - 1];
      assert metadata == init + [(key, value)];
      assert Keys(metadata) == Keys(init) + [key];
      assert DistinctKeys(init) by {
        forall i, j | 0 <= i < j < |Keys(init)| ensures Keys(init)[i] != Keys(init)[j] {
          assert Keys(init)[i] == Keys(metadata)[i] && Keys(init)[j] == Keys(metadata)[j];
        }
      }
      PopulatedGet(init, dateOf, k);
      GetAppend(init, key, value, k);
      var prior := Populated([], init, dateOf);
      if Classify(key, value, dateOf).Some? {
        PutGet(prior, key, Classify(key, value, dateOf).value);
      }
      if k == key {
        assert k !in Keys(init) by {
          forall i | 0 <= i < |Keys(init)| ensures Keys(init)[i] != key {
            assert Keys(init)[i] == Keys(metadata)[i] && key == Keys(metadata)[|init|];
          }
        }
        assert Get(prior, k) == None;
      }
    }
  }

  // ---- Saving ----

  function SaveReserved(): seq<string> { ["file name", "file size (mb)", "error", "warning"] }

  /** `-Key=value`. */
  function ExifArg(key: string, val: string): string {
    "-" + key + "=" + val
  }

  /** The fields `save_metadata` writes: those whose lower-cased key is not reserved, in order. */
  function KeptFields(widgets: Dict<string, Widget>): (kept: Dict<string, Widget>)
    ensures |kept| <= |widgets|
    ensures forall i :: 0 <= i < |kept| ==> Lower(kept[i].0) !in SaveReserved()
  {
    if widgets == [] then []
    else
      var init := KeptFields(widgets[..|widgets| - 1]);
      var (key, w) := widgets[|widgets| - 1];
      if Lower(key) in SaveReserved() then init else init + [(key, w)]
  }

  /** A field is written exactly when it is in the form and its key is not reserved. */
  lemma {:induction false} KeptFieldsMembers(widgets: Dict<string, Widget>, f: (string, Widget))
    ensures f in KeptFields(widgets) <==> f in widgets && Lower(f.0) !in SaveReserved()
  {
    if widgets != [] {
      var init := widgets[..|widgets| - 1];
      var last := widgets[|widgets| - 1];
      KeptFieldsMembers(init, f);
      assert widgets == init + [last];
      assert KeptFields(widgets) == if Lower(last.0) in SaveReserved() then KeptFields(init) else KeptFields(init) + [last];
    } else {
      assert KeptFields(widgets) == [];
    }
  }

  /** The argument for one field: `-Key=value`, with the spaces taken out of the key. */
  function FieldArg(f: (string, Widget)): string {
    ExifArg(RemoveSpaces(f.0), WidgetText(f.1))
  }

  /** One argument per kept field, in order. */
  function FieldArgs(kept: Dict<string, Widget>): (args: seq<string>)
    ensures |args| == |kept|
    ensures forall i :: 0 <= i < |kept| ==> args[i] == FieldArg(kept[i])
  {
    Mapped(FieldArg, kept)
  }

  /** The save command: the tool, `-overwrite_original`, one argument per kept field in form order, and the file. */
  function SaveArgv(widgets: Dict<string, Widget>, path: string): (argv: seq<string>)
    ensures |argv| == 3 + |KeptFields(widgets)|
    ensures argv[0] == "exiftool" && argv[1] == "-overwrite_original" && argv[|argv| - 1] == path
    ensures forall i :: 0 <= i < |KeptFields(widgets)| ==>
              argv[2 + i] == FieldArg(KeptFields(widgets)[i])
  {
    ["exiftool", "-overwrite_original"] + FieldArgs(KeptFields(widgets)) + [path]
  }

  /** One more field of the form adds its argument, unless its key is reserved. */
  lemma SaveArgsLast(widgets: Dict<string, Widget>, i: nat)
    requires i < |widgets|
    ensures Lower(widgets[i].0) in SaveReserved() ==> FieldArgs(KeptFields(widgets[..i + 1])) == FieldArgs(KeptFields(widgets[..i]))
    ensures Lower(widgets[i].0) !in SaveReserved() ==>
              FieldArgs(KeptFields(widgets[..i + 1])) == FieldArgs(KeptFields(widgets[..i])) + [FieldArg(widgets[i])]
  {
    assert widgets[..i + 1][..i] == widgets[..i];
    MappedAppend(FieldArg, KeptFields(widgets[..i]), [widgets[i]]);
  }

  /** The loop of `save_metadata` building the command. */
  method BuildSaveArgv(widgets: Dict<string, Widget>, path: string) returns (args: seq<string>)
    ensures args == SaveArgv(widgets, path)
  {
    args := ["exiftool", "-overwrite_original"];
    var i := 0;
    while i < |widgets|
      invariant 0 <= i <= |widgets|
      invariant args == ["exiftool", "-overwrite_original"] + FieldArgs(KeptFields(widgets[..i]))
    {
      SaveArgsLast(widgets, i);
      var (key, w) := widgets[i];
      if Lower(key) !in SaveReserved() {
        args := args + [FieldArg((key, w))];
      }
      i := i + 1;
    }
    assert widgets[..|widgets|] == widgets;
    args := args + [path];
  }

  // ---- Other commands ----

  /** The copy command as the editors build it: the source path glued to the option in one argument. */
  function CopyArgv(source: string, target: string): seq<string> {
    ["exiftool", "-overwrite_original", "-tagsFromFile=" + source, target]
  }

  /** The copy command in ExifTool's documented form `-tagsFromFile SRCFILE`: the source path is the
      argument after the option. */
  function SeparateCopyArgv(source: string, target: string): seq<string> {
    ["exiftool", "-overwrite_original", "-tagsFromFile", source, target]
  }

  /** The delete command: clear every tag of `path`. */
  function DeleteArgv(path: string): seq<string> {
    ["exiftool", "-overwrite_original", "-all=", path]
  }

  /** What an in-place exiftool command line asks for: copying every tag from a source file, clearing
      every tag, a list of tag assignments, or options outside this reading, each applied to the file
      named last. */
  datatype ExifCommand =
    | CopyFrom(source: string, target: string)
    | ClearAll(path: string)
    | Assign(assignments: seq<(string, string)>, path: string)
    | Unread(options: seq<string>, path: string)
    | NotInPlace

  /** One `-TAG=VALUE` option of ExifTool's documented syntax: the tag name runs up to the first '='. */
  function ReadAssignment(option: string): Option<(string, string)> {
    if |option| > 0 && option[0] == '-' && '=' in option[1..] then
      var body := option[1..];
      var k := IndexOf(body, '=');
      Some((body[..k], body[k + 1..]))
    else None
  }

  /** Every option read as an assignment, in order, or None when one of them is not of that form. */
  function ReadAssignments(options: seq<string>): Option<seq<(string, string)>> {
    if options == [] then Some([])
    else
      var earlier := ReadAssignments(options[..|options| - 1]);
      var last := ReadAssignment(options[|options| - 1]);
      if earlier.Some? && last.Some? then Some(earlier.value + [last.value]) else None
  }

  /** A command line of the shape the editors build (the tool, in-place writing, the options, and the
      file last) read by ExifTool's documented syntax: `-all=` deletes every tag, `-tagsFromFile`
      takes the source file as its next argument, and `-TAG=VALUE` writes VALUE to TAG. */
  function ReadCommand(argv: seq<string>): ExifCommand {
    if |argv| < 3 || argv[0] != "exiftool" || argv[1] != "-overwrite_original" then NotInPlace
    else
      var options := argv[2..|argv| - 1];
      var file := argv[|argv| - 1];
      if options == ["-all="] then ClearAll(file)
      else if |options| == 2 && options[0] == "-tagsFromFile" then CopyFrom(options[1], file)
      else match ReadAssignments(options)
        case Some(assignments) => Assign(assignments, file)
        case None => Unread(options, file)
  }

  /** As written, the copy command's one option is `-tagsFromFile=` followed by the source path: it
      asks to write that path into a tag called `tagsFromFile`, and copies nothing from the source. */
  lemma CopyArgvIsAssignment(source: string, target: string)
    ensures ReadCommand(CopyArgv(source, target)) == Assign([("tagsFromFile", source)], target)
    ensures ReadCommand(CopyArgv(source, target)) != CopyFrom(source, target)
  {
    var argv := CopyArgv(source, target);
    var option := "-tagsFromFile=" + source;
    assert argv[2..|argv| - 1] == [option];
    var body := option[1..];
    assert body == "tagsFromFile=" + source;
    assert body[..12] == "tagsFromFile" && body[12] == '=';
    IndexOfIs(body, '=', 12);
    assert body[13..] == source;
    var options := [option];
    assert options[..|options| - 1] == [] && options[|options| - 1] == option;
    assert ReadAssignments(options[..|options| - 1]) == Some([]);
    assert [] + [("tagsFromFile", source)] == [("tagsFromFile", source)];
    assert ReadAssignments(options) == Some([("tagsFromFile", source)]);
  }

  /** The copy command in the documented form is read as copying from exactly `source` into exactly
      `target`, whatever characters the two paths hold; two different copies never build the same
      command. */
  lemma SeparateCopyArgvReadBack(source: string, target: string, source': string, target': string)
    ensures ReadCommand(SeparateCopyArgv(source, target)) == CopyFrom(source, target)
    ensures SeparateCopyArgv(source, target) == SeparateCopyArgv(source', target') ==> source == source' && target == target'
  {
    var argv := SeparateCopyArgv(source, target);
    assert argv[2..|argv| - 1] == ["-tagsFromFile", source];
    if SeparateCopyArgv(source, target) == SeparateCopyArgv(source', target') {
      assert SeparateCopyArgv(source, target)[3] == SeparateCopyArgv(source', target')[3];
      assert SeparateCopyArgv(source, target)[4] == SeparateCopyArgv(source', target')[4];
    }
  }

  /** The delete command is read as clearing every tag of exactly `path`, and never as a copy or an
      assignment; two different files never get the same command. */
  lemma DeleteArgvReadBack(path: string, path': string)
    ensures ReadCommand(DeleteArgv(path)) == ClearAll(path)
    ensures DeleteArgv(path) == DeleteArgv(path') ==> path == path'
  {
    var argv := DeleteArgv(path);
    assert argv[2..|argv| - 1] == ["-all="];
    if DeleteArgv(path) == DeleteArgv(path') {
      assert DeleteArgv(path)[3] == DeleteArgv(path')[3];
    }
  }

  // ---- Sidecar text ----

  /** The text file beside `path`: its extension replaced by `.txt`. */
  function SidecarPath(path: string): (r: string)
    ensures EndsWith(r, ".txt")
  {
    Root(path) + ".txt"
  }

  /** The sidecar's extension is `.txt` and its stem is the file's stem. */
  lemma SidecarPathSplits(path: string)
    requires Root(path) != [] && '/' !in Root(path) && HasNonDot(Root(path))
    ensures SplitExt(SidecarPath(path)) == (Root(path), ".txt")
  {
    KeepsExtension(Root(path), ".txt");
  }

  /** `f"{k}: {v}\n"`. */
  function SidecarLine(key: string, value: Value): string {
    key + ": " + Show(value) + "\n"
  }

  /** The whole sidecar: one line per entry, in record order. */
  function Sidecar(record: Record): string {
    if record == [] then "" else SidecarLine(record[0].0, record[0].1) + Sidecar(record[1..])
  }

  lemma {:induction false} SidecarAppend(a: Record, b: Record)
    ensures Sidecar(a + b) == Sidecar(a) + Sidecar(b)
  {
    if a == [] {
      assert a + b == b;
    } else {
      assert (a + b)[1..] == a[1..] + b;
      SidecarAppend(a[1..], b);
    }
  }

  /** The loop writing the sidecar, one `f.write` per entry. */
  method WriteSidecar(record: Record) returns (content: string)
    ensures content == Sidecar(record)
  {
    content := "";
    var i := 0;
    while i < |record|
      invariant 0 <= i <= |record|
      invariant content == Sidecar(record[..i])
    {
      SidecarAppend(record[..i], [record[i]]);
      assert record[..i + 1] == record[..i] + [record[i]];
      assert Sidecar([record[i]]) == SidecarLine(record[i].0, record[i].1);
      content := content + SidecarLine(record[i].0, record[i].1);
      i := i + 1;
    }
    assert record[..|record|] == record;
  }

  // ---- Reading a sidecar back ----

  predicate IsLineBreak(c: char) {
    c == '\n' || c == '\r'
  }

  /** Where the first line of `s` ends. */
  function LineEnd(s: string): (i: nat)
    ensures i <= |s|
    ensures i < |s| ==> IsLineBreak(s[i])
    ensures forall k :: 0 <= k < i ==> !IsLineBreak(s[k])
  {
    if s == [] || IsLineBreak(s[0]) then 0 else 1 + LineEnd(s[1..])
  }

  /** The lines `for line in f` yields from a file opened in text mode (universal newlines: `\n`,
      `\r` and `\r\n` end a line), without their terminators. */
  function Lines(s: string): seq<string>
    decreases |s|
  {
    if s == [] then []
    else
      var i := LineEnd(s);
      if i == |s| then [s]
      else
        var next := if s[i] == '\r' && i + 1 < |s| && s[i + 1] == '\n' then i + 2 else i + 1;
        [s[..i]] + Lines(s[next..])
  }

  /** A line without breaks followed by `\n` is read back as that line. */
  lemma LinesCons(line: string, rest: string)
    requires forall k :: 0 <= k < |line| ==> !IsLineBreak(line[k])
    ensures Lines(line + "\n" + rest) == [line] + Lines(rest)
  {
    var s := line + "\n" + rest;
    assert s[|line|] == '\n';
    assert forall k :: 0 <= k < |line| ==> s[k] == line[k];
    assert LineEnd(s) == |line| by {
      LineEndAt(s, |line|);
    }
    assert s[..|line|] == line;
    assert s[|line| + 1..] == rest;
  }

  lemma {:induction false} LineEndAt(s: string, i: nat)
    requires i < |s| && IsLineBreak(s[i])
    requires forall k :: 0 <= k < i ==> !IsLineBreak(s[k])
    ensures LineEnd(s) == i
    decreases i
  {
    if i > 0 {
      LineEndAt(s[1..], i - 1);
    }
  }

  /** One line of `import_metadata_from_txt`: skipped without a colon; otherwise `^(.*?):\s*(.*)$`
      on the stripped line, the key being the text before the first colon, stripped and with its
      spaces removed, the value the rest after the white space, stripped. */
  function ParseLine(line: string): Option<(string, string)> {
    if ':' !in line then None
    else
      var s := Strip(line);
      if ':' !in s then None
      else
        var i := IndexOf(s, ':');
        Some((RemoveSpaces(Strip(s[..i])), Strip(LStrip(s[i + 1..]))))
  }

  /** The pattern always matches a line with a colon: stripping keeps the colon. The key never holds a space. */
  lemma ParseLineSome(line: string)
    ensures ParseLine(line).Some? <==> ':' in line
    ensures ParseLine(line).Some? ==> ' ' !in ParseLine(line).value.0
  {
    if ':' in line {
      StripKeepsSolid(line, ':');
    }
  }

  lemma LStripSidecarLine(key: string, val: string)
    ensures LStrip(key + ": " + val) == LStrip(key) + ": " + val
  {
    var w := ": " + val;
    AppendAssoc(key, ": ", val);
    assert w[0] == ':';
    LStripBeforeSolid(key, w);
    AppendAssoc(LStrip(key), ": ", val);
  }

  lemma RStripSidecarLine(l: string, val: string)
    ensures RStrip(l + ": " + val) == l + ":" + RStrip(" " + val)
  {
    var head := l + ":";
    var tail := " " + val;
    assert head[|head| - 1] == ':';
    assert l + ": " + val == head + tail;
    RStripAfterSolid(head, tail);
  }

  /** Stripping a sidecar line strips the key's head and the value's tail. */
  lemma StripSidecarLine(key: string, val: string)
    ensures Strip(key + ": " + val) == LStrip(key) + ":" + RStrip(" " + val)
  {
    LStripSidecarLine(key, val);
    RStripSidecarLine(LStrip(key), val);
  }

  /** The first colon of `l + ":" + r` when `l` has none. */
  lemma FirstColon(l: string, r: string)
    requires ':' !in l
    ensures ':' in l + ":" + r && IndexOf(l + ":" + r, ':') == |l|
  {
    var s := l + ":" + r;
    assert s[|l|] == ':';
    assert s[..|l|] == l;
    IndexOfIs(s, ':', |l|);
  }

  /** The value's stripping: `\s*` then `.strip()` after the line's own strip is a plain strip. */
  lemma StripValue(val: string)
    ensures Strip(LStrip(RStrip(" " + val))) == Strip(val)
  {
    var w := " " + val;
    StripCommutes(w);
    LStripAfterSpaces(" ", val);
    var lv := LStrip(val);
    var v := RStrip(lv);
    assert LStrip(RStrip(w)) == v;
    if v != [] {
      assert v[0] == lv[0];
    }
    LStripOfLStripped(v);
    RStripOfRStripped(v);
  }

  /** A line whose stripped form is `l:r`, with no colon in `l`, parses as `l` and `r` cleaned. */
  lemma ParseLineIs(line: string, l: string, r: string)
    requires ':' !in l && Strip(line) == l + ":" + r
    ensures ParseLine(line) == Some((RemoveSpaces(Strip(l)), Strip(LStrip(r))))
  {
    var s := l + ":" + r;
    assert s[|l|] == ':';
    StripInside(line, ':');
    FirstColon(l, r);
    assert s[..|l|] == l && s[|l| + 1..] == r;
  }

  /** A sidecar line whose key has no colon parses back to the key without white space at its ends
      or spaces inside, and the value without white space at its ends. */
  lemma ParseSidecarLine(key: string, val: string)
    requires ':' !in key
    ensures ParseLine(key + ": " + val) == Some((RemoveSpaces(Strip(key)), Strip(val)))
  {
    var l := LStrip(key);
    StripSidecarLine(key, val);
    assert ':' !in l by {
      assert forall k :: 0 <= k < |l| ==> l[k] == key[|key| - |l| + k];
    }
    ParseLineIs(key + ": " + val, l, RStrip(" " + val));
    LStripOfLStripped(l);
    StripValue(val);
  }

  function ImportReserved(): seq<string> { ["filename", "filesize", "error", "warning"] }

  /** What one line adds to the import: its parsed field, unless it has no colon or its
      lower-cased key is reserved. */
  function Contribution(line: string): seq<(string, string)> {
    match ParseLine(line)
    case None => []
    case Some(f) => if Lower(f.0) in ImportReserved() then [] else [f]
  }

  /** The fields `import_metadata_from_txt` passes on, in line order. */
  function ImportedFields(lines: seq<string>): seq<(string, string)> {
    ConcatMap(Contribution, lines)
  }

  /** A line adds at most one field, and never one with a reserved key. */
  lemma ContributionUnreserved(line: string)
    ensures |Contribution(line)| <= 1
    ensures forall i :: 0 <= i < |Contribution(line)| ==> Lower(Contribution(line)[i].0) !in ImportReserved()
  {
  }

  /** No imported field has a reserved key, and there is at most one per line. */
  lemma {:induction false} ImportedFieldsUnreserved(lines: seq<string>)
    ensures |ImportedFields(lines)| <= |lines|
    ensures forall i :: 0 <= i < |ImportedFields(lines)| ==> Lower(ImportedFields(lines)[i].0) !in ImportReserved()
  {
    if lines != [] {
      var init := lines[..|lines| - 1];
      ImportedFieldsUnreserved(init);
      ContributionUnreserved(lines[|lines| - 1]);
      assert ImportedFields(lines) == ImportedFields(init) + Contribution(lines[|lines| - 1]);
    }
  }

  lemma ImportArgsLast(fields: seq<(string, string)>, f: (string, string))
    ensures ImportArgs(fields + [f]) == ImportArgs(fields) + [ExifArg(f.0, f.1)]
  {
    assert (fields + [f])[..|fields|] == fields;
  }

  function ImportArgs(fields: seq<(string, string)>): (args: seq<string>)
    ensures |args| == |fields|
    ensures forall i :: 0 <= i < |fields| ==> args[i] == ExifArg(fields[i].0, fields[i].1)
  {
    if fields == [] then [] else ImportArgs(fields[..|fields| - 1]) + [ExifArg(fields[|fields| - 1].0, fields[|fields| - 1].1)]
  }

  /** The import command: the tool, `-overwrite_original`, one argument per imported field, and the file. */
  function ImportArgv(lines: seq<string>, path: string): (argv: seq<string>)
    ensures |argv| == 3 + |ImportedFields(lines)|
    ensures argv[0] == "exiftool" && argv[1] == "-overwrite_original" && argv[|argv| - 1] == path
    ensures forall i :: 0 <= i < |ImportedFields(lines)| ==>
              argv[2 + i] == ExifArg(ImportedFields(lines)[i].0, ImportedFields(lines)[i].1)
  {
    ["exiftool", "-overwrite_original"] + ImportArgs(ImportedFields(lines)) + [path]
  }

  /** The loop of `import_metadata_from_txt` over the file's lines. */
  method BuildImportArgv(lines: seq<string>, path: string) returns (args: seq<string>)
    ensures args == ImportArgv(lines, path)
  {
    args := ["exiftool", "-overwrite_original"];
    ghost var fields: seq<(string, string)> := [];
    var i := 0;
    while i < |lines|
      invariant 0 <= i <= |lines|
      invariant fields == ImportedFields(lines[..i])
      invariant args == ["exiftool", "-overwrite_original"] + ImportArgs(fields)
    {
      ConcatMapPrefix(Contribution, lines, i);
      var parsed := ParseLine(lines[i]);
      if parsed.Some? {
        var (k, v) := parsed.value;
        if Lower(k) !in ImportReserved() {
          assert Contribution(lines[i]) == [(k, v)];
          ImportArgsLast(fields, (k, v));
          AppendAssoc(["exiftool", "-overwrite_original"], ImportArgs(fields), [ExifArg(k, v)]);
          fields := fields + [(k, v)];
          args := args + [ExifArg(k, v)];
        } else {
          assert Contribution(lines[i]) == [];
        }
      } else {
        assert Contribution(lines[i]) == [];
      }
      i := i + 1;
    }
    assert lines[..|lines|] == lines;
    args := args + [path];
  }

  /** What importing a record's sidecar should give: each entry with its key stripped and without
      spaces and its value stripped, leaving out the reserved keys. */
  function Reimported(record: Record): seq<(string, string)> {
    if record == [] then []
    else
      var (k, v) := (RemoveSpaces(Strip(record[0].0)), Strip(Show(record[0].1)));
      (if Lower(k) in ImportReserved() then [] else [(k, v)]) + Reimported(record[1..])
  }

  predicate Writable(record: Record) {
    forall i :: 0 <= i < |record| ==>
      ':' !in record[i].0
      && (forall k :: 0 <= k < |record[i].0| ==> !IsLineBreak(record[i].0[k]))
      && (forall k :: 0 <= k < |Show(record[i].1)| ==> !IsLineBreak(Show(record[i].1)[k]))
  }

  /** Importing the sidecar written from a record passes on every entry that is not reserved, in
      order, with its key and value as the line parser leaves them: backup and import round-trip,
      provided no key holds a colon and no key or value breaks the line. */
  lemma {:induction false} SidecarRoundTrip(record: Record)
    requires Writable(record)
    ensures ImportedFields(Lines(Sidecar(record))) == Reimported(record)
  {
    if record != [] {
      var (k, v) := record[0];
      var line := k + ": " + Show(v);
      assert Writable(record[1..]) by {
        forall i | 0 <= i < |record[1..]| ensures record[1..][i] == record[i + 1] { }
      }
      SidecarRoundTrip(record[1..]);
      assert forall j :: 0 <= j < |line| ==> !IsLineBreak(line[j]) by {
        forall j | 0 <= j < |line| ensures !IsLineBreak(line[j]) {
          if j < |k| { assert line[j] == k[j]; }
          else if j >= |k| + 2 { assert line[j] == Show(v)[j - |k| - 2]; }
        }
      }
      assert SidecarLine(k, v) == line + "\n";
      assert Sidecar(record) == line + "\n" + Sidecar(record[1..]);
      LinesCons(line, Sidecar(record[1..]));
      ConcatMapCons(Contribution, line, Lines(Sidecar(record[1..])));
      ParseSidecarLine(k, Show(v));
    }
  }
}
