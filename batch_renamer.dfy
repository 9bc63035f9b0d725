/** The batch renamer (ui/batch_renamer_browser.py): adds or removes a prefix or suffix on the stem of
    every ticked file of the imported folder, keeping the extension, never overwriting a file, and
    recording one outcome per file. */
module BatchRenamer {
  import opened Wrappers
  import opened Strings
  import opened Paths
  import opened Io

  /** The operation and the text typed for it (`add_both` carries its prefix and suffix). */
  datatype Operation =
    | AddPrefix(text: string)
    | AddSuffix(text: string)
    | RemovePrefix(text: string)
    | RemoveSuffix(text: string)
    | AddBoth(prefix: string, suffix: string)

  /** `operation_type.replace('_', ' ')`. */
  function OpWords(op: Operation): string {
    match op
    case AddPrefix(_) => "add prefix"
    case AddSuffix(_) => "add suffix"
    case RemovePrefix(_) => "remove prefix"
    case RemoveSuffix(_) => "remove suffix"
    case AddBoth(_, _) => "add both"
  }

  /** `operation_type.replace('_', ' ').title().replace('Add_Both', 'Add Prefix/Suffix')`; the last
      replacement never matches, since the underscore is already gone. */
  function DisplayName(op: Operation): string {
    match op
    case AddPrefix(_) => "Add Prefix"
    case AddSuffix(_) => "Add Suffix"
    case RemovePrefix(_) => "Remove Prefix"
    case RemoveSuffix(_) => "Remove Suffix"
    case AddBoth(_, _) => "Add Both"
  }

  /** Python `s[:-n]`: with `n == 0` this is the empty string, not `s`. */
  function DropLast(s: string, n: nat): (r: string)
    requires n <= |s|
    ensures n > 0 ==> r + s[|s| - n..] == s
  {
    if n == 0 then [] else s[..|s| - n]
  }

  /** The new stem an operation gives `stem`, or `None` when a removal does not apply. */
  function NewStem(op: Operation, stem: string): (r: Option<string>)
    ensures r.None? ==> op.RemovePrefix? || op.RemoveSuffix?
  {
    match op
    case AddPrefix(t) => Some(t + stem)
    case AddSuffix(t) => Some(stem + t)
    case RemovePrefix(t) => if StartsWith(stem, t) then Some(stem[|t|..]) else None
    case RemoveSuffix(t) => if EndsWith(stem, t) then Some(DropLast(stem, |t|)) else None
    case AddBoth(p, s) => Some(p + stem + s)
  }

  /** Why a file was not renamed. */
  datatype Reason =
    | NoPrefix(text: string)
    | NoSuffix(text: string)
    | Identical
    | Taken(newBase: string)
    | OsError(error: string)

  /** The outcome of one selected file. */
  datatype Outcome = Renamed(source: string, target: string) | Skipped(source: string, reason: Reason)

  const SkippedOpen: string := "Skipped '"
  const FailedOpen: string := "Failed to rename '"
  const NoStartText: string := "': Does not start with '"
  const NoEndText: string := "': Does not end with '"
  const IdenticalText: string := "': New name is identical to old name."
  const TakenText: string := "': New file name '"
  const TakenEnd: string := "' already exists."

  const ConfirmTitle: string := "Confirm "
  const AreYouSure: string := "Are you sure you want to "
  const WithPrefix: string := " with prefix '"
  const AndSuffix: string := "' and suffix '"
  const ForText: string := "for "
  const FilesQuestion: string := " file(s)?"
  const CompleteTitle: string := " Complete"
  const Successfully: string := "Successfully "
  const FilesDone: string := " file(s)."
  const ErrorsTitle: string := " Errors"
  const Encountered: string := "Encountered errors for "
  const FilesColon: string := " file(s):\n"

  /** The line the batch reports for a file it did not rename. */
  function Message(source: string, reason: Reason): string {
    var b := Basename(source);
    match reason
    case NoPrefix(t) => SkippedOpen + b + NoStartText + t + "'."
    case NoSuffix(t) => SkippedOpen + b + NoEndText + t + "'."
    case Identical => SkippedOpen + b + IdenticalText
    case Taken(n) => SkippedOpen + b + TakenText + n + TakenEnd
    case OsError(e) => FailedOpen + b + "': " + e
  }

  /** What the rest of the file system answers: paths that exist but are not regular files of the
      folder (sub-directories and the like), the `OSError` text `os.rename` raises for a source and
      target, and the text it raises when the source has vanished. */
  datatype Volume = Volume(others: set<string>, refusal: (string, string) -> Option<string>, notFound: (string, string) -> string)

  /** The files after a batch and the outcome of each selected path, in order. */
  datatype Batch = Batch(files: set<string>, outcomes: seq<Outcome>)

  /** The checks of one iteration once the target is known: the identical-name check, the existence
      check, then `os.rename`. */
  function Attempt(p: string, target: string, newBase: string, files: set<string>, vol: Volume): (r: (set<string>, Outcome))
    ensures r.1.source == p
    ensures r.1.Renamed? <==>
              target != p && target !in files && target !in vol.others && p in files && vol.refusal(p, target).None?
    ensures r.1.Renamed? ==> r.1.target == target && r.0 == files - {p} + {target}
    ensures r.1.Skipped? ==> r.0 == files
    ensures p == target ==> r.1 == Skipped(p, Identical)
    ensures p != target && (target in files || target in vol.others) ==> r.1 == Skipped(p, Taken(newBase))
  {
    if p == target then (files, Skipped(p, Identical))
    else if target in files || target in vol.others then (files, Skipped(p, Taken(newBase)))
    else if p !in files then (files, Skipped(p, OsError(vol.notFound(p, target))))
    else match vol.refusal(p, target)
      case Some(e) => (files, Skipped(p, OsError(e)))
      case None => (files - {p} + {target}, Renamed(p, target))
  }

  /** One iteration of the rename loop on path `p`: the new stem, then the checks on its target. */
  function Step(op: Operation, p: string, files: set<string>, vol: Volume): (r: (set<string>, Outcome))
    ensures r.1.source == p
    ensures r.1.Renamed? ==>
              p in files && r.1.target !in files && r.1.target !in vol.others && r.1.target != p
              && r.0 == files - {p} + {r.1.target}
    ensures r.1.Skipped? ==> r.0 == files
  {
    var (stem, ext) := SplitExt(Basename(p));
    match NewStem(op, stem)
    case None => (files, Skipped(p, if op.RemovePrefix? then NoPrefix(op.text) else NoSuffix(op.text)))
    case Some(ns) => Attempt(p, Join(Dirname(p), ns + ext), ns + ext, files, vol)
  }

  /** A rename takes one file away and adds one that was not there: the number of files is kept. */
  lemma StepKeepsCount(op: Operation, p: string, files: set<string>, vol: Volume)
    ensures |Step(op, p, files, vol).0| == |files|
  {
    var (f, o) := Step(op, p, files, vol);
    if o.Renamed? {
      assert |files - {p}| == |files| - 1;
      assert o.target !in files - {p};
    }
  }

  /** The loop over the selected paths, each step seeing the files left by the ones before. */
  function Run(op: Operation, paths: seq<string>, files: set<string>, vol: Volume): (b: Batch)
    ensures |b.outcomes| == |paths|
    ensures |b.files| == |files|
    ensures forall i :: 0 <= i < |paths| ==> b.outcomes[i].source == paths[i]
    decreases |paths|
  {
    if paths == [] then Batch(files, [])
    else
      var prior := Run(op, paths[..|paths| - 1], files, vol);
      var step := Step(op, paths[|paths| - 1], prior.files, vol);
      StepKeepsCount(op, paths[|paths| - 1], prior.files, vol);
      Batch(step.0, prior.outcomes + [step.1])
  }

  /** `renamed_count` after the outcomes. */
  function RenamedCount(outcomes: seq<Outcome>): nat {
    if outcomes == [] then 0
    else RenamedCount(outcomes[..|outcomes| - 1]) + (if outcomes[|outcomes| - 1].Renamed? then 1 else 0)
  }

  /** What one outcome adds to `errors`: its message when the file was not renamed. */
  function ErrorLines(o: Outcome): seq<string> {
    if o.Skipped? then [Message(o.source, o.reason)] else []
  }

  /** `errors` after the outcomes. */
  function ErrorList(outcomes: seq<Outcome>): seq<string> {
    if outcomes == [] then []
    else ErrorList(outcomes[..|outcomes| - 1]) + ErrorLines(outcomes[|outcomes| - 1])
  }

  lemma RunLast(op: Operation, paths: seq<string>, i: nat, files: set<string>, vol: Volume)
    requires i < |paths|
    ensures var prior := Run(op, paths[..i], files, vol);
            var step := Step(op, paths[i], prior.files, vol);
            Run(op, paths[..i + 1], files, vol) == Batch(step.0, prior.outcomes + [step.1])
  {
    assert paths[..i + 1][..i] == paths[..i];
  }

  /** One more pass of the loop extends the batch by the step on the next path. */
  lemma RunNext(op: Operation, paths: seq<string>, i: nat, files: set<string>, vol: Volume, after: set<string>, o: Outcome)
    requires i < |paths|
    requires after == Step(op, paths[i], Run(op, paths[..i], files, vol).files, vol).0
    requires o == Step(op, paths[i], Run(op, paths[..i], files, vol).files, vol).1
    ensures Run(op, paths[..i + 1], files, vol) == Batch(after, Run(op, paths[..i], files, vol).outcomes + [o])
  {
    RunLast(op, paths, i, files, vol);
  }

  lemma TalliesLast(outcomes: seq<Outcome>, o: Outcome)
    ensures RenamedCount(outcomes + [o]) == RenamedCount(outcomes) + (if o.Renamed? then 1 else 0)
    ensures ErrorList(outcomes + [o]) == ErrorList(outcomes) + ErrorLines(o)
  {
    assert (outcomes + [o])[..|outcomes|] == outcomes;
  }

  /** Every outcome is either counted or reported, never both. */
  lemma {:induction false} OutcomesAccounted(outcomes: seq<Outcome>)
    ensures RenamedCount(outcomes) + |ErrorList(outcomes)| == |outcomes|
  {
    if outcomes != [] {
      OutcomesAccounted(outcomes[..|outcomes| - 1]);
    }
  }

  /** Every selected file yields exactly one outcome: `renamed_count + len(errors) == len(selected_files)`. */
  lemma OneOutcomePerFile(op: Operation, paths: seq<string>, files: set<string>, vol: Volume)
    ensures var b := Run(op, paths, files, vol);
            RenamedCount(b.outcomes) + |ErrorList(b.outcomes)| == |paths|
  {
    OutcomesAccounted(Run(op, paths, files, vol).outcomes);
  }

  /** A file that is not selected is never moved or overwritten, and no two files are merged. */
  lemma {:induction false} UnselectedKept(op: Operation, paths: seq<string>, files: set<string>, vol: Volume, q: string)
    requires q in files && q !in paths
    ensures q in Run(op, paths, files, vol).files
    decreases |paths|
  {
    if paths != [] {
      UnselectedKept(op, paths[..|paths| - 1], files, vol, q);
    }
  }

  /** A renamed file's target did not exist when it was renamed, differs from the source, and is the
      source's folder joined with the new stem and the unchanged extension. */
  lemma RenamedTarget(op: Operation, p: string, files: set<string>, vol: Volume)
    requires Step(op, p, files, vol).1.Renamed?
    ensures var (stem, ext) := SplitExt(Basename(p));
            var t := Step(op, p, files, vol).1.target;
            NewStem(op, stem).Some? && t == Join(Dirname(p), NewStem(op, stem).value + ext)
            && t !in files && t !in vol.others && t != p
  {
  }

  /** An added text is taken off again by the matching removal: removing the prefix `t` after adding
      it gives the stem back, and so does removing a non-empty suffix after adding it; after
      `add_both`, removing the prefix and then the non-empty suffix gives the stem back. */
  lemma AddThenRemove(stem: string, t: string, p: string, s: string)
    ensures NewStem(RemovePrefix(t), NewStem(AddPrefix(t), stem).value) == Some(stem)
    ensures t != [] ==> NewStem(RemoveSuffix(t), NewStem(AddSuffix(t), stem).value) == Some(stem)
    ensures s != [] ==>
              var inner := NewStem(RemovePrefix(p), NewStem(AddBoth(p, s), stem).value);
              inner.Some? && NewStem(RemoveSuffix(s), inner.value) == Some(stem)
  {
    PrefixAddedRemoved(stem, t);
    if t != [] {
      SuffixAddedRemoved(stem, t);
    }
    assert p + stem + s == p + (stem + s);
    PrefixAddedRemoved(stem + s, p);
    if s != [] {
      SuffixAddedRemoved(stem, s);
    }
  }

  lemma PrefixAddedRemoved(stem: string, t: string)
    ensures NewStem(RemovePrefix(t), t + stem) == Some(stem)
  {
    assert (t + stem)[..|t|] == t;
    assert (t + stem)[|t|..] == stem;
  }

  lemma SuffixAddedRemoved(stem: string, t: string)
    requires t != []
    ensures NewStem(RemoveSuffix(t), stem + t) == Some(stem)
  {
    assert (stem + t)[|stem + t| - |t|..] == t;
    assert (stem + t)[..|stem + t| - |t|] == stem;
  }

  /** `remove_prefix` applies exactly when the stem starts with the text, and then drops `len(text)` leading characters. */
  lemma RemovePrefixStem(stem: string, t: string)
    ensures NewStem(RemovePrefix(t), stem).Some? <==> StartsWith(stem, t)
    ensures NewStem(RemovePrefix(t), stem).Some? ==>
              |NewStem(RemovePrefix(t), stem).value| == |stem| - |t| && t + NewStem(RemovePrefix(t), stem).value == stem
  {
    if StartsWith(stem, t) {
      assert stem[..|t|] + stem[|t|..] == stem;
    }
  }

  /** `remove_suffix` with non-empty text applies exactly when the stem ends with it, and then drops `len(text)` trailing characters. */
  lemma RemoveSuffixStem(stem: string, t: string)
    requires t != []
    ensures NewStem(RemoveSuffix(t), stem).Some? <==> EndsWith(stem, t)
    ensures NewStem(RemoveSuffix(t), stem).Some? ==>
              |NewStem(RemoveSuffix(t), stem).value| == |stem| - |t| && NewStem(RemoveSuffix(t), stem).value + t == stem
  {
  }

  /** The new name keeps the old extension: when the old name has one and the new stem has a
      character other than a dot and no slash, splitting the new name gives back the new stem and the
      old extension. */
  lemma NewNameKeepsExtension(newStem: string, name: string)
    requires Ext(name) != []
    requires '/' !in newStem && HasNonDot(newStem)
    ensures SplitExt(newStem + Ext(name)) == (newStem, Ext(name))
  {
    SplitExtParts(name);
    KeepsExtension(newStem, Ext(name));
  }

  /** The confirmation shown before a batch. */
  function Confirmation(op: Operation, count: nat): Dialog {
    var name := DisplayName(op);
    var text := match op
      case AddBoth(p, s) => WithPrefix + p + AndSuffix + s + "' "
      case _ => " '" + op.text + "' ";
    Question(ConfirmTitle + name, AreYouSure + Lower(name) + text + ForText + NatToString(count) + FilesQuestion)
  }

  /** The warning that stops a batch before it is confirmed, if any: nothing ticked, an empty text for a
      single operation, or neither prefix nor suffix for `add_both`. */
  function Refusal(op: Operation, selected: seq<string>): (r: Option<Dialog>)
    ensures r.None? <==> selected != [] && (if op.AddBoth? then op.prefix != [] || op.suffix != [] else op.text != [])
  {
    if selected == [] then Some(Warning("No Selection", "Please select files to rename."))
    else match op
      case AddBoth(p, s) =>
        if p == [] && s == [] then Some(Warning("No Changes", "Please enter text for either prefix or suffix to add.")) else None
      case _ =>
        if op.text == [] then Some(Warning("No Text Provided", "Please enter text for the " + OpWords(op) + " operation.")) else None
  }

  /** The dialogs closing a batch: a success note when something was renamed, then the error list when there is one. */
  function Report(op: Operation, renamed: nat, errors: seq<string>): seq<Dialog> {
    var name := DisplayName(op);
    (if renamed > 0 then [Information(name + CompleteTitle, Successfully + Lower(name) + "d " + NatToString(renamed) + FilesDone)] else [])
    + (if errors != [] then [Warning(name + ErrorsTitle, Encountered + NatToString(|errors|) + FilesColon + JoinWith(errors, "\n"))] else [])
  }

  /** The table rows importing `folder` gives: one unticked row per listed name that is a regular file, in listing order. */
  function FolderRows(folder: string, names: seq<string>, files: set<string>): (rows: seq<Row>)
    ensures |rows| <= |names|
    ensures forall i :: 0 <= i < |rows| ==> !rows[i].checked && rows[i].path in files
  {
    if names == [] then [] else FolderRows(folder, names[..|names| - 1], files) + NameRows(folder, names[|names| - 1], files)
  }

  /** The row one listed name gives: its path, unticked, when that path is a regular file. */
  function NameRows(folder: string, name: string, files: set<string>): seq<Row> {
    var full := Join(folder, name);
    if full in files then [Row(full, false)] else []
  }

  /** Every row is a listed name joined to the folder: `j` is that name. */
  lemma {:induction false} FolderRowsSound(folder: string, names: seq<string>, files: set<string>, i: nat)
    returns (j: nat)
    requires i < |FolderRows(folder, names, files)|
    ensures j < |names| && Join(folder, names[j]) == FolderRows(folder, names, files)[i].path
  {
    var init := names[..|names| - 1];
    FolderRowsSplit(folder, names, files, i);
    if i < |FolderRows(folder, init, files)| {
      j := FolderRowsSound(folder, init, files, i);
      assert names[j] == init[j];
    } else {
      j := |names| - 1;
    }
  }

  /** Row `i` of a listing is row `i` of the listing without its last name, or else the last name's row. */
  lemma FolderRowsSplit(folder: string, names: seq<string>, files: set<string>, i: nat)
    requires i < |FolderRows(folder, names, files)|
    ensures var prior := FolderRows(folder, names[..|names| - 1], files);
            && (i < |prior| ==> FolderRows(folder, names, files)[i] == prior[i])
            && (i >= |prior| ==> FolderRows(folder, names, files)[i].path == Join(folder, names[|names| - 1]))
  {
    var prior := FolderRows(folder, names[..|names| - 1], files);
    assert FolderRows(folder, names, files) == prior + NameRows(folder, names[|names| - 1], files);
  }

  lemma FolderRowsLast(folder: string, names: seq<string>, files: set<string>, j: nat)
    requires j < |names|
    ensures FolderRows(folder, names[..j + 1], files) == FolderRows(folder, names[..j], files) + NameRows(folder, names[j], files)
  {
    assert names[..j + 1][..j] == names[..j];
  }

  /** Later names only add rows after those of earlier ones. */
  lemma {:induction false} FolderRowsPrefix(folder: string, names: seq<string>, files: set<string>, n: nat)
    requires n <= |names|
    ensures FolderRows(folder, names[..n], files) <= FolderRows(folder, names, files)
  {
    if n < |names| {
      var init := names[..|names| - 1];
      assert init[..n] == names[..n];
      FolderRowsPrefix(folder, init, files, n);
    } else {
      assert names[..n] == names;
    }
  }

  /** Every listed name whose path is a regular file has its row: `i` is that row. */
  lemma FolderRowsComplete(folder: string, names: seq<string>, files: set<string>, j: nat)
    returns (i: nat)
    requires j < |names| && Join(folder, names[j]) in files
    ensures i < |FolderRows(folder, names, files)| && FolderRows(folder, names, files)[i].path == Join(folder, names[j])
  {
    FolderRowsLast(folder, names, files, j);
    FolderRowsPrefix(folder, names, files, j + 1);
    i := |FolderRows(folder, names[..j], files)|;
  }

  /** A path is listed exactly when it is a listed name joined to the folder and is a regular file. */
  lemma FolderRowsListed(folder: string, names: seq<string>, files: set<string>, x: string)
    ensures (exists i :: 0 <= i < |FolderRows(folder, names, files)| && FolderRows(folder, names, files)[i].path == x)
            <==> x in files && exists j :: 0 <= j < |names| && Join(folder, names[j]) == x
  {
    var rows := FolderRows(folder, names, files);
    if exists i :: 0 <= i < |rows| && rows[i].path == x {
      var i :| 0 <= i < |rows| && rows[i].path == x;
      var j := FolderRowsSound(folder, names, files, i);
    }
    if x in files && exists j :: 0 <= j < |names| && Join(folder, names[j]) == x {
      var j :| 0 <= j < |names| && Join(folder, names[j]) == x;
      var i := FolderRowsComplete(folder, names, files, j);
    }
  }

  class Renamer {
    /** The regular files on disk, which `os.rename` changes. */
    var files: set<string>
    /** The rest of the file system. */
    const volume: Volume
    /** The table's rows. */
    var rows: seq<Row>
    /** `current_folder`, with `""` for "none yet". */
    var currentFolder: string
    var folderLabel: string
    /** The prefix and suffix input fields. */
    var prefixText: string
    var suffixText: string

    constructor (files: set<string>, volume: Volume)
      ensures this.files == files && this.volume == volume
      ensures rows == [] && currentFolder == "" && folderLabel == "" && prefixText == "" && suffixText == ""
    {
      this.files := files;
      this.volume := volume;
      rows := [];
      currentFolder := "";
      folderLabel := "";
      prefixText := "";
      suffixText := "";
    }

    /** `import_folder(folder)`; `names` is what `os.listdir(folder)` returns. An empty choice changes nothing. */
    method ImportFolder(folder: string, names: seq<string>)
      modifies this`rows, this`currentFolder, this`folderLabel
      ensures folder == "" ==> rows == old(rows) && currentFolder == old(currentFolder) && folderLabel == old(folderLabel)
      ensures folder != "" ==>
                rows == FolderRows(folder, names, files) && currentFolder == folder && folderLabel == "Imported: " + folder
    {
      if folder == "" {
        return;
      }
      currentFolder := folder;
      folderLabel := "Imported: " + folder;
      rows := [];
      var i := 0;
      while i < |names|
        invariant 0 <= i <= |names|
        invariant rows == FolderRows(folder, names[..i], files)
        invariant currentFolder == folder && folderLabel == "Imported: " + folder
      {
        FolderRowsLast(folder, names, files, i);
        var full := Join(folder, names[i]);
        if full in files {
          rows := rows + [Row(full, false)];
        }
        i := i + 1;
      }
      assert names[..|names|] == names;
    }

    /** `refresh_folder`: re-import the current folder, or say there is none. */
    method RefreshFolder(names: seq<string>) returns (dialogs: seq<Dialog>)
      modifies this`rows, this`currentFolder, this`folderLabel
      ensures currentFolder == old(currentFolder)
      ensures old(currentFolder) == "" ==>
                dialogs == [Information("No Folder", "Please import a folder first.")]
                && rows == old(rows) && folderLabel == old(folderLabel)
      ensures old(currentFolder) != "" ==>
                dialogs == [] && rows == FolderRows(old(currentFolder), names, files)
                && folderLabel == "Imported: " + old(currentFolder)
    {
      if currentFolder != "" {
        ImportFolder(currentFolder, names);
        dialogs := [];
      } else {
        dialogs := [Information("No Folder", "Please import a folder first.")];
      }
    }

    /** Tick or untick one row's check box. */
    method SetChecked(row: nat, checked: bool)
      requires row < |rows|
      modifies this`rows
      ensures rows == old(rows)[row := Row(old(rows)[row].path, checked)]
    {
      rows := rows[row := Row(rows[row].path, checked)];
    }

    /** `select_all_files` (`checked`) and `unselect_all_files` (not `checked`). */
    method SetAll(checked: bool)
      modifies this`rows
      ensures |rows| == |old(rows)|
      ensures forall i :: 0 <= i < |rows| ==> rows[i] == Row(old(rows)[i].path, checked)
    {
      var i := 0;
      while i < |rows|
        invariant 0 <= i <= |rows| == |old(rows)|
        invariant forall k :: 0 <= k < i ==> rows[k] == Row(old(rows)[k].path, checked)
        invariant forall k :: i <= k < |rows| ==> rows[k] == old(rows)[k]
      {
        rows := rows[i := Row(rows[i].path, checked)];
        i := i + 1;
      }
    }

    /** Type into the prefix and suffix fields. */
    method SetInputs(prefix: string, suffix: string)
      modifies this`prefixText, this`suffixText
      ensures prefixText == prefix && suffixText == suffix
    {
      prefixText := prefix;
      suffixText := suffix;
    }

    /** `_get_selected_files`: the ticked rows' paths, in table order. */
    method SelectedFiles() returns (selected: seq<string>)
      ensures selected == CheckedPaths(rows)
    {
      selected := [];
      var i := 0;
      while i < |rows|
        invariant 0 <= i <= |rows|
        invariant selected == CheckedPaths(rows[..i])
      {
        CheckedPathsAppend(rows[..i], [rows[i]]);
        assert rows[..i + 1] == rows[..i] + [rows[i]];
        if rows[i].checked {
          selected := selected + [rows[i].path];
        }
        i := i + 1;
      }
      assert rows[..|rows|] == rows;
    }

    /** One pass of the rename loop on `p`: work out the new name, refuse an unchanged or taken
        name, then ask the file system to rename. */
    method RenameOne(op: Operation, p: string) returns (outcome: Outcome)
      modifies this`files
      ensures files == Step(op, p, old(files), volume).0
      ensures outcome == Step(op, p, old(files), volume).1
    {
      var (stem, ext) := SplitExt(Basename(p));
      var newStem := NewStem(op, stem);
      if newStem.None? {
        return Skipped(p, if op.RemovePrefix? then NoPrefix(op.text) else NoSuffix(op.text));
      }
      var newBase := newStem.value + ext;
      var target := Join(Dirname(p), newBase);
      if p == target {
        return Skipped(p, Identical);
      }
      if target in files || target in volume.others {
        return Skipped(p, Taken(newBase));
      }
      if p !in files {
        return Skipped(p, OsError(volume.notFound(p, target)));
      }
      var refused := volume.refusal(p, target);
      if refused.Some? {
        return Skipped(p, OsError(refused.value));
      }
      files := files - {p} + {target};
      outcome := Renamed(p, target);
    }

    /** The loop's bookkeeping for one outcome: a renamed file is counted, any other adds its message. */
    static method Tally(o: Outcome, ghost outcomes: seq<Outcome>, renamed: nat, errors: seq<string>)
      returns (renamed': nat, errors': seq<string>)
      requires renamed == RenamedCount(outcomes) && errors == ErrorList(outcomes)
      ensures renamed' == RenamedCount(outcomes + [o]) && errors' == ErrorList(outcomes + [o])
    {
      TalliesLast(outcomes, o);
      if o.Skipped? {
        renamed', errors' := renamed, errors + [Message(o.source, o.reason)];
      } else {
        renamed', errors' := renamed + 1, errors;
      }
    }

    /** The rename loop followed by the dialogs reporting its tallies. */
    method RenameAndReport(op: Operation, selected: seq<string>) returns (report: seq<Dialog>)
      modifies this`files
      ensures var b := Run(op, selected, old(files), volume);
              files == b.files && report == Report(op, RenamedCount(b.outcomes), ErrorList(b.outcomes))
    {
      var renamed, errors := RenameAll(op, selected);
      report := Report(op, renamed, errors);
    }

    /** `prefix_input.clear()` and `suffix_input.clear()`. */
    method ClearInputs()
      modifies this`prefixText, this`suffixText
      ensures prefixText == "" && suffixText == ""
    {
      prefixText := "";
      suffixText := "";
    }

    /** The loop of `_execute_rename_operation` over the selected files. */
    method RenameAll(op: Operation, selected: seq<string>) returns (renamed: nat, errors: seq<string>)
      modifies this`files
      ensures files == Run(op, selected, old(files), volume).files
      ensures renamed == RenamedCount(Run(op, selected, old(files), volume).outcomes)
      ensures errors == ErrorList(Run(op, selected, old(files), volume).outcomes)
    {
      ghost var files0 := files;
      ghost var outcomes: seq<Outcome> := [];
      renamed := 0;
      errors := [];
      var i := 0;
      while i < |selected|
        invariant 0 <= i <= |selected|
        invariant Run(op, selected[..i], files0, volume) == Batch(files, outcomes)
        invariant renamed == RenamedCount(outcomes)
        invariant errors == ErrorList(outcomes)
      {
        var outcome := RenameNext(op, selected, i, files0, outcomes);
        renamed, errors := Tally(outcome, outcomes, renamed, errors);
        outcomes := outcomes + [outcome];
        i := i + 1;
      }
      assert selected[..|selected|] == selected;
    }

    /** One pass of the loop: after the first `i` paths, renaming path `i` extends the batch by its step. */
    method RenameNext(op: Operation, selected: seq<string>, i: nat, ghost files0: set<string>, ghost outcomes: seq<Outcome>)
      returns (outcome: Outcome)
      requires i < |selected|
      requires Run(op, selected[..i], files0, volume) == Batch(files, outcomes)
      modifies this`files
      ensures Run(op, selected[..i + 1], files0, volume) == Batch(files, outcomes + [outcome])
    {
      outcome := RenameOne(op, selected[i]);
      RunNext(op, selected, i, files0, volume, files, outcome);
    }

    /** The state `_execute_rename_operation(op, ...)` leaves and the dialogs it shows, where
        `confirmed` is the answer to the confirmation and `names` the folder listing the closing
        refresh sees. A refused or declined batch changes nothing; a confirmed one renames as `Run`
        says, re-lists the current folder (or says there is none), reports, and clears both inputs.
        The current folder never changes. */
    twostate predicate Executed(op: Operation, confirmed: bool, names: seq<string>, dialogs: seq<Dialog>)
      reads this
    {
      var selected := CheckedPaths(old(rows));
      var b := Run(op, selected, old(files), volume);
      && currentFolder == old(currentFolder)
      && (Refusal(op, selected).Some? ==>
            dialogs == [Refusal(op, selected).value] && files == old(files) && rows == old(rows)
            && folderLabel == old(folderLabel) && prefixText == old(prefixText) && suffixText == old(suffixText))
      && (Refusal(op, selected).None? && !confirmed ==>
            dialogs == [Confirmation(op, |selected|)] && files == old(files) && rows == old(rows)
            && folderLabel == old(folderLabel) && prefixText == old(prefixText) && suffixText == old(suffixText))
      && (Refusal(op, selected).None? && confirmed ==>
            files == b.files && prefixText == "" && suffixText == ""
            && (old(currentFolder) != "" ==>
                  rows == FolderRows(old(currentFolder), names, files) && folderLabel == "Imported: " + old(currentFolder))
            && (old(currentFolder) == "" ==> rows == old(rows) && folderLabel == old(folderLabel))
            && dialogs == [Confirmation(op, |selected|)]
                          + (if old(currentFolder) == "" then [Information("No Folder", "Please import a folder first.")] else [])
                          + Report(op, RenamedCount(b.outcomes), ErrorList(b.outcomes)))
    }

    /** `_execute_rename_operation(op, ...)`. */
    method ExecuteRename(op: Operation, confirmed: bool, names: seq<string>) returns (dialogs: seq<Dialog>)
      modifies this
      ensures Executed(op, confirmed, names, dialogs)
    {
      var selected := SelectedFiles();
      var refusal := Refusal(op, selected);
      if refusal.Some? {
        dialogs := [refusal.value];
      } else if !confirmed {
        dialogs := [Confirmation(op, |selected|)];
      } else {
        dialogs := Proceed(op, selected, names);
      }
    }

    /** A confirmed batch: rename, refresh the table, report, and clear both inputs. */
    method Proceed(op: Operation, selected: seq<string>, names: seq<string>) returns (dialogs: seq<Dialog>)
      modifies this
      ensures files == Run(op, selected, old(files), volume).files
      ensures prefixText == "" && suffixText == "" && currentFolder == old(currentFolder)
      ensures old(currentFolder) != "" ==>
                rows == FolderRows(old(currentFolder), names, files) && folderLabel == "Imported: " + old(currentFolder)
      ensures old(currentFolder) == "" ==> rows == old(rows) && folderLabel == old(folderLabel)
      ensures var b := Run(op, selected, old(files), volume);
              dialogs == [Confirmation(op, |selected|)]
                            + (if old(currentFolder) == "" then [Information("No Folder", "Please import a folder first.")] else [])
                            + Report(op, RenamedCount(b.outcomes), ErrorList(b.outcomes))
    {
      var report := RenameAndReport(op, selected);
      var refreshed := RefreshAndClear(names);
      dialogs := [Confirmation(op, |selected|)] + refreshed + report;
    }

    /** The end of a confirmed batch: `refresh_folder`, then both inputs cleared. */
    method RefreshAndClear(names: seq<string>) returns (dialogs: seq<Dialog>)
      modifies this
      ensures files == old(files) && prefixText == "" && suffixText == "" && currentFolder == old(currentFolder)
      ensures old(currentFolder) != "" ==>
                dialogs == [] && rows == FolderRows(old(currentFolder), names, files) && folderLabel == "Imported: " + old(currentFolder)
      ensures old(currentFolder) == "" ==>
                dialogs == [Information("No Folder", "Please import a folder first.")] && rows == old(rows) && folderLabel == old(folderLabel)
    {
      dialogs := RefreshFolder(names);
      ClearInputs();
    }

    /** `perform_add_rename`: both fields filled give `add_both`, otherwise the one filled; neither is refused. */
    method PerformAddRename(confirmed: bool, names: seq<string>) returns (op: Option<Operation>, dialogs: seq<Dialog>)
      modifies this
      ensures old(prefixText) == "" && old(suffixText) == "" ==>
                op == None && dialogs == [Warning("No Changes", "Please enter text for either prefix or suffix to add.")]
                && unchanged(this)
      ensures old(prefixText) != "" && old(suffixText) != "" ==> op == Some(AddBoth(old(prefixText), old(suffixText)))
      ensures old(prefixText) != "" && old(suffixText) == "" ==> op == Some(AddPrefix(old(prefixText)))
      ensures old(prefixText) == "" && old(suffixText) != "" ==> op == Some(AddSuffix(old(suffixText)))
      ensures op.Some? ==> Executed(op.value, confirmed, names, dialogs)
    {
      if prefixText == "" && suffixText == "" {
        return None, [Warning("No Changes", "Please enter text for either prefix or suffix to add.")];
      }
      if prefixText != "" && suffixText != "" {
        op := Some(AddBoth(prefixText, suffixText));
      } else if prefixText != "" {
        op := Some(AddPrefix(prefixText));
      } else {
        op := Some(AddSuffix(suffixText));
      }
      dialogs := ExecuteRename(op.value, confirmed, names);
    }

    /** `remove_prefix_from_files`: removes the prefix field's text. */
    method RemovePrefixFromFiles(confirmed: bool, names: seq<string>) returns (dialogs: seq<Dialog>)
      modifies this
      ensures Executed(RemovePrefix(old(prefixText)), confirmed, names, dialogs)
    {
      dialogs := ExecuteRename(RemovePrefix(prefixText), confirmed, names);
    }

    /** `remove_suffix_from_files`: removes the suffix field's text. */
    method RemoveSuffixFromFiles(confirmed: bool, names: seq<string>) returns (dialogs: seq<Dialog>)
      modifies this
      ensures Executed(RemoveSuffix(old(suffixText)), confirmed, names, dialogs)
    {
      dialogs := ExecuteRename(RemoveSuffix(suffixText), confirmed, names);
    }
  }
}
