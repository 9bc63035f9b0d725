/** The folder imports of the metadata browser and the video editor: one unticked row per listed
    entry that is a regular file with a supported extension, in listing order. */
module Listing {
  import opened Strings
  import opened Paths
  import opened Io

  /** The entry is a regular file and its lower-cased extension is one of `exts`. */
  predicate Supported(e: Entry, exts: seq<string>) {
    e.isFile && Lower(Ext(e.name)) in exts
  }

  /** The rows one entry adds: its path joined to the folder, unticked, when it is supported. */
  function EntryRows(folder: string, e: Entry, exts: seq<string>): seq<Row> {
    if Supported(e, exts) then [Row(Join(folder, e.name), false)] else []
  }

  /** The table after importing `folder`: each supported entry's path joined to the folder, unticked. */
  function ListedRows(folder: string, entries: seq<Entry>, exts: seq<string>): (rows: seq<Row>)
    ensures |rows| <= |entries|
    ensures forall i :: 0 <= i < |rows| ==> !rows[i].checked
  {
    if entries == [] then []
    else ListedRows(folder, entries[..|entries| - 1], exts) + EntryRows(folder, entries[|entries| - 1], exts)
  }

  lemma ListedRowsLast(folder: string, entries: seq<Entry>, exts: seq<string>, i: nat)
    requires i < |entries|
    ensures ListedRows(folder, entries[..i + 1], exts) == ListedRows(folder, entries[..i], exts) + EntryRows(folder, entries[i], exts)
  {
    assert entries[..i + 1][..i] == entries[..i];
  }

  /** Every row comes from a supported entry joined to the folder: `j` is that entry. */
  lemma {:induction false} ListedRowsSound(folder: string, entries: seq<Entry>, exts: seq<string>, i: nat)
    returns (j: nat)
    requires i < |ListedRows(folder, entries, exts)|
    ensures j < |entries| && Supported(entries[j], exts)
    ensures Join(folder, entries[j].name) == ListedRows(folder, entries, exts)[i].path
  {
    var init := entries[..|entries| - 1];
    var prior := ListedRows(folder, init, exts);
    assert ListedRows(folder, entries, exts) == prior + EntryRows(folder, entries[|entries| - 1], exts);
    if i < |prior| {
      assert ListedRows(folder, entries, exts)[i] == prior[i];
      j := ListedRowsSound(folder, init, exts, i);
      assert entries[j] == init[j];
    } else {
      j := |entries| - 1;
    }
  }

  /** Later entries only add rows after those of earlier ones. */
  lemma {:induction false} ListedRowsPrefix(folder: string, entries: seq<Entry>, exts: seq<string>, n: nat)
    requires n <= |entries|
    ensures ListedRows(folder, entries[..n], exts) <= ListedRows(folder, entries, exts)
  {
    if n < |entries| {
      var init := entries[..|entries| - 1];
      assert init[..n] == entries[..n];
      ListedRowsPrefix(folder, init, exts, n);
      assert ListedRows(folder, entries, exts) == ListedRows(folder, init, exts) + EntryRows(folder, entries[|entries| - 1], exts);
    } else {
      assert entries[..n] == entries;
    }
  }

  /** Every supported entry has its row: `i` is that row. */
  lemma ListedRowsComplete(folder: string, entries: seq<Entry>, exts: seq<string>, j: nat)
    returns (i: nat)
    requires j < |entries| && Supported(entries[j], exts)
    ensures i < |ListedRows(folder, entries, exts)|
    ensures ListedRows(folder, entries, exts)[i].path == Join(folder, entries[j].name)
  {
    ListedRowsLast(folder, entries, exts, j);
    ListedRowsPrefix(folder, entries, exts, j + 1);
    i := |ListedRows(folder, entries[..j], exts)|;
  }

  /** A path is in the table exactly when some supported entry joined to the folder gives it. */
  lemma ListedRowsSpec(folder: string, entries: seq<Entry>, exts: seq<string>, x: string)
    ensures (exists i :: 0 <= i < |ListedRows(folder, entries, exts)| && ListedRows(folder, entries, exts)[i].path == x)
            <==> exists j :: 0 <= j < |entries| && Supported(entries[j], exts) && Join(folder, entries[j].name) == x
  {
    var rows := ListedRows(folder, entries, exts);
    if exists i :: 0 <= i < |rows| && rows[i].path == x {
      var i :| 0 <= i < |rows| && rows[i].path == x;
      var j := ListedRowsSound(folder, entries, exts, i);
    }
    if exists j :: 0 <= j < |entries| && Supported(entries[j], exts) && Join(folder, entries[j].name) == x {
      var j :| 0 <= j < |entries| && Supported(entries[j], exts) && Join(folder, entries[j].name) == x;
      var i := ListedRowsComplete(folder, entries, exts, j);
    }
  }

  /** The loop of `import_folder`: walk the listing and add each entry's rows. */
  method ListRows(folder: string, entries: seq<Entry>, exts: seq<string>) returns (rows: seq<Row>)
    ensures rows == ListedRows(folder, entries, exts)
  {
    rows := [];
    var i := 0;
    while i < |entries|
      invariant 0 <= i <= |entries|
      invariant rows == ListedRows(folder, entries[..i], exts)
    {
      ListedRowsLast(folder, entries, exts, i);
      rows := AddEntry(folder, entries[i], exts, rows);
      i := i + 1;
    }
    assert entries[..|entries|] == entries;
  }

  /** One pass of that loop: skip what is not a regular file with a supported extension, add an
      unticked row for the rest. */
  method AddEntry(folder: string, entry: Entry, exts: seq<string>, rows: seq<Row>) returns (rows': seq<Row>)
    ensures rows' == rows + EntryRows(folder, entry, exts)
  {
    if entry.isFile && Lower(Ext(entry.name)) in exts {
      rows' := rows + [Row(Join(folder, entry.name), false)];
    } else {
      rows' := rows;
    }
  }
}
