/** What the program sees of the outside world: dialogs it shows, processes it runs, folder listings and table rows. */
module Io {
  /** A `QMessageBox` the program shows; a `Question` is the Yes/No confirmation, whose answer is an input. */
  datatype Dialog =
    | Information(title: string, text: string)
    | Warning(title: string, text: string)
    | Critical(title: string, text: string)
    | Question(title: string, text: string)

  /** Outcome of `subprocess.run(argv, check=True)`: a zero exit, or a `CalledProcessError` with the
      decoded standard error and the exception's own `str()`. */
  datatype ToolRun = Succeeded | Failed(stderr: string, summary: string)

  /** One name from `os.listdir(folder)`, with what `os.path.isfile` / `os.path.isdir` say of it. */
  datatype Entry = Entry(name: string, isFile: bool, isDir: bool)

  /** A table row: the file behind its check box and whether the box is ticked. */
  datatype Row = Row(path: string, checked: bool)

  /** An effect on the system: a process run with an argument vector, a shell command line, or a text file written. */
  datatype Effect = Exec(argv: seq<string>) | Shell(command: string) | WroteFile(path: string, content: string)

  /** The paths of the ticked rows, in table order. */
  function CheckedPaths(rows: seq<Row>): seq<string> {
    if rows == [] then [] else (if rows[0].checked then [rows[0].path] else []) + CheckedPaths(rows[1..])
  }

  function CountChecked(rows: seq<Row>): nat {
    if rows == [] then 0 else (if rows[0].checked then 1 else 0) + CountChecked(rows[1..])
  }

  lemma {:induction false} CheckedPathsAppend(a: seq<Row>, b: seq<Row>)
    ensures CheckedPaths(a + b) == CheckedPaths(a) + CheckedPaths(b)
    ensures CountChecked(a + b) == CountChecked(a) + CountChecked(b)
  {
    if a == [] {
      assert a + b == b;
    } else {
      assert (a + b)[1..] == a[1..] + b;
      CheckedPathsAppend(a[1..], b);
    }
  }

  /** Exactly the ticked rows' paths are selected, one per ticked row. */
  lemma {:induction false} CheckedPathsSpec(rows: seq<Row>)
    ensures |CheckedPaths(rows)| == CountChecked(rows) <= |rows|
    ensures forall x :: x in CheckedPaths(rows) <==> exists i :: 0 <= i < |rows| && rows[i].checked && rows[i].path == x
  {
    if rows != [] {
      CheckedPathsSpec(rows[1..]);
      forall x ensures x in CheckedPaths(rows) <==> exists i :: 0 <= i < |rows| && rows[i].checked && rows[i].path == x {
        if x in CheckedPaths(rows[1..]) {
          var i :| 0 <= i < |rows[1..]| && rows[1..][i].checked && rows[1..][i].path == x;
          assert rows[i + 1].checked && rows[i + 1].path == x;
        }
        if exists i :: 0 <= i < |rows| && rows[i].checked && rows[i].path == x {
          var i :| 0 <= i < |rows| && rows[i].checked && rows[i].path == x;
          if i > 0 {
            assert rows[1..][i - 1] == rows[i];
          }
        }
      }
    }
  }
}
