/** The desktop application's file helpers (app/core/file_handler.py): suffix tests for supported images
    and videos, and the list of the files of a folder. */
module FileHandler {
  import opened Strings
  import opened Paths
  import opened Seqs
  import opened Io

  function ImageSuffixes(): seq<string> { [".jpg", ".jpeg", ".png"] }
  function VideoSuffixes(): seq<string> { [".mp4", ".avi", ".mov"] }

  /** `is_supported_image`: the lower-cased path ends with ".jpg", ".jpeg" or ".png". */
  predicate IsSupportedImage(p: string) {
    EndsWithAny(Lower(p), ImageSuffixes())
  }

  /** `is_supported_video`: the lower-cased path ends with ".mp4", ".avi" or ".mov". */
  predicate IsSupportedVideo(p: string) {
    EndsWithAny(Lower(p), VideoSuffixes())
  }

  /** No path is both a supported image and a supported video. */
  lemma ImageNotVideo(p: string)
    ensures !(IsSupportedImage(p) && IsSupportedVideo(p))
  {
    EndsWithAnyCharAt(Lower(p), ImageSuffixes(), 1, {'g'});
    EndsWithAnyCharAt(Lower(p), VideoSuffixes(), 1, {'4', 'i', 'v'});
  }

  /** The tests ignore the case of the path: upper-casing it changes neither answer. */
  lemma CaseInsensitive(p: string)
    ensures IsSupportedImage(Upper(p)) == IsSupportedImage(p)
    ensures IsSupportedVideo(Upper(p)) == IsSupportedVideo(p)
  {
    LowerOfUpper(p);
  }

  predicate IsFileEntry(e: Entry) { e.isFile }

  function EntryPath(directory: string): Entry -> string {
    (e: Entry) => Join(directory, e.name)
  }

  /** `list_files(directory)`: the joined path of every listed entry that is a regular file, in listing order. */
  function ListFiles(directory: string, entries: seq<Entry>): (r: seq<string>)
    ensures |r| <= |entries|
  {
    Mapped(EntryPath(directory), Filter(IsFileEntry, entries))
  }

  /** A path is listed exactly when it joins the directory to the name of an entry that is a file. */
  lemma ListFilesIn(directory: string, entries: seq<Entry>, x: string)
    ensures x in ListFiles(directory, entries) <==>
              exists i :: 0 <= i < |entries| && entries[i].isFile && x == Join(directory, entries[i].name)
  {
    var fs := Filter(IsFileEntry, entries);
    if x in ListFiles(directory, entries) {
      var j :| 0 <= j < |fs| && x == EntryPath(directory)(fs[j]);
      FilterIn(IsFileEntry, entries, fs[j]);
      var i :| 0 <= i < |entries| && entries[i] == fs[j];
    }
    if exists i :: 0 <= i < |entries| && entries[i].isFile && x == Join(directory, entries[i].name) {
      var i :| 0 <= i < |entries| && entries[i].isFile && x == Join(directory, entries[i].name);
      FilterIn(IsFileEntry, entries, entries[i]);
      var j :| 0 <= j < |fs| && fs[j] == entries[i];
      assert ListFiles(directory, entries)[j] == x;
    }
  }
}
