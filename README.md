# Offline Metadata Editor: a verified model of its rules

The Offline Metadata Editor is a PySide6 desktop program with many windows. They browse media folders and hand the real work to ExifTool, ffmpeg, ffprobe, Pillow and pyheif. The program has no deep algorithm. What it does have is a set of small rules about names, paths, argument vectors and tables. This project models those rules in Dafny and proves what the program promises about them.

What is modelled:

- **The batch renamer** (`BatchRenamer`). It adds or removes a prefix or suffix on the stem of each ticked file and keeps the extension. It refuses a name that is unchanged or already taken, and gives one outcome per file. The folder is a set of paths that the rename loop changes.
- **The two metadata editors**:
  - `Exif` holds what both editors share: how a field is classified, the ExifTool argument vectors for save, copy, import and delete, the `k: v` sidecar text file, and its line parser.
  - `MetadataViewer` and `MetadataBrowser` model the windows themselves.
  - `Listing` models the folder tables.
- **The video tools**:
  - `Blur` (temp.py) covers the rectangle selection with its undo and the ffmpeg filter graph.
  - `VideoEditor` covers trim, duration updates, mute and the folder table.
- **Conversion**:
  - `Conversion` models ui/conversion.py.
  - `ConversionService` models services/conversion_service.py.
  - `ConversionBrowser` models ui/conversion_browser.py, which defines its own converters.
- **Classification and record shaping**: `FileHandler` covers the extension predicates and `list_files`. `Reader` covers the backend `get_metadata`. `MetadataImage` covers the Pillow EXIF reader and writer.

Python built-ins are written out in their own modules:

- `Strings`: `str.lower`/`upper` on ASCII letters, `strip` on Python's white space, `replace`, `split`, `join`, and integer formatting.
- `Paths`: POSIX `os.path.splitext`, `basename`, `dirname` and `join`.
- `Seqs` and `Dicts`: sequences, and insertion-ordered dictionaries whose assignment overwrites in place.

A program that changes state in place becomes a class whose methods are proved against specification functions, for example:

- the rename loop against `Run`;
- the argument-vector loops against `SaveArgv` and `ImportArgv`;
- the batch conversion loops against `Collect`, a filter-then-map.

The outside world enters as values:

- a `Host` or `Volume` datatype of functions gives what a tool run, a file open or a listing returns;
- the dialog a window shows is a returned `Dialog`;
- processes run and files written are returned `Effect`s.

Notes on reading the model:

- temp.py's `VideoEditorBrowser` repeats `import_folder`, `refresh_folder`, `mute_selected_videos`, `trim_video` and `update_duration` of ui/video_editor_browser.py. The `VideoEditor` members model both copies.
- The two loops of `perform_blur` are modelled as collecting the segments first. `Blur.StripLastSeparator` proves that the source's `+=` followed by `rstrip(';')` gives the same text.
- The supported-format lists of ui/conversion_browser.py equal those of ui/conversion.py. `ConversionBrowser` uses `Conversion.ImageFormats` and `Conversion.VideoFormats`.
- `Exif.ReadCommand` reads an in-place exiftool command line by ExifTool's documented option syntax: `-all=` clears every tag, `-tagsFromFile` takes the source file as its next argument, and `-TAG=VALUE` writes a value to a tag; the file named last is the one changed. ExifTool's own option parser is not part of this model, so this is the syntax as documented and not its implementation.
- The code behaves as follows where one might expect otherwise, and the model follows it:
  - a save with no writable field still runs ExifTool, with no separate "nothing to do" outcome;
  - a failed sidecar backup stops the copy in both editors;
  - the reserved keys are the ones each loop lists;
  - a field is a date field because its key contains "Date" and its value is a string, whether or not the value parses;
  - there are no separate "empty" and "tool not found" outcomes.

## Model

| member | source | states |
|---|---|---|
| BatchRenamer.DropLast | ui/batch_renamer_browser.py:287-288 | `old_name[:-len(text)]` for a non-empty text keeps all but the last `len(text)` characters |
| BatchRenamer.NewStem | ui/batch_renamer_browser.py:274-295 | only the two removals can fail to give a new stem |
| BatchRenamer.AddThenRemove | ui/batch_renamer_browser.py:276-295 | removing the text just added gives the original stem back: the prefix, a non-empty suffix, or the prefix then the suffix after add-both |
| BatchRenamer.RemovePrefixStem | ui/batch_renamer_browser.py:280-285 | remove-prefix applies iff the stem starts with the text, and then drops exactly `len(text)` leading characters |
| BatchRenamer.RemoveSuffixStem | ui/batch_renamer_browser.py:286-291 | remove-suffix with a non-empty text applies iff the stem ends with it, and then drops exactly `len(text)` trailing characters |
| BatchRenamer.NewNameKeepsExtension | ui/batch_renamer_browser.py:272-298 | the new name splits back into the new stem and the old extension |
| BatchRenamer.Step | ui/batch_renamer_browser.py:269-314 | one loop pass: a rename moves the file to a target that was neither taken nor the source; a skip changes no file |
| BatchRenamer.Attempt | ui/batch_renamer_browser.py:299-312 | a rename happens iff the target differs from the source, is neither a listed file nor another file on disk, the source exists and the system does not refuse; the identical-name check comes before the existence check; a skip changes no file |
| BatchRenamer.StepKeepsCount | ui/batch_renamer_browser.py:302-310 | a rename never merges two files: the number of files is kept |
| BatchRenamer.Run | ui/batch_renamer_browser.py:269-314 | one outcome per selected path, in order, and the file count is kept |
| BatchRenamer.OutcomesAccounted | ui/batch_renamer_browser.py:266-314 | each outcome is counted as renamed or listed as an error, never both |
| BatchRenamer.OneOutcomePerFile | ui/batch_renamer_browser.py:266-314 | `renamed_count + len(errors) == len(selected_files)` |
| BatchRenamer.UnselectedKept | ui/batch_renamer_browser.py:269-310 | a file that is not selected is still there after the batch |
| BatchRenamer.RenamedTarget | ui/batch_renamer_browser.py:298-309 | a renamed file went to its folder joined with the new stem and old extension, and that path was free and different from the source |
| BatchRenamer.Refusal | ui/batch_renamer_browser.py:233-250 | the batch proceeds to confirmation iff something is ticked and the operation has text (one of prefix or suffix for add-both) |
| BatchRenamer.FolderRows | ui/batch_renamer_browser.py:177-196 | the rows are unticked and name regular files, at most one per listed name |
| BatchRenamer.FolderRowsListed | ui/batch_renamer_browser.py:177-196 | a path is listed iff it is a listed name joined to the folder and a regular file |
| BatchRenamer.Renamer.constructor | ui/batch_renamer_browser.py:168-175 | the window starts with no folder, no rows and empty inputs |
| BatchRenamer.Renamer.ImportFolder | ui/batch_renamer_browser.py:168-196 | an empty choice changes nothing; otherwise the folder and label are set and the rows are the folder's files |
| BatchRenamer.Renamer.RefreshFolder | ui/batch_renamer_browser.py:198-202 | with a folder, re-lists it; without one, shows "No Folder" and changes nothing |
| BatchRenamer.Renamer.SetChecked | ui/batch_renamer_browser.py:190-192 | ticking one box changes only that row's tick |
| BatchRenamer.Renamer.SetAll | ui/batch_renamer_browser.py:204-216 | select-all and unselect-all set every tick and keep every path |
| BatchRenamer.Renamer.SetInputs | ui/batch_renamer_browser.py:331-332 | the prefix and suffix fields hold what was typed |
| BatchRenamer.Renamer.SelectedFiles | ui/batch_renamer_browser.py:218-225 | the selected files are the ticked rows' paths in table order |
| BatchRenamer.Renamer.RenameOne | ui/batch_renamer_browser.py:270-314 | one pass changes the files exactly as `Step` says |
| BatchRenamer.Renamer.RenameAll | ui/batch_renamer_browser.py:266-314 | the loop leaves the files, counter and error list that `Run` gives |
| BatchRenamer.Renamer.RenameNext | ui/batch_renamer_browser.py:270-314 | one pass of the loop extends the batch `Run` gives for the paths before it by that path's step |
| BatchRenamer.Renamer.RefreshAndClear | ui/batch_renamer_browser.py:316-326 | re-lists the current folder with its label, or says there is none and keeps the table; both inputs end empty and the files are untouched |
| BatchRenamer.Renamer.RenameAndReport | ui/batch_renamer_browser.py:266-321 | the files after `Run`, and the success and error dialogs built from its renamed count and error list |
| BatchRenamer.Renamer.ClearInputs | ui/batch_renamer_browser.py:323-324 | both input fields are empty afterwards |
| BatchRenamer.Renamer.ExecuteRename | ui/batch_renamer_browser.py:227-326 | the whole new state (`Executed`): a refusal or a declined confirmation changes nothing and shows its one dialog; a confirmed batch renames as `Run` says, re-lists the current folder with its label, reports, and clears the inputs; the current folder never changes |
| BatchRenamer.Renamer.Proceed | ui/batch_renamer_browser.py:266-326 | a confirmed batch: the files after `Run`, the rows re-listed, the success and error dialogs, both inputs cleared |
| BatchRenamer.Renamer.PerformAddRename | ui/batch_renamer_browser.py:329-343 | both fields give add-both, one field gives that one, and the state is then what `ExecuteRename` leaves; with neither field filled, one warning and nothing changes |
| BatchRenamer.Renamer.RemovePrefixFromFiles | ui/batch_renamer_browser.py:346-349 | the state and dialogs `ExecuteRename` leaves for removing the prefix field's text |
| BatchRenamer.Renamer.RemoveSuffixFromFiles | ui/batch_renamer_browser.py:351-354 | the state and dialogs `ExecuteRename` leaves for removing the suffix field's text |
| Io.CheckedPathsSpec | ui/batch_renamer_browser.py:218-225 | the selected paths are exactly the ticked rows' paths, one per ticked row |
| Exif.FormatExif | ui/metadata_viewer.py:97-98 | the date is written in 19 characters with the separators of `yyyy:MM:dd HH:mm:ss` |
| Exif.FormatExifFields | ui/metadata_viewer.py:98 | each field of the date sits zero-padded at its place |
| Exif.FormatExifRoundTrip | ui/metadata_viewer.py:98 | the written date reads back as the widget's date |
| Exif.FormatExifInjective | ui/metadata_viewer.py:98 | different dates are written differently |
| Exif.ClassifyCases | ui/metadata_viewer.py:68-87 | a str under a key containing "Date" gets a date editor; another int, float or str a line edit; anything else no editor |
| Exif.PopulatedGet | ui/metadata_viewer.py:68-87 | after the form is filled, a key has an editor iff the record holds it with a value that gets one |
| Exif.KeptFields | ui/metadata_viewer.py:92-94 | no written field has a reserved lower-cased key |
| Exif.KeptFieldsMembers | ui/metadata_viewer.py:92-94 | a field is written iff it is in the form and not reserved |
| Exif.FieldArgs | ui/metadata_viewer.py:95-103 | one `-Key=value` per kept field, the spaces taken out of the key |
| Exif.SaveArgv | ui/metadata_viewer.py:89-105 | the save argv is the tool, `-overwrite_original`, one argument per kept field in order, and the file: 3 + kept fields long |
| Exif.BuildSaveArgv | ui/metadata_viewer.py:89-105 | the loop builds exactly that argv |
| Exif.CopyArgvIsAssignment | ui/metadata_viewer.py:136 | the editors' copy command, with the source glued to `-tagsFromFile=` in one argument, reads as writing the source path into a tag named `tagsFromFile`, and not as a copy from the source |
| Exif.SeparateCopyArgvReadBack | ui/metadata_viewer.py:136 | the copy command in the documented `-tagsFromFile SRCFILE` form reads as copying from exactly the source into exactly the target, for any two paths, and different copies give different commands |
| Exif.DeleteArgvReadBack | ui/metadata_browser.py:278 | the delete command reads as clearing every tag of exactly that file (ExifTool documents `-all=` so), never as a copy, and different files give different commands |
| Exif.SidecarPath | ui/metadata_viewer.py:119 | the backup path ends with ".txt" |
| Exif.SidecarPathSplits | ui/metadata_viewer.py:119 | the backup keeps the file's stem, with the extension ".txt" |
| Exif.SidecarAppend | ui/metadata_viewer.py:127-129 | the backup text is the lines of the entries in record order |
| Exif.WriteSidecar | ui/metadata_viewer.py:127-129 | the write loop produces exactly that text |
| Exif.LineEnd | ui/metadata_viewer.py:152 | the first line ends at the first line break |
| Exif.LinesCons | ui/metadata_viewer.py:152 | a line followed by `\n` is read back as that line |
| Exif.ParseLineSome | ui/metadata_viewer.py:153-161 | a line is parsed iff it has a colon, and the key holds no space |
| Exif.ParseLineIs | ui/metadata_viewer.py:157-162 | with no colon before it, the key is the text before the first colon, stripped without spaces, and the value is the rest, stripped |
| Exif.ParseSidecarLine | ui/metadata_viewer.py:153-162 | a backup line `k: v` with no colon in `k` parses back to `k` stripped without spaces and `v` stripped |
| Exif.ContributionUnreserved | ui/metadata_viewer.py:153-167 | a line adds at most one field, never with a reserved key |
| Exif.ImportedFieldsUnreserved | ui/metadata_viewer.py:152-167 | at most one field per line, and no reserved key imported |
| Exif.ImportArgs | ui/metadata_viewer.py:167 | one `-key=value` per imported field, in order |
| Exif.ImportArgv | ui/metadata_viewer.py:148-169 | the import argv is the tool, `-overwrite_original`, one argument per imported field, and the file |
| Exif.BuildImportArgv | ui/metadata_viewer.py:148-169 | the loop over the file's lines builds exactly that argv |
| Exif.SidecarRoundTrip | ui/metadata_viewer.py:127-167 | importing a record's backup passes on each unreserved entry, in order, as the parser leaves it |
| MetadataViewer.SaveDialog | ui/metadata_viewer.py:107-111 | success iff the tool succeeded; a failure shows its stderr |
| MetadataViewer.CopyDialog | ui/metadata_viewer.py:137-141 | "Copied" with the target iff the tool succeeded |
| MetadataViewer.ImportDialog | ui/metadata_viewer.py:171-174 | success iff the tool succeeded; a failure shows its stderr under "ExifTool Error" |
| MetadataViewer.Viewer.constructor | ui/metadata_viewer.py:52-66 | the form holds the editors `populate_fields` makes for the loaded record |
| MetadataViewer.Viewer.PopulateFields | ui/metadata_viewer.py:68-87 | one editor per entry that gets one, under its key |
| MetadataViewer.Viewer.Save | ui/metadata_viewer.py:89-111 | always runs the save argv, then reports its outcome |
| MetadataViewer.Viewer.Copy | ui/metadata_viewer.py:113-141 | cancelled: nothing; backup failure: an error and no copy; otherwise the backup is written, then the copy command runs (in the documented form, see Left out) |
| MetadataViewer.Viewer.Import | ui/metadata_viewer.py:143-176 | cancelled: nothing; unreadable file: its error; otherwise the import argv of the file's lines runs |
| MetadataBrowser.BrowserCopyDialog | ui/metadata_browser.py:124-128 | "Copied" iff the tool succeeded; one handler reports every failure as "Failed: ..." |
| MetadataBrowser.BrowserImportDialog | ui/metadata_browser.py:147-150 | success iff the tool succeeded; a failure shows the exception's text |
| MetadataBrowser.Viewer.constructor | ui/metadata_browser.py:28-69 | the form holds the editors for the loaded record |
| MetadataBrowser.Viewer.PopulateFields | ui/metadata_browser.py:83-98 | one editor per entry that gets one |
| MetadataBrowser.Viewer.Save | ui/metadata_browser.py:100-112 | the same argv as the single-file editor, always run |
| MetadataBrowser.Viewer.Copy | ui/metadata_browser.py:114-128 | the target's backup is written before the copy (the command in the documented form, see Left out); the first failure is reported once |
| MetadataBrowser.Viewer.Import | ui/metadata_browser.py:130-150 | the same parser and argv as the single-file editor |
| MetadataBrowser.RefreshAsWrittenLosesFolder | ui/metadata_browser.py:248-251 | as written, a folder whose path holds "Imported: " is not the folder re-imported |
| MetadataBrowser.RefreshTarget | ui/metadata_browser.py:248-251 | a folder is re-imported iff the label starts with "Imported: ", and it is the label with that prefix removed |
| MetadataBrowser.RefreshTargetRoundTrip | ui/metadata_browser.py:211-251 | the label of an imported folder names that folder again |
| MetadataBrowser.ExportAsWrittenStops | ui/metadata_browser.py:259-260 | as written, a listed file with a supported extension whose type the host cannot guess ends the export, with no later sidecar and no message |
| MetadataBrowser.ExportedSpec | ui/metadata_browser.py:253-268 | a sidecar is written exactly for each ticked file whose write works, with that file's record |
| MetadataBrowser.ExportedCount | ui/metadata_browser.py:261-266 | the export count is at most the ticked files, and all of them when every write works |
| MetadataBrowser.DeleteRuns | ui/metadata_browser.py:270-279 | one clearing command per ticked file, in table order |
| MetadataBrowser.DeletedCount | ui/metadata_browser.py:277-283 | the delete count is at most the ticked files; all when every run succeeds, none when all fail |
| MetadataBrowser.Browser.constructor | ui/metadata_browser.py:187-197 | "No folder selected" and an empty table |
| MetadataBrowser.Browser.ImportFolder | ui/metadata_browser.py:206-241 | an empty choice changes nothing; otherwise the label names the folder and the rows are its supported files |
| MetadataBrowser.Browser.SetChecked | ui/metadata_browser.py:231-233 | ticking one box changes only that row |
| MetadataBrowser.Browser.Refresh | ui/metadata_browser.py:248-251 | without the label prefix nothing changes; otherwise the named folder is imported again |
| MetadataBrowser.Browser.Export | ui/metadata_browser.py:253-268 | the sidecars of the ticked files that can be written, and a message with their count |
| MetadataBrowser.Browser.Delete | ui/metadata_browser.py:270-283 | one clearing command per ticked file, and a message counting the successes |
| MetadataBrowser.Browser.SelectedPaths | ui/metadata_browser.py:255-259 | the ticked rows' files in table order |
| Listing.ListedRows | ui/metadata_browser.py:214-233 | the rows are unticked, at most one per listed entry |
| Listing.ListedRowsSound | ui/metadata_browser.py:214-221 | every row is a supported regular file joined to the folder |
| Listing.ListedRowsComplete | ui/video_editor_browser.py:72-79 | every supported regular file has its row |
| Listing.ListedRowsSpec | ui/metadata_browser.py:214-221 | a path is listed iff some regular file whose lower-cased extension is supported gives it |
| Listing.ListRows | ui/video_editor_browser.py:72-90 | the import loop builds exactly those rows |
| Listing.AddEntry | ui/video_editor_browser.py:73-79 | an entry adds one unticked row with its joined path exactly when it is a supported regular file |
| Blur.NormalizedAxis | temp.py:34 | one axis of `normalized()`: a forward span keeps both end cells, a backward one only the cells strictly between, never a negative size |
| Blur.Spanning | temp.py:31-35 | on each axis, a forward drag gives the cells from the press point to the mouse position, both included; a backward drag only the cells strictly between them, as Qt 6's `normalized()` gives |
| Blur.SpanningReversed | temp.py:31-35 | the bottom-right to top-left drag gives a rectangle one cell further in on each side than the opposite drag, and a click gives one cell |
| Blur.Selection.constructor | temp.py:15-23 | no rectangle, no item, nothing being drawn |
| Blur.Selection.Press | temp.py:25-29 | the left button starts a new empty item at the point; others change nothing |
| Blur.Selection.Move | temp.py:31-36 | while drawing, the item spans the press point and the mouse position |
| Blur.Selection.Release | temp.py:38-45 | releasing the left button while drawing appends the rectangle and its item together and stops drawing |
| Blur.Selection.Undo | temp.py:47-54 | pops the last item and rectangle together and takes the item off the scene; no-op when empty; both lists keep equal length |
| Blur.Segments | temp.py:296-305 | one crop segment per rectangle in order, then one overlay segment per rectangle in order |
| Blur.SegmentsChain | temp.py:296-314 | each crop reads `[0:v]`; the first overlay reads `[0:v]`, each later one the previous output; each lays its own blur; the last output is mapped |
| Blur.LabelTextInjective | temp.py:298-305 | different streams get different labels |
| Blur.FilterGraphSplits | temp.py:292-308 | splitting the graph at `;` gives back exactly the segments |
| Blur.StripLastSeparator | temp.py:298-308 | the `+=`-then-`rstrip(';')` text is the segments joined by `;` |
| Blur.BlurredPath | temp.py:309 | the output never overwrites the input |
| Blur.CollectSegments | temp.py:292-305 | the two loops collect the segments in order, ending with `current` at the last overlay |
| Blur.BuildFilterGraph | temp.py:292-308 | the loops build that graph, and `current` is `[ovl n-1]` |
| Blur.PerformBlur | temp.py:285-323 | no rectangle: a warning and no command; otherwise one command mapping the last overlay, and a success or an error with the command |
| VideoEditor.TrimOutputIsNew | ui/video_editor_browser.py:172 | a trim never writes over its input |
| VideoEditor.TrimOutputDistinct | ui/video_editor_browser.py:172 | the output name determines the trimmed range |
| VideoEditor.Clamp | ui/video_editor_browser.py:156-162 | a spin box keeps its value inside its range |
| VideoEditor.TrimPanel.constructor | ui/video_editor_browser.py:156-162 | both boxes start at range 0 to 0 |
| VideoEditor.TrimPanel.SetStart | ui/video_editor_browser.py:156-158 | the start box clamps the value into its range |
| VideoEditor.TrimPanel.SetEnd | ui/video_editor_browser.py:161-163 | the end box clamps the value into its range |
| VideoEditor.TrimPanel.UpdateDuration | ui/video_editor_browser.py:180-185 | both maxima become `duration // 1000` and the end value that maximum |
| VideoEditor.TrimPanel.Trim | ui/video_editor_browser.py:166-175 | end <= start: a warning and no command; otherwise the `-ss start -to end -c copy` command to `<stem>_trimmed_<start>_<end>.mp4` |
| VideoEditor.MutedPath | ui/video_editor_browser.py:220 | the muted file never overwrites the input |
| VideoEditor.MuteRuns | ui/video_editor_browser.py:212-223 | one mute command per ticked file, in table order |
| VideoEditor.MuteDialog | ui/video_editor_browser.py:225-228 | "Muted" iff some video was muted, "No Selection" otherwise |
| VideoEditor.Editor.constructor | ui/video_editor_browser.py:17 | no folder and an empty table |
| VideoEditor.Editor.ImportFolder | ui/video_editor_browser.py:62-98 | an empty choice or non-directory changes nothing; otherwise the folder's video files are listed |
| VideoEditor.Editor.Refresh | ui/video_editor_browser.py:208-210 | re-lists the current folder only if there is one and it is still a directory |
| VideoEditor.Editor.Mute | ui/video_editor_browser.py:212-228 | one command per ticked row and a count of exactly the ticked rows |
| Conversion.ConvertedNameShape | ui/conversion.py:19-22 | the output name has no slash, ends with "." + format, and differs from the input's name |
| Conversion.ConvertedPathNamed | ui/conversion.py:19-22 | the output path is the folder joined with `<stem>_converted.<fmt>`, ends with the format, and is not the input |
| Conversion.PilFormatJpeg | ui/conversion.py:32 | Pillow is told "JPEG" iff the format is jpg or jpeg in any case |
| Conversion.PilFormatHeic | ui/conversion.py:32 | Pillow is told "HEIC" iff the format is heic in any case |
| Conversion.PilFormatCaseFree | ui/conversion.py:32 | the Pillow format does not depend on the format's case |
| Conversion.ConvertImageOutcome | ui/conversion.py:17-51 | the result is the output path, `None`, or "Image conversion error: ..."; the path only once saved and present |
| Conversion.HeicNeedsPlugin | ui/conversion.py:34-51 | HEIC without `pillow_heif` gives the plugin error and saves nothing |
| Conversion.MetadataPairsAt | ui/conversion.py:66-68 | each custom pair adds "-metadata" and "k=v", in order |
| Conversion.VideoArgvShape | ui/conversion.py:63-70 | the argv starts `ffmpeg -y -i input` and ends `-c copy output`; stripping wins over custom pairs |
| Conversion.VideoConvertedOutcome | ui/conversion.py:56-77 | the result is the output path, `None`, "Video conversion error: ..." or "FFmpeg error: ..."; the path only after a successful run |
| Conversion.ConvertVideo | ui/conversion.py:56-77 | the command loop and the run give what `VideoConverted` says |
| ConversionService.RunConversionCases | services/conversion_service.py:13-34 | unsupported iff the extension is in neither list, with the extension named; images go first to the image converter, then videos |
| ConversionService.Report | services/conversion_service.py:79-82 | "result" iff a string ending with "." + lower-cased format, otherwise "error" with the value |
| ConversionService.ConvertOne | services/conversion_service.py:55-82 | a candidate gets its report; anything else nothing |
| ConversionService.BatchConvertFolder | services/conversion_service.py:39-84 | a failing `makedirs` fails the call; otherwise one report per candidate, in listing order |
| ConversionService.BatchResultsFor | services/conversion_service.py:54-84 | the k-th result reports the k-th candidate, and an entry is reported iff it is a candidate |
| ConversionService.ConvertedOutputSkipped | services/conversion_service.py:70-72 | a file named `<stem>_converted.<fmt>` is not converted again |
| ConversionService.UpperCaseFormatReportedAsError | services/conversion_service.py:79-82 | with format "JPG" a converted file is reported as an error |
| ConversionBrowser.ConvertImageOutcome | ui/conversion_browser.py:15-32 | Pillow picks the format from the extension; the result is the absolute output path, `None`, or "Image conversion error: ..." |
| ConversionBrowser.SavedModeNoAlpha | ui/conversion_browser.py:19-20 | only RGBA and LA are converted, and the saved mode has no alpha |
| ConversionBrowser.BrowserArgvShape | ui/conversion_browser.py:37-45 | stripping wins over custom pairs, then the fixed libx264/aac options, and the output path last |
| ConversionBrowser.VideoConvertedOutcome | ui/conversion_browser.py:34-51 | the result is the output path, `None`, or "FFmpeg error: ..."; the path only after a successful run |
| ConversionBrowser.ConvertVideo | ui/conversion_browser.py:34-51 | the command loop and the run give what `VideoConverted` says |
| ConversionBrowser.CandidateAgainstService | ui/conversion_browser.py:57-64 | the batch tries the service's candidates and also directories with a supported name |
| ConversionBrowser.ConvertedOutputSkipped | ui/conversion_browser.py:63-64 | a file named `<stem>_converted.<fmt>` is not converted again |
| ConversionBrowser.ConvertOne | ui/conversion_browser.py:58-75 | a candidate gets its report; anything else nothing |
| ConversionBrowser.BatchConvertFolder | ui/conversion_browser.py:53-77 | one report per candidate, in listing order |
| ConversionBrowser.BatchResultsFor | ui/conversion_browser.py:53-77 | the k-th result reports the k-th candidate, and an entry is reported iff it is a candidate |
| ConversionBrowser.DropdownItemsAre | ui/conversion_browser.py:105-109 | the drop-down is the placeholder, then jpg, jpeg, png, heic, mp4, mov, avi, mkv |
| ConversionBrowser.FillDropdown | ui/conversion_browser.py:107-109 | the loop gives the placeholder followed by every format with its leading dots stripped, in order |
| ConversionBrowser.FormatNamesPlain | ui/conversion_browser.py:107-109 | no format name is the placeholder or holds a dot or slash |
| ConversionBrowser.Browser.constructor | ui/conversion_browser.py:105-133 | no folder, nothing converted, and the drop-down built by its loop |
| ConversionBrowser.Browser.ImportFolder | ui/conversion_browser.py:135-140 | an empty choice changes nothing; otherwise the folder is set and the converted list emptied |
| ConversionBrowser.Browser.RunBulkConversion | ui/conversion_browser.py:167-212 | no folder or the placeholder: a warning and nothing run; otherwise the batch runs, the reported outputs that are files are kept, and the count is shown |
| ConversionBrowser.Browser.DownloadAll | ui/conversion_browser.py:214-223 | nothing converted: a warning; otherwise the folder of the first file is opened, and a failure is shown |
| ConversionBrowser.ConvertedPathsIn | ui/conversion_browser.py:183-187 | a path is kept iff some result reports it and it is a file |
| ConversionBrowser.CompletionDialog | ui/conversion_browser.py:209-212 | "Success" iff some file was converted |
| Reader.ImageNotVideo | backend/app/metadata/reader.py:8-12 | no path is both an image and a video |
| Reader.HeifPairs | backend/app/metadata/reader.py:17-20 | one (type, data) pair per item; no metadata gives none |
| Reader.FlattenHeif | backend/app/metadata/reader.py:15-20 | the HEIF loop stores the pairs in order, each overwriting its type |
| Reader.HeifLastWins | backend/app/metadata/reader.py:15-20 | each item type holds the data of its last item; keys are distinct |
| Reader.ReadImageMetadata | backend/app/metadata/reader.py:14-30 | a ".heic" path reads HEIF items; others read EXIF keyed by tag name or raw id |
| Reader.ProbeArgv | backend/app/metadata/reader.py:34-40 | ffprobe asked for `format=duration:format_tags` as JSON on the path |
| Reader.VideoMetadataReads | backend/app/metadata/reader.py:32-44 | a raising probe gives a record whose only key is "error" with the exception's text, a report is returned unchanged, and different files are probed with different commands |
| Reader.GetMetadataCases | backend/app/metadata/reader.py:47-57 | a missing file is reported first; then image or video exactly by suffix; otherwise "Unsupported file type" |
| Reader.MatroskaUnsupported | backend/app/metadata/reader.py:11-57 | an existing ".mkv" file is reported as unsupported |
| Tags.KeyOf | backend/app/metadata/reader.py:25 | a tag is keyed by its name, or by its raw id iff the table lacks it |
| Tags.Keyed | app/core/metadata_image.py:12-13 | each entry keyed through the table, in order |
| Tags.NameEntries | backend/app/metadata/reader.py:22-30 | the naming loop stores the keyed entries in the dictionary |
| Tags.NamedGet | app/core/metadata_image.py:12-22 | a key holds the value of its last entry; keys are distinct |
| Tags.NamedEntry | backend/app/metadata/reader.py:24-30 | an entry not overwritten later can be read back under its key |
| FileHandler.ImageNotVideo | app/core/file_handler.py:4-8 | no path is both a supported image and a supported video |
| FileHandler.CaseInsensitive | app/core/file_handler.py:5-8 | both predicates ignore case |
| FileHandler.ListFiles | app/core/file_handler.py:10-11 | at most one path per entry |
| FileHandler.ListFilesIn | app/core/file_handler.py:10-11 | a path is listed iff some regular-file entry joined to the folder gives it |
| MetadataImage.FieldOf | app/core/metadata_image.py:15-22 | a GPSInfo dictionary becomes a map keyed by GPS tag names; other values are stored as they are |
| MetadataImage.ExifFields | app/core/metadata_image.py:12-22 | one keyed field per EXIF entry, in order |
| MetadataImage.ReadImageMetadata | app/core/metadata_image.py:4-34 | the nested loops and basic entries give `ImageMetadataOf` |
| MetadataImage.BasicInfoGet | app/core/metadata_image.py:24-28 | the basic entries overwrite EXIF entries of the same name; others read back from EXIF |
| MetadataImage.ReadOpenFailure | app/core/metadata_image.py:7-32 | a file that cannot be opened gives only "Error" |
| MetadataImage.ReadBasicEntries | app/core/metadata_image.py:25-32 | file name, format, mode and "w x h" are present; then the size in KB, or an "Error" keeping the rest |
| MetadataImage.ReadExifEntry | app/core/metadata_image.py:12-22 | an EXIF entry not overwritten reads back under its key |
| MetadataImage.ReadOtherKey | app/core/metadata_image.py:24-32 | a key that is none of the reader's own entries is looked up among the EXIF entries alone |
| MetadataImage.ReadDistinct | app/core/metadata_image.py:4-34 | the record's keys are distinct |
| MetadataImage.OutputPathExtension | app/core/metadata_image.py:43-48 | a path with an extension is kept; a plain name without one gets ".jpg" |
| MetadataImage.OutputPathOfFolder | app/core/metadata_image.py:43-48 | "out/" becomes "out/.jpg", which still has no extension |
| MetadataImage.ReverseTagsGet | app/core/metadata_image.py:51 | a name maps back to the id of its last tag |
| MetadataImage.UpdatedKeeps | app/core/metadata_image.py:53-56 | a tag no update names keeps its value |
| MetadataImage.UpdatedSets | app/core/metadata_image.py:53-56 | an update whose name has a nonzero id, not overwritten later, is stored |
| MetadataImage.WriteImageMetadata | app/core/metadata_image.py:36-63 | true iff the input opens and the save succeeds; the saved image has the default-extension path, the format or "JPEG", and the updated EXIF |

## Left out

- Widget construction, layout, styling, signal wiring and the table cells beyond the file path and tick. This covers the mime-type, size and date columns and the buttons.
- Floating point: the MB and KB sizes with `round` are host values. The `duration / 1000` of a screenshot time is not modelled.
- Dates: `QDateTime.fromString` validity and the current-time fallback are inputs. A date editor holds an abstract date and time in the widget's range, and only the output pattern is modelled.
- The screenshot command of the blur dialog, the temporary file, and the pixel drawing on the scene.
- `mapToScene` is the identity: points are scene points.
- `QRect` normalization follows Qt 6's `normalized()`, which swaps reversed edges and moves each one step inwards. Qt's own source is not part of this model.
- mimetypes dispatch between the image and video readers of the editors is host input, as `readMetadata`.
- Running ExifTool, ffmpeg, ffprobe, Pillow and pyheif. Their outcomes are inputs: a `ToolRun` (success or `CalledProcessError`), a `Result`, or an error text.
- Exceptions other than those listed: a missing tool binary and a launch failure are not separate outcomes. Exceptions `pyheif` or Pillow raise out of backend/app/metadata/reader.py propagate and are not modelled.
- `_getexif` raising and Pillow's `convert` raising.
- `getexif` in the writer is modelled as the same entries as `_getexif`.
- Pixel data: the image contents and the RGB conversion itself. Only the mode after conversion is recorded.
- Partial writes of a sidecar, and the behaviour of `os.makedirs('')`, which belong to the host.
- `os.path.abspath` is a host function. `os.startfile` is a host function that gives the exception's text or nothing.
- `print` and `logging` output.
- Windows path rules (ntpath): paths follow POSIX `os.path`.
- Case folding beyond ASCII letters: `lower` and `upper` change only A-Z and a-z.
- MetadataBrowser.Browser.Refresh: re-imports the folder `RefreshTarget` names, the label without its leading "Imported: ". The source's `replace` also deletes inner occurrences; `RefreshAsWrittenLosesFolder` models that (see Findings).
- MetadataBrowser.Browser.Export: follows the corrected export `Exported`, which reads a file of unknown type as an image. As written the export stops at such a file with no message; `ExportAsWritten` and `ExportAsWrittenStops` model that (see Findings).
- MetadataViewer.Viewer.Copy: runs the copy command in the documented form `SeparateCopyArgv`. The source glues the path to `-tagsFromFile=`; `CopyArgv` and `CopyArgvIsAssignment` model that (see Findings).
- MetadataBrowser.Viewer.Copy: the same; it runs `SeparateCopyArgv` where the source runs `CopyArgv`.
- Exif.CopyArgvIsAssignment: rests on `ReadCommand`, ExifTool's documented syntax, since ExifTool's parser is not part of this model; what ExifTool does with the glued option is not proved.
- ConversionService.BatchConvertFolder: the batch over an upper-case format reports converted files as errors, and the model keeps that as written.

## Findings

| source | as written | input that shows it | evidently intended | confidence | as-written member | corrected member |
|---|---|---|---|---|---|---|
| ui/metadata_browser.py:251 | `current.replace("Imported: ", "")` removes every occurrence of the prefix | a folder `/data/Imported: x`: the label `Imported: /data/Imported: x` re-imports `/data/x` | drop only the leading prefix | not executed | MetadataBrowser.RefreshAsWrittenLosesFolder | MetadataBrowser.RefreshTarget |
| ui/metadata_browser.py:260 | `mimetypes.guess_type(path)[0].startswith("video")` runs outside the `try`, so a type it cannot guess raises | a ticked `clip.mkv` (a supported extension) before other ticked files, on a host whose `mimetypes` table has no `.mkv` entry: the export stops, later files get no sidecar and no message is shown | an unknown type is read as an image, as the editors' own `load_metadata` does with `mime_type and ...` | not executed | MetadataBrowser.ExportAsWrittenStops | MetadataBrowser.ExportedSpec |
| ui/metadata_viewer.py:136 | the copy command passes `f"-tagsFromFile={self.file_path}"` as one argument (so does ui/metadata_browser.py:124) | any copy: by the documented syntax that argument is `-TAG=VALUE` for a tag named `tagsFromFile`, so no tag is copied from the source and the target keeps its own tags | `-tagsFromFile` and the source path as two arguments, as ExifTool documents the option | not executed; plausible, since it rests on the documented syntax and not on ExifTool's parser | Exif.CopyArgvIsAssignment | Exif.SeparateCopyArgvReadBack |
