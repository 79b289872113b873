# photo-to-word, modelled in Dafny

photo-to-word is a desktop tool. It builds a Word "photo table" from a set of
photos: a two-column table with one resized photo per cell and a caption
"Рис. N. name" under each. This project models its core and proves
properties of it:

- `Paths.dfy`: the `pathlib` arithmetic the code relies on. It covers the
  final component of a path, its suffix (which decides whether a file is
  an image) and its stem (which goes into a caption), plus ASCII
  lower-casing.
- `Config.dfy`: the settings of `AppConfig`:
  - the constants;
  - the default settings and how a saved settings file overrides them;
  - the getters and setters;
  - the table width per orientation;
  - the caption text and its length limit;
  - columns, rows per page and image width.
- `ImageProcessing.dfy`: `ImageProcessor`. It holds four parallel lists
  (paths, thumbnails, rotations, original sizes) and changes them as
  images are loaded, rotated, removed and cleared. The imaging library is
  a `Disk`: what opening each file would yield.
- `WordGeneration.dfy`: `WordGenerator`:
  - document creation and the table;
  - the image loop with cancellation, progress reports and caption
    failures;
  - the fatal errors;
  - removal of the temporary JPEG files on every way out;
  - `save_to_file`.

  The libraries, the disk and the interface thread are an `Environment`.
  It says which step fails, at which image a cancel request has arrived,
  and whether saving fails.
- `Gui.dfy`: the `ThumbnailGrid` of the main window:
  - the column count for a canvas width;
  - the cell of each tile;
  - the selection and the tiles' check marks;
  - how the tiles follow the collection.

  It also covers the checks the window makes before generating.
- `Wrappers.dfy`: `Option`.

The model keeps the source's form. Every object that updates its fields is
a class with `modifies` clauses: `ImageProcessor`, `AppConfig`,
`WordGenerator`, `ThumbnailGrid`, and the temporary directory and output
files. Each loop is a `while` loop with invariants. Each method is proved
against a specification function: `Admitted`, `Keep`, `Thumbnails`,
`ExpectedResult`, `Grid`, `CellOf`, `Indices`. The properties of the
function are proved as lemmas.

## Model

| member | source | states |
|---|---|---|
| Paths.LastSeparator | src/image_processor.py:51 | the index of the last path separator: a separator, with none after it, or -1 when the path has none |
| Paths.Name | src/word_generator.py:139 | the final component of a path holds no separator |
| Paths.Suffix | src/image_processor.py:51 | a suffix is empty, or a dot followed by at least one character and no further dot |
| Paths.StemSuffixSplitName | src/word_generator.py:175 | stem followed by suffix is the final component, and a non-empty name has a non-empty stem |
| Paths.SuffixOfFileName | src/image_processor.py:51 | a file `stem + ext` in any directory has suffix `ext` and stem `stem` |
| Paths.DotFileHasNoSuffix | src/image_processor.py:51 | a file named just ".jpg" has no suffix |
| Paths.Lower | src/image_processor.py:51 | lower-casing keeps the length and leaves no capital letter; each capital becomes the small letter at the same place in the alphabet, and every other character stays as it was |
| Paths.LowerIdempotent | src/image_processor.py:51 | lower-casing twice is lower-casing once |
| Paths.LowerOfLowerCase | src/image_processor.py:51 | a string without capital letters is its own lower-case form |
| Config.Defaults | src/config.py:90-97 | the defaults hold exactly the six settings keys |
| Config.LoadSettings | src/config.py:88-111 | exactly the six default keys come back; each takes the saved value when the file has one, and keys not among the defaults are dropped; with no readable file the defaults come back |
| Config.AppConfig.constructor | src/config.py:76-86 | the user settings are the loaded settings |
| Config.TableWidthKey | src/config.py:143-147 | only the exact string "portrait" selects the portrait width key; every other string selects the landscape key |
| Config.Get | src/config.py:125 | `dict.get`: the stored value when the key is set, otherwise the default |
| Config.TableWidth | src/config.py:141-148 | "portrait" reads the portrait width, or 16.0 when it is not set; any other orientation reads the landscape width, or 25.0 |
| Config.TableWidthByOrientation | src/config.py:141-148 | any orientation other than "portrait" reads the landscape width; a missing key reads 16.0 for portrait and 25.0 otherwise |
| Config.AppConfig.GetLastPath | src/config.py:123-125 | the stored last path, or the home directory when none is stored |
| Config.AppConfig.GetWindowGeometry | src/config.py:132-134 | the stored geometry, or an empty object |
| Config.AppConfig.GetTableWidth | src/config.py:141-148 | the width stored under the orientation's key, or that orientation's default width |
| Config.AppConfig.GetJpegQuality | src/config.py:160-162 | the stored quality, or 85 |
| Config.AppConfig.GetOrientation | src/config.py:169-171 | the stored orientation, or "portrait" |
| Config.AppConfig.SetLastPath | src/config.py:123-130 | only the last-path key changes, and the getter returns the new path |
| Config.AppConfig.SetWindowGeometry | src/config.py:132-139 | only the geometry key changes, and the getter returns the new geometry |
| Config.AppConfig.SetTableWidth | src/config.py:150-158 | the orientation's width is stored and read back; the other orientation's width is unchanged |
| Config.AppConfig.SetJpegQuality | src/config.py:160-167 | only the quality key changes, and the getter returns the new quality |
| Config.AppConfig.SetOrientation | src/config.py:169-176 | only the orientation key changes, and the getter returns the new orientation |
| Config.ImageWidth | src/config.py:178-180 | the image width is the portrait width (400) whatever the orientation |
| Config.ColumnsCount | src/config.py:182-184 | two columns in both orientations |
| Config.RowsPerPage | src/config.py:186-190 | 2 rows exactly for "landscape", otherwise 4 |
| Config.PhotosPerPage | src/config.py:182-190 | a landscape page holds 4 photos and any other page holds 8 |
| Config.ShortName | src/config.py:196-198 | a name of up to 35 characters is kept; a longer one becomes its first 32 characters followed by "...", 35 characters in all |
| Config.NatToDecimal | src/config.py:200 | the decimal form of a number is a non-empty run of digits |
| Config.DecimalRoundTrip | src/config.py:200 | reading the decimal form of a number back gives the number |
| Config.FillCaptionTemplate | src/config.py:50 | filling the template "Рис. {number}. {filename}" gives "Рис. ", the number, ". ", then the file name |
| Config.CaptionText | src/config.py:192-200 | the caption is "Рис. ", the number's decimal form, ". ", then the shortened file name |
| Config.CaptionRoundTrip | src/config.py:192-200 | a caption can be parsed back into its number and its shortened file name |
| ImageProcessing.NextRotation | src/image_processor.py:93 | a quarter turn keeps a rotation among 0, 90, 180 and 270 |
| ImageProcessing.FourTurnsRestore | src/image_processor.py:93 | four quarter turns restore any angle |
| ImageProcessing.IsSupported | src/image_processor.py:49-52 | a supported path has a non-empty suffix |
| ImageProcessing.SupportedByExtension | src/image_processor.py:49-52 | a file `stem + ext` is supported exactly when lower-cased `ext` is one of the eight formats, so "IMG_1.JPG" is accepted |
| ImageProcessing.CapitalJpegSupported | src/image_processor.py:49-52 | "photos/IMG_1.JPG" is supported: a capitalised extension is accepted |
| ImageProcessing.CapitalTextRefused | src/image_processor.py:49-52 | "notes.TXT" is refused: capitals do not make a format supported |
| ImageProcessing.HiddenFileNotSupported | src/image_processor.py:49-52 | a file named just ".jpg" is refused |
| ImageProcessing.AdmittedSound | src/image_processor.py:28-38 | every appended path was given, passes the filter and was not held; the held paths stay free of duplicates |
| ImageProcessing.AdmittedComplete | src/image_processor.py:28-38 | every given path that passes the filter ends up held |
| ImageProcessing.AdmittedInOrder | src/image_processor.py:28-38 | the appended paths keep their input order |
| ImageProcessing.LoadLoopAsWritten | src/image_processor.py:28-45 | as written, the loop appends only given, verified paths not held before; it ends early only when some check lets an exception escape |
| ImageProcessing.LoadLoopWithoutEscapes | src/image_processor.py:28-45 | when no check lets an exception escape, the loop as written appends exactly the admitted paths and ends normally |
| ImageProcessing.EscapeLeavesListsOutOfStep | src/image_processor.py:28-45 | a supported path that verifies, then one whose check lets an exception escape: the first is appended and the loop ends before thumbnails are built |
| ImageProcessing.ImageProcessor.constructor | src/image_processor.py:16-23 | all four lists start empty |
| ImageProcessing.ImageProcessor.LoadImages | src/image_processor.py:25-47 | the returned paths are exactly the admitted ones and are appended to the paths, each with rotation 0; when any was added, thumbnails and sizes are rebuilt with one per image; the four lists stay aligned and duplicate-free |
| ImageProcessing.ImageProcessor.AppendAccepted | src/image_processor.py:27-38 | the loop of `load_images`: appends the admitted paths with rotation 0 and leaves thumbnails and sizes untouched |
| ImageProcessing.ImageProcessor.CreateThumbnails | src/image_processor.py:54-87 | one thumbnail and one size per image: the rendered image at its rotation with its real size, or the placeholder with size 100×100 |
| ImageProcessing.Thumbnails | src/image_processor.py:54-87 | one thumbnail per image |
| ImageProcessing.Sizes | src/image_processor.py:54-87 | one size per image |
| ImageProcessing.SizesAsWritten | src/image_processor.py:60-87 | as written, at least one size per image, and exactly `Sizes` when no image opens and then fails to render |
| ImageProcessing.SizesAsWrittenMisaligned | src/image_processor.py:60-87 | as written, an image that opens but whose thumbnail fails gets two sizes, so later sizes shift to the wrong image |
| ImageProcessing.ImageProcessor.RotateImage | src/image_processor.py:89-100 | succeeds exactly for an index in range, turns only that image a quarter and rebuilds the thumbnails; otherwise nothing changes |
| ImageProcessing.InsertDescending | src/image_processor.py:105 | inserting adds exactly one element |
| ImageProcessing.SortDescending | src/image_processor.py:105 | sorting keeps the number of indices |
| ImageProcessing.SortDescendingElements | src/image_processor.py:105 | sorting in reverse is a permutation |
| ImageProcessing.SortDescendingOrdered | src/image_processor.py:105 | sorting in reverse gives non-increasing order |
| ImageProcessing.SortDescendingStrictly | src/image_processor.py:105 | sorting distinct indices in reverse gives strictly decreasing order |
| ImageProcessing.DeleteAtElements | src/image_processor.py:106-110 | `del xs[d]` keeps the elements before `d` in place and moves the ones after it down by one; an index out of range deletes nothing |
| ImageProcessing.DeleteEachKeeps | src/image_processor.py:105-110 | deleting strictly decreasing positions one after another removes exactly those positions and keeps the order of the rest |
| ImageProcessing.KeepThenDelete | src/image_processor.py:105-110 | deleting a position after all larger ones were dropped drops it as well |
| ImageProcessing.KeepInRange | src/image_processor.py:106 | positions outside the list have no effect |
| ImageProcessing.KeepAll | src/image_processor.py:106 | dropping no position keeps the whole list |
| ImageProcessing.DeleteAtDistinct | src/image_processor.py:107 | deleting a path keeps the paths duplicate-free |
| ImageProcessing.ImageProcessor.RemoveImages | src/image_processor.py:102-112 | all four lists lose the same positions in the same order; with distinct indices exactly the in-range given positions go, survivors keep their order, and out-of-range indices are ignored |
| ImageProcessing.ImageProcessor.ClearAll | src/image_processor.py:114-120 | all four lists are empty |
| ImageProcessing.ImageProcessor.GetImageCount | src/image_processor.py:152-154 | the count of paths, which in a valid processor is also the count of thumbnails, rotations and sizes |
| ImageProcessing.ImageProcessor.GetImagePaths | src/image_processor.py:156-158 | the held paths themselves; in a valid processor they hold no duplicate and there is one per thumbnail |
| ImageProcessing.ImageProcessor.GetThumbnail | src/image_processor.py:160-164 | a thumbnail exactly for an index in range, otherwise None |
| ImageProcessing.ImageProcessor.GetRotation | src/image_processor.py:166-170 | the stored rotation for an index in range, 0 otherwise, and always a quarter-turn angle |
| ImageProcessing.ImageProcessor.GetOriginalSize | src/image_processor.py:172-176 | the stored size for an index in range, 100×100 otherwise |
| ImageProcessing.ImageProcessor.IsLandscape | src/image_processor.py:178-181 | landscape exactly when the stored width exceeds the stored height, never for an index out of range |
| WordGeneration.RowsNeeded | src/word_generator.py:115 | the rows hold every image two to a row, with at most one cell to spare |
| WordGeneration.Grid | src/word_generator.py:117-119 | `rows` rows of two cells each |
| WordGeneration.GridPlacesCells | src/word_generator.py:157-158 | image j lands in row j / 2, column j % 2; every other cell stays empty |
| WordGeneration.GridExtend | src/word_generator.py:157-158 | placing one more image changes exactly its own cell |
| WordGeneration.EmptyRows | src/word_generator.py:117-119 | the rows added in advance form the empty table |
| WordGeneration.StopAt | src/word_generator.py:125-154 | the run stops at the first image that sees a cancel request or a fatal fault, or runs to the end |
| WordGeneration.PhotoCells | src/word_generator.py:125-194 | one cell per handled image |
| WordGeneration.NoStopReachesEnd | src/word_generator.py:125-201 | with no cancel request and no fatal fault the loop handles every image |
| WordGeneration.GeneratedExactly | src/word_generator.py:60-214 | a document comes back exactly when it and its table are created, there are images, no image is cancelled or fails fatally, and saving succeeds; a failed caption does not prevent it; image j then sits in row j / 2, column j % 2 |
| WordGeneration.CancelStopsRun | src/word_generator.py:126-129 | a cancel request seen at image k, with nothing before it stopping the run, gives no document, whatever faults lie after k |
| WordGeneration.StopFirst | src/word_generator.py:125-154 | the run stops at the first stopping point |
| WordGeneration.PhotoCaption | src/word_generator.py:133-194 | each cell shows its own file at its rotation; its caption is present exactly when captioning did not fail, and reads back as number j + 1 and the file's shortened stem |
| WordGeneration.CaptionsNumberPhotos | src/word_generator.py:172-194 | every placed photo j shows `paths[j]` at `rotations[j]`; its caption is present exactly when captioning of j did not fail, and reads back as number j + 1 and the file's shortened stem |
| WordGeneration.ProgressExtend | src/word_generator.py:196-201 | each handled image adds the report (i + 1, total) |
| WordGeneration.TempDir.Create | src/word_generator.py:144-146 | a new temporary file exists, with a name not used before |
| WordGeneration.TempDir.RemoveIfExists | src/word_generator.py:220-221 | the file no longer exists, and nothing else changes |
| WordGeneration.StoreTemp | src/word_generator.py:143-154 | the new temporary file is recorded whether or not writing it succeeds |
| WordGeneration.StoreTempAsWritten | src/word_generator.py:143-154 | as written, a failed write leaves the new file on disk but unrecorded |
| WordGeneration.RemoveTemps | src/word_generator.py:216-224 | every recorded temporary file is gone afterwards, and no other file is touched |
| WordGeneration.TempLeakAsWritten | src/word_generator.py:143-154 | a failed write as written leaves one file behind |
| WordGeneration.TempLeakCorrected | src/word_generator.py:143-154 | recording the file first leaves nothing behind |
| WordGeneration.HandleImage | src/word_generator.py:131-194 | a fatal fault stops the run with its error; otherwise the image's cell comes back; a temporary file is made unless processing failed |
| WordGeneration.WordGenerator.constructor | src/word_generator.py:22-26 | no document and no cancel request |
| WordGeneration.WordGenerator.Cancel | src/word_generator.py:226-228 | the cancel flag is set and nothing else changes |
| WordGeneration.WordGenerator.CreateDocument | src/word_generator.py:28-52 | on success a new document, landscape exactly for "landscape", with the table width stored; on failure nothing changes |
| WordGeneration.WordGenerator.Generate | src/word_generator.py:60-224 | the result is the one the run specification gives; the document holds the table as far as the run got; progress reports run 1..s out of total; the cancel flag is reset at the start; the table width is stored once the document exists; every temporary file made is removed |
| WordGeneration.WordGenerator.RunTable | src/word_generator.py:114-224 | the same, once the document exists and there are images |
| WordGeneration.WordGenerator.FillTable | src/word_generator.py:125-201 | the loop places the cells of the handled images, reports progress, and stops at the first cancel or fatal fault |
| WordGeneration.WordGenerator.ImageStep | src/word_generator.py:125-201 | one pass: the cancel check, then the image's cell or the error |
| WordGeneration.WordGenerator.PlaceCell | src/word_generator.py:157-194 | the next image's cell goes to row i / 2, column i % 2 |
| WordGeneration.WordGenerator.SaveToFile | src/word_generator.py:230-250 | a generated document is written to the path and gives true; a cancelled run writes nothing and gives false; every exception propagates |
| Gui.CalculateColumns | src/gui.py:358-365 | at least one column; otherwise as many 180-pixel tile spans as fit the canvas width |
| Gui.ColumnsMonotone | src/gui.py:358-365 | a wider canvas never gets fewer columns |
| Gui.CellOf | src/gui.py:420-423 | tile i goes to row i // columns, column i % columns, and the column is below `columns` |
| Gui.CellsDistinct | src/gui.py:420-423 | two tiles share a cell exactly when they are the same tile |
| Gui.CellsInReadingOrder | src/gui.py:420-423 | a later tile sits on a later row, or further right on the same row |
| Gui.Indices | src/gui.py:474-476 | the indices 0 .. n-1, n of them |
| Gui.Elements | src/gui.py:460 | `list(selected_indices)` lists each selected index exactly once |
| Gui.ThumbnailGrid.constructor | src/gui.py:303-312 | no tiles, no selection, one column |
| Gui.ThumbnailGrid.LayoutTiles | src/gui.py:412-429 | each tile goes to its cell, and nothing else about the tiles changes |
| Gui.ThumbnailGrid.RebuildAllTiles | src/gui.py:383-410 | one tile per image, showing that image and its thumbnail, laid out, and checked exactly when its index is selected |
| Gui.ThumbnailGrid.RebuildGrid | src/gui.py:367-381 | with no images the tiles are dropped and the columns kept; otherwise the columns follow the canvas, and the tiles are rebuilt exactly when the column count or the number of images changed, so afterwards there is one tile per image |
| Gui.ThumbnailGrid.OnTileSelect | src/gui.py:431-438 | adds or discards exactly that index and reports the size of the selection |
| Gui.ThumbnailGrid.ClickTile | src/gui.py:267-285 | flips the tile's check mark, and the selection follows it; the columns stay |
| Gui.ThumbnailGrid.SelectAll | src/gui.py:472-478 | the selection is exactly {0, …, tiles - 1}, every tile is checked, the columns stay, and the reported count is the number of tiles |
| Gui.ThumbnailGrid.CheckEveryTile | src/gui.py:474-478 | the loop of `select_all`: every tile is checked, nothing else about the tiles changes, and the selection is exactly {0, …, tiles - 1} |
| Gui.ThumbnailGrid.RemoveSelected | src/gui.py:457-464 | with a selection, exactly the selected positions leave all four lists, the selection is emptied, the tiles are rebuilt and 0 is reported; without one, the four lists, the tiles and the selection are unchanged; the columns stay in both cases |
| Gui.ThumbnailGrid.ClearAll | src/gui.py:466-471 | no images, no tiles, no selection, the columns kept, and 0 is reported |
| Gui.ThumbnailGrid.OnTileRotate | src/gui.py:444-447 | a valid index turns that image, rebuilds thumbnails, sizes and tiles, and every tile keeps its check mark; an invalid one changes no list and no tile |
| Gui.ThumbnailGrid.AddImages | src/gui.py:449-455 | the admitted paths are appended with rotation 0; when any was added, thumbnails and sizes are rebuilt, the columns are recomputed and there is one tile per image; otherwise thumbnails, sizes, columns and tiles are unchanged |
| Gui.CheckGenerateInputs | src/gui.py:751-768 | the checks before generating pass exactly when there are images, the width reads as a number, and it is in (0, 50] or NaN; with no images the warning comes first |

## Left out

- Image decoding, rotation, thumbnailing, conversion and resizing are not
  modelled. A `Disk` says only whether a file verifies, what size it
  opens with, and whether its thumbnail can be built. The resize ratio
  of `process_for_word` is floating point and appears only as the target
  pixel width.
- The document library is not modelled: margins, fonts, paragraph
  spacing, `Cm`/`Pt` conversions and the bytes of the `.docx`. A
  document is its orientation and its table of cells.
- File I/O is left out:
  - reading and writing the settings JSON;
  - creating the settings directory;
  - `save_settings` after every setter;
  - `os.startfile`;
  - the output file.

  The saved settings are an input map, and the output file is a map from
  path to document.
- The background thread is left out. `cancel()` arrives from another
  thread; `Environment.cancelBefore` says for each image whether the
  request has arrived by the time the loop checks it. A cancel that
  arrives after the last check does not change the result.
- Failures of `os.unlink` in the clean-up are left out. Every recorded
  file is assumed to be removable.
- `ImageProcessing.ImageProcessor.LoadImages` models the loop as if every
  failure to open or verify a file were caught and the file skipped. As
  written, only `UnidentifiedImageError` and `IOError` are caught; any
  other exception (the library's decompression-bomb error, the syntax
  error of a corrupt PNG) leaves `load_images` with the earlier paths
  appended and the thumbnails not rebuilt. `LoadLoopAsWritten` models
  that run of the loop; the state of the class after it is not modelled.
- `Paths.Name`: Windows drive letters and trailing separators are not
  handled. Paths are split only at `/` and `\`.
- `Paths.Lower` lower-cases ASCII letters only. The supported formats are
  ASCII, so other letters do not change the outcome.
- Widget construction, tooltips, hover, scrolling, key bindings, message
  boxes and the file dialogs of `gui.py` are left out, and so is the rest
  of `PhotoTableApp` beyond the checks of `generate_document`.
- The column and row configuration of the frame is left out.
- The `on_selection_change` callback is modelled as the count a method
  returns.
- `Gui.CheckGenerateInputs` covers only the checks. What follows them in
  `generate_document` is left out: saving the width and quality
  settings, and the save dialog, whose cancellation also ends the command
  without generating.
- `Gui.CheckGenerateInputs` does not model how the width field is read.
  A field that does not read as a number is None, and the model treats
  it as refused. Reading a `DoubleVar` raises the toolkit's own error
  rather than `ValueError`, and the model does not tell the two apart.
  Whether the field can yield NaN is also outside the model.
- The error message for the width says "from 1 to 50", but the code
  accepts any width in (0, 50]. The model follows the code.
- `WordGeneration.WordGenerator.Generate` takes the rotations snapshot as
  the list itself. This is `get_rotation(i)` for every index of an
  aligned list.
- The check that the document is not None after `create_document` cannot
  fail, so it is left out.
- The landscape image width (600) is defined but never used. Only the
  portrait width is read.
- `build_exe.py` and `main.py` are packaging and the Tk entry point. They
  are not part of this model.

## Findings

| source | as written | input that shows it | evidently intended | confidence | as-written member | corrected member |
|---|---|---|---|---|---|---|
| src/image_processor.py:60-87 | the size is appended as soon as the file opens; when building the thumbnail then fails, the handler appends the placeholder size as well, giving two sizes for one image | "a.jpg" opens at 3000×4000 but its thumbnail fails, and "b.jpg" is 4000×3000: three sizes for two images, and image 1 reads the placeholder and is not landscape | one size per image: the real size when the thumbnail was built, otherwise the placeholder | not executed | ImageProcessing.SizesAsWrittenMisaligned | ImageProcessing.Sizes |
| src/word_generator.py:143-154 | `NamedTemporaryFile(delete=False)` creates the file before `img.save`, but the path is recorded only after the save succeeds; a failed save leaves a file the `finally` block never removes | a save that raises on the first image: the new temporary file stays on disk after `generate` raises | every temporary file created is removed on every way out | not executed | WordGeneration.TempLeakAsWritten | WordGeneration.TempLeakCorrected |
| src/image_processor.py:28-45 | the `try` catches only `UnidentifiedImageError` and `IOError`; another exception raised while opening or verifying a file leaves the loop after earlier files were appended to `images` and `rotations`, and `_create_thumbnails` is never reached | a supported "a.jpg" that verifies, then a supported "b.jpg" whose opening raises the decompression-bomb error: `images` holds one path while `thumbnails` and `original_sizes` stay empty | a file that cannot be opened or verified is skipped, and the four lists stay aligned | not executed | ImageProcessing.EscapeLeavesListsOutOfStep | ImageProcessing.ImageProcessor.LoadImages |
