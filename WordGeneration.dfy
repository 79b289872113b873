/** The document generator of `word_generator.py`: a two-column table with
    one processed photo and its caption per cell, filled image by image,
    with cancellation from another thread, progress reports, and removal of
    the temporary JPEG files on every way out. */
module WordGeneration {
  import opened Wrappers
  import opened Config
  import Paths
  import opened ImageProcessing

  /** The table always has two columns. */
  const Columns: nat := 2

  /** What `generate` is asked for: orientation, JPEG quality, table width
      in centimetres, and whether a progress callback was given. */
  datatype Request = Request(orientation: string, quality: int, tableWidthCm: real, reportProgress: bool)

  /** Width of one column: the table width split between the two columns. */
  function ColumnWidth(req: Request): real {
    req.tableWidthCm / Columns as real
  }

  /** An image as `process_for_word` returns it: its source, the rotation
      applied and the target width in pixels. */
  datatype ProcessedImage = ProcessedImage(source: string, rotation: int, widthPx: nat)

  /** A table cell: empty, or a picture (stored at `quality`, shown
      `widthCm` wide) with its caption unless adding the caption failed. */
  datatype Cell =
    | Empty
    | Photo(image: ProcessedImage, quality: int, widthCm: real, caption: Option<string>)

  datatype Table = Table(columnWidthCm: real, rows: seq<seq<Cell>>)

  /** A document: its page orientation and the photo table once added. */
  datatype Doc = Doc(landscape: bool, table: Option<Table>)

  /** What goes wrong, if anything, while one image is handled. */
  datatype Fault = NoFault | ProcessFault | TempFault | InsertFault | CaptionFault

  /** Every fault but a failed caption ends the run. */
  predicate Fatal(f: Fault) {
    f == ProcessFault || f == TempFault || f == InsertFault
  }

  /** What the libraries, the disk and the interface thread do during one
      run: whether the document or the table cannot be created, the fault
      at each image, whether a cancel request arrives before the check at
      each image (index `total` meaning after the last check), and whether
      writing the finished document to memory fails. */
  datatype Environment = Environment(
    createFails: bool,
    tableFails: bool,
    fault: nat -> Fault,
    cancelBefore: nat -> bool,
    saveFails: bool)

  /** The exceptions `generate` raises. */
  datatype GenError =
    | DocumentFailed
    | NoImages
    | TableFailed
    | ImageFailed(name: string)
    | TempFailed
    | InsertFailed
    | SaveFailed
    | WriteFailed

  /** The document, `None` for a cancelled run, or the exception raised. */
  datatype GenResult = Generated(doc: Doc) | Cancelled | Failed(error: GenError)

  // ---------------------------------------------------------------------
  // The table
  // ---------------------------------------------------------------------

  /** Rows for `total` images, two per row, rounded up. */
  function RowsNeeded(total: nat): (rows: nat)
    ensures Columns * rows >= total
    ensures Columns * rows < total + Columns
  {
    (total + Columns - 1) / Columns
  }

  /** The cell in position `j` once `cells` are placed: empty past them. */
  function Slot(cells: seq<Cell>, j: int): Cell {
    if 0 <= j < |cells| then cells[j] else Empty
  }

  /** A table of `rows` rows of two cells holding `cells` row by row. */
  function Grid(cells: seq<Cell>, rows: nat): (g: seq<seq<Cell>>)
    ensures |g| == rows
    ensures forall r :: 0 <= r < rows ==> |g[r]| == Columns
  {
    seq(rows, r => [Slot(cells, Columns * r), Slot(cells, Columns * r + 1)])
  }

  /** Cell `j` lands in row `j / 2`, column `j % 2`; every position past
      the placed cells stays empty. */
  lemma GridPlacesCells(cells: seq<Cell>, rows: nat)
    requires |cells| <= Columns * rows
    ensures forall j :: 0 <= j < |cells| ==>
      j / Columns < rows && Grid(cells, rows)[j / Columns][j % Columns] == cells[j]
    ensures forall r, c :: 0 <= r < rows && 0 <= c < Columns && Columns * r + c >= |cells| ==>
      Grid(cells, rows)[r][c] == Empty
  {
    var g := Grid(cells, rows);
    forall j | 0 <= j < |cells| ensures j / Columns < rows && g[j / Columns][j % Columns] == cells[j] {
      GridPlacesCell(cells, rows, j);
    }
    forall r, c | 0 <= r < rows && 0 <= c < Columns && Columns * r + c >= |cells| ensures g[r][c] == Empty {
      assert g[r][c] == Slot(cells, Columns * r + c);
    }
  }

  lemma GridPlacesCell(cells: seq<Cell>, rows: nat, j: nat)
    requires j < |cells| <= Columns * rows
    ensures j / Columns < rows && Grid(cells, rows)[j / Columns][j % Columns] == cells[j]
  {
    var r, c := j / Columns, j % Columns;
    assert j == Columns * r + c;
    assert Grid(cells, rows)[r][c] == Slot(cells, j);
  }

  lemma SlotExtend(cells: seq<Cell>, c: Cell, j: int)
    ensures Slot(cells + [c], j) == if j == |cells| then c else Slot(cells, j)
  {
  }

  /** Placing one more cell changes exactly the position after the others. */
  lemma GridExtend(cells: seq<Cell>, c: Cell, rows: nat)
    requires |cells| < Columns * rows
    ensures |cells| / Columns < rows
    ensures Grid(cells + [c], rows) ==
      Grid(cells, rows)[|cells| / Columns := Grid(cells, rows)[|cells| / Columns][|cells| % Columns := c]]
  {
    var i := |cells|;
    var g := Grid(cells, rows);
    var h := Grid(cells + [c], rows);
    var e := g[i / Columns := g[i / Columns][i % Columns := c]];
    forall r | 0 <= r < rows ensures h[r] == e[r] {
      SlotExtend(cells, c, Columns * r);
      SlotExtend(cells, c, Columns * r + 1);
      if r == i / Columns {
        assert i == Columns * r + i % Columns;
      }
    }
  }

  /** `table.add_row()` repeated: the empty table of `n` rows. */
  method EmptyRows(n: nat) returns (rows: seq<seq<Cell>>)
    ensures rows == Grid([], n)
  {
    rows := [];
    var r := 0;
    while r < n
      invariant 0 <= r <= n
      invariant rows == Grid([], r)
    {
      assert Grid([], r + 1) == Grid([], r) + [[Empty, Empty]];
      rows := rows + [[Empty, Empty]];
      r := r + 1;
    }
  }

  // ---------------------------------------------------------------------
  // The expected run
  // ---------------------------------------------------------------------

  /** The first image, from `i` on, at which the run stops: a cancel
      request seen there or a fatal fault; `total` when there is none. */
  function StopAt(env: Environment, total: nat, i: nat): (s: nat)
    requires i <= total
    ensures i <= s <= total
    ensures s < total ==> env.cancelBefore(s) || Fatal(env.fault(s))
    ensures forall j :: i <= j < s ==> !env.cancelBefore(j) && !Fatal(env.fault(j))
    decreases total - i
  {
    if i == total then total
    else if env.cancelBefore(i) || Fatal(env.fault(i)) then i
    else StopAt(env, total, i + 1)
  }

  /** The cell of image `j`: the processed picture and the caption
      numbering it `j + 1` with its file's stem. */
  function PhotoCell(j: nat, path: string, rotation: int, req: Request, fault: Fault): Cell {
    Photo(ProcessedImage(path, rotation, ImageWidth(req.orientation)), req.quality, ColumnWidth(req),
      if fault == CaptionFault then None else Some(CaptionText(j + 1, Paths.Stem(path))))
  }

  /** The cells of the first `count` images. */
  function PhotoCells(paths: seq<string>, rotations: seq<int>, count: nat, req: Request, env: Environment): (cells: seq<Cell>)
    requires count <= |paths| == |rotations|
    ensures |cells| == count
  {
    seq(count, j requires 0 <= j < count => PhotoCell(j, paths[j], rotations[j], req, env.fault(j)))
  }

  lemma PhotoCellsExtend(paths: seq<string>, rotations: seq<int>, count: nat, req: Request, env: Environment)
    requires count < |paths| == |rotations|
    ensures PhotoCells(paths, rotations, count + 1, req, env) ==
      PhotoCells(paths, rotations, count, req, env) + [PhotoCell(count, paths[count], rotations[count], req, env.fault(count))]
  {
  }

  /** The exception raised for the image the run stops at. */
  function FaultError(f: Fault, path: string): GenError
    requires Fatal(f)
  {
    match f
    case ProcessFault => ImageFailed(Paths.Name(path))
    case TempFault => TempFailed
    case InsertFault => InsertFailed
  }

  /** Progress reports after `done` images out of `total`. */
  function Progress(done: nat, total: nat): seq<(nat, nat)> {
    seq(done, k => (k + 1, total))
  }

  lemma ProgressExtend(done: nat, total: nat)
    ensures Progress(done + 1, total) == Progress(done, total) + [(done + 1, total)]
  {
  }

  /** The document the run builds once the table exists. */
  function ExpectedDoc(paths: seq<string>, rotations: seq<int>, req: Request, env: Environment): Doc
    requires |paths| == |rotations|
  {
    var s := StopAt(env, |paths|, 0);
    Doc(req.orientation == "landscape",
      Some(Table(ColumnWidth(req), Grid(PhotoCells(paths, rotations, s, req, env), RowsNeeded(|paths|)))))
  }

  /** What `generate` returns or raises. */
  function ExpectedResult(paths: seq<string>, rotations: seq<int>, req: Request, env: Environment): GenResult
    requires |paths| == |rotations|
  {
    if env.createFails then Failed(DocumentFailed)
    else if paths == [] then Failed(NoImages)
    else if env.tableFails then Failed(TableFailed)
    else
      var s := StopAt(env, |paths|, 0);
      if s < |paths| then
        if env.cancelBefore(s) then Cancelled else Failed(FaultError(env.fault(s), paths[s]))
      else if env.saveFails then Failed(SaveFailed)
      else Generated(ExpectedDoc(paths, rotations, req, env))
  }

  /** A run with no cancel request and no fatal fault before `total`
      reaches the end. */
  lemma {:induction false} NoStopReachesEnd(env: Environment, total: nat, i: nat)
    requires i <= total
    requires forall j :: i <= j < total ==> !env.cancelBefore(j) && !Fatal(env.fault(j))
    ensures StopAt(env, total, i) == total
    decreases total - i
  {
    if i < total {
      NoStopReachesEnd(env, total, i + 1);
    }
  }

  /** A document is produced exactly when there are images, nothing fails
      and no cancel request is seen before the last image; a failed caption
      does not prevent it. In that document, image `j` sits in row `j / 2`,
      column `j % 2`, with caption number `j + 1` unless its caption failed. */
  lemma GeneratedExactly(paths: seq<string>, rotations: seq<int>, req: Request, env: Environment)
    requires |paths| == |rotations|
    ensures ExpectedResult(paths, rotations, req, env).Generated? <==>
      && !env.createFails && paths != [] && !env.tableFails && !env.saveFails
      && forall j :: 0 <= j < |paths| ==> !env.cancelBefore(j) && !Fatal(env.fault(j))
    ensures ExpectedResult(paths, rotations, req, env).Generated? ==>
      var t := ExpectedResult(paths, rotations, req, env).doc.table;
      && t.Some?
      && |t.value.rows| == RowsNeeded(|paths|)
      && forall j :: 0 <= j < |paths| ==>
        j / Columns < |t.value.rows| && t.value.rows[j / Columns][j % Columns] == PhotoCell(j, paths[j], rotations[j], req, env.fault(j))
  {
    var n := |paths|;
    if forall j :: 0 <= j < n ==> !env.cancelBefore(j) && !Fatal(env.fault(j)) {
      NoStopReachesEnd(env, n, 0);
    }
    if ExpectedResult(paths, rotations, req, env).Generated? {
      var cells := PhotoCells(paths, rotations, n, req, env);
      GridPlacesCells(cells, RowsNeeded(n));
    }
  }

  /** A cancel request seen at image `k`, with nothing before it stopping
      the run, ends the run with no document, whatever faults lie ahead. */
  lemma CancelStopsRun(paths: seq<string>, rotations: seq<int>, req: Request, env: Environment, k: nat)
    requires |paths| == |rotations|
    requires !env.createFails && !env.tableFails && k < |paths|
    requires forall j :: 0 <= j < k ==> !env.cancelBefore(j) && !Fatal(env.fault(j))
    requires env.cancelBefore(k)
    ensures ExpectedResult(paths, rotations, req, env) == Cancelled
    ensures |ExpectedDoc(paths, rotations, req, env).table.value.rows| == RowsNeeded(|paths|)
  {
    StopFirst(env, |paths|, k);
  }

  /** The run stops at the first stopping point. */
  lemma {:induction false} StopFirst(env: Environment, total: nat, k: nat)
    requires k < total && (env.cancelBefore(k) || Fatal(env.fault(k)))
    requires forall j :: 0 <= j < k ==> !env.cancelBefore(j) && !Fatal(env.fault(j))
    ensures StopAt(env, total, 0) == k
  {
  }

  /** The cell of image `j` shows the picture of its file, and its caption,
      present unless adding it failed, reads back as the number `j + 1` and
      the (shortened) stem of the file. */
  lemma PhotoCaption(j: nat, path: string, rotation: int, req: Request, fault: Fault)
    ensures var c := PhotoCell(j, path, rotation, req, fault);
      && c.Photo? && c.image.source == path && c.image.rotation == rotation
      && (c.caption.Some? <==> fault != CaptionFault)
      && (c.caption.Some? ==> ParseCaption(c.caption.value) == Some((j + 1, ShortName(Paths.Stem(path)))))
  {
    CaptionRoundTrip(j + 1, Paths.Stem(path));
  }

  /** The same for every placed photo of the table. */
  lemma CaptionsNumberPhotos(paths: seq<string>, rotations: seq<int>, count: nat, req: Request, env: Environment)
    requires count <= |paths| == |rotations|
    ensures forall j :: 0 <= j < count ==>
      var c := PhotoCells(paths, rotations, count, req, env)[j];
      && c.Photo? && c.image.source == paths[j] && c.image.rotation == rotations[j]
      && (c.caption.Some? <==> env.fault(j) != CaptionFault)
      && (c.caption.Some? ==> ParseCaption(c.caption.value) == Some((j + 1, ShortName(Paths.Stem(paths[j])))))
  {
    var cells := PhotoCells(paths, rotations, count, req, env);
    forall j | 0 <= j < count
      ensures var c := cells[j];
        && c.Photo? && c.image.source == paths[j] && c.image.rotation == rotations[j]
        && (c.caption.Some? <==> env.fault(j) != CaptionFault)
        && (c.caption.Some? ==> ParseCaption(c.caption.value) == Some((j + 1, ShortName(Paths.Stem(paths[j])))))
    {
      assert cells[j] == PhotoCell(j, paths[j], rotations[j], req, env.fault(j));
      PhotoCaption(j, paths[j], rotations[j], req, env.fault(j));
    }
  }

  // ---------------------------------------------------------------------
  // Temporary files
  // ---------------------------------------------------------------------

  /** The directory of temporary files; names are drawn from a counter, so
      a new file never reuses the name of one that exists. */
  class TempDir {
    var files: set<nat>
    var next: nat

    ghost predicate Valid()
      reads this
    {
      forall f :: f in files ==> f < next
    }

    constructor()
      ensures Valid() && files == {} && next == 0
    {
      files, next := {}, 0;
    }

    /** `NamedTemporaryFile(delete=False)`: the file exists from here on. */
    method Create() returns (name: nat)
      requires Valid()
      modifies this
      ensures Valid()
      ensures name == old(next) && next == old(next) + 1
      ensures files == old(files) + {name}
    {
      name := next;
      files := files + {name};
      next := next + 1;
    }

    /** `if os.path.exists(p): os.unlink(p)` */
    method RemoveIfExists(name: nat)
      modifies this
      ensures files == old(files) - {name} && next == old(next)
    {
      if name in files {
        files := files - {name};
      }
    }
  }

  /** Saving a processed image to a new temporary file, recording the file
      before the write so that a failed write still leaves it listed for
      removal. */
  method StoreTemp(tmp: TempDir, temps: seq<nat>, writeFails: bool) returns (temps': seq<nat>, ok: bool)
    requires tmp.Valid()
    modifies tmp
    ensures tmp.Valid()
    ensures temps' == temps + [old(tmp.next)] && tmp.next == old(tmp.next) + 1
    ensures tmp.files == old(tmp.files) + {old(tmp.next)}
    ensures ok == !writeFails
  {
    var name := tmp.Create();
    temps' := temps + [name];
    ok := !writeFails;
  }

  /** The same step in the order of the original code: the file is created,
      then written, and recorded only when the write succeeds. */
  method StoreTempAsWritten(tmp: TempDir, temps: seq<nat>, writeFails: bool) returns (temps': seq<nat>, ok: bool)
    requires tmp.Valid()
    modifies tmp
    ensures tmp.Valid()
    ensures temps' == (if writeFails then temps else temps + [old(tmp.next)])
    ensures tmp.files == old(tmp.files) + {old(tmp.next)}
    ensures ok == !writeFails
  {
    var name := tmp.Create();
    if writeFails {
      temps', ok := temps, false;
    } else {
      temps', ok := temps + [name], true;
    }
  }

  /** The `finally` block: every recorded file that still exists is removed. */
  method RemoveTemps(tmp: TempDir, temps: seq<nat>)
    requires tmp.Valid()
    modifies tmp
    ensures tmp.Valid()
    ensures tmp.files == old(tmp.files) - Members(temps) && tmp.next == old(tmp.next)
  {
    var k := 0;
    while k < |temps|
      invariant 0 <= k <= |temps|
      invariant tmp.Valid() && tmp.next == old(tmp.next)
      invariant tmp.files == old(tmp.files) - Members(temps[..k])
    {
      assert Members(temps[..k + 1]) == Members(temps[..k]) + {temps[k]} by {
        assert temps[..k + 1] == temps[..k] + [temps[k]];
      }
      tmp.RemoveIfExists(temps[k]);
      k := k + 1;
    }
    assert temps[..k] == temps;
  }

  /** A failed write in the original order leaves its temporary file on
      disk after the clean-up. */
  method TempLeakAsWritten() returns (leftover: set<nat>)
    ensures leftover == {0}
  {
    var tmp := new TempDir();
    var temps, ok := StoreTempAsWritten(tmp, [], true);
    RemoveTemps(tmp, temps);
    leftover := tmp.files;
  }

  /** Recording the file first, the same failed write leaves nothing. */
  method TempLeakCorrected() returns (leftover: set<nat>)
    ensures leftover == {}
  {
    var tmp := new TempDir();
    var temps, ok := StoreTemp(tmp, [], true);
    RemoveTemps(tmp, temps);
    leftover := tmp.files;
  }

  /** What handling one image ends in: its cell, or the exception. */
  datatype Step = Placed(cell: Cell) | Stopped(error: GenError)

  /** One image of the loop: processing it, saving it to a temporary file,
      inserting the picture and adding the caption. */
  method HandleImage(j: nat, path: string, rotation: int, req: Request, fault: Fault, tmp: TempDir, temps: seq<nat>)
    returns (temps': seq<nat>, step: Step)
    requires tmp.Valid()
    modifies tmp
    ensures tmp.Valid()
    ensures Fatal(fault) ==> step == Stopped(FaultError(fault, path))
    ensures !Fatal(fault) ==> step == Placed(PhotoCell(j, path, rotation, req, fault))
    ensures fault == ProcessFault ==>
      temps' == temps && tmp.files == old(tmp.files) && tmp.next == old(tmp.next)
    ensures fault != ProcessFault ==>
      && temps' == temps + [old(tmp.next)] && tmp.next == old(tmp.next) + 1
      && tmp.files == old(tmp.files) + {old(tmp.next)}
  {
    if fault == ProcessFault {
      return temps, Stopped(ImageFailed(Paths.Name(path)));
    }
    var ok;
    temps', ok := StoreTemp(tmp, temps, fault == TempFault);
    if !ok {
      return temps', Stopped(TempFailed);
    }
    if fault == InsertFault {
      return temps', Stopped(InsertFailed);
    }
    // a failed caption is only logged: the cell keeps its picture
    step := Placed(PhotoCell(j, path, rotation, req, fault));
  }

  // ---------------------------------------------------------------------
  // Written files
  // ---------------------------------------------------------------------

  /** The files `save_to_file` writes, by path. */
  class FileStore {
    var contents: map<string, Doc>

    constructor()
      ensures contents == map[]
    {
      contents := map[];
    }

    method Write(path: string, doc: Doc)
      modifies this
      ensures contents == old(contents)[path := doc]
    {
      contents := contents[path := doc];
    }
  }

  /** What `save_to_file` returns or raises. */
  datatype SaveResult = Saved | NotSaved | Raised(error: GenError)

  // ---------------------------------------------------------------------
  // The generator
  // ---------------------------------------------------------------------

  class WordGenerator {
    const processor: ImageProcessor
    var document: Option<Doc>
    var cancelRequested: bool
    var tableWidthCm: Option<real>

    constructor(processor: ImageProcessor)
      ensures this.processor == processor
      ensures document == None && !cancelRequested && tableWidthCm == None
    {
      this.processor := processor;
      document, cancelRequested, tableWidthCm := None, false, None;
    }

    /** `cancel`: asks the running generation to stop at its next check. */
    method Cancel()
      modifies this
      ensures cancelRequested
      ensures document == old(document) && tableWidthCm == old(tableWidthCm)
    {
      cancelRequested := true;
    }

    /** `create_document`: a new document, turned to landscape only for the
        exact string "landscape"; the table width is kept for `generate`. */
    method CreateDocument(orientation: string, widthCm: real, fails: bool) returns (ok: bool)
      modifies this
      ensures ok == !fails && cancelRequested == old(cancelRequested)
      ensures ok ==> document == Some(Doc(orientation == "landscape", None)) && tableWidthCm == Some(widthCm)
      ensures !ok ==> document == old(document) && tableWidthCm == old(tableWidthCm)
    {
      if fails {
        return false;
      }
      document := Some(Doc(orientation == "landscape", None));
      tableWidthCm := Some(widthCm);
      ok := true;
    }

    /** `generate`: the result is the expected one, the document holds the
        table as far as the run got, the progress reports count the images
        placed, and every temporary file made during the run is gone. */
    method Generate(req: Request, env: Environment, tmp: TempDir) returns (result: GenResult, progress: seq<(nat, nat)>)
      requires processor.Valid() && tmp.Valid()
      modifies this, tmp
      ensures tmp.Valid() && tmp.files == old(tmp.files)
      ensures result == ExpectedResult(processor.images, processor.rotations, req, env)
      ensures env.createFails ==> document == old(document) && progress == [] && !cancelRequested
      ensures env.createFails ==> tableWidthCm == old(tableWidthCm)
      ensures !env.createFails ==> tableWidthCm == Some(req.tableWidthCm)
      ensures !env.createFails && (processor.images == [] || env.tableFails) ==>
        document == Some(Doc(req.orientation == "landscape", None)) && progress == [] && !cancelRequested
      ensures !env.createFails && processor.images != [] && !env.tableFails ==>
        var n := |processor.images|;
        var s := StopAt(env, n, 0);
        && document == Some(ExpectedDoc(processor.images, processor.rotations, req, env))
        && progress == (if req.reportProgress then Progress(s, n) else [])
        && cancelRequested == env.cancelBefore(s)
    {
      cancelRequested := false;
      progress := [];
      var created := CreateDocument(req.orientation, req.tableWidthCm, env.createFails);
      if !created {
        return Failed(DocumentFailed), [];
      }
      var paths := processor.GetImagePaths();
      var total := |paths|;
      if total == 0 {
        return Failed(NoImages), [];
      }
      // `get_rotation(i)` for every index of the list is the list itself
      var rotations := processor.rotations;
      if env.tableFails {
        return Failed(TableFailed), [];
      }
      result, progress := RunTable(paths, rotations, req, env, tmp);
    }

    /** `generate` once the document exists and there are images: the
        table gets its rows, is filled, the result is settled, and every
        temporary file made on the way is removed. */
    method RunTable(paths: seq<string>, rotations: seq<int>, req: Request, env: Environment, tmp: TempDir)
      returns (result: GenResult, progress: seq<(nat, nat)>)
      requires |paths| == |rotations| && paths != []
      requires !env.createFails && !env.tableFails
      requires tmp.Valid() && !cancelRequested
      requires document == Some(Doc(req.orientation == "landscape", None))
      modifies this, tmp
      ensures tmp.Valid() && tmp.files == old(tmp.files)
      ensures tableWidthCm == old(tableWidthCm)
      ensures result == ExpectedResult(paths, rotations, req, env)
      ensures var s := StopAt(env, |paths|, 0);
        && document == Some(ExpectedDoc(paths, rotations, req, env))
        && progress == (if req.reportProgress then Progress(s, |paths|) else [])
        && cancelRequested == env.cancelBefore(s)
    {
      var total := |paths|;
      var landscape := req.orientation == "landscape";
      var rowsNeeded := (total + Columns - 1) / Columns;
      var rows := EmptyRows(rowsNeeded);
      document := Some(Doc(landscape, Some(Table(ColumnWidth(req), rows))));

      ghost var filesBefore, nextBefore := tmp.files, tmp.next;
      var stop, temps;
      stop, temps, progress := FillTable(paths, rotations, req, env, tmp, landscape, rowsNeeded);
      assert filesBefore !! Members(temps) by {
        forall t | t in Members(temps) ensures t !in filesBefore {
          assert t >= nextBefore;
        }
      }
      if stop.Some? {
        result := stop.value;
      } else {
        // a request arriving after the last check no longer stops the run
        if env.cancelBefore(total) {
          Cancel();
        }
        result := if env.saveFails then Failed(SaveFailed) else Generated(document.value);
      }
      RemoveTemps(tmp, temps);
      assert tmp.files == filesBefore;
    }

    /** `table.rows[i // 2].cells[i % 2]` receives the next picture. */
    method PlaceCell(i: nat, ghost cells: seq<Cell>, cell: Cell, rowsNeeded: nat)
      requires i == |cells| < Columns * rowsNeeded
      requires document.Some? && document.value.table.Some?
      requires document.value.table.value.rows == Grid(cells, rowsNeeded)
      modifies this
      ensures document == Some(Doc(old(document).value.landscape,
        Some(Table(old(document).value.table.value.columnWidthCm, Grid(cells + [cell], rowsNeeded)))))
      ensures cancelRequested == old(cancelRequested) && tableWidthCm == old(tableWidthCm)
    {
      var doc := document.value;
      var rows := doc.table.value.rows;
      GridExtend(cells, cell, rowsNeeded);
      rows := rows[i / Columns := rows[i / Columns][i % Columns := cell]];
      document := Some(Doc(doc.landscape, Some(Table(doc.table.value.columnWidthCm, rows))));
    }

    /** One pass of the loop of `generate`: the cancel check, then the
        image handled and its cell placed. */
    method ImageStep(i: nat, paths: seq<string>, rotations: seq<int>, req: Request, env: Environment, tmp: TempDir,
                     temps: seq<nat>, ghost cells: seq<Cell>, landscape: bool, rowsNeeded: nat,
                     ghost base: set<nat>, ghost floor: nat)
      returns (temps': seq<nat>, stop: Option<GenResult>)
      requires i < |paths| == |rotations| <= Columns * rowsNeeded && i == |cells|
      requires tmp.Valid() && !cancelRequested
      requires tmp.files == base + Members(temps) && tmp.next >= floor
      requires forall t :: t in temps ==> t >= floor
      requires document == Some(Doc(landscape, Some(Table(ColumnWidth(req), Grid(cells, rowsNeeded)))))
      modifies this, tmp
      ensures tableWidthCm == old(tableWidthCm)
      ensures cancelRequested == env.cancelBefore(i)
      ensures stop.Some? <==> env.cancelBefore(i) || Fatal(env.fault(i))
      ensures stop.Some? ==>
        && stop.value == (if env.cancelBefore(i) then Cancelled else Failed(FaultError(env.fault(i), paths[i])))
        && document == old(document)
      ensures stop.None? ==>
        document == Some(Doc(landscape, Some(Table(ColumnWidth(req),
          Grid(cells + [PhotoCell(i, paths[i], rotations[i], req, env.fault(i))], rowsNeeded)))))
      ensures tmp.Valid() && tmp.next >= floor
      ensures tmp.files == base + Members(temps')
      ensures forall t :: t in temps' ==> t >= floor
    {
      if env.cancelBefore(i) {
        Cancel();
      }
      if cancelRequested {
        return temps, Some(Cancelled);
      }
      var step;
      temps', step := HandleImage(i, paths[i], rotations[i], req, env.fault(i), tmp, temps);
      if temps' != temps {
        assert Members(temps') == Members(temps) + {temps'[|temps|]} by {
          assert temps' == temps + [temps'[|temps|]];
        }
      }
      match step {
        case Stopped(e) =>
          stop := Some(Failed(e));
        case Placed(cell) =>
          PlaceCell(i, cells, cell, rowsNeeded);
          stop := None;
      }
    }

    /** The loop of `generate`: before each image the cancel flag is
        checked; each image is then handled and placed, and reported when a
        progress callback was given. The run stops at the first cancel
        request seen or fatal fault, with the table filled up to there. */
    method FillTable(paths: seq<string>, rotations: seq<int>, req: Request, env: Environment, tmp: TempDir,
                     landscape: bool, rowsNeeded: nat)
      returns (stop: Option<GenResult>, temps: seq<nat>, progress: seq<(nat, nat)>)
      requires |paths| == |rotations| && |paths| <= Columns * rowsNeeded
      requires tmp.Valid() && !cancelRequested
      requires document == Some(Doc(landscape, Some(Table(ColumnWidth(req), Grid([], rowsNeeded)))))
      modifies this, tmp
      ensures tableWidthCm == old(tableWidthCm)
      ensures var total := |paths|;
        var s := StopAt(env, total, 0);
        && document == Some(Doc(landscape, Some(Table(ColumnWidth(req), Grid(PhotoCells(paths, rotations, s, req, env), rowsNeeded)))))
        && progress == (if req.reportProgress then Progress(s, total) else [])
        && (s == total ==> stop == None && !cancelRequested)
        && (s < total ==> stop == Some(if env.cancelBefore(s) then Cancelled else Failed(FaultError(env.fault(s), paths[s]))))
        && (s < total ==> cancelRequested == env.cancelBefore(s))
      ensures tmp.Valid() && tmp.next >= old(tmp.next)
      ensures tmp.files == old(tmp.files) + Members(temps)
      ensures forall t :: t in temps ==> t >= old(tmp.next)
    {
      var total := |paths|;
      temps, progress := [], [];
      ghost var cells: seq<Cell> := [];
      stop := None;
      var i := 0;
      while i < total && stop == None
        invariant 0 <= i <= total
        invariant StopAt(env, total, i) == StopAt(env, total, 0)
        invariant stop.Some? ==> i < total && StopAt(env, total, i) == i
        invariant stop.Some? ==> stop.value == (if env.cancelBefore(i) then Cancelled else Failed(FaultError(env.fault(i), paths[i])))
        invariant cancelRequested == (stop.Some? && env.cancelBefore(i))
        invariant cells == PhotoCells(paths, rotations, i, req, env)
        invariant document == Some(Doc(landscape, Some(Table(ColumnWidth(req), Grid(cells, rowsNeeded)))))
        invariant tableWidthCm == old(tableWidthCm)
        invariant progress == (if req.reportProgress then Progress(i, total) else [])
        invariant tmp.Valid() && tmp.next >= old(tmp.next)
        invariant tmp.files == old(tmp.files) + Members(temps)
        invariant forall t :: t in temps ==> t >= old(tmp.next)
        decreases total - i, if stop.Some? then 0 else 1
      {
        temps, stop := ImageStep(i, paths, rotations, req, env, tmp, temps, cells, landscape, rowsNeeded,
          old(tmp.files), old(tmp.next));
        if stop == None {
          assert StopAt(env, total, i) == StopAt(env, total, i + 1);
          PhotoCellsExtend(paths, rotations, i, req, env);
          ProgressExtend(i, total);
          cells := cells + [PhotoCell(i, paths[i], rotations[i], req, env.fault(i))];
          if req.reportProgress {
            progress := progress + [(i + 1, total)];
          }
          i := i + 1;
        }
      }
      assert i == StopAt(env, total, 0);
    }

    /** `save_to_file`: writes the generated document and answers true; a
        cancelled run writes nothing and answers false; an exception from
        the generation or the write propagates. */
    method SaveToFile(filepath: string, req: Request, env: Environment, writeFails: bool, tmp: TempDir, store: FileStore)
      returns (saved: SaveResult)
      requires processor.Valid() && tmp.Valid()
      modifies this, tmp, store
      ensures tmp.Valid() && tmp.files == old(tmp.files)
      ensures var expected := ExpectedResult(old(processor.images), old(processor.rotations), req, env);
        match expected
        case Generated(doc) =>
          if writeFails then saved == Raised(WriteFailed) && store.contents == old(store.contents)
          else saved == Saved && store.contents == old(store.contents)[filepath := doc]
        case Cancelled => saved == NotSaved && store.contents == old(store.contents)
        case Failed(e) => saved == Raised(e) && store.contents == old(store.contents)
    {
      var result, progress := Generate(req, env, tmp);
      match result
      case Generated(doc) =>
        if writeFails {
          saved := Raised(WriteFailed);
        } else {
          store.Write(filepath, doc);
          saved := Saved;
        }
      case Cancelled =>
        saved := NotSaved;
      case Failed(e) =>
        saved := Raised(e);
    }
  }
}
