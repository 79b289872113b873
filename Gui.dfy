/** The thumbnail grid of the main window (`ThumbnailGrid`): how many
    columns fit the canvas, where each tile goes, which tiles are selected,
    and how the grid follows the image collection when images are added,
    rotated, removed or cleared. Also the checks the window makes before it
    starts generating a document. Widgets are reduced to the state the code
    keeps about them: a tile's index, path, thumbnail, check mark and grid
    cell. */
module Gui {
  import opened Wrappers
  import Config
  import opened ImageProcessing

  // ---------------------------------------------------------------------
  // Columns and cells
  // ---------------------------------------------------------------------

  /** Width of one tile: the thumbnail plus its frame. */
  const TileWidth: nat := Config.ThumbnailSide + 20

  /** Horizontal room one tile takes: the tile plus 5 pixels of padding on
      each side. */
  const TileSpan: nat := TileWidth + 10

  /** `_calculate_columns`: as many tiles as fit side by side in the canvas,
      but at least one; a canvas not yet drawn (width 1 or less) gets one. */
  function CalculateColumns(canvasWidth: int): (c: int)
    ensures c >= 1
    ensures canvasWidth < TileSpan ==> c == 1
    ensures canvasWidth >= TileSpan ==> c * TileSpan <= canvasWidth < (c + 1) * TileSpan
  {
    if canvasWidth <= 1 then 1
    else if canvasWidth / TileSpan >= 1 then canvasWidth / TileSpan
    else 1
  }

  /** A wider canvas never gets fewer columns. */
  lemma ColumnsMonotone(narrow: int, wide: int)
    requires narrow <= wide
    ensures CalculateColumns(narrow) <= CalculateColumns(wide)
  {
    var a, b := CalculateColumns(narrow), CalculateColumns(wide);
    if narrow >= TileSpan {
      assert a * TileSpan < (b + 1) * TileSpan;
    }
  }

  datatype GridCell = GridCell(row: nat, column: nat)

  /** Where tile `i` goes in a grid of `columns` columns, filled row by row. */
  function CellOf(i: nat, columns: nat): (cell: GridCell)
    requires columns >= 1
    ensures cell.column < columns
    ensures cell.row * columns + cell.column == i
  {
    GridCell(i / columns, i % columns)
  }

  /** Different tiles never share a cell. */
  lemma CellsDistinct(i: nat, j: nat, columns: nat)
    requires columns >= 1
    ensures CellOf(i, columns) == CellOf(j, columns) <==> i == j
  {
  }

  /** Tiles are laid out in reading order: a later tile is further down, or
      on the same row further right. */
  lemma {:induction false} CellsInReadingOrder(i: nat, j: nat, columns: nat)
    requires columns >= 1 && i < j
    ensures var a, b := CellOf(i, columns), CellOf(j, columns);
      a.row < b.row || (a.row == b.row && a.column < b.column)
  {
    var a, b := CellOf(i, columns), CellOf(j, columns);
    var d := a.row - b.row;
    assert d * columns == (i - a.column) - (j - b.column);
    BelowOneMultiple(d, columns);
  }

  /** A multiple of a positive number below that number has a factor
      below one. */
  lemma BelowOneMultiple(d: int, c: int)
    requires c >= 1 && d * c < c
    ensures d <= 0
  {
  }

  // ---------------------------------------------------------------------
  // Sets of indices
  // ---------------------------------------------------------------------

  /** The indices 0 .. n-1. */
  function Indices(n: nat): (r: set<int>)
    ensures forall x :: x in r <==> 0 <= x < n
    ensures |r| == n
  {
    if n == 0 then {} else Indices(n - 1) + {n - 1}
  }

  /** A non-empty set has a member. */
  lemma HasMember(s: set<int>)
    requires s != {}
    ensures exists x :: x in s
  {
    if forall x :: x !in s {
      assert false;
    }
  }

  /** `list(s)`: the members of a set, each once, in some order. */
  method Elements(s: set<int>) returns (xs: seq<int>)
    ensures Distinct(xs)
    ensures forall x :: x in xs <==> x in s
    ensures |xs| == |s|
  {
    xs := [];
    var rest := s;
    while rest != {}
      invariant rest <= s
      invariant Distinct(xs)
      invariant forall x :: x in xs <==> x in s && x !in rest
      invariant |xs| + |rest| == |s|
      decreases |rest|
    {
      HasMember(rest);
      var x :| x in rest;
      DistinctAppend(xs, x);
      xs := xs + [x];
      rest := rest - {x};
    }
  }

  // ---------------------------------------------------------------------
  // The grid
  // ---------------------------------------------------------------------

  /** One tile: the image it shows (`index`, `path`, `thumbnail`), whether
      its check mark is set, and the grid cell it was placed in (None until
      it is laid out). */
  datatype Tile = Tile(index: nat, path: string, thumbnail: Thumbnail, selected: bool, cell: Option<GridCell>)

  class ThumbnailGrid {
    const processor: ImageProcessor
    var tiles: seq<Tile>
    var selectedIndices: set<int>
    var columns: int

    /** Tile i shows image i, carries a check mark exactly when i is a
        selected index, and sits in cell `CellOf(i, columns)`. */
    ghost predicate Valid()
      reads this, processor
    {
      && columns >= 1
      && processor.Valid()
      && forall i :: 0 <= i < |tiles| ==>
           && tiles[i].index == i
           && (tiles[i].selected <==> i in selectedIndices)
           && tiles[i].cell == Some(CellOf(i, columns))
    }

    /** The tiles show exactly the images of the collection, in order. */
    ghost predicate Mirrors()
      reads this, processor
    {
      && |tiles| == |processor.images| == |processor.thumbnails|
      && forall i :: 0 <= i < |tiles| ==>
           tiles[i].path == processor.images[i] && tiles[i].thumbnail == processor.thumbnails[i]
    }

    constructor(processor: ImageProcessor)
      requires processor.Valid()
      ensures Valid()
      ensures this.processor == processor
      ensures tiles == [] && selectedIndices == {} && columns == 1
    {
      this.processor := processor;
      tiles := [];
      selectedIndices := {};
      columns := 1;
    }

    /** `_layout_tiles`: puts tile i in cell `CellOf(i, columns)`; with no
        tiles it does nothing. */
    method LayoutTiles()
      requires columns >= 1
      modifies this
      ensures columns == old(columns) && selectedIndices == old(selectedIndices)
      ensures |tiles| == |old(tiles)|
      ensures forall i :: 0 <= i < |tiles| ==>
        tiles[i] == old(tiles)[i].(cell := Some(CellOf(i, columns)))
    {
      if tiles == [] {
        return;
      }
      var i := 0;
      while i < |tiles|
        invariant 0 <= i <= |tiles| == |old(tiles)|
        invariant columns == old(columns) && selectedIndices == old(selectedIndices)
        invariant forall k :: 0 <= k < |tiles| ==>
          tiles[k] == if k < i then old(tiles)[k].(cell := Some(CellOf(k, columns))) else old(tiles)[k]
      {
        tiles := tiles[i := tiles[i].(cell := Some(CellOf(i, columns)))];
        i := i + 1;
      }
    }

    /** `_rebuild_all_tiles`: discards every tile and makes one per image
        that has a thumbnail, checked when its index is selected, then lays
        them out. */
    method RebuildAllTiles()
      requires columns >= 1 && processor.Valid()
      modifies this
      ensures Valid() && Mirrors()
      ensures columns == old(columns) && selectedIndices == old(selectedIndices)
    {
      tiles := [];
      var count := processor.GetImageCount();
      var i := 0;
      while i < count
        invariant 0 <= i <= count == |processor.images|
        invariant columns == old(columns) && selectedIndices == old(selectedIndices)
        invariant |tiles| == i
        invariant forall k :: 0 <= k < i ==>
          tiles[k] == Tile(k, processor.images[k], processor.thumbnails[k], k in selectedIndices, None)
      {
        var thumbnail := processor.GetThumbnail(i);
        if thumbnail.Some? {
          var tile := Tile(i, processor.GetImagePaths()[i], thumbnail.value, false, None);
          if i in selectedIndices {
            tile := tile.(selected := true);
          }
          tiles := tiles + [tile];
        }
        i := i + 1;
      }
      LayoutTiles();
    }

    /** `_rebuild_grid`, run when the window is resized: with no images the
        tiles are dropped; otherwise the columns are recomputed and the tiles
        rebuilt only when the column count or the number of images changed. */
    method RebuildGrid(canvasWidth: int)
      requires Valid()
      modifies this
      ensures Valid()
      ensures selectedIndices == old(selectedIndices)
      ensures |processor.images| == 0 ==> tiles == [] && columns == old(columns)
      ensures |processor.images| > 0 ==> columns == CalculateColumns(canvasWidth)
      ensures |processor.images| > 0 ==>
        if CalculateColumns(canvasWidth) != old(columns) || |old(tiles)| != |processor.images|
        then Mirrors()
        else tiles == old(tiles)
      ensures |processor.images| > 0 ==> |tiles| == |processor.images|
    {
      var count := processor.GetImageCount();
      if count == 0 {
        tiles := [];
        return;
      }
      var newColumns := CalculateColumns(canvasWidth);
      if newColumns != columns || |tiles| != count {
        columns := newColumns;
        RebuildAllTiles();
      }
    }

    /** `_on_tile_select`: adds or discards the index and reports how many
        are selected. */
    method OnTileSelect(index: int, selected: bool) returns (reported: nat)
      modifies this
      ensures tiles == old(tiles) && columns == old(columns)
      ensures selectedIndices == if selected then old(selectedIndices) + {index} else old(selectedIndices) - {index}
      ensures reported == |selectedIndices|
    {
      if selected {
        selectedIndices := selectedIndices + {index};
      } else {
        selectedIndices := selectedIndices - {index};
      }
      reported := |selectedIndices|;
    }

    /** A click on tile k (on its picture or its check box) flips its check
        mark and hands the new state to `_on_tile_select`, so the selection
        follows the check marks. */
    method ClickTile(k: int) returns (reported: nat)
      requires Valid() && 0 <= k < |tiles|
      modifies this
      ensures Valid()
      ensures tiles == old(tiles)[k := old(tiles)[k].(selected := !old(tiles)[k].selected)]
      ensures selectedIndices ==
        if old(tiles)[k].selected then old(selectedIndices) - {k} else old(selectedIndices) + {k}
      ensures reported == |selectedIndices|
      ensures columns == old(columns)
    {
      var tile := tiles[k];
      tiles := tiles[k := tile.(selected := !tile.selected)];
      reported := OnTileSelect(tile.index, !tile.selected);
    }

    /** `select_all`: the selection becomes exactly the tile indices, every
        tile is checked, and the reported count is the number of tiles. */
    method SelectAll() returns (reported: nat)
      requires Valid()
      modifies this
      ensures Valid()
      ensures selectedIndices == Indices(|tiles|)
      ensures |tiles| == |old(tiles)|
      ensures forall i :: 0 <= i < |tiles| ==> tiles[i] == old(tiles)[i].(selected := true)
      ensures reported == |tiles|
      ensures columns == old(columns)
    {
      ghost var before := tiles;
      CheckEveryTile();
      forall k | 0 <= k < |tiles|
        ensures tiles[k].index == k && tiles[k].selected && k in selectedIndices
        ensures tiles[k].cell == Some(CellOf(k, columns))
      {
        assert tiles[k] == before[k].(selected := true);
      }
      reported := |selectedIndices|;
    }

    /** The loop of `select_all`: checks tile i and adds i to the
        selection, for every tile in turn. */
    method CheckEveryTile()
      modifies this
      ensures selectedIndices == Indices(|tiles|)
      ensures |tiles| == |old(tiles)|
      ensures forall i :: 0 <= i < |tiles| ==> tiles[i] == old(tiles)[i].(selected := true)
      ensures columns == old(columns)
    {
      selectedIndices := {};
      var i := 0;
      while i < |tiles|
        invariant 0 <= i <= |tiles| == |old(tiles)|
        invariant columns == old(columns)
        invariant selectedIndices == Indices(i)
        invariant forall k :: 0 <= k < i ==> tiles[k] == old(tiles)[k].(selected := true)
        invariant forall k :: i <= k < |tiles| ==> tiles[k] == old(tiles)[k]
      {
        tiles := tiles[i := tiles[i].(selected := true)];
        assert Indices(i + 1) == Indices(i) + {i};
        selectedIndices := selectedIndices + {i};
        i := i + 1;
      }
    }

    /** `remove_selected`: with a selection, removes the selected positions
        from the collection, clears the selection, rebuilds the tiles and
        reports 0; without one it does nothing and reports nothing. */
    method RemoveSelected() returns (reported: Option<nat>)
      requires Valid()
      modifies this, processor
      ensures Valid()
      ensures old(selectedIndices) == {} ==> reported == None && tiles == old(tiles) && selectedIndices == {}
      ensures columns == old(columns)
      ensures old(selectedIndices) == {} ==>
        && processor.images == old(processor.images)
        && processor.rotations == old(processor.rotations)
        && processor.thumbnails == old(processor.thumbnails)
        && processor.originalSizes == old(processor.originalSizes)
      ensures old(selectedIndices) != {} ==>
        && reported == Some(0)
        && selectedIndices == {}
        && Mirrors()
        && processor.images == Keep(old(processor.images), old(selectedIndices))
        && processor.rotations == Keep(old(processor.rotations), old(selectedIndices))
        && processor.thumbnails == Keep(old(processor.thumbnails), old(selectedIndices))
        && processor.originalSizes == Keep(old(processor.originalSizes), old(selectedIndices))
    {
      reported := None;
      if selectedIndices != {} {
        var indices := Elements(selectedIndices);
        assert (set j | j in indices) == selectedIndices;
        processor.RemoveImages(indices);
        selectedIndices := {};
        RebuildAllTiles();
        reported := Some(0);
      }
    }

    /** `clear_all`: empties the collection and the selection, leaves no
        tiles and reports 0. */
    method ClearAll() returns (reported: nat)
      requires Valid()
      modifies this, processor
      ensures Valid()
      ensures processor.images == [] && processor.rotations == []
      ensures processor.thumbnails == [] && processor.originalSizes == []
      ensures tiles == [] && selectedIndices == {} && reported == 0
      ensures columns == old(columns)
    {
      processor.ClearAll();
      selectedIndices := {};
      RebuildAllTiles();
      reported := 0;
    }

    /** `_on_tile_rotate`: turns image `index` a quarter and, when that
        succeeded, rebuilds the tiles; the selection and every tile's check
        mark survive the rebuild. */
    method OnTileRotate(index: int, disk: Disk)
      requires Valid()
      modifies this, processor
      ensures Valid()
      ensures selectedIndices == old(selectedIndices) && columns == old(columns)
      ensures processor.images == old(processor.images)
      ensures 0 <= index < |processor.images| ==>
        && processor.rotations == old(processor.rotations)[index := NextRotation(old(processor.rotations)[index])]
        && processor.thumbnails == Thumbnails(processor.images, processor.rotations, disk)
        && processor.originalSizes == Sizes(processor.images, disk)
        && Mirrors()
      ensures !(0 <= index < |processor.images|) ==>
        && processor.rotations == old(processor.rotations)
        && processor.thumbnails == old(processor.thumbnails)
        && processor.originalSizes == old(processor.originalSizes)
        && tiles == old(tiles)
      ensures |old(tiles)| == |processor.images| ==>
        |tiles| == |old(tiles)| && forall i :: 0 <= i < |tiles| ==> tiles[i].selected == old(tiles)[i].selected
    {
      var ok := processor.RotateImage(index, disk);
      if ok {
        RebuildAllTiles();
      }
    }

    /** `add_images`: loads the paths and, when any was added, recomputes
        the columns for the canvas and rebuilds the tiles; returns the paths
        added. */
    method AddImages(imagePaths: seq<string>, disk: Disk, canvasWidth: int) returns (loaded: seq<string>)
      requires Valid()
      modifies this, processor
      ensures Valid()
      ensures loaded == Admitted(old(processor.images), imagePaths, Acceptable(disk))
      ensures processor.images == old(processor.images) + loaded
      ensures processor.rotations == old(processor.rotations) + Zeros(|loaded|)
      ensures selectedIndices == old(selectedIndices)
      ensures loaded != [] ==>
        && columns == CalculateColumns(canvasWidth)
        && processor.thumbnails == Thumbnails(processor.images, processor.rotations, disk)
        && processor.originalSizes == Sizes(processor.images, disk)
        && Mirrors()
      ensures loaded == [] ==>
        && columns == old(columns)
        && processor.thumbnails == old(processor.thumbnails)
        && processor.originalSizes == old(processor.originalSizes)
        && tiles == old(tiles)
    {
      loaded := processor.LoadImages(imagePaths, disk);
      if loaded != [] {
        columns := CalculateColumns(canvasWidth);
        RebuildAllTiles();
      }
    }
  }

  // ---------------------------------------------------------------------
  // Starting a document
  // ---------------------------------------------------------------------

  /** What `float(...)` makes of the table-width field when it parses:
      a finite number, an infinity or NaN. */
  datatype FloatValue = Finite(x: real) | PlusInfinity | MinusInfinity | NaN

  /** `v <= 0` in floating point; NaN compares false. */
  predicate AtMostZero(v: FloatValue) {
    match v
    case Finite(x) => x <= 0.0
    case MinusInfinity => true
    case PlusInfinity => false
    case NaN => false
  }

  /** `v > 50` in floating point; NaN compares false. */
  predicate AboveFifty(v: FloatValue) {
    match v
    case Finite(x) => x > 50.0
    case PlusInfinity => true
    case MinusInfinity => false
    case NaN => false
  }

  /** Why the window does not start generating: no images, a width field
      that does not read as a number, or a width outside (0, 50]. */
  datatype Refusal = NoPhotos | NotANumber | WidthOutOfRange

  /** The checks of `generate_document`, in order: there must be images,
      the width field must read as a number (`width` is None when it does
      not), and the width must be neither at most 0 nor above 50. NaN passes
      the range check, since every comparison with NaN is false. */
  function CheckGenerateInputs(imageCount: nat, width: Option<FloatValue>): (r: Option<Refusal>)
    ensures r.None? <==>
      && imageCount > 0
      && width.Some?
      && (width.value.NaN? || (width.value.Finite? && 0.0 < width.value.x <= 50.0))
    ensures imageCount == 0 ==> r == Some(NoPhotos)
    ensures imageCount > 0 && width.None? ==> r == Some(NotANumber)
    ensures r == Some(WidthOutOfRange) ==>
      width.Some? && (width.value.PlusInfinity? || width.value.MinusInfinity?
                      || (width.value.Finite? && (width.value.x <= 0.0 || width.value.x > 50.0)))
  {
    if imageCount == 0 then Some(NoPhotos)
    else if width.None? then Some(NotANumber)
    else if AtMostZero(width.value) || AboveFifty(width.value) then Some(WidthOutOfRange)
    else None
  }
}
