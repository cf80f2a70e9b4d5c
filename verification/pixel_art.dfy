/**
 * Pixel Art Studio: a 30 x 30 grid of coloured cells painted with a pencil,
 * an eraser or a flood-fill bucket.  The canvas widgets are not modelled;
 * what is modelled is the application's own state: the current colour, the
 * drawing mode, the grid flag, the drag flag and the pixel store, which maps
 * a grid cell to its colour and holds no entry for an empty (white) cell.
 */
module PixelArt {

  const CanvasSize := 600
  const PixelGridSize := 30
  /** CANVAS_SIZE // PIXEL_GRID_SIZE, written out (see PixelSizeDerived). */
  const PixelSize := 20
  const Eraser := "#FFFFFF"
  const Black := "#000000"

  lemma PixelSizeDerived()
    ensures PixelSize == CanvasSize / PixelGridSize
  {
  }

  /** A grid cell (column, row). */
  type Cell = (int, int)

  datatype Mode = Draw | Erase | Fill

  // ---------------------------------------------------------------------
  // Cells and the pixel store
  // ---------------------------------------------------------------------

  predicate InGrid(c: Cell)
  {
    0 <= c.0 < PixelGridSize && 0 <= c.1 < PixelGridSize
  }

  /** Every cell of the grid. */
  ghost function GridCells(): (cells: set<Cell>)
    ensures forall c :: InGrid(c) ==> c in cells
  {
    set i, j | 0 <= i < PixelGridSize && 0 <= j < PixelGridSize :: (i, j)
  }

  /** `a` and `b` differ by one step along exactly one axis: the fill is 4-connected. */
  predicate Adjacent(a: Cell, b: Cell)
  {
    || (a.0 == b.0 && (a.1 - b.1 == 1 || b.1 - a.1 == 1))
    || (a.1 == b.1 && (a.0 - b.0 == 1 || b.0 - a.0 == 1))
  }

  /** The four neighbours in the order the fill enqueues them: east, west, south, north. */
  function Neighbors(c: Cell): (ns: seq<Cell>)
    ensures |ns| == 4
    ensures forall b :: b in ns <==> Adjacent(c, b)
  {
    [(c.0 + 1, c.1), (c.0 - 1, c.1), (c.0, c.1 + 1), (c.0, c.1 - 1)]
  }

  lemma AdjacentSymmetric(a: Cell, b: Cell)
    ensures Adjacent(a, b) <==> Adjacent(b, a)
  {
  }

  /**
   * get_grid_coords: the cell under a canvas point.  Python's `//` floors,
   * and so does Dafny's `/` for a positive divisor.
   */
  function GetGridCoords(x: int, y: int): (c: Cell)
    ensures PixelSize * c.0 <= x < PixelSize * c.0 + PixelSize
    ensures PixelSize * c.1 <= y < PixelSize * c.1 + PixelSize
  {
    (x / PixelSize, y / PixelSize)
  }

  /** A point lies on the canvas exactly when the cell under it lies in the grid. */
  lemma GridCoordsOnCanvas(x: int, y: int)
    ensures InGrid(GetGridCoords(x, y)) <==> 0 <= x < CanvasSize && 0 <= y < CanvasSize
  {
  }

  /** get_pixel_color: the stored colour, or white for a cell never painted. */
  function GetPixelColor(pixels: map<Cell, string>, c: Cell): (color: string)
    ensures c !in pixels ==> color == Eraser
    ensures c in pixels ==> color == pixels[c]
  {
    if c in pixels then pixels[c] else Eraser
  }

  /**
   * draw_pixel paints whatever cell lies under the pointer, so a drag that
   * leaves the canvas stores a colour under a key outside the grid.
   */
  lemma DragOffCanvasStoresOffGrid(pixels: map<Cell, string>, x: int, y: int, color: string)
    requires !(0 <= x < CanvasSize && 0 <= y < CanvasSize) && color != Eraser
    ensures !InGrid(GetGridCoords(x, y))
    ensures GetGridCoords(x, y) in Painted(pixels, GetGridCoords(x, y), color)
  {
    GridCoordsOnCanvas(x, y);
  }

  /** The store never holds white: erasing a cell removes its entry. */
  predicate NoEraserStored(pixels: map<Cell, string>)
  {
    forall c :: c in pixels ==> pixels[c] != Eraser
  }

  /** The store after update_pixel_state paints `c` with `color`. */
  function Painted(pixels: map<Cell, string>, c: Cell, color: string): (r: map<Cell, string>)
    ensures c in r <==> color != Eraser
    ensures c in r ==> r[c] == color
    ensures forall d :: d != c ==> (d in r <==> d in pixels) && (d in r ==> r[d] == pixels[d])
  {
    if color == Eraser then pixels - {c} else pixels[c := color]
  }

  /** Painting sets the colour of its cell, leaves every other cell's colour alone and keeps white out of the store. */
  lemma PaintedReadBack(pixels: map<Cell, string>, c: Cell, color: string)
    ensures GetPixelColor(Painted(pixels, c, color), c) == color
    ensures forall d :: d != c ==> GetPixelColor(Painted(pixels, c, color), d) == GetPixelColor(pixels, d)
    ensures NoEraserStored(pixels) ==> NoEraserStored(Painted(pixels, c, color))
  {
  }

  /** A store that holds no white is determined by the colours it shows. */
  lemma ColorsDetermineStore(p1: map<Cell, string>, p2: map<Cell, string>)
    requires NoEraserStored(p1) && NoEraserStored(p2)
    requires forall c :: GetPixelColor(p1, c) == GetPixelColor(p2, c)
    ensures p1 == p2
  {
    forall c | c in p1
      ensures c in p2 && p1[c] == p2[c]
    {
      assert GetPixelColor(p1, c) == GetPixelColor(p2, c);
    }
    forall c | c in p2
      ensures c in p1
    {
      assert GetPixelColor(p1, c) == GetPixelColor(p2, c);
    }
  }

  // ---------------------------------------------------------------------
  // The region a flood fill covers
  // ---------------------------------------------------------------------

  /** A chain of adjacent in-grid cells, all of colour `target` in `pixels`. */
  ghost predicate IsFillPath(pixels: map<Cell, string>, target: string, p: seq<Cell>)
  {
    && |p| >= 1
    && (forall i :: 0 <= i < |p| ==> InGrid(p[i]) && GetPixelColor(pixels, p[i]) == target)
    && (forall i :: 0 <= i < |p| - 1 ==> Adjacent(p[i], p[i + 1]))
  }

  /** `c` is connected to `s` through in-grid cells of the colour of `s`. */
  ghost predicate Reachable(pixels: map<Cell, string>, s: Cell, c: Cell)
  {
    exists p :: IsFillPath(pixels, GetPixelColor(pixels, s), p) && p[0] == s && p[|p| - 1] == c
  }

  /** The colour cell `c` shows after flooding from `s` with `fill`. */
  ghost function FilledColor(pixels: map<Cell, string>, s: Cell, fill: string, c: Cell): string
  {
    if GetPixelColor(pixels, s) != fill && Reachable(pixels, s, c) then fill else GetPixelColor(pixels, c)
  }

  /** A set of cells closed under stepping to adjacent in-grid cells of colour `target`. */
  ghost predicate ClosedUnder(pixels: map<Cell, string>, target: string, region: set<Cell>)
  {
    forall a, b :: a in region && Adjacent(a, b) && InGrid(b) && GetPixelColor(pixels, b) == target ==> b in region
  }

  /** A closed region that holds the start of a fill path holds its end. */
  lemma {:induction false} ClosedRegionHoldsPathEnd(pixels: map<Cell, string>, target: string, region: set<Cell>, p: seq<Cell>)
    requires IsFillPath(pixels, target, p)
    requires ClosedUnder(pixels, target, region)
    requires p[0] in region
    ensures p[|p| - 1] in region
  {
    if |p| > 1 {
      var q := p[..|p| - 1];
      assert IsFillPath(pixels, target, q);
      ClosedRegionHoldsPathEnd(pixels, target, region, q);
      assert Adjacent(p[|p| - 2], p[|p| - 1]);
    }
  }

  /** A fill path extended by an adjacent in-grid cell of the same colour is a fill path. */
  lemma ExtendFillPath(pixels: map<Cell, string>, target: string, p: seq<Cell>, c: Cell)
    requires IsFillPath(pixels, target, p)
    requires Adjacent(p[|p| - 1], c) && InGrid(c) && GetPixelColor(pixels, c) == target
    ensures IsFillPath(pixels, target, p + [c])
  {
    var q := p + [c];
    forall i | 0 <= i < |q| - 1
      ensures Adjacent(q[i], q[i + 1])
    {
      if i < |p| - 1 {
        assert q[i] == p[i] && q[i + 1] == p[i + 1];
      }
    }
  }

  /** The reverse of a fill path, for ReachableSymmetric. */
  function Reversed(p: seq<Cell>): (r: seq<Cell>)
    ensures |r| == |p|
    ensures forall i :: 0 <= i < |p| ==> r[i] == p[|p| - 1 - i]
  {
    if |p| == 0 then [] else Reversed(p[1..]) + [p[0]]
  }

  /** Connectivity is symmetric: the region filled from `s` is the region filled from any cell in it. */
  lemma ReachableSymmetric(pixels: map<Cell, string>, s: Cell, c: Cell)
    requires Reachable(pixels, s, c)
    ensures Reachable(pixels, c, s)
    ensures GetPixelColor(pixels, c) == GetPixelColor(pixels, s)
  {
    var target := GetPixelColor(pixels, s);
    var p :| IsFillPath(pixels, target, p) && p[0] == s && p[|p| - 1] == c;
    var r := Reversed(p);
    assert GetPixelColor(pixels, c) == target;
    forall i | 0 <= i < |r| - 1
      ensures Adjacent(r[i], r[i + 1])
    {
      var j := |p| - 2 - i;
      assert r[i] == p[j + 1] && r[i + 1] == p[j];
      assert Adjacent(p[j], p[j + 1]);
      AdjacentSymmetric(p[j], p[j + 1]);
    }
    assert IsFillPath(pixels, GetPixelColor(pixels, c), r);
  }

  // ---------------------------------------------------------------------
  // The flood fill's loop invariant
  // ---------------------------------------------------------------------

  /** The path recorded for a newly painted cell: its own, or the path to the painted neighbour it was queued from, extended. */
  ghost function PathTo(paths: map<Cell, seq<Cell>>, start: Cell, from: Cell, c: Cell): seq<Cell>
  {
    if c == start || from !in paths then [c] else paths[from] + [c]
  }

  /** Exactly the cells in `paths` show the fill colour; every other cell shows its original colour. */
  ghost predicate ShowsPainted(original: map<Cell, string>, fill: string,
                               pixels: map<Cell, string>, paths: map<Cell, seq<Cell>>)
  {
    forall c :: GetPixelColor(pixels, c) == if c in paths then fill else GetPixelColor(original, c)
  }

  /** Every painted cell carries a fill path from the start to itself. */
  ghost predicate PathsFromStart(original: map<Cell, string>, start: Cell, target: string, paths: map<Cell, seq<Cell>>)
  {
    forall c :: c in paths ==>
      IsFillPath(original, target, paths[c]) && paths[c][0] == start && paths[c][|paths[c]| - 1] == c
  }

  /** Each queued cell is the start or was queued from a painted neighbour, recorded in `via`. */
  ghost predicate QueuedFromPainted(start: Cell, paths: map<Cell, seq<Cell>>, queue: seq<Cell>, via: seq<Cell>)
  {
    && |via| == |queue|
    && (forall i :: 0 <= i < |queue| ==> queue[i] == start || (via[i] in paths && Adjacent(via[i], queue[i])))
  }

  /** Every in-grid neighbour of a painted cell that had the target colour is painted or still queued. */
  ghost predicate FrontierQueued(original: map<Cell, string>, target: string, paths: map<Cell, seq<Cell>>, queue: seq<Cell>)
  {
    forall a, b :: a in paths && Adjacent(a, b) && InGrid(b) && GetPixelColor(original, b) == target ==>
      b in paths || b in queue
  }

  /**
   * The state of the breadth-first fill from `start` over `original`:
   * exactly the cells in `paths` are recoloured, each with a fill path
   * from the start; each queued cell is the start or neighbours a painted
   * cell; every unpainted in-grid cell is in `unpainted`; and every
   * in-grid neighbour of a painted cell that had the target colour is
   * painted or still queued, as is the start.
   */
  ghost predicate FillState(original: map<Cell, string>, start: Cell, target: string, fill: string,
                            pixels: map<Cell, string>, paths: map<Cell, seq<Cell>>,
                            queue: seq<Cell>, via: seq<Cell>, unpainted: set<Cell>)
  {
    && GetPixelColor(original, start) == target
    && target != fill
    && NoEraserStored(pixels)
    && ShowsPainted(original, fill, pixels, paths)
    && PathsFromStart(original, start, target, paths)
    && (forall c :: InGrid(c) && c !in paths ==> c in unpainted)
    && QueuedFromPainted(start, paths, queue, via)
    && FrontierQueued(original, target, paths, queue)
    && (InGrid(start) ==> start in paths || start in queue)
  }

  /** The fill starts with nothing painted and the start cell queued. */
  lemma FillStarts(original: map<Cell, string>, start: Cell, fill: string)
    requires NoEraserStored(original)
    requires GetPixelColor(original, start) != fill
    ensures FillState(original, start, GetPixelColor(original, start), fill, original, map[], [start], [start], GridCells())
  {
  }

  /** Dropping a queued cell that is off the grid or not of the target colour keeps the invariant. */
  lemma FillSkipKeeps(original: map<Cell, string>, start: Cell, target: string, fill: string,
                      pixels: map<Cell, string>, paths: map<Cell, seq<Cell>>,
                      queue: seq<Cell>, via: seq<Cell>, unpainted: set<Cell>)
    requires FillState(original, start, target, fill, pixels, paths, queue, via, unpainted)
    requires |queue| > 0
    requires !InGrid(queue[0]) || GetPixelColor(pixels, queue[0]) != target
    ensures FillState(original, start, target, fill, pixels, paths, queue[1..], via[1..], unpainted)
  {
    assert queue == [queue[0]] + queue[1..];
  }

  /** Painting a dequeued target cell keeps ShowsPainted once the cell is recorded in `paths`. */
  lemma PaintShows(original: map<Cell, string>, fill: string, pixels: map<Cell, string>,
                   paths: map<Cell, seq<Cell>>, cell: Cell, path: seq<Cell>)
    requires ShowsPainted(original, fill, pixels, paths)
    ensures ShowsPainted(original, fill, Painted(pixels, cell, fill), paths[cell := path])
  {
    PaintedReadBack(pixels, cell, fill);
    var pixels', paths' := Painted(pixels, cell, fill), paths[cell := path];
    forall c
      ensures GetPixelColor(pixels', c) == if c in paths' then fill else GetPixelColor(original, c)
    {
      if c != cell {
        assert GetPixelColor(pixels', c) == GetPixelColor(pixels, c);
      }
    }
  }

  /** Recording a fill path for a newly painted cell keeps PathsFromStart. */
  lemma PaintPaths(original: map<Cell, string>, start: Cell, target: string,
                   paths: map<Cell, seq<Cell>>, cell: Cell, path: seq<Cell>)
    requires PathsFromStart(original, start, target, paths)
    requires IsFillPath(original, target, path) && path[0] == start && path[|path| - 1] == cell
    ensures PathsFromStart(original, start, target, paths[cell := path])
  {
    var paths' := paths[cell := path];
    forall c | c in paths'
      ensures IsFillPath(original, target, paths'[c]) && paths'[c][0] == start && paths'[c][|paths'[c]| - 1] == c
    {
      if c != cell {
        assert paths'[c] == paths[c];
      }
    }
  }

  /** Dequeuing a cell, painting it and queueing its neighbours from it keeps QueuedFromPainted. */
  lemma PaintQueue(start: Cell, paths: map<Cell, seq<Cell>>, queue: seq<Cell>, via: seq<Cell>, path: seq<Cell>)
    requires QueuedFromPainted(start, paths, queue, via)
    requires |queue| > 0
    ensures QueuedFromPainted(start, paths[queue[0] := path], queue[1..] + Neighbors(queue[0]),
                              via[1..] + [queue[0], queue[0], queue[0], queue[0]])
  {
    var cell := queue[0];
    var paths' := paths[cell := path];
    var rest := queue[1..];
    var queue', via' := rest + Neighbors(cell), via[1..] + [cell, cell, cell, cell];
    forall i | 0 <= i < |queue'|
      ensures queue'[i] == start || (via'[i] in paths' && Adjacent(via'[i], queue'[i]))
    {
      if i < |rest| {
        assert queue'[i] == queue[i + 1] && via'[i] == via[i + 1];
      } else {
        var k := i - |rest|;
        assert via'[i] == [cell, cell, cell, cell][k];
        assert queue'[i] == Neighbors(cell)[k];
      }
    }
  }

  /** Painting the dequeued cell and queueing all its neighbours keeps FrontierQueued. */
  lemma PaintFrontier(original: map<Cell, string>, target: string, paths: map<Cell, seq<Cell>>,
                      queue: seq<Cell>, path: seq<Cell>)
    requires FrontierQueued(original, target, paths, queue)
    requires |queue| > 0
    ensures FrontierQueued(original, target, paths[queue[0] := path], queue[1..] + Neighbors(queue[0]))
  {
    var cell := queue[0];
    var paths' := paths[cell := path];
    var rest := queue[1..];
    var queue' := rest + Neighbors(cell);
    assert queue == [cell] + rest;
    forall a, b | a in paths' && Adjacent(a, b) && InGrid(b) && GetPixelColor(original, b) == target
      ensures b in paths' || b in queue'
    {
      if a == cell {
        assert b in Neighbors(cell);
      } else if b in queue && b != cell {
        assert b in rest;
      }
    }
  }

  /** Painting an in-grid target cell at the head of the queue keeps the invariant and shrinks the unpainted set. */
  lemma FillPaintKeeps(original: map<Cell, string>, start: Cell, target: string, fill: string,
                       pixels: map<Cell, string>, paths: map<Cell, seq<Cell>>,
                       queue: seq<Cell>, via: seq<Cell>, unpainted: set<Cell>)
    requires FillState(original, start, target, fill, pixels, paths, queue, via, unpainted)
    requires |queue| > 0 && InGrid(queue[0]) && GetPixelColor(pixels, queue[0]) == target
    ensures queue[0] in unpainted
    ensures FillState(original, start, target, fill, Painted(pixels, queue[0], fill),
                      paths[queue[0] := PathTo(paths, start, via[0], queue[0])],
                      queue[1..] + Neighbors(queue[0]), via[1..] + [queue[0], queue[0], queue[0], queue[0]],
                      unpainted - {queue[0]})
  {
    var cell, from := queue[0], via[0];
    assert cell !in paths && GetPixelColor(original, cell) == target;
    var path := PathTo(paths, start, from, cell);
    if cell != start {
      ExtendFillPath(original, target, paths[from], cell);
    }
    assert IsFillPath(original, target, path) && path[0] == start && path[|path| - 1] == cell;
    PaintedReadBack(pixels, cell, fill);
    PaintShows(original, fill, pixels, paths, cell, path);
    PaintPaths(original, start, target, paths, cell, path);
    PaintQueue(start, paths, queue, via, path);
    PaintFrontier(original, target, paths, queue, path);
    assert queue == [cell] + queue[1..];
    var paths' := paths[cell := path];
    assert forall c :: InGrid(c) && c !in paths' ==> c in unpainted - {cell};
    assert InGrid(start) ==> start in paths' || start in queue[1..] + Neighbors(cell);
  }

  /** With the queue empty, exactly the cells reachable from the start are recoloured. */
  lemma FillComplete(original: map<Cell, string>, start: Cell, target: string, fill: string,
                     pixels: map<Cell, string>, paths: map<Cell, seq<Cell>>, via: seq<Cell>, unpainted: set<Cell>)
    requires FillState(original, start, target, fill, pixels, paths, [], via, unpainted)
    ensures forall c :: GetPixelColor(pixels, c) == FilledColor(original, start, fill, c)
  {
    assert ClosedUnder(original, target, paths.Keys);
    forall c | Reachable(original, start, c)
      ensures c in paths
    {
      var p :| IsFillPath(original, target, p) && p[0] == start && p[|p| - 1] == c;
      ClosedRegionHoldsPathEnd(original, target, paths.Keys, p);
    }
    forall c | c in paths
      ensures Reachable(original, start, c)
    {
      assert IsFillPath(original, target, paths[c]);
    }
  }

  // ---------------------------------------------------------------------
  // The application
  // ---------------------------------------------------------------------

  class PixelArtApp {
    var currentColor: string
    var drawingMode: Mode
    var showGrid: bool
    var pixelData: map<Cell, string>
    var isDrawing: bool

    /** The eraser always paints white, and the store never holds white. */
    predicate Valid()
      reads this
    {
      (drawingMode == Erase ==> currentColor == Eraser) && NoEraserStored(pixelData)
    }

    constructor ()
      ensures Valid()
      ensures currentColor == Black && drawingMode == Draw && showGrid && pixelData == map[] && !isDrawing
    {
      currentColor := Black;
      drawingMode := Draw;
      showGrid := true;
      pixelData := map[];
      isDrawing := false;
      new;
      SetColor(Black);
    }

    /**
     * set_color: select a colour; choosing any colour but white while
     * erasing switches back to the pencil.
     */
    method SetColor(color: string)
      modifies this`currentColor, this`drawingMode
      ensures currentColor == color
      ensures drawingMode == if old(drawingMode) == Erase && color != Eraser then Draw else old(drawingMode)
      ensures drawingMode == Erase ==> currentColor == Eraser
      decreases if drawingMode == Erase && color != Eraser then 1 else 0
    {
      currentColor := color;
      if drawingMode == Erase && color != Eraser {
        SetDrawingMode(Draw);
      }
    }

    /**
     * set_drawing_mode: select a tool; the eraser selects white, and the
     * pencil replaces a white colour by black.
     */
    method SetDrawingMode(mode: Mode)
      modifies this`currentColor, this`drawingMode
      ensures drawingMode == mode
      ensures currentColor == if mode == Erase then Eraser
                              else if mode == Draw && old(currentColor) == Eraser then Black
                              else old(currentColor)
      ensures drawingMode == Erase ==> currentColor == Eraser
      decreases if mode == Erase || (mode == Draw && currentColor == Eraser) then 1 else 0
    {
      drawingMode := mode;
      if mode == Erase {
        SetColor(Eraser);
      } else if mode != Fill {
        if currentColor == Eraser {
          SetColor(Black);
        }
      }
    }

    /** clear_canvas: empty the store and return to a black pencil. */
    method ClearCanvas()
      modifies this`pixelData, this`currentColor, this`drawingMode
      ensures Valid()
      ensures pixelData == map[] && drawingMode == Draw && currentColor == Black
    {
      pixelData := map[];
      SetDrawingMode(Draw);
      SetColor(Black);
    }

    /** toggle_grid: flip whether cell outlines show the grid. */
    method ToggleGrid()
      modifies this`showGrid
      ensures showGrid == !old(showGrid)
      ensures pixelData == old(pixelData)
    {
      showGrid := !showGrid;
    }

    /** The button-release binding: the drag ends. */
    method ReleaseButton()
      modifies this`isDrawing
      ensures !isDrawing
    {
      isDrawing := false;
    }

    /** update_pixel_state: paint one cell; white removes the cell's entry. */
    method UpdatePixelState(gridX: int, gridY: int, color: string)
      modifies this`pixelData
      ensures pixelData == Painted(old(pixelData), (gridX, gridY), color)
    {
      var key := (gridX, gridY);
      if color == Eraser {
        if key in pixelData {
          pixelData := pixelData - {key};
        }
        return;
      }
      // Updating an existing entry and creating a new one differ only in the canvas item.
      pixelData := pixelData[key := color];
    }

    /**
     * draw_pixel: during a drag with the pencil or the eraser, paint the
     * cell under the point.  There is no bounds check here.
     */
    method DrawPixel(x: int, y: int)
      requires Valid()
      modifies this`pixelData
      ensures Valid()
      ensures pixelData == if !isDrawing || drawingMode == Fill then old(pixelData)
                           else Painted(old(pixelData), GetGridCoords(x, y), currentColor)
    {
      if !isDrawing || drawingMode == Fill {
        return;
      }
      var c := GetGridCoords(x, y);
      PaintedReadBack(pixelData, c, currentColor);
      if drawingMode == Erase {
        UpdatePixelState(c.0, c.1, Eraser);
      } else {
        UpdatePixelState(c.0, c.1, currentColor);
      }
    }

    /**
     * handle_click: a click on a cell of the grid floods from it in fill
     * mode, and otherwise starts a drag and paints it.
     */
    method HandleClick(x: int, y: int)
      requires Valid()
      modifies this`pixelData, this`isDrawing
      ensures Valid()
      ensures !InGrid(GetGridCoords(x, y)) ==> pixelData == old(pixelData) && isDrawing == old(isDrawing)
      ensures InGrid(GetGridCoords(x, y)) && drawingMode == Fill ==>
        isDrawing == old(isDrawing) &&
        forall c :: GetPixelColor(pixelData, c) == FilledColor(old(pixelData), GetGridCoords(x, y), currentColor, c)
      ensures InGrid(GetGridCoords(x, y)) && drawingMode != Fill ==>
        isDrawing && pixelData == Painted(old(pixelData), GetGridCoords(x, y), currentColor)
    {
      var c := GetGridCoords(x, y);
      if 0 <= c.0 < PixelGridSize && 0 <= c.1 < PixelGridSize {
        if drawingMode == Fill {
          FloodFill(c.0, c.1);
        } else {
          isDrawing := true;
          DrawPixel(x, y);
        }
      }
    }

    /**
     * flood_fill: breadth-first from (startX, startY), recolour every cell
     * connected to it through in-grid cells of its colour.  Nothing changes
     * when the current colour is already the start cell's colour.
     */
    method FloodFill(startX: int, startY: int)
      requires Valid()
      modifies this`pixelData
      ensures Valid()
      ensures GetPixelColor(old(pixelData), (startX, startY)) == currentColor ==> pixelData == old(pixelData)
      ensures forall c :: GetPixelColor(pixelData, c) == FilledColor(old(pixelData), (startX, startY), currentColor, c)
    {
      var start := (startX, startY);
      ghost var original := pixelData;
      var targetColor := GetPixelColor(pixelData, start);
      var fillColor := currentColor;
      if targetColor == fillColor {
        return;
      }
      var queue := [start];
      // For each painted cell, a fill path from the start to it.
      ghost var paths: map<Cell, seq<Cell>> := map[];
      // For each queued cell other than the start, a painted cell it neighbours.
      ghost var via: seq<Cell> := [start];
      // The in-grid cells not yet painted: each painted cell leaves it.
      ghost var unpainted := GridCells();
      FillStarts(original, start, fillColor);
      while |queue| > 0
        invariant FillState(original, start, targetColor, fillColor, pixelData, paths, queue, via, unpainted)
        decreases |unpainted|, |queue|
      {
        ghost var queued, queuedVia := queue, via;
        var cell := queue[0];
        queue := queue[1..];
        via := via[1..];
        if !(0 <= cell.0 < PixelGridSize && 0 <= cell.1 < PixelGridSize) {
          FillSkipKeeps(original, start, targetColor, fillColor, pixelData, paths, queued, queuedVia, unpainted);
          continue;
        }
        if GetPixelColor(pixelData, cell) != targetColor {
          FillSkipKeeps(original, start, targetColor, fillColor, pixelData, paths, queued, queuedVia, unpainted);
          continue;
        }
        FillPaintKeeps(original, start, targetColor, fillColor, pixelData, paths, queued, queuedVia, unpainted);
        UpdatePixelState(cell.0, cell.1, fillColor);
        paths := paths[cell := PathTo(paths, start, queuedVia[0], cell)];
        unpainted := unpainted - {cell};
        queue := queue + Neighbors(cell);
        via := via + [cell, cell, cell, cell];
      }
      FillComplete(original, start, targetColor, fillColor, pixelData, paths, via, unpainted);
    }
  }
}
