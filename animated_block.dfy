/**
 * The decorative square-cell canvas grid (`AnimatedBlock`): grid geometry
 * from a fixed block size, pointer-to-box resolution with clamping, the
 * per-box target table, the single-hover state machine, the easing tick and
 * the readiness guards of setup and resize.
 *
 * The component's refs become the fields of class `Block`; the canvas
 * element's bounding box is passed in as an `Option<Rect>` (`None` when the
 * canvas is not mounted).
 */
module AnimatedBlock {
  import opened Wrappers
  import opened Geometry
  import opened Easing

  /** `gridRef.current`. */
  datatype Grid = Grid(columns: int, rows: int, boxWidth: real, boxHeight: real)

  /** The grid before the first successful initialisation. */
  const EmptyGrid := Grid(0, 0, 0.0, 0.0)

  /** Smallest container side (in pixels) that setup and resize accept. */
  const MinContainerSide: real := 10.0

  /** One entry of `boxStatesRef.current`. */
  datatype BoxState = BoxState(
    opacity: real, scale: real, borderOpacity: real,
    targetOpacity: real, targetScale: real, targetBorderOpacity: real)

  /** A freshly allocated box: no fill, natural size, full border, already at its targets. */
  const RestingBox := BoxState(0.0, 1.0, 1.0, 0.0, 1.0, 1.0)

  predicate RestTargets(b: BoxState)
  {
    b.targetOpacity == 0.0 && b.targetScale == 1.0 && b.targetBorderOpacity == 1.0
  }

  /** A hovered box fills in, grows by 10% and hides its border. */
  predicate HighlightTargets(b: BoxState)
  {
    b.targetOpacity == 1.0 && b.targetScale == 1.1 && b.targetBorderOpacity == 0.0
  }

  predicate AtTargets(b: BoxState)
  {
    b.opacity == b.targetOpacity && b.scale == b.targetScale && b.borderOpacity == b.targetBorderOpacity
  }

  /** A grid written by a successful `initializeGrid`: at least one square cell of side `blockSize`. */
  predicate ReadyGrid(g: Grid, blockSize: real)
  {
    g.columns >= 1 && g.rows >= 1 && g.boxWidth == blockSize && g.boxHeight == blockSize
  }

  /** Every box except the hovered one has its targets at rest. */
  predicate OthersAtRest(boxes: seq<BoxState>, hovered: int)
  {
    forall i :: 0 <= i < |boxes| && i != hovered ==> RestTargets(boxes[i])
  }

  /** `n` fresh box records. */
  function RestingBoxes(n: nat): (s: seq<BoxState>)
    ensures |s| == n
    ensures forall i :: 0 <= i < n ==> s[i] == RestingBox && AtTargets(s[i]) && RestTargets(s[i])
  {
    seq(n, _ => RestingBox)
  }

  /** The target change `updateBox` makes to one record; current values are untouched. */
  function Retarget(b: BoxState, highlight: bool): (r: BoxState)
    ensures highlight ==> HighlightTargets(r)
    ensures !highlight ==> RestTargets(r)
    ensures r.opacity == b.opacity && r.scale == b.scale && r.borderOpacity == b.borderOpacity
  {
    b.(targetOpacity := if highlight then 1.0 else 0.0,
       targetScale := if highlight then 1.1 else 1.0,
       targetBorderOpacity := if highlight then 0.0 else 1.0)
  }

  /**
   * One frame of `updateAnimations` for one record: every current value moves
   * toward its target, the targets stay, and a box at its targets stays put.
   */
  function Tick(b: BoxState): (r: BoxState)
    ensures r.targetOpacity == b.targetOpacity && r.targetScale == b.targetScale
    ensures r.targetBorderOpacity == b.targetBorderOpacity
    ensures Toward(b.opacity, r.opacity, b.targetOpacity)
    ensures Toward(b.scale, r.scale, b.targetScale)
    ensures Toward(b.borderOpacity, r.borderOpacity, b.targetBorderOpacity)
    ensures r.opacity - r.targetOpacity == (1.0 - LerpFactor) * (b.opacity - b.targetOpacity)
    ensures r.scale - r.targetScale == (1.0 - LerpFactor) * (b.scale - b.targetScale)
    ensures r.borderOpacity - r.targetBorderOpacity == (1.0 - LerpFactor) * (b.borderOpacity - b.targetBorderOpacity)
    ensures AtTargets(b) ==> r == b
  {
    b.(opacity := Ease(b.opacity, b.targetOpacity),
       scale := Ease(b.scale, b.targetScale),
       borderOpacity := Ease(b.borderOpacity, b.targetBorderOpacity))
  }

  /** `n` frames of `updateAnimations` for one record with no pointer input. */
  function Ticks(b: BoxState, n: nat): (r: BoxState)
    ensures r.targetOpacity == b.targetOpacity && r.targetScale == b.targetScale
    ensures r.targetBorderOpacity == b.targetBorderOpacity
    ensures AtTargets(b) ==> r == b
  {
    if n == 0 then b else Tick(Ticks(b, n - 1))
  }

  /** The share of a gap left after `n` frames: 0.85 to the power `n`. */
  function Remaining(n: nat): (f: real)
    ensures 0.0 < f <= 1.0
  {
    if n == 0 then 1.0 else (1.0 - LerpFactor) * Remaining(n - 1)
  }

  /** `p` has the targets of `b`, and each of its gaps to them is share `f` of the gap `b` had. */
  predicate GapsScaled(b: BoxState, p: BoxState, f: real)
  {
    && p.targetOpacity == b.targetOpacity && p.targetScale == b.targetScale
    && p.targetBorderOpacity == b.targetBorderOpacity
    && p.opacity - b.targetOpacity == f * (b.opacity - b.targetOpacity)
    && p.scale - b.targetScale == f * (b.scale - b.targetScale)
    && p.borderOpacity - b.targetBorderOpacity == f * (b.borderOpacity - b.targetBorderOpacity)
  }

  /**
   * With no pointer input every gap shrinks geometrically: after `n` frames
   * each value's distance to its target is 0.85^n of what it was, so the box
   * approaches its targets without ever overshooting (and, unlike the
   * full-page canvas grid, never lands on them exactly unless it started
   * there).
   */
  lemma {:induction false} TicksShrinkGaps(b: BoxState, n: nat)
    ensures GapsScaled(b, Ticks(b, n), Remaining(n))
  {
    if n > 0 {
      TicksShrinkGaps(b, n - 1);
      TickScalesGaps(b, Ticks(b, n - 1), Remaining(n - 1));
    }
  }

  /** One frame turns share `f` into share `0.85 f`. */
  lemma TickScalesGaps(b: BoxState, p: BoxState, f: real)
    requires GapsScaled(b, p, f)
    ensures GapsScaled(b, Tick(p), (1.0 - LerpFactor) * f)
  {
    var r := Tick(p);
    ShrinkOnce(r.opacity - b.targetOpacity, p.opacity - b.targetOpacity, f, b.opacity - b.targetOpacity);
    ShrinkOnce(r.scale - b.targetScale, p.scale - b.targetScale, f, b.scale - b.targetScale);
    ShrinkOnce(r.borderOpacity - b.targetBorderOpacity, p.borderOpacity - b.targetBorderOpacity, f,
               b.borderOpacity - b.targetBorderOpacity);
  }

  /** A gap that was share `f` of the first one, shrunk by one frame, is share `0.85 f` of it. */
  lemma ShrinkOnce(next: real, gap: real, f: real, first: real)
    requires gap == f * first && next == (1.0 - LerpFactor) * gap
    ensures next == ((1.0 - LerpFactor) * f) * first
  {}

  /** The pointer lies outside the closed rectangle [0, width] x [0, height] of the canvas. */
  predicate OutsideClosed(x: real, y: real, r: Rect)
  {
    x < 0.0 || y < 0.0 || x > r.width || y > r.height
  }

  /**
   * `getBoxFromMouse`: -1 without a canvas or for a point outside the closed
   * canvas rectangle; otherwise the row-major index of the cell under the
   * point, with column and row clamped to the last ones, so a point on the
   * right or bottom edge (or in the strip the square cells leave uncovered)
   * still resolves to a box.
   */
  function BoxFromMouse(mouseX: real, mouseY: real, canvas: Option<Rect>, grid: Grid, length: int): (index: int)
    requires grid.columns >= 1 && grid.rows >= 1 && grid.boxWidth > 0.0 && grid.boxHeight > 0.0
    ensures index == -1 || 0 <= index < length
    ensures canvas.None? ==> index == -1
    ensures canvas.Some? && length == grid.columns * grid.rows ==>
      (index == -1 <==> OutsideClosed(mouseX - canvas.value.left, mouseY - canvas.value.top, canvas.value))
  {
    match canvas
    case None => -1
    case Some(rect) =>
      var x := mouseX - rect.left;
      var y := mouseY - rect.top;
      if OutsideClosed(x, y, rect) then -1
      else
        var col := ClampedCell(x, grid.boxWidth, grid.columns);
        var row := ClampedCell(y, grid.boxHeight, grid.rows);
        CellIndexInRange(col, row, grid.columns, grid.rows);
        var index := row * grid.columns + col;
        if index < length then index else -1
  }

  /**
   * Cell `c` of `count` cells of length `size` is the one holding offset `x`,
   * or the last one when `x` lies past them all.
   */
  predicate CellOf(x: real, size: real, count: int, c: int)
  {
    && (x < count as real * size ==> c as real * size <= x < (c + 1) as real * size)
    && (x >= count as real * size ==> c == count - 1)
  }

  /**
   * `Math.min(Math.floor(x / size), count - 1)` for a non-negative offset:
   * the cell containing `x`, or the last cell when `x` lies past them all.
   */
  function ClampedCell(x: real, size: real, count: int): (c: int)
    requires x >= 0.0 && size > 0.0 && count >= 1
    ensures 0 <= c < count && CellOf(x, size, count, c)
  {
    FloorDivNonNegative(x, size);
    FloorDivBelow(x, size, count);
    Min(FloorDiv(x, size), count - 1)
  }

  /**
   * For a point on the canvas, the box found is the one whose column and row
   * contain it; past the last whole cell (the strip the square cells do not
   * cover, or the closing edge) it is the last column or row.
   */
  lemma BoxFromMouseCell(mouseX: real, mouseY: real, rect: Rect, grid: Grid)
    requires grid.columns >= 1 && grid.rows >= 1 && grid.boxWidth > 0.0 && grid.boxHeight > 0.0
    requires !OutsideClosed(mouseX - rect.left, mouseY - rect.top, rect)
    ensures var index := BoxFromMouse(mouseX, mouseY, Some(rect), grid, grid.columns * grid.rows);
      && index >= 0
      && CellOf(mouseX - rect.left, grid.boxWidth, grid.columns, index % grid.columns)
      && CellOf(mouseY - rect.top, grid.boxHeight, grid.rows, index / grid.columns)
  {
    var x, y := mouseX - rect.left, mouseY - rect.top;
    var col := ClampedCell(x, grid.boxWidth, grid.columns);
    var row := ClampedCell(y, grid.boxHeight, grid.rows);
    var index := BoxFromMouse(mouseX, mouseY, Some(rect), grid, grid.columns * grid.rows);
    CellIndexInRange(col, row, grid.columns, grid.rows);
    assert index == row * grid.columns + col;
    RowMajorSplit(col, row, grid.columns);
    assert index % grid.columns == col && index / grid.columns == row;
  }

  /** How `setupCanvas` ended. */
  datatype Setup =
    | Skipped   // no canvas, or already initialised
    | Retry     // container or canvas not yet laid out: retried after 100 ms
    | Started   // grid built, animation loop and pointer listener started

  /** The refs of one `AnimatedBlock` instance. */
  class Block {
    const blockSize: real
    var grid: Grid
    var boxes: seq<BoxState>
    var hovered: int
    var initialized: bool

    ghost predicate Valid()
      reads this
    {
      && blockSize > 0.0
      && (grid == EmptyGrid || ReadyGrid(grid, blockSize))
      && |boxes| == grid.columns * grid.rows
      && (initialized ==> ReadyGrid(grid, blockSize))
      && OthersAtRest(boxes, hovered)
    }

    constructor (blockSize: real)
      requires blockSize > 0.0
      ensures Valid()
      ensures this.blockSize == blockSize
      ensures grid == EmptyGrid && boxes == [] && hovered == -1 && !initialized
    {
      this.blockSize := blockSize;
      grid := EmptyGrid;
      boxes := [];
      hovered := -1;
      initialized := false;
    }

    /**
     * `initializeGrid`: refuses (returns false, changes nothing) without a
     * canvas or when the canvas is narrower or shorter than one block;
     * otherwise fits whole square blocks and allocates one resting record per
     * cell. The hover index is left as it was.
     */
    method InitializeGrid(canvas: Option<Rect>) returns (ok: bool)
      requires Valid()
      modifies this
      ensures Valid()
      ensures ok <==> canvas.Some? && canvas.value.width >= blockSize && canvas.value.height >= blockSize
      ensures ok ==> grid == Grid(FloorDiv(canvas.value.width, blockSize),
                                  FloorDiv(canvas.value.height, blockSize), blockSize, blockSize)
      ensures ok ==> ReadyGrid(grid, blockSize) && boxes == RestingBoxes(grid.columns * grid.rows)
      ensures !ok ==> grid == old(grid) && boxes == old(boxes)
      ensures hovered == old(hovered) && initialized == old(initialized)
    {
      if canvas.None? {
        return false;
      }
      var rect := canvas.value;
      if rect.width < blockSize || rect.height < blockSize {
        return false;
      }
      var columns := FloorDiv(rect.width, blockSize);
      var rows := FloorDiv(rect.height, blockSize);
      FloorDivBelow(rect.width, blockSize, 1);
      FloorDivBelow(rect.height, blockSize, 1);
      grid := Grid(columns, rows, blockSize, blockSize);
      boxes := RestingBoxes(columns * rows);
      ok := true;
    }

    /** `updateBox`: rewrites the targets of box `index` only; an index out of range is ignored. */
    method UpdateBox(index: int, highlight: bool)
      modifies this`boxes
      ensures |boxes| == |old(boxes)|
      ensures 0 <= index < |boxes| ==> boxes == old(boxes)[index := Retarget(old(boxes)[index], highlight)]
      ensures !(0 <= index < |boxes|) ==> boxes == old(boxes)
    {
      if index < 0 || index >= |boxes| {
        return;
      }
      boxes := boxes[index := Retarget(boxes[index], highlight)];
    }

    /** `updateAnimations`: one easing tick applied to every record, in order. */
    method UpdateAnimations()
      requires Valid()
      modifies this`boxes
      ensures Valid()
      ensures |boxes| == |old(boxes)|
      ensures forall i :: 0 <= i < |boxes| ==> boxes[i] == Tick(old(boxes)[i])
    {
      var i := 0;
      while i < |boxes|
        invariant 0 <= i <= |boxes| == |old(boxes)|
        invariant forall k :: 0 <= k < i ==> boxes[k] == Tick(old(boxes)[k])
        invariant forall k :: i <= k < |boxes| ==> boxes[k] == old(boxes)[k]
      {
        boxes := boxes[i := Tick(boxes[i])];
        i := i + 1;
      }
    }

    /**
     * `handleMouseMove`: nothing happens while the pointer stays on the stored
     * box. Otherwise the previous box gets rest targets, the new one (if any)
     * highlight targets, no current value moves, and the new index is stored.
     * The listener exists only once the block is initialised.
     */
    method MouseMove(mouseX: real, mouseY: real, canvas: Option<Rect>)
      requires Valid() && initialized
      modifies this`boxes, this`hovered
      ensures Valid()
      ensures hovered == BoxFromMouse(mouseX, mouseY, canvas, grid, |boxes|)
      ensures |boxes| == |old(boxes)|
      ensures hovered == old(hovered) ==> boxes == old(boxes)
      ensures hovered != old(hovered) ==>
        && (hovered >= 0 ==> HighlightTargets(boxes[hovered]))
        && (0 <= old(hovered) < |boxes| ==> RestTargets(boxes[old(hovered)]))
      ensures forall i :: 0 <= i < |boxes| && i != hovered && i != old(hovered) ==> boxes[i] == old(boxes)[i]
      ensures forall i :: 0 <= i < |boxes| ==>
        boxes[i].opacity == old(boxes)[i].opacity && boxes[i].scale == old(boxes)[i].scale
        && boxes[i].borderOpacity == old(boxes)[i].borderOpacity
    {
      var boxIndex := BoxFromMouse(mouseX, mouseY, canvas, grid, |boxes|);
      if boxIndex != hovered {
        if hovered >= 0 {
          UpdateBox(hovered, false);
        }
        if boxIndex >= 0 {
          UpdateBox(boxIndex, true);
        }
        hovered := boxIndex;
      }
    }

    /**
     * `setupCanvas`: skipped without a canvas or once initialised; retried
     * (nothing changes) while the container is under 10 px on a side or the
     * canvas cannot hold one block; otherwise the grid is built and the block
     * becomes initialised.
     */
    method SetupCanvas(canvas: Option<Rect>, container: Rect) returns (outcome: Setup)
      requires Valid()
      modifies this
      ensures Valid()
      ensures outcome == Skipped <==> canvas.None? || old(initialized)
      ensures outcome == Retry <==>
        canvas.Some? && !old(initialized)
        && (container.width < MinContainerSide || container.height < MinContainerSide
            || canvas.value.width < blockSize || canvas.value.height < blockSize)
      ensures outcome != Started ==>
        grid == old(grid) && boxes == old(boxes) && initialized == old(initialized)
      ensures outcome == Started ==>
        grid == Grid(FloorDiv(canvas.value.width, blockSize), FloorDiv(canvas.value.height, blockSize), blockSize, blockSize)
      ensures outcome == Started ==>
        initialized && grid.columns as real * blockSize <= canvas.value.width
        && grid.rows as real * blockSize <= canvas.value.height && boxes == RestingBoxes(grid.columns * grid.rows)
      ensures hovered == old(hovered)
    {
      if canvas.None? || initialized {
        return Skipped;
      }
      if container.width < MinContainerSide || container.height < MinContainerSide {
        return Retry;
      }
      var ok := InitializeGrid(canvas);
      if !ok {
        return Retry;
      }
      initialized := true;
      UpdateAnimations();
      assert forall i :: 0 <= i < |boxes| ==> boxes[i] == RestingBox;
      outcome := Started;
    }

    /**
     * `handleResize` (after its debounce): ignored until initialised, without
     * a canvas, or while the container is under 10 px on a side; otherwise the
     * grid is rebuilt when the canvas holds a block and kept when it does not.
     */
    method HandleResize(canvas: Option<Rect>, container: Rect)
      requires Valid()
      modifies this
      ensures Valid()
      ensures initialized == old(initialized) && hovered == old(hovered)
      ensures
        var rebuilt := old(initialized) && canvas.Some?
          && container.width >= MinContainerSide && container.height >= MinContainerSide
          && canvas.value.width >= blockSize && canvas.value.height >= blockSize;
        && (rebuilt ==> grid.columns == FloorDiv(canvas.value.width, blockSize)
                        && grid.rows == FloorDiv(canvas.value.height, blockSize)
                        && boxes == RestingBoxes(grid.columns * grid.rows))
        && (!rebuilt ==> grid == old(grid) && boxes == old(boxes))
    {
      if !initialized || canvas.None? {
        return;
      }
      if container.width < MinContainerSide || container.height < MinContainerSide {
        return;
      }
      var _ := InitializeGrid(canvas);
    }
  }

  /** Under the single-hover invariant no two boxes are targeted at highlight at once. */
  lemma AtMostOneHighlighted(boxes: seq<BoxState>, hovered: int, i: int, j: int)
    requires OthersAtRest(boxes, hovered)
    requires 0 <= i < |boxes| && 0 <= j < |boxes|
    requires HighlightTargets(boxes[i]) && HighlightTargets(boxes[j])
    ensures i == j == hovered
  {}
}
