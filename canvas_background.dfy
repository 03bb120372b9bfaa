/**
 * The full-page canvas grid (`CanvasAnimatedBackground`): cells of at least
 * 80 px stretched to fill the canvas, strict (half-open) pointer resolution,
 * per-cell targets with an `animating` flag, and the easing tick that snaps
 * to the target and stops once both gaps are under 0.01.
 */
module CanvasBackground {
  import opened Wrappers
  import opened Geometry
  import opened Easing

  /** `MIN_BOX_SIZE`. */
  const MinBoxSize: real := 80.0

  /** A gap to the target below this ends the animation of a cell. */
  const SnapDistance: real := 0.01

  /** `gridConfigRef.current`. */
  datatype Config = Config(columns: int, rows: int, boxWidth: real, boxHeight: real, totalBoxes: int)

  /** The configuration before the first `calculateGrid`. */
  const EmptyConfig := Config(0, 0, 0.0, 0.0, 0)

  /** A configuration `calculateGrid` can produce. */
  predicate WellFormed(g: Config)
  {
    g.columns >= 1 && g.rows >= 1 && g.totalBoxes == g.columns * g.rows
    && g.boxWidth >= 0.0 && g.boxHeight >= 0.0
  }

  /** One entry of `boxStatesRef.current`. */
  datatype Cell = Cell(opacity: real, scale: real, animating: bool, targetOpacity: real, targetScale: real)

  const FreshCell := Cell(0.0, 1.0, false, 0.0, 1.0)

  predicate RestTargets(c: Cell)
  {
    c.targetOpacity == 0.0 && c.targetScale == 1.0
  }

  /** A hovered cell fills in and grows by 5%. */
  predicate HighlightTargets(c: Cell)
  {
    c.targetOpacity == 1.0 && c.targetScale == 1.05
  }

  predicate AtTargets(c: Cell)
  {
    c.opacity == c.targetOpacity && c.scale == c.targetScale
  }

  predicate OthersAtRest(boxes: seq<Cell>, hovered: int)
  {
    forall i :: 0 <= i < |boxes| && i != hovered ==> RestTargets(boxes[i])
  }

  /**
   * The geometry `calculateGrid` derives from the canvas box: as many whole
   * 80 px cells as fit (at least one per axis), then stretched so that the
   * cells tile the canvas exactly.
   */
  function GridFor(rect: Rect): (g: Config)
    ensures rect.width >= 0.0 && rect.height >= 0.0 ==> Tiles(g, rect)
    ensures g.columns >= 1 && g.rows >= 1 && g.totalBoxes == g.columns * g.rows
    ensures g.columns as real * g.boxWidth == rect.width
    ensures g.rows as real * g.boxHeight == rect.height
    ensures rect.width >= MinBoxSize ==>
      g.columns as real * MinBoxSize <= rect.width < (g.columns + 1) as real * MinBoxSize
    ensures rect.width < MinBoxSize ==> g.columns == 1
    ensures rect.height >= MinBoxSize ==>
      g.rows as real * MinBoxSize <= rect.height < (g.rows + 1) as real * MinBoxSize
    ensures rect.height < MinBoxSize ==> g.rows == 1
  {
    var columns := Max(FloorDiv(rect.width, MinBoxSize), 1);
    var rows := Max(FloorDiv(rect.height, MinBoxSize), 1);
    FloorDivBelow(rect.width, MinBoxSize, 1);
    FloorDivBelow(rect.height, MinBoxSize, 1);
    DivideEvenly(rect.width, columns);
    DivideEvenly(rect.height, rows);
    PartNonNegative(rect.width, columns);
    PartNonNegative(rect.height, rows);
    Config(columns, rows, rect.width / columns as real, rect.height / rows as real, columns * rows)
  }

  /**
   * A stretched cell is never narrower than 80 px and never as wide as two
   * of them, unless the whole canvas is narrower than one cell, in which case
   * the single column spans it.
   */
  lemma StretchedCellWidth(rect: Rect)
    ensures rect.width >= MinBoxSize ==> MinBoxSize <= GridFor(rect).boxWidth < 2.0 * MinBoxSize
    ensures rect.width < MinBoxSize ==> GridFor(rect).boxWidth == rect.width
  {
    var g := GridFor(rect);
    if rect.width >= MinBoxSize {
      StretchedBounds(g.columns as real, g.boxWidth, rect.width);
    } else {
      assert g.columns as real == 1.0;
    }
  }

  /** `n` cells of width `bw` tiling a width that holds `n` but not `n + 1` minimum cells are each between one and two minimum cells wide. */
  lemma StretchedBounds(n: real, bw: real, w: real)
    requires n >= 1.0 && n * bw == w && n * MinBoxSize <= w < (n + 1.0) * MinBoxSize
    ensures MinBoxSize <= bw < 2.0 * MinBoxSize
  {
    MulCancel(MinBoxSize, bw, n);
    assert (n + 1.0) * MinBoxSize <= 2.0 * n * MinBoxSize;
    MulCancelStrict(bw, 2.0 * MinBoxSize, n);
  }

  /** `boxStatesRef.current` after `calculateGrid`. */
  function FreshCells(n: nat): (s: seq<Cell>)
    ensures |s| == n
    ensures forall i :: 0 <= i < n ==> s[i] == FreshCell && !s[i].animating && AtTargets(s[i]) && RestTargets(s[i])
  {
    seq(n, _ => FreshCell)
  }

  /** The pointer lies outside the half-open rectangle [0, width) x [0, height) of the canvas. */
  predicate OutsideHalfOpen(x: real, y: real, r: Rect)
  {
    x < 0.0 || y < 0.0 || x >= r.width || y >= r.height
  }

  /**
   * `getBoxIndex`: -1 for a point outside the half-open canvas rectangle;
   * otherwise the row-major index of the cell under it, or -1 when that
   * index is not below `totalBoxes` (which happens only when the canvas was
   * measured anew since the grid was computed). A cell length of 0, left by
   * a zero-sized canvas, makes the source divide by zero; the resulting
   * infinity or NaN fails the final range test, so the answer is -1.
   */
  function BoxIndex(mouseX: real, mouseY: real, rect: Rect, config: Config): (index: int)
    requires WellFormed(config)
    ensures index == -1 || 0 <= index < config.totalBoxes
    ensures OutsideHalfOpen(mouseX - rect.left, mouseY - rect.top, rect) ==> index == -1
  {
    var x := mouseX - rect.left;
    var y := mouseY - rect.top;
    if OutsideHalfOpen(x, y, rect) then -1
    else if config.boxWidth == 0.0 || config.boxHeight == 0.0 then -1
    else
      var column := FloorDiv(x, config.boxWidth);
      var row := FloorDiv(y, config.boxHeight);
      FloorDivNonNegative(x, config.boxWidth);
      FloorDivNonNegative(y, config.boxHeight);
      var index := row * config.columns + column;
      if index < config.totalBoxes then index else -1
  }

  /** The configuration's cells tile the canvas box exactly, as `calculateGrid` leaves them. */
  predicate Tiles(g: Config, rect: Rect)
  {
    WellFormed(g) && g.columns as real * g.boxWidth == rect.width && g.rows as real * g.boxHeight == rect.height
  }

  /**
   * While the grid matches the canvas, every point of the canvas resolves to
   * a box, and the box's column and row are exactly the cell holding the
   * point: no clamping is needed, because the stretched cells tile the canvas.
   */
  lemma BoxIndexCell(mouseX: real, mouseY: real, rect: Rect, g: Config)
    requires Tiles(g, rect)
    requires !OutsideHalfOpen(mouseX - rect.left, mouseY - rect.top, rect)
    ensures var index := BoxIndex(mouseX, mouseY, rect, g);
      && 0 <= index < g.totalBoxes
      && InCell(mouseX - rect.left, g.boxWidth, index % g.columns)
      && InCell(mouseY - rect.top, g.boxHeight, index / g.columns)
  {
    var x, y := mouseX - rect.left, mouseY - rect.top;
    AxisCell(x, rect.width, g.columns, g.boxWidth);
    AxisCell(y, rect.height, g.rows, g.boxHeight);
    var column, row := FloorDiv(x, g.boxWidth), FloorDiv(y, g.boxHeight);
    CellIndexInRange(column, row, g.columns, g.rows);
    RowMajorSplit(column, row, g.columns);
  }

  /** What `animateBox` does to one record: new targets, and the cell starts animating. */
  function Retarget(c: Cell, highlight: bool): (r: Cell)
    ensures r.animating
    ensures highlight ==> HighlightTargets(r)
    ensures !highlight ==> RestTargets(r)
    ensures r.opacity == c.opacity && r.scale == c.scale
  {
    if highlight then c.(animating := true, targetOpacity := 1.0, targetScale := 1.05)
    else c.(animating := true, targetOpacity := 0.0, targetScale := 1.0)
  }

  /**
   * One frame of `updateAnimations` for one record. A resting cell is left
   * alone. An animating cell eases both values toward their targets; if both
   * are then within 0.01 of them it lands exactly on them and stops.
   */
  function Step(c: Cell): (r: Cell)
    ensures r.targetOpacity == c.targetOpacity && r.targetScale == c.targetScale
    ensures !c.animating ==> r == c
    ensures c.animating ==>
      Toward(c.opacity, r.opacity, c.targetOpacity) && Toward(c.scale, r.scale, c.targetScale)
    ensures c.animating && !r.animating ==> AtTargets(r)
    ensures c.animating && r.animating ==>
      && r.opacity - r.targetOpacity == (1.0 - LerpFactor) * (c.opacity - c.targetOpacity)
      && r.scale - r.targetScale == (1.0 - LerpFactor) * (c.scale - c.targetScale)
      && (Abs(r.opacity - r.targetOpacity) >= SnapDistance || Abs(r.scale - r.targetScale) >= SnapDistance)
    ensures c.animating ==>
      (!r.animating <==>
         Abs((1.0 - LerpFactor) * (c.opacity - c.targetOpacity)) < SnapDistance
         && Abs((1.0 - LerpFactor) * (c.scale - c.targetScale)) < SnapDistance)
  {
    if !c.animating then c
    else
      var opacity := Ease(c.opacity, c.targetOpacity);
      var scale := Ease(c.scale, c.targetScale);
      if Abs(opacity - c.targetOpacity) < SnapDistance && Abs(scale - c.targetScale) < SnapDistance
      then c.(opacity := c.targetOpacity, scale := c.targetScale, animating := false)
      else c.(opacity := opacity, scale := scale)
  }

  /** `n` frames with no pointer input. */
  function Iterate(c: Cell, n: nat): (r: Cell)
    ensures r.targetOpacity == c.targetOpacity && r.targetScale == c.targetScale
    ensures !c.animating ==> r == c
    ensures r.animating ==> c.animating
  {
    if n == 0 then c else Step(Iterate(c, n - 1))
  }

  /** How far a cell is from its targets, summed over both values. */
  function Distance(c: Cell): (d: real)
    ensures d >= 0.0
    ensures d == 0.0 <==> AtTargets(c)
  {
    Abs(c.opacity - c.targetOpacity) + Abs(c.scale - c.targetScale)
  }

  /**
   * Cell `p`, reached from `c` after `k` frames and still animating, is at
   * least 0.0015 k closer to the targets than `c` was.
   */
  predicate Approached(c: Cell, p: Cell, k: real)
  {
    p.animating ==> c.animating && Distance(p) + 0.0015 * k <= Distance(c)
  }

  /**
   * After `k` frames the targets are unchanged, a cell still animating has
   * come at least 0.0015 k closer to them, and a cell that stopped sits
   * exactly on them (or never animated at all).
   */
  lemma {:induction false} GapDecay(c: Cell, k: nat)
    ensures Iterate(c, k).targetOpacity == c.targetOpacity && Iterate(c, k).targetScale == c.targetScale
    ensures Approached(c, Iterate(c, k), k as real)
    ensures c.animating && !Iterate(c, k).animating ==> AtTargets(Iterate(c, k))
    ensures !c.animating ==> Iterate(c, k) == c
  {
    if k > 0 {
      GapDecay(c, k - 1);
      var p := Iterate(c, k - 1);
      assert Iterate(c, k) == Step(p);
      StepApproaches(p);
      assert (k - 1) as real + 1.0 == k as real;
    }
  }

  /**
   * A frame after which the cell is still animating brings it at least 0.0015
   * closer: one of the new gaps is at least the snap distance 0.01, so the
   * old gaps summed to at least 0.01 / 0.85 and lost 15% of that.
   */
  lemma StepApproaches(p: Cell)
    ensures Step(p).animating ==> p.animating && Distance(Step(p)) + 0.0015 <= Distance(p)
  {
    var r := Step(p);
    if r.animating {
      var go, gs := p.opacity - p.targetOpacity, p.scale - p.targetScale;
      assert Abs(r.opacity - r.targetOpacity) == 0.85 * Abs(go);
      assert Abs(r.scale - r.targetScale) == 0.85 * Abs(gs);
    }
  }

  /** A number of frames after which a cell with fixed targets has certainly stopped. */
  function StopBound(c: Cell): nat
  {
    (Distance(c) / 0.0015).Floor + 1
  }

  /**
   * Each frame multiplies the gaps by 0.85, so a cell whose targets do not
   * change stops animating after finitely many frames, exactly on its targets.
   */
  lemma StopsAnimating(c: Cell)
    ensures !Iterate(c, StopBound(c)).animating
    ensures c.animating ==> AtTargets(Iterate(c, StopBound(c)))
  {
    var n := StopBound(c);
    GapDecay(c, n);
    var q := (Distance(c) / 0.0015).Floor;
    assert Distance(c) / 0.0015 < (q + 1) as real;
    assert Distance(c) < 0.0015 * n as real;
  }

  /** How one call of `animate` ended. */
  datatype Frame =
    | Stopped   // no canvas: the loop ends and schedules no further frame
    | Scheduled // one tick applied and the next frame requested

  /** The refs of one `CanvasAnimatedBackground` instance. */
  class CanvasGrid {
    var config: Config
    var boxes: seq<Cell>
    var hovered: int

    ghost predicate Valid()
      reads this
    {
      && (config == EmptyConfig || WellFormed(config))
      && |boxes| == config.totalBoxes
      && OthersAtRest(boxes, hovered)
    }

    constructor ()
      ensures Valid()
      ensures config == EmptyConfig && boxes == [] && hovered == -1
    {
      config := EmptyConfig;
      boxes := [];
      hovered := -1;
    }

    /**
     * `calculateGrid`: the configuration is derived afresh from the canvas
     * box and every cell starts over at rest. The hover index is left as it
     * was. Layout boxes are never negative in size.
     */
    method CalculateGrid(rect: Rect)
      requires Valid()
      requires rect.width >= 0.0 && rect.height >= 0.0
      modifies this`config, this`boxes
      ensures Valid()
      ensures config == GridFor(rect) && Tiles(config, rect)
      ensures boxes == FreshCells(config.totalBoxes)
    {
      config := GridFor(rect);
      boxes := FreshCells(config.totalBoxes);
    }

    /** `animateBox`: new targets for cell `index`, which starts animating; an index out of range is ignored. */
    method AnimateBox(index: int, highlight: bool)
      modifies this`boxes
      ensures |boxes| == |old(boxes)|
      ensures 0 <= index < |boxes| ==> boxes == old(boxes)[index := Retarget(old(boxes)[index], highlight)]
      ensures !(0 <= index < |boxes|) ==> boxes == old(boxes)
    {
      if index < 0 || index >= |boxes| {
        return;
      }
      boxes := boxes[index := Retarget(boxes[index], highlight)];
    }

    /** `updateAnimations`: one frame applied to every cell, in order. */
    method UpdateAnimations()
      requires Valid()
      modifies this`boxes
      ensures Valid()
      ensures |boxes| == |old(boxes)|
      ensures forall i :: 0 <= i < |boxes| ==> boxes[i] == Step(old(boxes)[i])
    {
      var i := 0;
      while i < |boxes|
        invariant 0 <= i <= |boxes| == |old(boxes)|
        invariant forall k :: 0 <= k < i ==> boxes[k] == Step(old(boxes)[k])
        invariant forall k :: i <= k < |boxes| ==> boxes[k] == old(boxes)[k]
      {
        boxes := boxes[i := Step(boxes[i])];
        i := i + 1;
      }
    }

    /** `animate`: without a canvas the loop ends; otherwise one frame is applied (drawing is not modelled). */
    method Animate(canvas: Option<Rect>) returns (frame: Frame)
      requires Valid()
      modifies this`boxes
      ensures Valid()
      ensures frame == Stopped <==> canvas.None?
      ensures frame == Stopped ==> boxes == old(boxes)
      ensures frame == Scheduled ==>
        |boxes| == |old(boxes)| && forall i :: 0 <= i < |boxes| ==> boxes[i] == Step(old(boxes)[i])
    {
      if canvas.None? {
        return Stopped;
      }
      UpdateAnimations();
      frame := Scheduled;
    }

    /**
     * `handleMouseMove`: nothing happens without a canvas or while the pointer
     * stays on the stored cell. Otherwise the previous cell is sent back to
     * rest, the new one (if any) is highlighted, both start animating, no
     * current value moves, and the new index is stored.
     */
    method MouseMove(mouseX: real, mouseY: real, canvas: Option<Rect>)
      requires Valid() && WellFormed(config)
      modifies this`boxes, this`hovered
      ensures Valid()
      ensures canvas.None? ==> boxes == old(boxes) && hovered == old(hovered)
      ensures canvas.Some? ==> hovered == BoxIndex(mouseX, mouseY, canvas.value, config)
      ensures |boxes| == |old(boxes)|
      ensures hovered == old(hovered) ==> boxes == old(boxes)
      ensures hovered != old(hovered) ==>
        && (hovered >= 0 ==> HighlightTargets(boxes[hovered]) && boxes[hovered].animating)
        && (0 <= old(hovered) < |boxes| ==> RestTargets(boxes[old(hovered)]) && boxes[old(hovered)].animating)
      ensures forall i :: 0 <= i < |boxes| && i != hovered && i != old(hovered) ==> boxes[i] == old(boxes)[i]
      ensures forall i :: 0 <= i < |boxes| ==>
        boxes[i].opacity == old(boxes)[i].opacity && boxes[i].scale == old(boxes)[i].scale
    {
      if canvas.None? {
        return;
      }
      var boxIndex := BoxIndex(mouseX, mouseY, canvas.value, config);
      if boxIndex != hovered {
        if hovered >= 0 {
          AnimateBox(hovered, false);
        }
        if boxIndex >= 0 {
          AnimateBox(boxIndex, true);
        }
        hovered := boxIndex;
      }
    }

    /**
     * `setupCanvas`: without a canvas nothing happens; otherwise the grid is
     * computed from the canvas box and the first animation frame runs, which
     * leaves the fresh cells as they are.
     */
    method SetupCanvas(canvas: Option<Rect>) returns (started: bool)
      requires Valid()
      requires canvas.Some? ==> canvas.value.width >= 0.0 && canvas.value.height >= 0.0
      modifies this`config, this`boxes
      ensures Valid()
      ensures started <==> canvas.Some?
      ensures !started ==> config == old(config) && boxes == old(boxes)
      ensures started ==> config == GridFor(canvas.value) && boxes == FreshCells(config.totalBoxes)
    {
      if canvas.None? {
        return false;
      }
      CalculateGrid(canvas.value);
      var _ := Animate(canvas);
      assert forall i :: 0 <= i < |boxes| ==> boxes[i] == FreshCell;
      started := true;
    }

    /** `handleResize` (after its 250 ms debounce): the grid is recomputed from the current canvas box, if any. */
    method HandleResize(canvas: Option<Rect>)
      requires Valid()
      requires canvas.Some? ==> canvas.value.width >= 0.0 && canvas.value.height >= 0.0
      modifies this`config, this`boxes
      ensures Valid()
      ensures canvas.None? ==> config == old(config) && boxes == old(boxes)
      ensures canvas.Some? ==> config == GridFor(canvas.value) && boxes == FreshCells(config.totalBoxes)
    {
      if canvas.None? {
        return;
      }
      CalculateGrid(canvas.value);
    }
  }
}
