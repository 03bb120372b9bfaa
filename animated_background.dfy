/**
 * The DOM grid (`AnimatedBackground`): a CSS grid of `repeat(n, 1fr)` tracks
 * filled with one `div` per cell, measured only once the element is at least
 * 100 px on a side, and a document-level pointer tracker that remembers the
 * last box it lit. Pointer resolution range-checks only the flattened
 * row-major index, so a point just beside the grid can land on a box of a
 * neighbouring row.
 */
module DomBackground {
  import opened Wrappers
  import opened Geometry

  /** `MIN_BOX_SIZE`. */
  const MinBoxSize: real := 80.0

  /** Below this width or height the element is taken as not laid out yet. */
  const MinLaidOut: real := 100.0

  /** `gridConfigRef.current`. */
  datatype Config = Config(columns: int, rows: int, totalBoxes: int)

  /** The configuration before the first successful measurement. */
  const EmptyConfig := Config(0, 0, 0)

  predicate WellFormed(g: Config)
  {
    g.columns >= 1 && g.rows >= 1 && g.totalBoxes == g.columns * g.rows
  }

  /**
   * The configuration `calculateGridSize` derives from an element that is
   * laid out: as many whole 80 px tracks as fit on each axis (at least one).
   */
  function ConfigFor(rect: Rect): (g: Config)
    requires rect.width >= MinLaidOut && rect.height >= MinLaidOut
    ensures WellFormed(g)
    ensures g.columns as real * MinBoxSize <= rect.width < (g.columns + 1) as real * MinBoxSize
    ensures g.rows as real * MinBoxSize <= rect.height < (g.rows + 1) as real * MinBoxSize
  {
    FloorDivBelow(rect.width, MinBoxSize, 1);
    FloorDivBelow(rect.height, MinBoxSize, 1);
    var columns := Max(FloorDiv(rect.width, MinBoxSize), 1);
    var rows := Max(FloorDiv(rect.height, MinBoxSize), 1);
    Config(columns, rows, columns * rows)
  }

  predicate IsDigit(c: char)
  {
    '0' <= c <= '9'
  }

  predicate AllDigits(s: string)
  {
    forall i :: 0 <= i < |s| ==> IsDigit(s[i])
  }

  function DigitChar(d: int): (c: char)
    requires 0 <= d < 10
    ensures IsDigit(c) && c as int - '0' as int == d
  {
    ('0' as int + d) as char
  }

  /** A number written in decimal, as a template literal interpolates it. */
  function Decimal(n: nat): (s: string)
    ensures |s| >= 1 && AllDigits(s)
    decreases n
  {
    if n < 10 then [DigitChar(n)] else Decimal(n / 10) + [DigitChar(n % 10)]
  }

  /** The value of a string of decimal digits. */
  function ParseDecimal(s: string): nat
    requires AllDigits(s)
  {
    if |s| == 0 then 0 else 10 * ParseDecimal(s[..|s| - 1]) + (s[|s| - 1] as int - '0' as int)
  }

  /** Reading a number back from its decimal form gives the number. */
  lemma {:induction false} DecimalRoundTrip(n: nat)
    ensures ParseDecimal(Decimal(n)) == n
    decreases n
  {
    var s := Decimal(n);
    if n >= 10 {
      DecimalRoundTrip(n / 10);
      assert s[..|s| - 1] == Decimal(n / 10);
    }
  }

  /** The `grid-template-columns` / `grid-template-rows` value for `n` equal tracks. */
  function RepeatTemplate(n: nat): (s: string)
    ensures |s| >= 14 && s[..7] == "repeat(" && s[|s| - 6..] == ", 1fr)"
    ensures AllDigits(s[7..|s| - 6]) && s[7..|s| - 6] == Decimal(n)
  {
    "repeat(" + Decimal(n) + ", 1fr)"
  }

  /** The track count a `repeat(<n>, 1fr)` value states, if it has that form. */
  function ParseRepeat(s: string): (n: Option<nat>)
    ensures n.Some? ==> |s| >= 14 && s[..7] == "repeat(" && s[|s| - 6..] == ", 1fr)"
  {
    if |s| >= 14 && s[..7] == "repeat(" && s[|s| - 6..] == ", 1fr)" && AllDigits(s[7..|s| - 6])
    then Some(ParseDecimal(s[7..|s| - 6]))
    else None
  }

  /** A template states exactly the track count it was written for. */
  lemma TemplateRoundTrip(n: nat)
    ensures ParseRepeat(RepeatTemplate(n)) == Some(n)
  {
    var s := RepeatTemplate(n);
    var d := Decimal(n);
    assert s[..7] == "repeat(";
    assert s[|s| - 6..] == ", 1fr)";
    assert s[7..|s| - 6] == d;
    DecimalRoundTrip(n);
  }

  /** One entry of the `boxes` state: the React key and the `data-index` of a cell. */
  datatype BoxEntry = BoxEntry(id: int, index: int)

  /** The box list `createGrid` builds: entry `i` has key and index `i`. */
  predicate Numbered(boxes: seq<BoxEntry>)
  {
    forall i :: 0 <= i < |boxes| ==> boxes[i] == BoxEntry(i, i)
  }

  /**
   * `getBoxAtPosition`: the element (here its position among the rendered
   * children) at the row-major index of the point, with cells of
   * `width / columns` by `height / rows`. The only test is that the index
   * lies in [0, totalBoxes) and names a rendered child; column and row are
   * not checked on their own. A zero-sized element or an unmeasured grid
   * makes the source divide by zero, and the infinite or NaN index fails
   * that test.
   */
  function BoxAtPosition(mouseX: real, mouseY: real, background: Option<Rect>, config: Config, children: int)
    : (box: Option<int>)
    requires config == EmptyConfig || WellFormed(config)
    requires background.Some? ==> background.value.width >= 0.0 && background.value.height >= 0.0
    ensures box.Some? ==> 0 <= box.value < config.totalBoxes && box.value < children
    ensures background.None? || config.totalBoxes == 0 ==> box.None?
  {
    match background
    case None => None
    case Some(rect) =>
      if config.columns == 0 || config.rows == 0 then None
      else
        var boxWidth := rect.width / config.columns as real;
        var boxHeight := rect.height / config.rows as real;
        if boxWidth == 0.0 || boxHeight == 0.0 then None
        else
          var column := FloorDiv(mouseX - rect.left, boxWidth);
          var row := FloorDiv(mouseY - rect.top, boxHeight);
          var index := row * config.columns + column;
          if 0 <= index < config.totalBoxes && index < children then Some(index) else None
  }

  /**
   * A point on the element, with every box rendered, finds the box whose
   * column and row hold it.
   */
  lemma BoxAtPositionCell(mouseX: real, mouseY: real, rect: Rect, config: Config, children: int)
    requires WellFormed(config) && children >= config.totalBoxes
    requires 0.0 <= mouseX - rect.left < rect.width && 0.0 <= mouseY - rect.top < rect.height
    ensures var box := BoxAtPosition(mouseX, mouseY, Some(rect), config, children);
      && box.Some?
      && InCell(mouseX - rect.left, rect.width / config.columns as real, box.value % config.columns)
      && InCell(mouseY - rect.top, rect.height / config.rows as real, box.value / config.columns)
  {
    var x, y := mouseX - rect.left, mouseY - rect.top;
    var bw, bh := rect.width / config.columns as real, rect.height / config.rows as real;
    DivideEvenly(rect.width, config.columns);
    DivideEvenly(rect.height, config.rows);
    AxisCell(x, rect.width, config.columns, bw);
    AxisCell(y, rect.height, config.rows, bh);
    var column, row := FloorDiv(x, bw), FloorDiv(y, bh);
    CellIndexInRange(column, row, config.columns, config.rows);
    RowMajorSplit(column, row, config.columns);
  }

  /**
   * Without a per-axis check, a point up to one cell left of the grid, level
   * with row `r` >= 1, lights the last box of row `r - 1`.
   */
  lemma LeftOfGridWraps(mouseX: real, mouseY: real, rect: Rect, config: Config, children: int)
    requires WellFormed(config) && children >= config.totalBoxes && rect.width > 0.0
    requires -(rect.width / config.columns as real) <= mouseX - rect.left < 0.0
    requires rect.height / config.rows as real <= mouseY - rect.top < rect.height
    ensures var box := BoxAtPosition(mouseX, mouseY, Some(rect), config, children);
      && box.Some?
      && box.value % config.columns == config.columns - 1
      && InCell(mouseY - rect.top, rect.height / config.rows as real, box.value / config.columns + 1)
  {
    var x, y := mouseX - rect.left, mouseY - rect.top;
    var bw, bh := rect.width / config.columns as real, rect.height / config.rows as real;
    DivideEvenly(rect.width, config.columns);
    DivideEvenly(rect.height, config.rows);
    AxisCell(y, rect.height, config.rows, bh);
    PositiveFactor(config.columns as real, bw, rect.width);
    var row := FloorDiv(y, bh);
    FloorDivBelow(y, bh, 1);
    assert FloorDiv(x, bw) == -1 by {
      FloorDivBelow(x, bw, 0);
      FloorDivBelow(x, bw, -1);
    }
    CellIndexInRange(config.columns - 1, row - 1, config.columns, config.rows);
    RowMajorSplit(config.columns - 1, row - 1, config.columns);
    assert (row - 1) * config.columns + (config.columns - 1) == row * config.columns + -1;
  }

  /**
   * Likewise a point up to one cell right of the grid, level with row `r`
   * below the last, lights the first box of row `r + 1`.
   */
  lemma RightOfGridWraps(mouseX: real, mouseY: real, rect: Rect, config: Config, children: int)
    requires WellFormed(config) && children >= config.totalBoxes && rect.width > 0.0
    requires rect.width <= mouseX - rect.left < rect.width + rect.width / config.columns as real
    requires 0.0 <= mouseY - rect.top < rect.height - rect.height / config.rows as real
    ensures var box := BoxAtPosition(mouseX, mouseY, Some(rect), config, children);
      && box.Some?
      && box.value % config.columns == 0
      && InCell(mouseY - rect.top, rect.height / config.rows as real, box.value / config.columns - 1)
  {
    var x, y := mouseX - rect.left, mouseY - rect.top;
    var bw, bh := rect.width / config.columns as real, rect.height / config.rows as real;
    DivideEvenly(rect.width, config.columns);
    DivideEvenly(rect.height, config.rows);
    AxisCell(y, rect.height, config.rows, bh);
    PositiveFactor(config.columns as real, bw, rect.width);
    var row := FloorDiv(y, bh);
    assert row < config.rows - 1 by {
      assert (config.rows - 1) as real * bh == rect.height - bh;
      FloorDivBelow(y, bh, config.rows - 1);
    }
    assert FloorDiv(x, bw) == config.columns by {
      assert (config.columns + 1) as real * bw == rect.width + bw;
      FloorDivBelow(x, bw, config.columns);
      FloorDivBelow(x, bw, config.columns + 1);
    }
    CellIndexInRange(0, row + 1, config.columns, config.rows);
    RowMajorSplit(0, row + 1, config.columns);
    assert (row + 1) * config.columns + 0 == row * config.columns + config.columns;
  }

  /** What one pointer move asks of the tweens, and what the tracker then remembers. */
  datatype HoverEffect = HoverEffect(reset: Option<int>, highlight: Option<int>, next: Option<int>)

  /**
   * The `lastHighlightedBox` logic of `handleMouseMove`: a different box
   * resets the remembered one (if any) and is lit; no box resets the
   * remembered one and forgets it; the same box does nothing.
   */
  function Track(last: Option<int>, box: Option<int>): (e: HoverEffect)
    ensures e.next == box
    ensures e.highlight == (if box != last then box else None)
    ensures e.reset == (if box != last then last else None)
    ensures e.reset.Some? && e.highlight.Some? ==> e.reset != e.highlight
  {
    if box.Some? && box != last then
      HoverEffect(if last.Some? then last else None, box, box)
    else if box.None? && last.Some? then
      HoverEffect(last, None, None)
    else
      HoverEffect(None, None, last)
  }

  /** How `calculateGridSize` ended. */
  datatype Sizing =
    | NoElement // no element: nothing happens
    | TooSmall  // not laid out yet: a retry is scheduled 100 ms later
    | Sized     // configuration and templates written

  /** The loop of `createGrid`: one numbered entry per box, in order. */
  method NumberBoxes(total: int) returns (entries: seq<BoxEntry>)
    ensures |entries| == Max(total, 0) && Numbered(entries)
  {
    entries := [];
    var i := 0;
    while i < total
      invariant 0 <= i <= Max(total, 0)
      invariant |entries| == i && Numbered(entries)
    {
      entries := entries + [BoxEntry(i, i)];
      i := i + 1;
    }
  }

  /** The refs, the `boxes` state and the tracker of one `AnimatedBackground` instance. */
  class DomGrid {
    var config: Config
    var columnTemplate: string
    var rowTemplate: string
    var boxes: seq<BoxEntry>
    var lastHighlighted: Option<int>

    ghost predicate Valid()
      reads this
    {
      (config == EmptyConfig || WellFormed(config)) && Numbered(boxes)
    }

    constructor ()
      ensures Valid()
      ensures config == EmptyConfig && boxes == [] && lastHighlighted == None
      ensures columnTemplate == [] && rowTemplate == []
    {
      config := EmptyConfig;
      columnTemplate := [];
      rowTemplate := [];
      boxes := [];
      lastHighlighted := None;
    }

    /**
     * `calculateGridSize`: nothing without an element or while it is under
     * 100 px on a side (the caller retries); otherwise the configuration and
     * both track templates are written.
     */
    method CalculateGridSize(background: Option<Rect>) returns (sizing: Sizing)
      requires Valid()
      modifies this`config, this`columnTemplate, this`rowTemplate
      ensures Valid()
      ensures sizing == NoElement <==> background.None?
      ensures sizing == TooSmall <==>
        background.Some? && (background.value.width < MinLaidOut || background.value.height < MinLaidOut)
      ensures sizing != Sized ==>
        config == old(config) && columnTemplate == old(columnTemplate) && rowTemplate == old(rowTemplate)
      ensures sizing == Sized ==>
        && config == ConfigFor(background.value)
        && columnTemplate == RepeatTemplate(config.columns)
        && rowTemplate == RepeatTemplate(config.rows)
    {
      if background.None? {
        return NoElement;
      }
      var rect := background.value;
      if rect.width < MinLaidOut || rect.height < MinLaidOut {
        return TooSmall;
      }
      config := ConfigFor(rect);
      columnTemplate := RepeatTemplate(config.columns);
      rowTemplate := RepeatTemplate(config.rows);
      sizing := Sized;
    }

    /**
     * `createGrid`: without an element nothing happens; otherwise the grid is
     * sized and one numbered entry per box of the current configuration is
     * built, which is none while no measurement has succeeded yet.
     */
    method CreateGrid(background: Option<Rect>)
      requires Valid()
      modifies this`config, this`columnTemplate, this`rowTemplate, this`boxes
      ensures Valid()
      ensures background.None? ==>
        config == old(config) && columnTemplate == old(columnTemplate) && rowTemplate == old(rowTemplate)
        && boxes == old(boxes)
      ensures background.Some? && background.value.width >= MinLaidOut && background.value.height >= MinLaidOut ==>
        && config == ConfigFor(background.value)
        && columnTemplate == RepeatTemplate(config.columns)
        && rowTemplate == RepeatTemplate(config.rows)
      ensures background.Some? && (background.value.width < MinLaidOut || background.value.height < MinLaidOut) ==>
        config == old(config) && columnTemplate == old(columnTemplate) && rowTemplate == old(rowTemplate)
      ensures background.Some? ==> |boxes| == config.totalBoxes
    {
      if background.None? {
        return;
      }
      var _ := CalculateGridSize(background);
      assert config.totalBoxes >= 0 by {
        if config != EmptyConfig {
          MulAtLeast(config.columns, config.rows);
        }
      }
      var newBoxes := NumberBoxes(config.totalBoxes);
      boxes := newBoxes;
    }

    /** `init`: the grid is created and a fresh tracker, remembering no box, starts listening. */
    method Init(background: Option<Rect>)
      requires Valid()
      modifies this
      ensures Valid()
      ensures lastHighlighted == None
      ensures background.None? ==>
        config == old(config) && columnTemplate == old(columnTemplate) && rowTemplate == old(rowTemplate)
        && boxes == old(boxes)
      ensures background.Some? && background.value.width >= MinLaidOut && background.value.height >= MinLaidOut ==>
        && config == ConfigFor(background.value)
        && columnTemplate == RepeatTemplate(config.columns)
        && rowTemplate == RepeatTemplate(config.rows)
      ensures background.Some? && (background.value.width < MinLaidOut || background.value.height < MinLaidOut) ==>
        config == old(config) && columnTemplate == old(columnTemplate) && rowTemplate == old(rowTemplate)
      ensures background.Some? ==> |boxes| == config.totalBoxes
    {
      CreateGrid(background);
      lastHighlighted := None;
    }

    /**
     * `handleMouseMove`: the box under the pointer among the rendered
     * children is looked up, the tweens `Track` asks for are returned, and
     * the tracker then remembers exactly that box (or none).
     */
    method MouseMove(mouseX: real, mouseY: real, background: Option<Rect>) returns (effect: HoverEffect)
      requires Valid()
      requires background.Some? ==> background.value.width >= 0.0 && background.value.height >= 0.0
      modifies this`lastHighlighted
      ensures effect == Track(old(lastHighlighted), BoxAtPosition(mouseX, mouseY, background, config, |boxes|))
      ensures lastHighlighted == BoxAtPosition(mouseX, mouseY, background, config, |boxes|)
      ensures lastHighlighted.Some? ==> 0 <= lastHighlighted.value < |boxes|
    {
      var box := BoxAtPosition(mouseX, mouseY, background, config, |boxes|);
      effect := Track(lastHighlighted, box);
      lastHighlighted := effect.next;
    }
  }
}
