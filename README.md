# Hover grids and testimonial carousel of a landing page, in Dafny

This project models the parts of a Next.js landing page that are logic, not
markup. There are three decorative grids that react to the pointer, and the
index arithmetic of the testimonial carousel.

- **`AnimatedBlock`** (`animated_block.dfy`, `colour.dfy`). A canvas is cut into square
  cells of side `blockSize`. The pointer is resolved against the *closed*
  canvas rectangle, and column and row are clamped to the last ones. Each box
  holds current and target opacity, scale and border opacity. Every frame
  eases each value 15% of the way toward its target, with no snapping. A
  single hover index drives a reset/highlight state machine. Setup and resize
  have readiness guards. Two colour helpers parse `#rrggbb` and lighten it
  toward white.
- **`CanvasAnimatedBackground`** (`canvas_background.dfy`). As many whole
  80 px cells fit as possible, at least one per axis, then they are stretched
  to tile the canvas exactly. The pointer is resolved against the *half-open*
  rectangle. Each cell has an `animating` flag. Easing snaps to the target and
  stops once both gaps are under 0.01.
- **`AnimatedBackground`** (`animated_background.dfy`). A CSS grid of
  `repeat(n, 1fr)` tracks holds one numbered `div` per cell. It is measured
  only once the element is at least 100 px on a side. Pointer resolution only
  range-checks the flattened row-major index. A tracker remembers the last box
  it lit.
- **Testimonial carousel of `page.js`** (`carousel.dfy`). Five testimonials
  appear as three copies. The tab is the slide modulo five. After every move
  the slider jumps back into the middle copy. A swipe moves one slide
  (`slidesToScroll={1}`) from wherever the carousel rests.

Shared pieces live in three more files:

- `geometry.dfy`: the bounding box, `Math.floor(a / b)` and row-major index lemmas;
- `easing.dfy`: the 0.15 easing step;
- `wrappers.dfy`: `Option`.

Each component's refs become the fields of a class whose methods update them
in place:

- `AnimatedBlock.Block`;
- `CanvasBackground.CanvasGrid`;
- `DomBackground.DomGrid`.

Each class has a `Valid()` invariant. For `Block` and `CanvasGrid` its key
part is that every box other than the hovered one has rest targets, so at
most one box is ever targeted at highlight. For `DomGrid` it says that the
configuration is either the initial one or well formed, and that the box
list is numbered in order.

The model treats the browser as follows:

- `getBoundingClientRect()` results are parameters of type `Rect`.
- A missing element ref (`ref.current === null`) is `None`.
- Numbers are `real`. Integer counts and indexes are `int`.
- The JavaScript `%` (truncating) is written out as `Carousel.JsRem`.
- Divisions by zero are modelled by the outcome they have in the source. For
  example, an `Infinity` or `NaN` index fails a range test.

Two behaviours of the source worth noting:

- `AnimatedBlock` has no `animating` flag and no snap. It eases every box on
  every frame and never lands exactly on a target.
- `CanvasAnimatedBackground` builds a 1 × 1 grid of zero-sized cells for a
  zero-sized canvas. Unlike the other two variants it has no minimum-size
  guard.

## Model

| member | source | states |
|---|---|---|
| AnimatedBlock.RestingBoxes | src/app/components/AnimatedBlock/AnimatedBlock.js:54-65 | exactly `n` records, each at rest (opacity 0, scale 1, border 1) and equal to its targets |
| AnimatedBlock.Retarget | src/app/components/AnimatedBlock/AnimatedBlock.js:97-105 | highlight targets are (1, 1.1, 0), rest targets (0, 1, 1); current values unchanged |
| AnimatedBlock.Tick | src/app/components/AnimatedBlock/AnimatedBlock.js:108-116 | each of opacity, scale, border opacity lands between its old value and its target, each gap is multiplied by 0.85, targets kept, a box at its targets is unchanged |
| AnimatedBlock.Remaining | src/app/components/AnimatedBlock/AnimatedBlock.js:110-114 | the share of a gap left after `n` frames lies in (0, 1] |
| AnimatedBlock.Ticks | src/app/components/AnimatedBlock/AnimatedBlock.js:219-223 | repeated frames of the `animate` loop keep every target, and a box on its targets stays put |
| AnimatedBlock.TicksShrinkGaps | src/app/components/AnimatedBlock/AnimatedBlock.js:108-116 | after `n` frames every gap is 0.85^n times the original gap, targets unchanged |
| AnimatedBlock.TickScalesGaps | src/app/components/AnimatedBlock/AnimatedBlock.js:111-114 | one frame turns every gap share `f` into `0.85 f` |
| AnimatedBlock.ClampedCell | src/app/components/AnimatedBlock/AnimatedBlock.js:83-90 | the clamped column/row is in [0, count) and is the cell holding the offset, or the last cell past the covered span |
| AnimatedBlock.BoxFromMouse | src/app/components/AnimatedBlock/AnimatedBlock.js:71-94 | -1 or an index in [0, length); -1 without a canvas; with a full table, -1 exactly when the point is outside the closed rectangle [0,w]×[0,h] |
| AnimatedBlock.BoxFromMouseCell | src/app/components/AnimatedBlock/AnimatedBlock.js:79-93 | for a point on the canvas, index mod columns and index div columns are the (clamped) column and row holding the point |
| AnimatedBlock.AtMostOneHighlighted | src/app/components/AnimatedBlock/AnimatedBlock.js:226-242 | under the single-hover invariant two boxes with highlight targets are the same box, the hovered one |
| AnimatedBlock.Block.constructor | src/app/components/AnimatedBlock/AnimatedBlock.js:18-32 | empty grid, no boxes, hover index -1, not initialised |
| AnimatedBlock.Block.InitializeGrid | src/app/components/AnimatedBlock/AnimatedBlock.js:36-68 | false and nothing changed without a canvas or when it is under one block on a side; otherwise columns = floor(w/blockSize) ≥ 1, rows likewise, square cells, `columns*rows` resting boxes; hover index kept |
| AnimatedBlock.Block.UpdateBox | src/app/components/AnimatedBlock/AnimatedBlock.js:97-105 | an index outside [0, length) changes nothing; otherwise only that box's targets change |
| AnimatedBlock.Block.UpdateAnimations | src/app/components/AnimatedBlock/AnimatedBlock.js:108-116 | every box becomes `Tick` of its old state; invariant kept |
| AnimatedBlock.Block.MouseMove | src/app/components/AnimatedBlock/AnimatedBlock.js:226-242 | the same index changes nothing; otherwise the old box gets rest targets, the new one highlight targets, no other box and no current value changes, the new index is stored; at most one box stays highlighted |
| AnimatedBlock.Block.SetupCanvas | src/app/components/AnimatedBlock/AnimatedBlock.js:245-283 | skipped without a canvas or once initialised; retry with nothing changed while the container is under 10 px or the grid cannot be built; otherwise initialised with the grid of floor(width / blockSize) by floor(height / blockSize) square cells, all resting |
| AnimatedBlock.Block.HandleResize | src/app/components/AnimatedBlock/AnimatedBlock.js:286-302 | no-op unless initialised, with a canvas and a container of at least 10 px; then the grid is rebuilt if the canvas holds a block and kept otherwise |
| BlockColour.HexValue | src/app/components/AnimatedBlock/AnimatedBlock.js:120-122 | a hexadecimal digit of either case has value in [0, 16) |
| BlockColour.HexDigit | src/app/components/AnimatedBlock/AnimatedBlock.js:136-138 | the digit written for `v` is one of `0-9a-f` (lower case) and its value is `v` |
| BlockColour.ParseHexPair | src/app/components/AnimatedBlock/AnimatedBlock.js:120-122 | two hex digits parse to a byte in [0, 255] |
| BlockColour.HexToRgba | src/app/components/AnimatedBlock/AnimatedBlock.js:119-124 | for a `#rrggbb` colour all three components lie in [0, 255] and alpha is passed through |
| BlockColour.ToBase16 | src/app/components/AnimatedBlock/AnimatedBlock.js:136-138 | `toString(16)` gives at least one hexadecimal digit |
| BlockColour.PadStart2 | src/app/components/AnimatedBlock/AnimatedBlock.js:136-138 | strings of two or more characters are kept; shorter ones are left-filled with `0` to length 2, ending in the original |
| BlockColour.HexByte | src/app/components/AnimatedBlock/AnimatedBlock.js:136-138 | a byte is written as exactly two hexadecimal digits |
| BlockColour.HexByteRoundTrip | src/app/components/AnimatedBlock/AnimatedBlock.js:136-138 | the two digits written for a byte parse back to it |
| BlockColour.Round | src/app/components/AnimatedBlock/AnimatedBlock.js:132-134 | `Math.round` lands within half a unit: x − 0.5 < r ≤ x + 0.5 |
| BlockColour.LightenChannel | src/app/components/AnimatedBlock/AnimatedBlock.js:132-134 | for amount in [0,1] the channel lies in [c, 255], is c for amount 0 and 255 for amount 1 |
| BlockColour.LightenColor | src/app/components/AnimatedBlock/AnimatedBlock.js:127-139 | the output has 7 characters, starts with `#` and is again a colour whose three pairs are hexadecimal digits |
| BlockColour.LightenColorRoundTrip | src/app/components/AnimatedBlock/AnimatedBlock.js:127-139 | the output parses back to exactly the lightened channels |
| BlockColour.LightenByNothing | src/app/components/AnimatedBlock/AnimatedBlock.js:132-134 | lightening by 0 keeps all three channels |
| BlockColour.LightenFully | src/app/components/AnimatedBlock/AnimatedBlock.js:132-134 | lightening by 1 gives white |
| Easing.Ease | src/app/components/AnimatedBlock/AnimatedBlock.js:111-114 | the eased value lies between value and target, its gap is 0.85 of the old gap, and a value at its target stays |
| Geometry.FloorDiv | src/app/components/AnimatedBackground/CanvasAnimatedBackground.js:25-26 | `q*s <= x < (q+1)*s`: the number of whole cells before the offset |
| CanvasBackground.GridFor | src/app/components/AnimatedBackground/CanvasAnimatedBackground.js:23-34 | columns, rows ≥ 1; totalBoxes = columns*rows; columns*boxWidth = w and rows*boxHeight = h; columns whole 80 px cells fit and one more does not (or columns = 1 below 80 px) |
| CanvasBackground.StretchedCellWidth | src/app/components/AnimatedBackground/CanvasAnimatedBackground.js:25-31 | a stretched cell is at least 80 px and under 160 px wide, or spans a canvas narrower than 80 px |
| CanvasBackground.FreshCells | src/app/components/AnimatedBackground/CanvasAnimatedBackground.js:37-45 | exactly `n` cells, each opacity 0, scale 1, targets 0/1, not animating |
| CanvasBackground.BoxIndex | src/app/components/AnimatedBackground/CanvasAnimatedBackground.js:53-67 | -1 when x<0, y<0, x≥width or y≥height; otherwise -1 or an index in [0, totalBoxes) |
| CanvasBackground.BoxIndexCell | src/app/components/AnimatedBackground/CanvasAnimatedBackground.js:58-66 | while the grid tiles the canvas, every point inside resolves to a box whose column and row hold the point |
| CanvasBackground.Retarget | src/app/components/AnimatedBackground/CanvasAnimatedBackground.js:70-83 | the cell starts animating with targets (1, 1.05) or (0, 1); current values unchanged |
| CanvasBackground.Step | src/app/components/AnimatedBackground/CanvasAnimatedBackground.js:86-105 | a resting cell is unchanged; an animating one moves toward its targets, and stops exactly on them precisely when both new gaps are under 0.01; otherwise each gap becomes 0.85 of the old one |
| CanvasBackground.Distance | src/app/components/AnimatedBackground/CanvasAnimatedBackground.js:96-97 | summed gap to the targets, zero exactly when the cell is on its targets |
| CanvasBackground.StepApproaches | src/app/components/AnimatedBackground/CanvasAnimatedBackground.js:90-102 | a frame after which the cell still animates brings it at least 0.0015 closer to its targets |
| CanvasBackground.Iterate | src/app/components/AnimatedBackground/CanvasAnimatedBackground.js:161-170 | repeated frames keep the targets, leave a resting cell unchanged, and never restart a stopped one |
| CanvasBackground.GapDecay | src/app/components/AnimatedBackground/CanvasAnimatedBackground.js:86-105 | after `k` frames the targets are unchanged, a still-animating cell is at least 0.0015 k closer, a stopped one sits exactly on its targets |
| CanvasBackground.StopsAnimating | src/app/components/AnimatedBackground/CanvasAnimatedBackground.js:90-102 | with fixed targets a cell has stopped animating after `StopBound` frames, exactly on its targets |
| CanvasBackground.CanvasGrid.constructor | src/app/components/AnimatedBackground/CanvasAnimatedBackground.js:6-18 | zero configuration, no cells, hover index -1 |
| CanvasBackground.CanvasGrid.CalculateGrid | src/app/components/AnimatedBackground/CanvasAnimatedBackground.js:23-50 | the configuration is `GridFor` of the canvas box and tiles it; `totalBoxes` fresh cells; hover index kept |
| CanvasBackground.CanvasGrid.AnimateBox | src/app/components/AnimatedBackground/CanvasAnimatedBackground.js:70-83 | out-of-range index ignored; otherwise only that cell is retargeted |
| CanvasBackground.CanvasGrid.UpdateAnimations | src/app/components/AnimatedBackground/CanvasAnimatedBackground.js:86-105 | every cell becomes `Step` of its old state; invariant kept |
| CanvasBackground.CanvasGrid.Animate | src/app/components/AnimatedBackground/CanvasAnimatedBackground.js:161-170 | without a canvas the loop stops and nothing changes; otherwise one `UpdateAnimations` frame |
| CanvasBackground.CanvasGrid.MouseMove | src/app/components/AnimatedBackground/CanvasAnimatedBackground.js:173-192 | without a canvas or on the same index nothing changes; otherwise old cell reset and new one highlighted (both animating), no other cell and no current value changes, new index stored; at most one cell highlighted |
| CanvasBackground.CanvasGrid.SetupCanvas | src/app/components/AnimatedBackground/CanvasAnimatedBackground.js:195-218 | starts exactly when there is a canvas; then the grid is computed and the first frame leaves the fresh cells as they are |
| CanvasBackground.CanvasGrid.HandleResize | src/app/components/AnimatedBackground/CanvasAnimatedBackground.js:221-231 | with a canvas the grid is recomputed and the cells reset; without one nothing changes |
| DomBackground.ConfigFor | src/app/components/AnimatedBackground/AnimatedBackground.js:34-41 | columns, rows ≥ 1; totalBoxes = columns*rows; exactly as many whole 80 px tracks as fit on each axis |
| DomBackground.DigitChar | src/app/components/AnimatedBackground/AnimatedBackground.js:43-44 | the character written for a digit is a decimal digit of that value |
| DomBackground.Decimal | src/app/components/AnimatedBackground/AnimatedBackground.js:43-44 | a number interpolates as a non-empty string of decimal digits |
| DomBackground.DecimalRoundTrip | src/app/components/AnimatedBackground/AnimatedBackground.js:43-44 | reading the decimal form back gives the number |
| DomBackground.ParseRepeat | src/app/components/AnimatedBackground/AnimatedBackground.js:43-44 | only a string of the form `repeat(…, 1fr)` yields a track count |
| DomBackground.TemplateRoundTrip | src/app/components/AnimatedBackground/AnimatedBackground.js:43-44 | the template written for `n` tracks is `repeat(<n>, 1fr)` and states exactly `n` |
| DomBackground.BoxAtPosition | src/app/components/AnimatedBackground/AnimatedBackground.js:87-105 | a box only for an index in [0, totalBoxes) naming a rendered child; none without an element or before a successful measurement |
| DomBackground.BoxAtPositionCell | src/app/components/AnimatedBackground/AnimatedBackground.js:91-104 | with all boxes rendered, every point on the element finds the box whose column and row hold it |
| DomBackground.LeftOfGridWraps | src/app/components/AnimatedBackground/AnimatedBackground.js:95-104 | with no per-axis check, a point up to one cell left of the grid on row r ≥ 1 lights the last box of row r − 1 |
| DomBackground.RightOfGridWraps | src/app/components/AnimatedBackground/AnimatedBackground.js:95-104 | likewise a point up to one cell right of the grid on a row above the last lights the first box of the next row |
| DomBackground.Track | src/app/components/AnimatedBackground/AnimatedBackground.js:111-135 | the tracker ends up remembering exactly the box under the pointer; a different box resets the remembered one and is lit, no box resets it, the same box does nothing; never resets and lights the same box |
| DomBackground.DomGrid.constructor | src/app/components/AnimatedBackground/AnimatedBackground.js:11-16 | zero configuration, no boxes, no remembered box |
| DomBackground.DomGrid.CalculateGridSize | src/app/components/AnimatedBackground/AnimatedBackground.js:20-45 | nothing without an element or while it is under 100 px on a side; otherwise the configuration is `ConfigFor` the box and both templates are `repeat(<n>, 1fr)` |
| DomBackground.NumberBoxes | src/app/components/AnimatedBackground/AnimatedBackground.js:55-58 | the loop builds max(totalBoxes, 0) entries in order, entry i having id = index = i |
| DomBackground.RepeatTemplate | src/app/components/AnimatedBackground/AnimatedBackground.js:43-44 | the track template is `repeat(`, the decimal digits of n, then `, 1fr)` |
| DomBackground.DomGrid.CreateGrid | src/app/components/AnimatedBackground/AnimatedBackground.js:48-67 | without an element nothing changes; too small keeps configuration and templates; otherwise `ConfigFor` and both `repeat(n, 1fr)` templates; then exactly `totalBoxes` entries, entry i having id = index = i |
| DomBackground.DomGrid.Init | src/app/components/AnimatedBackground/AnimatedBackground.js:146-149 | the whole new state of `CreateGrid` (configuration, templates, numbered entries), and a fresh tracker remembering no box |
| DomBackground.DomGrid.MouseMove | src/app/components/AnimatedBackground/AnimatedBackground.js:111-135 | the tweens asked for are `Track` of the remembered box and the box under the pointer, which the tracker then remembers |
| Carousel.Tripled | src/app/page.js:270-274 | the slide list is three times as long and slide i is testimonial i mod 5 |
| Carousel.JsRem | src/app/page.js:937 | truncating remainder: in [0, n) and equal to the modulus for non-negative input, in (−n, 0] and congruent for negative input |
| Carousel.Initial | src/app/page.js:19 | the first render (tab 0, `initialSlide` 5 at line 933) is settled in the middle copy with tab 0 active |
| Carousel.BeforeChange | src/app/page.js:934-939 | the new tab is `newIndex mod 5`, in [0, 5) for non-negative indexes; negative indexes give a tab in (−5, 0] |
| Carousel.MoveTo | src/app/page.js:934-939 | moving to a slide shows it with the tab of its testimonial |
| Carousel.AfterChange | src/app/page.js:940-954 | no jump exactly in [5, 10); a jump keeps the index mod 5; from any of the 15 slides it lands in [5, 10) |
| Carousel.TabClick | src/app/page.js:903-909 | clicking tab idx shows slide idx + 5 in the middle copy with tab idx active, and no corrective jump follows |
| Carousel.Swipe | src/app/page.js:934-954 | a move to any of the 15 slides plus its jump ends settled in the middle copy, on the same testimonial, with its tab active |
| Carousel.SwipeKeepsTestimonial | src/app/page.js:270-274 | the slide the carousel rests on shows the testimonial of the slide it moved to |
| Carousel.Settle | src/app/page.js:940-954 | the corrective `slickGoTo` keeps the slide mod 5, brings any of the 15 slides into [5, 10), and leaves a middle-copy slide alone |
| Carousel.Apply | src/app/page.js:903-954 | from a settled state a tab click activates that tab and a one-slide swipe activates the next or previous tab, wrapping around, and the carousel is settled again |
| Carousel.RunStaysSettled | src/app/page.js:903-954 | from a settled state, any sequence of tab clicks and swipes leaves the carousel settled |
| Carousel.FiveSwipesCycle | src/app/page.js:927-954 | five swipes forward from a settled state come back to the tab they started from |

## Left out

- Drawing is not modelled. This covers `render`/`draw`, `clearRect`,
  `strokeRect`, `fillRect`, colour strings and `canvas.width`/`height`
  assignment. It is a foreign graphics API.
- `requestAnimationFrame`, `setTimeout` retries and debounces, and
  `addEventListener`/`removeEventListener` are not modelled. A retry or a frame
  is a further call of the modelled method. The time a tween or debounce takes
  is not represented.
- `AnimatedBlock`'s teardown closure is not modelled. `setTimeout` discards
  the closure `setupCanvas` returns, so it never runs, and `initialized` never
  returns to false.
- The listener leak in `AnimatedBackground` on resize is not modelled. Each
  resize calls the first `cleanup` again, which removes only the tracker of
  the first `init`, then re-runs `init` and discards its cleanup. After k
  resizes the trackers added by those k resizes are all registered. The model
  has one tracker, reset by each `Init`.
- React rendering is not modelled. The rendered children are taken to be the
  `boxes` state at once, in order.
- The GSAP tweens in `AnimatedBackground` are not modelled. The model returns
  which box is reset and which is lit, not the colour or scale animation.
- IEEE-754 rounding is not modelled: numbers are exact reals. Infinities and
  `NaN` appear only as the range-test failures they cause.
- Malformed colours are not modelled, including what `parseInt` gives for
  non-hex characters. `hexToRgba` and `lightenColor` require `#rrggbb`.
- BlockColour.LightenColor: only amounts in [0, 1] are modelled, since the
  page never calls the helper. Outside that range the source can produce
  negative or three-digit bytes.
- BlockColour.HexToRgba: returns the components rather than the formatted
  `rgba(r, g, b, alpha)` string.
- The `setCurrentSlide(idx)` of a tab click is not modelled separately. The
  `beforeChange` that the slider fires sets the same tab.
- Carousel.Apply: each event is taken to arrive after any pending corrective
  jump has fired. In the source the jump is a `slickGoTo(currentIndex ± 5)`
  delayed 500 ms that does not look at what happened since. A tab click made
  inside that window is overridden when the jump fires: the slide and tab
  become those of the swiped-to testimonial again.
- Carousel.Swipe: covers moves onto slides 0–14. A negative target index,
  which a looping slider may report, is only covered by `BeforeChange`.
- The `react-slick` `Slider` widget is not modelled beyond one-slide swipes: its dragging, its timing,
  and whether it fires callbacks for a jump to the current slide.
- GSAP/ScrollTrigger timelines, BlobGroup randomness and the presentational
  components are outside this model.
- Layout boxes are assumed never to have negative size.
  `CanvasGrid.CalculateGrid`, `SetupCanvas`, `HandleResize`,
  `DomGrid.MouseMove` and `DomBackground.BoxAtPosition` require this of the
  element's box.
