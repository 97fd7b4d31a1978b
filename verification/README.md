# Attractor grid sketch — a Dafny model

The sketch lays out a 30 × 30 grid of nodes in a 1200 × 1200 window. It also
moves an attractor point along two sinusoids of elapsed time. Every frame,
each node:

- moves 30 units from its resting center along (sin θ, cos θ), where θ is the angle
  between the center and the attractor taken as vectors from the origin (not the
  direction from the node to the attractor);
- grows as it gets closer (radius `2 + min(1000 / dist, 50)`);
- takes a random colour when it is within 100 of the attractor, and is white otherwise.

Each of the first 1000 frames is saved as `<out_path>/NNN.png`.

The project models this simulation core in six modules:

- `Geometry` — vectors, rectangles and the numeric functions the sketch takes from its libraries.
- `Attractor` — `map_range`, and the `Point` class with its constructor and `update`.
- `Nodes` — the radius and colour rules, and the `Node` class with its constructor and `update`.
- `Grid` — `create_nodes`: a nested row/column loop that builds the nodes in row-major order.
- `Simulation` — the `Model` built by `model`, and the per-frame `update` loop.
- `Frames` — `captured_frame_path` (`join`, `format!("{:03}")` and `with_extension`) and the `nth < 1000` capture gate in `view`.

`f32` is modelled as `real`. The library numerics `sin`, `cos`, `angle_between` and
`distance` are parameters of the model (a `Numerics` record of functions). Where a
property depends on their ranges, such as sin in [-1, 1] or sin² + cos² = 1 for a
bearing, the lemma states that range as a hypothesis about the specific argument.
`random_f32` is an input: one `Rgb` draw of three channels per node per frame.
`Rect::pad` moves every edge of the rectangle inward by the padding; the result
stays an ordered rectangle inside the original only while twice the padding is at
most its width and height, which holds for the sketch's 1200 × 1200 window.

The classes `Point`, `Node` and `Model` keep the source's fields and update them in
place. Each of their methods is tied to a pure function of the old state:

- `PositionAt` for the attractor;
- `Responded` for a node after an update;
- `Initial` and `GridCenter` for a node as it is built.

The properties are proved about those functions.

The radius rule is written `2 + (if dist <= 20 then 50 else 1000 / dist)`. In
`f32`, `1000 / 0` is infinity and `.min(50)` turns it into 50. So this form agrees
with the source for every distance, including 0. `RadiusForMatchesClamp` proves it
equal to `2 + min(1000 / dist, 50)` for every positive distance.

## Model

| member | source | states |
|---|---|---|
| Geometry.Rect.Pad | src/main.rs:100 | the rectangle with every edge moved inward by the padding, as `win.pad(300.0)` and `win.pad(200.0)` use it |
| Geometry.Rect.PadInside | src/main.rs:100 | padding by at most half the width and height gives an ordered rectangle inside the original, narrower and lower by twice the padding |
| Geometry.Rect.PadPastCenter | src/main.rs:128 | the modelled `Pad` crosses its left and right edges when the padding exceeds half the width (a case the sketch's 1200-wide window never reaches) |
| Attractor.MapRange | src/main.rs:40-41 | nannou's `map_range`: the affine map sending `inMin` to `outMin` and `inMax` to `outMax` (properties in the lemmas below) |
| Attractor.PositionAt | src/main.rs:37-42 | the attractor's position at elapsed time `time`: sin(time / 1.4) mapped from [-1, 1] onto [left, right] and sin(time / 2) onto [bottom, top] |
| Attractor.MapRangeEndpoints | src/main.rs:40-41 | `map_range` sends -1 to the lower bound and 1 to the upper bound |
| Attractor.MapRangeWithin | src/main.rs:40-41 | a value inside the input range maps inside the (ordered) output range |
| Attractor.MapRangeMonotone | src/main.rs:40-41 | `map_range` with increasing input and ordered output ranges preserves order |
| Attractor.MapRangeInverse | src/main.rs:40-41 | mapping back from the output range to the input range recovers the value, so the map is one-to-one |
| Attractor.PositionAtInBounds | src/main.rs:37-42 | with both sines in [-1, 1] and ordered bounds, the attractor's new position lies inside its bounding box |
| Attractor.PositionAtPeaks | src/main.rs:37-42 | a sine of -1 puts the attractor on the left/bottom edge, a sine of 1 on the right/top edge |
| Attractor.Point.constructor | src/main.rs:21-35 | the point keeps the given position and takes the four edges of the boundary as its bounds |
| Attractor.Point.Update | src/main.rs:37-42 | the bounds never change; the position becomes `PositionAt(time)` and lies inside the bounds when the sines are in range and the bounds are ordered |
| Nodes.Bearing | src/main.rs:65 | θ, the `angle_between` of the center and the attractor, both read as vectors from the origin |
| Nodes.Orbit | src/main.rs:66-67 | the point `center + (sin θ, cos θ) · offset` |
| Nodes.RadiusFor | src/main.rs:72-73 | the radius for a distance: 2 plus 50 up to distance 20 (the `f32` infinity at 0 clamped to 50), 2 plus 1000 / dist beyond |
| Nodes.ColorFor | src/main.rs:76-85 | the three draws at full opacity below distance 100, opaque white otherwise |
| Nodes.Initial | src/main.rs:137-145 | a node's appearance as `create_nodes` builds it: `offset` from the center along (sin θ, cos θ), radius `offset`, white |
| Nodes.Responded | src/main.rs:64-86 | a node's appearance after `update`: 30 from the center along (sin θ, cos θ), radius and colour from the distance of that position to the attractor |
| Nodes.OrbitOnCircle | src/main.rs:65-67 | when sin² + cos² = 1 for the bearing, the orbit point is exactly `offset` away from the center |
| Nodes.OrbitInSquare | src/main.rs:65-67 | with sin and cos in [-1, 1], the orbit point lies within `offset` of the center on each axis |
| Nodes.RadiusForMatchesClamp | src/main.rs:72-73 | for every positive distance the radius is `2 + min(1000 / dist, 50)` |
| Nodes.RadiusForBounds | src/main.rs:72-73 | the radius lies in [2, 52] and is 52 exactly when the distance is at most 20, including 0 |
| Nodes.RadiusForMonotone | src/main.rs:72-73 | a node nearer the attractor is never drawn smaller |
| Nodes.ColorForRules | src/main.rs:76-85 | the colour is opaque; white at distance 100 or more; the three draws below it; in gamut whenever the draws are in [0, 1] |
| Nodes.RespondedProperties | src/main.rs:64-86 | after an update the radius is in [2, 52], the colour is opaque, white from distance 100 and in gamut for in-range draws, and the node is 30 from its center on the unit circle |
| Nodes.InitialProperties | src/main.rs:54-62 | a node as built has the given radius, is white, and sits `radius` from its center on the unit circle |
| Nodes.Node.constructor | src/main.rs:54-62 | the node keeps center, position and radius, and is white |
| Nodes.Node.Update | src/main.rs:64-86 | the center never changes; position, radius and colour become `Responded` for the attractor's current position and the draw |
| Grid.XGap | src/main.rs:128-129 | the width of the window padded by 200, over `cols - 1` |
| Grid.YGap | src/main.rs:128-130 | the height of the window padded by 200, over `rows - 1` |
| Grid.GridCenter | src/main.rs:128-136 | the resting center of cell (row, col): padded left plus `row · XGap`, padded bottom plus `col · YGap` |
| Grid.GridCenterCorners | src/main.rs:128-136 | the first node sits on the bottom-left corner of the window padded by 200; row index `cols - 1` and column index `rows - 1` reach the right and top edges |
| Grid.SquareGridInside | src/main.rs:128-136 | for a square grid, every resting center lies inside the padded window |
| Grid.TallGridOverruns | src/main.rs:129-136 | because the row index steps along x by the column spacing, a grid with more rows than columns runs past the padded window's right edge |
| Grid.CellOf | src/main.rs:133-134 | element `k` of the row-major sequence belongs to the column below `cols` whose row and column recombine to `k` |
| Grid.CellOfIndex | src/main.rs:133-134 | cell (row, col) is element `row * cols + col`, so row-major numbering is one-to-one |
| Grid.NewGridNode | src/main.rs:135-145 | a fresh node centered on `GridCenter(row, col)` and initialised `radius` away along (sin θ, cos θ), θ the angle between center and attractor as vectors from the origin |
| Grid.AppendRow | src/main.rs:134-147 | one row appends `cols` fresh, distinct nodes after the earlier rows, each built for its own index |
| Grid.CreateNodes | src/main.rs:127-150 | exactly `rows * cols` fresh, pairwise distinct nodes; the node at index `row * cols + col` is centered on its grid cell and initialised against the attractor |
| Simulation.Model.constructor | src/main.rs:96-117 | attractor at (-50, 0) bounded by the window padded by 300; 900 distinct fresh nodes of radius 20 built against it; the given output path |
| Simulation.Model.Update | src/main.rs:152-157 | the attractor advances first; every node is then updated against that same advanced position; the node sequence, its order and every center are unchanged |
| Frames.Join | src/main.rs:183 | the path with one more component |
| Frames.FileStem | src/main.rs:184 | the stem of a file name: a prefix of it, either the whole name or cut just before a dot |
| Frames.WithExtension | src/main.rs:184 | `with_extension`: a path of the same length in which only the last component changes |
| Frames.ZeroPad | src/main.rs:183 | the numeral left-filled with '0' up to the width, never shortened, ending in the numeral |
| Frames.Format03 | src/main.rs:183 | `format!("{:03}", n)`: at least three characters, all digits |
| Frames.FramePath | src/main.rs:180-185 | `captured_frame_path`: one component longer than the output path, which it keeps as its prefix |
| Frames.CapturePath | src/main.rs:174-176 | the gate in `view`: `Some(FramePath(outPath, nth))` when `nth < 1000`, `None` otherwise |
| Frames.LastIndexOf | src/main.rs:184 | the index of the last occurrence of a character, with none after it, or -1 |
| Frames.Decimal | src/main.rs:183 | the numeral is non-empty, all digits, with no leading zero unless the number is 0 |
| Frames.DecimalRoundTrip | src/main.rs:183 | reading the numeral back gives the number |
| Frames.Format03RoundTrip | src/main.rs:183 | the zero-padded stem is all digits and reads back as the frame number |
| Frames.Format03Below1000 | src/main.rs:183 | below 1000 the stem is the hundreds, tens and units digits |
| Frames.Format03Width | src/main.rs:183 | the stem has at least three characters, and exactly three precisely when the frame number is below 1000 |
| Frames.WithExtensionOfDotless | src/main.rs:184 | giving a dotless file name other than ".." a non-empty extension appends "." and the extension |
| Frames.FramePathShape | src/main.rs:180-185 | the frame path is the output path plus the single file `<stem>.png` |
| Frames.FramePathSeven | src/main.rs:180-185 | frame 7 is saved as `007.png` in the output path |
| Frames.FramePathInjective | src/main.rs:180-185 | distinct frame numbers never share a path |
| Frames.CapturePathShape | src/main.rs:174-176 | a frame is captured exactly when its number is below 1000; the captured file is then `<out_path>/<stem>.png`, the stem being three digits that read back as the frame number |

## Left out

- `main`, window creation and the nannou app loop are framework plumbing. The `_window` field of `Model` is not modelled.
- Drawing in `view` (background, ellipses, `to_frame`) is rendering and is not modelled.
- `capture_frame` encodes and writes a PNG. That is I/O; only the path it is handed is modelled.
- `create_output_path` reads the wall clock and the project directory. It is not part of this model, and the output path is a parameter of `Model.constructor`.
- `sin`, `cos`, `angle_between` and `distance` are parameters of the model, not definitions. Their ranges appear as hypotheses of the lemmas that need them.
- `random_f32` is an input, not a generator. A draw is supplied for every node, even when the node is 100 or more from the attractor and ignores it.
- `f32` rounding, overflow and NaN are not modelled. Arithmetic is exact on reals.
- Grid.CreateNodes: requires `rows != 1` and `cols != 1`. With a single row or column the source divides by zero in `f32` and builds infinite or NaN centers. Zero rows or columns are allowed and give no nodes.
- Geometry.Rect.Pad: models nannou's `Rect::pad` as moving each edge inward by the padding, so the attractor's box is the window shrunk by 300 on every side. When twice the padding exceeds the width or height the modelled edges cross (left past right); what nannou's edge accessors report for such a rectangle is not modelled.
- Nodes.RadiusFor: the rule is meant for distances `>= 0`; for a negative argument, which a Euclidean distance never is, it gives 52 rather than `2 + min(1000 / dist, 50)`.
- Frames.WithExtension models `with_extension` on component sequences. Path normalisation, separators inside components and absolute components are not modelled; `join` is only applied to a numeral.
