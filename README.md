# aoclib grid, search and helper types, modelled in Dafny

This project models the core of `aoclib`, a helper library for Advent of Code puzzles.

- **`Map<Tile>`** is a rectangular grid of tiles. It is stored as a row-major tile
  vector with a `width`, a `height` and a signed `offset` (the lower-left corner). The
  model covers:
  - index/point conversion, bounds, the corners and adjacency;
  - the `project` ray and the `edge` iterator;
  - construction: `procedural_offset`, `From<&[Row]>`, the text parser `try_from`, and
    `Display`;
  - `translate`, the two flips and the two rotations;
  - the two searches: the flood fill `reachable_from_ctx` and the shortest-path
    `navigate_ctx`, with its heap node `AStarNode`.
- **Supporting types:** the four-way `Direction` algebra, and the fixed-width tile types
  `Bool`, `Digit` and `TwoDigits` with the text chunker.
- **Further pieces:**
  - a pointer-based doubly linked list with a cursor;
  - hexagonal directions, their parser, and axial hex coordinates;
  - the line-, cluster- and comma-oriented record readers of `input.rs`;
  - the in-memory per-year path table of `config.rs`.

Modules, one per file:

- `Points` (`points.dfy`): the `Point` type, whose source file is not part of this model.
- `Arith` (`arith.dfy`): row-major index arithmetic.
- `Directions` (`direction.dfy`).
- `Tiles` (`tile.dfy`).
- `Grid` (`grid.dfy`): the `Map` datatype, bounds, indexing and adjacency.
- `Transforms` (`transforms.dfy`): procedural construction, flips and rotations.
- `Parse` (`parse.dfy`): rows, `try_from` and `Display`.
- `Edges` (`edge.dfy`).
- `AStar` (`a_star.dfy`).
- `Search` (`search.dfy`): the flood fill and `navigate_ctx`.
- `HexDirections` (`hex_direction.dfy`) and `HexCoordinates` (`hex_coordinate.dfy`).
- `Input` (`input.dfy`).
- `Configuration` (`config.dfy`).
- `LinkedLists` (`linked_list.dfy`).
- `Wrappers` (`wrappers.dfy`): `Option` and `Result`.

How the source's forms map to the model:

- The grid is a value (`datatype Map`). Each builder that fills a vector in a loop is a
  `method` with loop invariants, and each is proved equal to a specification predicate
  or function. The properties of the transforms are lemmas about those specifications.
- `translate` is a function that returns the moved grid. It takes `&mut self`, so no
  aliasing is lost.
- The edge iterator, the `Chunks` iterator, the two input readers, `Config` and the
  linked list update fields in place. Each is a `class` with `modifies` clauses and a
  ghost view: the points or records still to come, the list's items.
- The two searches are methods over an `array<bool>` visited bitset, a queue or heap
  sequence, and `map`s. Their invariants are named ghost predicates, and each loop step
  is a helper method.

Abstract inputs are parameters:

- **Tile classification.** `ContextInto<Traversable>` (`traversable.rs`,
  `context_conversions.rs`) is a function `classify(tile, point, context)`.
  `Grid.ContextFree` is the blanket implementation, which ignores the position and the
  context.
- **Point ordering.** `Point`'s `Ord` is a comparator `cmp`, required to be a total order.
- **Tile parsing and formatting.** A tile's `FromStr` is a function
  `parse: string -> Result<Tile, E>`. Its formatting padded to `DISPLAY_WIDTH` is a
  function `show: Tile -> string`.
- **The flood-fill visitor** is a function of the points shown so far, the point, and its
  tile.
- **Config directories.** The current directory and the data directory are `Path`
  parameters. `PathBuf::join` appends one component to a sequence of components.
- **Readers.** A reader is a sequence of lines, each `Success(text)` or a read failure.
  For `parse_reader` the text includes the line terminator, and `""` marks end of input.
  The cluster reader's input ends with the sequence.
  For `try_from` on a `&str`, `Parse.Lines` cuts the text into those lines as `lines()` does.

## Model

| member | source | states |
|---|---|---|
| Grid.Map.Point2Index | src/geometry/map/map.rs:199-204 | an in-bounds point's tile index is below `width*height` |
| Grid.Map.Index2Point | src/geometry/map/map.rs:206-210 | every index below `width*height` maps to an in-bounds point whose index is that index again |
| Grid.PointIndexRoundTrip | src/geometry/map/map.rs:199-210 | `index2point(point2index(p)) == p` for every in-bounds point, with any offset |
| Grid.Point2IndexInjective | src/geometry/map/map.rs:199-204 | distinct in-bounds points have distinct indices, so `index2point` never repeats a point |
| Grid.InBoundsIffIndexed | src/geometry/map/map.rs:174-186 | a point is in bounds exactly when some index below `width*height` maps to it |
| Grid.Map.LowX | src/geometry/map/map.rs:95-99 | on a non-empty grid the column is in bounds, and the column one further left never is |
| Grid.Map.HighX | src/geometry/map/map.rs:101-107 | on a non-empty grid the column is in bounds (inclusive), and the column one further right never is |
| Grid.Map.LowY | src/geometry/map/map.rs:109-113 | on a non-empty grid the row is in bounds, and the row one further down never is |
| Grid.Map.HighY | src/geometry/map/map.rs:115-121 | on a non-empty grid the row is in bounds (inclusive), and the row one further up never is |
| Grid.Map.BottomLeft | src/geometry/map/map.rs:123-129 | on a non-empty grid the corner is in bounds, and one step left or down leaves the grid |
| Grid.Map.TopLeft | src/geometry/map/map.rs:131-137 | on a non-empty grid the corner is in bounds, and one step left or up leaves the grid |
| Grid.Map.BottomRight | src/geometry/map/map.rs:139-145 | on a non-empty grid the corner is in bounds, and one step right or down leaves the grid |
| Grid.Map.TopRight | src/geometry/map/map.rs:147-153 | on a non-empty grid the corner is in bounds, and one step right or up leaves the grid |
| Grid.Map.InBounds | src/geometry/map/map.rs:179-186 | a point is in bounds iff, taken relative to the offset, it names a column below `width` and a row below `height` |
| Grid.InBoundsIsRect | src/geometry/map/map.rs:95-125 | `in_bounds(p)` holds iff `low_x <= p.x <= high_x` and `low_y <= p.y <= high_y`, i.e. within offset .. offset + size - 1 |
| Grid.Map.Points | src/geometry/map/map.rs:172-177 | `points()` lists `width*height` in-bounds points, the i-th being the point of index i |
| Grid.Map.At | src/geometry/map/map.rs:683-694 | the tile stored at the point's row-major buffer position; no contract of its own, and `Grid.MapExt` shows the tiles it reads at the in-bounds points determine the grid |
| Grid.Map.Set | src/geometry/map/map.rs:702-711 | writing a tile changes that cell only; size and offset are kept |
| Grid.MapExt | src/geometry/map/map.rs:521-528 | two valid grids with equal size, offset and tiles at every in-bounds point are equal |
| Grid.TilesByRows | src/geometry/map/map.rs:199-204 | a tile vector agreeing with the grid at every row-major position is the grid's vector |
| Grid.NewOffset | src/geometry/map/map.rs:403-410 | `new_offset` gives a valid grid of the given size and offset holding the default tile everywhere |
| Grid.Map.OrthogonalAdjacencies | src/geometry/map/map.rs:235-243 | at most 4 points; exactly the in-bounds orthogonal neighbours; no repeats |
| Grid.OrthogonalAdjacenciesOrder | src/geometry/map/map.rs:238-243 | the neighbours come in Up, Down, Left, Right order |
| Grid.OrthogonalNeighbourIsStep | src/geometry/map/map.rs:240-242 | q is an orthogonal neighbour of p iff q is one `Direction` step from p |
| Grid.Map.Adjacencies | src/geometry/map/map.rs:223-233 | at most 8 points: the orthogonal adjacencies, then the diagonals |
| Grid.Map.Diagonals | src/geometry/map/map.rs:228-231 | at most 4 points: for (Up, Left), (Up, Right), (Down, Left), (Down, Right) in that `iter_diag` order, the point one step vertically then one horizontally, kept when in bounds |
| Grid.AdjacenciesAreNeighbours | src/geometry/map/map.rs:223-233 | `adjacencies` yields exactly the in-bounds points of the 8-neighbourhood, without repeats |
| Grid.DiagonalsAreDiagonal | src/geometry/map/map.rs:228-231 | the appended part is exactly the in-bounds diagonal neighbours, none orthogonal, no repeats |
| Grid.NeighbourCases | src/geometry/map/map.rs:223-243 | the 8-neighbourhood is the 4 orthogonal neighbours plus the 4 `iter_diag` corners |
| Grid.Map.Project | src/geometry/map/map.rs:280-290 | the k-th point is origin + k·(dx,dy), all in bounds, and the next one is out of bounds (nothing if the origin is out) |
| Grid.Map.Translate | src/geometry/map/map.rs:339-342 | tiles, width and height unchanged; offset moved by (dx,dy) |
| Grid.TranslateMovesTiles | src/geometry/map/map.rs:339-342 | each tile is found (dx,dy) further on; bounds move likewise; translating back restores the grid |
| Grid.ContextFree | src/geometry/map/context_conversions.rs:12-20 | the blanket conversion classifies a tile regardless of position and context |
| Transforms.ProceduralOffset | src/geometry/map/map.rs:57-75 | builds a grid of the given size and offset whose tile at each point is f(point), row-major |
| Transforms.Procedural | src/geometry/map/map.rs:48-55 | the same with offset (0,0) |
| Transforms.ProceduralIsUnique | src/geometry/map/map.rs:57-75 | the procedural grid is determined by offset, size and f |
| Transforms.ProceduralExample | src/geometry/map/map.rs:977-985 | `procedural(2, 2, x+y)` has tiles [0, 1, 1, 2] |
| Transforms.ProceduralOffsetExample | src/geometry/map/map.rs:987-995 | `procedural_offset((2,1), 2, 2, x+y)` has tiles [3, 4, 4, 5] |
| Transforms.FlipVertical | src/geometry/map/map.rs:412-427 | the result has the same size and offset, and row low_y+k holds the source's row high_y-k |
| Transforms.CopyRow | src/geometry/map/map.rs:421-423 | the inner loop copies one source row into one target row and leaves the other cells alone |
| Transforms.FlipVerticalIsInvolution | src/geometry/map/map.rs:412-427 | flipping vertically twice gives back the grid |
| Transforms.FlipVerticalIsUnique | src/geometry/map/map.rs:412-427 | the vertical flip of a grid is unique |
| Transforms.FlipHorizontal | src/geometry/map/map.rs:429-444 | same size and offset; column low_x+k holds the source's column high_x-k |
| Transforms.MirrorRow | src/geometry/map/map.rs:436-440 | the inner loop mirrors one row and leaves the other cells alone |
| Transforms.FlipHorizontalIsInvolution | src/geometry/map/map.rs:429-444 | flipping horizontally twice gives back the grid |
| Transforms.FlipHorizontalIsUnique | src/geometry/map/map.rs:429-444 | the horizontal flip of a grid is unique |
| Transforms.FlipSourceExample | src/geometry/map/map.rs:1081-1087 | the unit tests' input `procedural_offset((3,2), 2, 3, x+y)` has tiles [5, 6, 6, 7, 7, 8] |
| Transforms.FlipExamples | src/geometry/map/map.rs:1081-1115 | the flips of that grid have the unit tests' tiles [7, 8, 6, 7, 5, 6] and [6, 5, 7, 6, 8, 7] |
| Transforms.RotateLeft | src/geometry/map/map.rs:446-471 | requires offset (0,0); swaps width and height; the tile at p goes to rotate_left(p) + the new bottom-right |
| Transforms.RotateRight | src/geometry/map/map.rs:473-498 | requires offset (0,0); swaps width and height; the tile at p goes to rotate_right(p) + the new top-left |
| Transforms.RotateRightUndoesRotateLeft | src/geometry/map/map.rs:446-498 | rotating left then right gives back the grid |
| Transforms.RotateLeftUndoesRotateRight | src/geometry/map/map.rs:446-498 | rotating right then left gives back the grid |
| Transforms.RotateLeftCells | src/geometry/map/map.rs:455-471 | for a 3x2 grid, the left rotation's tile vector is the source's in the order 3,0,4,1,5,2 |
| Transforms.RotateRightCells | src/geometry/map/map.rs:482-498 | for a 3x2 grid, the right rotation's tile vector is the source's in the order 2,5,1,4,0,3 |
| Transforms.RotateSourceExample | src/geometry/map/map.rs:1117-1125 | the unit tests' input `procedural(3, 2, x+y)` has tiles [0, 1, 2, 1, 2, 3] |
| Transforms.RotateExamples | src/geometry/map/map.rs:1117-1180 | its rotations are 2x3 with the unit tests' tiles [1, 0, 2, 1, 3, 2] and [2, 3, 1, 2, 0, 1] |
| Points.RotationsUndoEachOther | src/geometry/map/map.rs:446-498 | `rotate_left` and `rotate_right` of a point undo each other |
| Parse.RowsToMap | src/geometry/map/map.rs:544-577 | a rectangular list of rows becomes a valid grid at offset (0,0), height = number of rows, width = first row's length, with `rows[y][x]` at (x,y) |
| Parse.FromRows | src/geometry/map/map.rs:544-577 | `From<&[Row]>`: the loop that pushes tile after tile builds exactly `RowsToMap(rows)`; it requires rectangular rows, as the source asserts |
| Parse.MapOfRows | src/geometry/map/map.rs:564-576 | concatenating equal-length rows gives a grid with `rows[y][x]` at (x,y) |
| Parse.ParseRow | src/geometry/map/map.rs:607-612 | a row has one tile per chunk; a failure is a `TileConversion` |
| Parse.ParseRowFirstFailure | src/geometry/map/map.rs:608-612 | the row parses iff every chunk parses, then tile i is chunk i's; otherwise the error is the first failing chunk's, carrying that chunk's text |
| Parse.ParseRowSticky | src/geometry/map/map.rs:608-612 | once a chunk fails, later chunks do not change the result |
| Parse.ParseLines | src/geometry/map/map.rs:602-616 | the kept rows are non-empty and at most one per line; a failure is never `NotRectangular` |
| Parse.ParseLinesSticky | src/geometry/map/map.rs:604-616 | once a line fails (read error or tile), later lines do not change the result |
| Parse.ShortLineDropped | src/geometry/map/map.rs:607-615 | a line shorter than one tile gives an empty row, which is dropped |
| Parse.TryFromLines | src/geometry/map/map.rs:598-629 | `try_from`'s loops compute exactly the specification `TryFromSpec` |
| Parse.TryFromRows | src/geometry/map/map.rs:618-628 | on success the grid has offset (0,0), one row per kept line, all of its width, and the last kept line is row 0 (lines reversed) |
| Parse.NotRectangularIff | src/geometry/map/map.rs:618-623 | the result is `NotRectangular` exactly when all lines parse but the rows differ in length |
| Parse.Reversed | src/geometry/map/map.rs:626 | the i-th of the reversed rows is the (n-1-i)-th |
| Parse.Row | src/geometry/map/map.rs:719-726 | the tiles of row y, left to right, one per column |
| Parse.Shown | src/geometry/map/map.rs:720-725 | each tile is formatted by `show`, in order |
| Parse.DisplayLines | src/geometry/map/map.rs:717-731 | one text line per row, top row (high_y) first |
| Parse.Display | src/geometry/map/map.rs:717-731 | the written text is the row lines, each ended by a newline |
| Parse.WriteRow | src/geometry/map/map.rs:719-726 | the inner loop appends the formatted tiles of one row |
| Parse.AsRead | src/geometry/map/map.rs:604-605 | text lines as read without error |
| Parse.ParseShown | src/geometry/map/map.rs:608-612 | when parse inverts show, the shown tiles of a row parse back to the row |
| Parse.ParseNonEmptyRows | src/geometry/map/map.rs:604-616 | lines that each parse to a non-empty row are all kept, in order |
| Parse.ParseRowText | src/geometry/map/map.rs:607-615 | a displayed row parses back to the grid's row |
| Parse.TopRows | src/geometry/map/map.rs:718 | the grid's rows from the top down |
| Parse.RowsOfMap | src/geometry/map/map.rs:544-577 | reversing the top-down rows and building a grid gives back any non-empty grid at offset (0,0) |
| Parse.ParseDisplayLines | src/geometry/map/map.rs:598-616 | parsing the displayed lines yields the grid's rows, top first |
| Parse.DisplayedRowsThenParse | src/geometry/map/map.rs:598-629 | parsing the displayed row lines (one per row, top first) gives back a non-empty grid at offset (0,0) whose tiles print at exactly `DISPLAY_WIDTH` and parse back |
| Parse.LineLength | src/geometry/map/map.rs:604 | the first line ends at the first newline: no newline before it, and a newline there unless the text ends |
| Parse.Lines | src/geometry/map/map.rs:604 | `lines()` on the bytes of a `&str` yields lines that contain no newline |
| Parse.LinesOfLine | src/geometry/map/map.rs:604 | a line without newline or trailing carriage return, followed by a newline, is read as itself and then the rest |
| Parse.UnlinesFront | src/geometry/map/map.rs:717-731 | the written text is the first line, a newline, and the text of the remaining lines |
| Parse.LinesUnlines | src/geometry/map/map.rs:604 | reading back the newline-terminated text of such lines gives exactly the lines |
| Parse.ConcatPlain | src/geometry/map/map.rs:717-731 | tile texts without newline or trailing carriage return concatenate to a row line that has neither |
| Parse.DisplayLinesPlain | src/geometry/map/map.rs:717-731 | when no tile's text holds a newline or ends in a carriage return, no row line does |
| Parse.DisplayThenParse | src/geometry/map/map.rs:632-643 | round trip over text: the text `Display` writes, read back by `lines()` and parsed by `try_from`, is the grid again, for a non-empty grid at offset (0,0) whose tiles print at exactly `DISPLAY_WIDTH` without newline or trailing carriage return and parse back |
| Edges.Edge.constructor | src/geometry/map/edge.rs:6-11 | a fresh edge holds the n points from `from` in `direction`; n = 0 starts it done |
| Edges.Edge.Next | src/geometry/map/edge.rs:16-26 | returns the nearest remaining point and removes it from the front, or `None` (forever) once done |
| Edges.Edge.NextBack | src/geometry/map/edge.rs:36-47 | returns the farthest remaining point (`to` first) and removes it from the back, or `None` once done; every point is yielded once over any interleaving (`All == Front + Items + Back`) |
| Edges.Edge.SizeHint | src/geometry/map/edge.rs:28-31 | as written: the remaining count while not done, but (2, Some(2)) once done |
| Edges.Edge.Len | src/geometry/map/edge.rs:28-34 | corrected `ExactSizeIterator` length: the number of points still to come |
| Edges.Edge.Span | src/geometry/map/edge.rs:28-31 | while not done, Manhattan(to - from) + 1 is the remaining count; once done the ends are crossed by one step |
| Edges.EdgeLine | src/geometry/map/map.rs:302-308 | the edge's length is the height for Left/Right and the width for Down/Up |
| Edges.MapEdge | src/geometry/map/map.rs:302-316 | `edge(side)` yields the line of edge points; for a non-empty grid its ends are the source's corners and it starts not done |
| Edges.EdgeLineEnds | src/geometry/map/map.rs:302-308 | the line's first and last points are the corners `edge` picks |
| Edges.EdgePoints | src/geometry/map/map.rs:302-308 | the points are distinct and in bounds; Left/Right run bottom to top in the low/high column, Down/Up left to right in the low/high row |
| Edges.EmptyEdgeNeverEnds | src/geometry/map/map.rs:302-316 | as written: on a zero-width grid the Down edge's `from` never reaches `to`, so `next` never finishes |
| Edges.LineDistinct | src/geometry/map/edge.rs:16-26 | the stepped points are pairwise distinct |
| Edges.ManhattanOfSteps | src/geometry/map/edge.rs:28-31 | k unit steps span Manhattan distance k |
| AStar.Cmp | src/geometry/map/a_star.rs:14-23 | a lower cost compares Greater, a higher cost Less; equal costs compare by position |
| AStar.PartialCmp | src/geometry/map/a_star.rs:27-30 | always `Some` |
| AStar.PartialCmpAgrees | src/geometry/map/a_star.rs:27-30 | `partial_cmp` is `Some(cmp)` |
| AStar.CmpEqualIsEquality | src/geometry/map/a_star.rs:5 | `cmp` is Equal exactly when the nodes are equal |
| AStar.CmpAntisymmetric | src/geometry/map/a_star.rs:14-23 | `cmp(b, a)` is the reverse of `cmp(a, b)` |
| AStar.CmpTransitive | src/geometry/map/a_star.rs:14-23 | Less is transitive |
| AStar.GreatestIsCheapest | src/geometry/map/a_star.rs:11-21 | the node the max-heap pops has the lowest cost |
| AStar.CompareInt | src/geometry/map/a_star.rs:19-21 | `Ord::cmp` on integers |
| AStar.LexicographicIsTotalOrder | src/geometry/map/a_star.rs:22 | the component-wise order is a total order, so `cmp` can be instantiated |
| Directions.Deltas | src/geometry/direction.rs:17-25 | each delta is a unit step along exactly one axis |
| Directions.Step | src/geometry/direction.rs:17-25 | `point + direction` moves one unit along exactly one axis |
| Directions.TurnsAreInverse | src/geometry/direction.rs:27-45 | `turn_left` and `turn_right` undo each other |
| Directions.TurnRightIsCyclic | src/geometry/direction.rs:27-55 | four right turns are the identity, two are `reverse`, fewer than four never are |
| Directions.TurnRight | src/geometry/direction.rs:27-35 | the step of the new direction is the old step turned a quarter clockwise, as `Point::rotate_right` turns it |
| Directions.TurnLeft | src/geometry/direction.rs:37-45 | the step of the new direction is the old step turned a quarter counter-clockwise, as `Point::rotate_left` turns it |
| Directions.Reverse | src/geometry/direction.rs:47-55 | the step of the reversed direction is the negated step |
| Directions.ReverseInvolution | src/geometry/direction.rs:47-55 | `reverse` is an involution |
| Directions.DeltasInjective | src/geometry/direction.rs:17-25 | distinct directions have distinct deltas |
| Directions.Iter | src/geometry/direction.rs:57-61 | Up, Down, Left, Right, each once |
| Directions.IterDiag | src/geometry/direction.rs:63-71 | (Up, Left), (Up, Right), (Down, Left), (Down, Right) in that order: four distinct (vertical, horizontal) pairs, covering every such pair |
| Directions.TryFromPoint | src/geometry/direction.rs:76-88 | `Ok(d)` only when the point is d's delta, `Err` only when it is no delta |
| Directions.TryFromDeltas | src/geometry/direction.rs:76-88 | converting a direction's delta gives back the direction |
| Tiles.Chunks.constructor | src/geometry/map/tile.rs:14-16 | the chunker holds the string and the display width |
| Tiles.Chunks.Next | src/geometry/map/tile.rs:28-35 | yields the next `width` characters and consumes them, or `None` (consuming the short rest) |
| Tiles.CollectChunks | src/geometry/map/tile.rs:13-35 | iterating the chunker yields exactly `ChunksOf(s, width)` |
| Tiles.ChunksCount | src/geometry/map/tile.rs:13-35 | ⌊len/width⌋ chunks, each of exactly `width` characters |
| Tiles.ChunksConcat | src/geometry/map/tile.rs:13-35 | the chunks concatenate to the first width·⌊len/width⌋ characters |
| Tiles.ChunksArePrefix | src/geometry/map/tile.rs:28-34 | the chunks concatenate to a prefix of the input |
| Tiles.ChunksOfConcat | src/geometry/map/tile.rs:13-35 | chunking a concatenation of width-sized pieces gives back the pieces |
| Tiles.BoolFromBool | src/geometry/map/tile.rs:97-105 | `Bool::from(b)` is True exactly when b is true |
| Tiles.BoolToBool | src/geometry/map/tile.rs:88-95 | `bool::from` is undone by `Bool::from`: converting the boolean back gives the tile |
| Tiles.EqBool | src/geometry/map/tile.rs:71-75 | `tile == b` iff the tile is `Bool::from(b)` |
| Tiles.Not | src/geometry/map/tile.rs:77-86 | `!` negates the boolean value and always changes the tile |
| Tiles.BoolRoundTrips | src/geometry/map/tile.rs:71-105 | both conversions round-trip, `!` is an involution, `Bool == b` iff the tile is `Bool::from(b)` |
| Tiles.BoolToRgb | src/geometry/map/tile.rs:107-115 | three channels, black exactly for False |
| Tiles.DigitTryFrom | src/geometry/map/tile.rs:147-153 | succeeds iff v < 10, and the digit then holds v |
| Tiles.DigitToU8 | src/geometry/map/tile.rs:141-145 | for a valid digit the value is below 10 and `try_from` gives the digit back |
| Tiles.DigitToRgb | src/geometry/map/tile.rs:155-161 | grey with each channel 28·v, at most 252 (no u8 overflow) |
| Tiles.TwoDigitsTryFrom | src/geometry/map/tile.rs:193-199 | succeeds iff v < 100, and the value then holds v |
| Tiles.TwoDigitsToU8 | src/geometry/map/tile.rs:187-191 | for a valid value it is below 100 and `try_from` gives the value back |
| Tiles.TwoDigitsToRgb | src/geometry/map/tile.rs:201-207 | grey with each channel 2·v, at most 198 |
| Tiles.DigitRoundTrips | src/geometry/map/tile.rs:141-153 | `try_from(u8::from(d)) == Ok(d)` for both digit types |
| Search.Unvisited | src/geometry/map/map.rs:863-867 | the in-bounds orthogonal neighbours whose visited bit is clear |
| Search.FloodStep | src/geometry/map/map.rs:844-869 | one dequeue: skips a visited point or visits it; keeps the bitset and fill invariants, or stops with a flooded trace whose last point the visitor accepted; the unvisited set or the queue shrinks |
| Search.FloodVisit | src/geometry/map/map.rs:852-868 | sets the bit, skips Obstructed, shows the point to the visitor, and queues unvisited neighbours only of Free points |
| Search.ReachableFrom | src/geometry/map/map.rs:832-870 | every point shown is enterable, shown at most once, and reached through Free points from the start (nothing if the start is Obstructed); the visitor declined every point but the last; unless it accepted the last, every point reachable through Free tiles was shown |
| Search.ExhaustedFlooded | src/geometry/map/map.rs:844-869 | an emptied queue leaves a flooded trace that covers every reachable point |
| Search.StoppedFlooded | src/geometry/map/map.rs:858-860 | stopping early still leaves a flooded trace |
| Search.SpreadCovered | src/geometry/map/map.rs:862-867 | with an empty queue, any point reachable through Free points from a shown one was shown |
| Search.TracedFromParents | src/geometry/map/map.rs:862-867 | every shown point after the first is a neighbour of an earlier Free shown point |
| Search.MarkPoint | src/geometry/map/map.rs:852 | setting a point's bit adds it to the visited set |
| Search.MarkedBit | src/geometry/map/map.rs:847-848 | a point's bit is set iff the point is visited |
| Search.FillingSkip | src/geometry/map/map.rs:847-850 | skipping an already visited point keeps the fill invariant |
| Search.FillingBlocked | src/geometry/map/map.rs:853-856 | skipping an Obstructed point keeps the fill invariant |
| Search.FillingVisit | src/geometry/map/map.rs:858-868 | showing a point and queueing its unvisited neighbours keeps the fill invariant |
| Search.FillingStop | src/geometry/map/map.rs:858-860 | the point the visitor accepts extends the trace |
| Search.Greatest | src/geometry/map/map.rs:902 | the index of a node no other node compares Greater than |
| Search.PopGreatest | src/geometry/map/map.rs:902 | `open_set.pop()`: removes one node that is greatest under `cmp`, hence one of least cost |
| Search.Relax | src/geometry/map/map.rs:915-948 | one direction: a better cost for an in-bounds, non-Obstructed neighbour records its link and cost and queues it unless queued; the expansion invariant is kept |
| Search.Expand | src/geometry/map/map.rs:915-950 | relaxing all four directions keeps the search invariant with the node closed |
| Search.ExpandTop | src/geometry/map/map.rs:902-950 | one iteration: keeps the search invariant, and either costs a new cell or shrinks the heap |
| Search.Reconstruct | src/geometry/map/map.rs:904-911 | following the `came_from` links back from `to` yields a route from `from` to `to` of length `cheapest[to]` |
| Search.Arrive | src/geometry/map/map.rs:903-913 | on popping `to`: the reconstructed path is a route, at least Manhattan long, and no longer than any route |
| Search.Navigate | src/geometry/map/map.rs:874-954 | `Some(p)`: replaying p from `from` stays on in-bounds non-Obstructed tiles and ends at `to`, \|p\| ≥ Manhattan distance, and no route is shorter (so `Some([])` when from == to); `None` only when no route exists |
| Search.Optimal | src/geometry/map/map.rs:902-913 | when `to` is popped, its cost is at most the length of any route |
| Search.Unreachable | src/geometry/map/map.rs:951-953 | when the heap runs empty, no route reaches `to` |
| Search.Frontier | src/geometry/map/map.rs:902-950 | any route from a costed cell leaves the closed set through a queued node no dearer than the route |
| Search.PathLength | src/geometry/map/map.rs:910 | a walk of n unit steps ends within Manhattan distance n |
| Search.RouteCons | src/geometry/map/map.rs:906-911 | prepending an enterable step to a route gives a route |
| HexDirections.Successor | src/geometry/hex/direction.rs:18-31 | the next direction clockwise, none after Northeast |
| HexDirections.Successors | src/geometry/hex/direction.rs:18-31 | a direction followed by every direction after it |
| HexDirections.Iter | src/geometry/hex/direction.rs:18-31 | East, Southeast, Southwest, West, Northwest, Northeast: all six, each once |
| HexDirections.TryParse | src/geometry/hex/direction.rs:38-51 | a parsed direction's token is the consumed head and the rest is returned; otherwise the input is returned unchanged |
| HexDirections.TryParseNone | src/geometry/hex/direction.rs:38-51 | no direction exactly when no token starts the string (empty, lone `s`/`n`, anything else) |
| HexDirections.TryParseToken | src/geometry/hex/direction.rs:38-51 | a token followed by anything parses to its direction and the rest |
| HexDirections.TokenPrefixFree | src/geometry/hex/direction.rs:38-51 | no token is a prefix of a different one |
| HexDirections.TokensInjective | src/geometry/hex/direction.rs:38-51 | a line of directions is spelt by one sequence only |
| HexDirections.NoTokensAfter | src/geometry/hex/direction.rs:64-66 | a parsed prefix followed by an unparsable head is no line of directions |
| HexDirections.ParseDirections | src/geometry/hex/direction.rs:57-75 | succeeds exactly on lines of directions (the empty string gives `[]`) and returns the sequence that spells the input; fails otherwise |
| HexCoordinates.Add | src/geometry/hex/coordinate.rs:49-56 | `c + d` moves by d's unit vector (E (+1,0), SE (0,+1), SW (-1,+1), W (-1,0), NW (0,-1), NE (+1,-1)) to a cell at distance 1 |
| HexCoordinates.AddAssign | src/geometry/hex/coordinate.rs:22-47 | `c += d` leaves c equal to `c + d` |
| HexCoordinates.UnitIsTurnedEast | src/geometry/hex/coordinate.rs:22-47 | each unit vector is East's turned 60° clockwise once per place after East |
| HexCoordinates.IterIsClockwise | src/geometry/hex/direction.rs:18-31 | each direction of `iter` is the previous one turned 60° clockwise, closing the circle |
| HexCoordinates.Opposite | src/geometry/hex/coordinate.rs:22-47 | the opposite direction's unit vector is the negation |
| HexCoordinates.OppositeCancels | src/geometry/hex/coordinate.rs:22-47 | E/W, SE/NW and SW/NE steps return to the start |
| HexCoordinates.Neighbors | src/geometry/hex/coordinate.rs:16-20 | six cells in `Direction::iter` order, pairwise distinct, none equal to c, each at distance 1 |
| Input.Leading | src/input.rs:58 | the number of leading whitespace characters |
| Input.Trailing | src/input.rs:58 | the number of trailing whitespace characters |
| Input.Trim | src/input.rs:58 | `trim` gives a slice of the line starting after the leading whitespace |
| Input.TrimCutsWhitespace | src/input.rs:58 | only whitespace is cut, at both ends |
| Input.TrimEnds | src/input.rs:58 | the trimmed text is empty or starts and ends with non-whitespace |
| Input.TrimIdempotent | src/input.rs:58 | trimming twice is trimming once |
| Input.TrimBlank | src/input.rs:58 | a blank line trims to the empty string |
| Input.LineRecordsAreLines | src/input.rs:51-68 | record i is the trimmed line i parsed; records stop at end of input, a read error or the first parse failure |
| Input.FirstRecord | src/input.rs:52-66 | a record is produced only from a line |
| Input.LineReader.constructor | src/input.rs:39-51 | a fresh reader over the lines has yielded nothing |
| Input.LineReader.Next | src/input.rs:51-68 | yields the next record and consumes its line, or `None` and fuses; fused it yields `None` forever |
| Input.CollectLines | src/input.rs:39-68 | draining the reader yields exactly `LineRecords` |
| Input.IsNewField | src/input.rs:119-128 | a buffer that ends a cluster is empty or ends in a newline, and a buffer ending in a blank line always ends one |
| Input.IsNewFieldMatchesPatterns | src/input.rs:119-128 | `is_new_field` is "ends like \n\n or \n\r\n" comparing only up to the shorter length |
| Input.IsNewFieldCases | src/input.rs:119-128 | it holds exactly for "", "\n", "\r\n" and buffers ending in "\n\n" or "\n\r\n" |
| Input.Gather | src/input.rs:131-137 | the accumulation loop consumes lines, at least one when it grows the buffer |
| Input.GatherIsText | src/input.rs:131-137 | the buffer is the concatenation of the consumed lines, all read without error |
| Input.GatherEnds | src/input.rs:132-136 | accumulation stops on an empty buffer, a new field, end of input or an empty read |
| Input.GatherIsShortest | src/input.rs:132 | no shorter prefix of the consumed lines already ended the cluster |
| Input.LoneBlankLine | src/input.rs:119-137 | a lone "\n" line is already a cluster of its own |
| Input.NextCluster | src/input.rs:130-149 | a record consumes at least one line |
| Input.ClusterExample | src/input.rs:130-150 | "a\n","b\n","\n","c\n" give the untrimmed clusters "a\nb\n\n" and "c\n" |
| Input.ClusterReader.constructor | src/input.rs:106-118 | a fresh reader over the lines has yielded nothing |
| Input.ClusterReader.ReadCluster | src/input.rs:131-137 | the loop gathers exactly `Gather("", lines)` |
| Input.ClusterReader.Next | src/input.rs:130-150 | yields the next cluster's record, or `None` and fuses; fused it yields `None` forever |
| Input.CollectClusters | src/input.rs:106-150 | draining the reader yields exactly `ClusterRecords` |
| Input.Split | src/input.rs:165 | at least one piece, none containing the separator |
| Input.SplitCount | src/input.rs:165 | n separators give n + 1 pieces |
| Input.JoinSplit | src/input.rs:165 | joining the pieces with the separator gives back the string |
| Input.SplitJoin | src/input.rs:165 | splitting a join of separator-free pieces gives back the pieces |
| Input.SplitRoundTrip | src/input.rs:165 | `split(s) == parts` iff `join(parts) == s`, for separator-free parts |
| Input.FirstFailure | src/input.rs:167 | the index of the first failed result, or the length |
| Input.CollectResults | src/input.rs:167 | `collect::<Result<Vec>>`: all values in order if every result succeeded, else the first error |
| Input.ParseAll | src/input.rs:166 | piece i parsed |
| Input.CommaSepFromStr | src/input.rs:158-179 | succeeds iff every comma-separated piece parses; the items are the pieces' values in order (which `into_iter` yields); otherwise the first failing piece's error |
| Configuration.Join | src/config.rs:73 | `join` appends one component |
| Configuration.DigitChar | src/config.rs:78 | the decimal digit character of n < 10 |
| Configuration.Decimal | src/config.rs:116 | `to_string` of a number: digits only, no leading zero |
| Configuration.DecimalValue | src/config.rs:116 | the digits read back as the number |
| Configuration.ZeroPad2 | src/config.rs:78 | `{:02}`: two digits below 10, else the plain digits; reads back as the number |
| Configuration.Config.constructor | src/config.rs:23-32 | `Config::default` has no session and no paths |
| Configuration.Config.InputFiles | src/config.rs:62-75 | the configured directory, else the implementation directory joined with "inputs" |
| Configuration.Config.InputFor | src/config.rs:77-79 | the input directory joined with `input-` + the day zero-padded to two digits + `.txt` |
| Configuration.Config.Implementation | src/config.rs:86-101 | the configured directory, else the current directory |
| Configuration.Config.DayTemplate | src/config.rs:108-118 | the configured template, else data / year / "day-template" |
| Configuration.Config.SetInputFiles | src/config.rs:82-84 | creates the year's entry if absent and sets its input directory; afterwards `input_files(year)` is the path; implementation, templates and other years unchanged |
| Configuration.Config.SetImplementation | src/config.rs:104-106 | afterwards `implementation(year)` is the path; other years, templates and input settings unchanged |
| Configuration.Config.SetDayTemplate | src/config.rs:121-123 | afterwards `day_template(year)` is the path; other years, input directories and implementations unchanged |
| LinkedLists.Node.constructor | src/data_structures/linked_list.rs:20-26 | a fresh node holds the item and no links |
| LinkedLists.LinkedList.constructor | src/data_structures/linked_list.rs:85-91 | `new` is the empty list |
| LinkedLists.LinkedList.Count | src/data_structures/linked_list.rs:94-96 | walking `next` from `front` counts every item |
| LinkedLists.LinkedList.Len | src/data_structures/linked_list.rs:99-102 | the stored `len` is the number of items (the walk agrees) |
| LinkedLists.LinkedList.IsEmpty | src/data_structures/linked_list.rs:105-107 | true iff there are no items |
| LinkedLists.LinkedList.Front | src/data_structures/linked_list.rs:155-158 | the first item, or `None` on the empty list |
| LinkedLists.LinkedList.Back | src/data_structures/linked_list.rs:160-163 | the last item, or `None` on the empty list |
| LinkedLists.LinkedList.CursorFront | src/data_structures/linked_list.rs:110-112 | a cursor on the first item, or off the list when empty |
| LinkedLists.LinkedList.CursorBack | src/data_structures/linked_list.rs:115-117 | a cursor on the last item, or off the list when empty |
| LinkedLists.LinkedList.PushBack | src/data_structures/linked_list.rs:125-128 | the items gain x at the back |
| LinkedLists.LinkedList.PushFront | src/data_structures/linked_list.rs:130-133 | the items gain x at the front |
| LinkedLists.LinkedList.PopBack | src/data_structures/linked_list.rs:135-138 | removes and returns the last item; `None` and still empty on the empty list |
| LinkedLists.LinkedList.PopFront | src/data_structures/linked_list.rs:140-143 | removes and returns the first item; `None` and still empty on the empty list |
| LinkedLists.LinkedList.Unlink | src/data_structures/linked_list.rs:269-292 | the pointer surgery of `take`: the node leaves the chain, `front`/`back`/`len` follow |
| LinkedLists.LinkedList.Link | src/data_structures/linked_list.rs:295-361 | the pointer surgery of the inserts: the node enters the chain at the given place |
| LinkedLists.LinkedList.Iter | src/data_structures/linked_list.rs:120-122 | an iterator at the first item |
| LinkedLists.LinkedList.Elements | src/data_structures/linked_list.rs:380-399 | iterating yields the items front to back |
| LinkedLists.Iter.constructor | src/data_structures/linked_list.rs:385-389 | an iterator at the given position |
| LinkedLists.Iter.Next | src/data_structures/linked_list.rs:394-398 | yields the current item and moves on, `None` at the end |
| LinkedLists.FromIter | src/data_structures/linked_list.rs:401-412 | the list holds the input items in order |
| LinkedLists.PushPopBack | src/data_structures/linked_list.rs:125-138 | `push_back` then `pop_back` returns the pushed item and restores the list (LIFO) |
| LinkedLists.PushBackPopFront | src/data_structures/linked_list.rs:125-143 | `push_back` then `pop_front` returns the oldest item (FIFO) |
| LinkedLists.SeekForwardInsertAfter | src/data_structures/linked_list.rs:547-566 | `cursor_insert_after_in_middle` for any list of at least 5 items: `seek_forward(4)` succeeds, and inserting xs back to front after the cursor puts xs, in order, after the fifth item |
| LinkedLists.SeekBackwardInsertBefore | src/data_structures/linked_list.rs:568-587 | `cursor_insert_before_in_middle` for any list of at least 5 items: `seek_backward(4)` from the back succeeds, and inserting xs front to back before the cursor puts xs, in order, before the fifth-last item |
| LinkedLists.SeekForwardTakeAll | src/data_structures/linked_list.rs:620-629 | `cursor_take` for any list of more than 5 items: after `seek_forward(5)`, the takes return the sixth to last items, then the fifth back to the first, and empty the list |
| LinkedLists.TakeToBack | src/data_structures/linked_list.rs:269-292 | repeated takes from a cursor return the items from it to the end, in order, and leave the cursor on the last remaining item |
| LinkedLists.TakeToFront | src/data_structures/linked_list.rs:269-292 | repeated takes from a cursor on the last item return the items from last to first and empty the list |
| LinkedLists.Relink | src/data_structures/linked_list.rs:275-289 | joining a node's neighbours keeps the chain linked without it |
| LinkedLists.Splice | src/data_structures/linked_list.rs:304-325 | linking a node between two neighbours keeps the chain linked with it |
| LinkedLists.ItemsOfRemove | src/data_structures/linked_list.rs:269-292 | removing a node removes its item at the same place |
| LinkedLists.ItemsOfInsert | src/data_structures/linked_list.rs:295-361 | inserting a node inserts its item at the same place |
| LinkedLists.Cursor.constructor | src/data_structures/linked_list.rs:220-222 | a cursor on the given node of the list |
| LinkedLists.Cursor.Elem | src/data_structures/linked_list.rs:225-227 | the current item, or `None` off the list |
| LinkedLists.Cursor.PeekNext | src/data_structures/linked_list.rs:249-256 | the item after the current one, or `None` |
| LinkedLists.Cursor.PeekPrev | src/data_structures/linked_list.rs:258-265 | the item before the current one, or `None` |
| LinkedLists.Cursor.Advance | src/data_structures/linked_list.rs:236-241 | moves one item on, falling off after the last; returns the new current item |
| LinkedLists.Cursor.Retreat | src/data_structures/linked_list.rs:243-247 | moves one item back, falling off before the first; returns the new current item |
| LinkedLists.Cursor.SeekForward | src/data_structures/linked_list.rs:364-367 | true iff the cursor is still on an item n places on (or n = 0); on success with n > 0 the cursor is on the item n places on, with n = 0 it has not moved; on failure it is on nothing |
| LinkedLists.Cursor.SeekBackward | src/data_structures/linked_list.rs:369-372 | true iff the cursor is still on an item n places back (or n = 0); on success with n > 0 the cursor is on the item n places back, with n = 0 it has not moved; on failure it is on nothing |
| LinkedLists.Cursor.Take | src/data_structures/linked_list.rs:269-292 | returns and removes the current item; the cursor moves to the next item, else the previous; `None` and no change off the list |
| LinkedLists.Cursor.InsertAfter | src/data_structures/linked_list.rs:295-327 | x goes right after the current item and the cursor stays; on the empty list x becomes the only item and the cursor's |
| LinkedLists.Cursor.InsertBefore | src/data_structures/linked_list.rs:329-361 | x goes right before the current item and the cursor stays on it; on the empty list x becomes the only item and the cursor's |

## Left out

- Tiles.ChunksOf, Tiles.CollectChunks, Parse.ParseLine, Parse.ParseLines, Parse.TryFromSpec, Parse.TryFromLines and the lemmas about them require a display width of at least 1. With `DISPLAY_WIDTH` 0 the source's `Chunks::next` yields an empty chunk forever (src/geometry/map/tile.rs:28-34) and `try_from` divides by zero when it sizes a row (src/geometry/map/map.rs:607). Every tile type in the library has width 1 or 3 (src/geometry/map/tile.rs:68, 138, 184).
- `render.rs` and the `map-render` blocks of `map.rs` (GIF output, files, random sparkle): I/O and randomness.
- `website.rs` (HTTP client, clock-based throttle, file writes), and `config.rs`'s `save`, `load`, `path` and `data` (TOML, directories, file system): I/O. `std::env::current_dir` and the data directory are parameters.
- `input.rs`'s `parse` and `parse_newline_sep` file openers and the `eprintln!` diagnostics: I/O.
- `src/geometry/map/mod.rs` is not part of this model: it is an older copy of `Map` that `map.rs` does not use.
- `Map::new`, `iter`, `iter_mut`, `make_in_bounds`, `make_index2point`, `make_adjacencies`, `make_orthogonal_adjacencies`, `Index<(usize, usize)>`: they are variants of modelled operations (`NewOffset` at offset (0,0), `Points`, `InBounds`, `Index2Point`, `Adjacencies`, `OrthogonalAdjacencies`, `At`) that differ only in borrowing.
- `convert_tile_type`, `extract_interesting_region`, `Hash`, `Debug`, `Clone`, `Default` derives and the `parse_display` derive macros: not part of the modelled core. A tile's `FromStr` and its padded `Display` are the parameters `parse` and `show`.
- Integer widths: coordinates, costs and sizes are unbounded integers. `i32` overflow of coordinates, `usize` casts of negative values, and the `u32::MAX` default of `navigate_ctx`'s cost map are not modelled.
- Grid.Map.Project requires a non-zero step (dx, dy) when the origin is in bounds. With a zero step and an in-bounds origin, the source's iterator never ends.
- Search.Navigate: the `total_cost_guess` map is written but never read by the source, and it does not affect the result. The model keeps it, but no contract mentions it.
- Search.Navigate: the start tile's traversability is not checked (as in the source). A popped Halt tile is expanded like a Free one.
- Search.ReachableFrom, Search.Navigate, Parse.Display, Transforms.FlipVertical and Transforms.FlipHorizontal require every cell at non-negative coordinates. `Index<Point>` panics on negative coordinates, and an out-of-range `x` would alias another row.
- Grid.Map.At and Grid.Map.Set read and write any in-bounds point, negative coordinates included. There the source's `Index<Point>` and `IndexMut<Point>` panic (map.rs:686-691 and 703-709). The model's own specifications use them on translated grids, so they do not take over the panic; each operation that indexes by `Point` requires non-negative cells instead.
- Search.ReachableFrom requires the start point in bounds. The source accepts any start. A start outside the grid whose buffer index still falls inside aliases another cell: on a 2×2 grid at (0,0), the start (2,0) is shown with the tile of (0,1) and marks that cell visited, so (0,1) is never shown. Any other start outside the grid panics.
- Search.ReachableFrom: the visitor is a pure function of the points shown before, the point and its tile. An `FnMut` closure's hidden state is expressed only through that history.
- Search.PopGreatest: the binary heap is a sequence, and `pop` removes a greatest node. Which of several equally great nodes the real heap returns is not modelled; `cmp` being a total order makes them equal.
- LinkedLists.Cursor.InsertAfter and LinkedLists.Cursor.InsertBefore require the cursor to be on an item or the list to be empty. The source treats a cursor off the end of a non-empty list like an empty list and overwrites `front`/`back`, losing the list.
- LinkedLists: `elem_mut`, the `Drop`, `Debug` and `Display` impls, `Send`/`Sync`, `Node::len` and memory safety of the raw pointers are not modelled. Mutable references are not modelled.
- LinkedLists: the cursor unit tests that do not seek first (`cursor_next_and_peek`, `cursor_prev_and_peek`, the empty-list inserts), and `push_front` followed by `pop_front` or `pop_back`, are not separate members. They follow from the advance, retreat, push, pop and insert contracts, which state the full item sequence and the cursor position. The tests that seek first are `SeekForwardInsertAfter`, `SeekBackwardInsertBefore` and `SeekForwardTakeAll`.
- Tiles: `CHUNK_WIDTH` and the `ToRgb` trait plumbing are not modelled beyond the three `to_rgb` functions. Characters are Dafny `char`s, not UTF-8 bytes.
- Configuration: paths are sequences of component strings. `year.to_string()` and `{:02}` are `Decimal` and `ZeroPad2`.
- `tests/traverse_2021_day_9.rs` and `tests/parse_2015_day_23.rs` are not part of this model. The first is a usage example without assertions; the second relies on a function that is not in `input.rs`.

## Findings

| source | as written | input that shows it | evidently intended | confidence | as-written member | corrected member |
|---|---|---|---|---|---|---|
| src/geometry/map/edge.rs:28-31 | `size_hint` is Manhattan(to - from) + 1 whatever `done` says | any edge after its last point is returned: `from` and `to` have crossed by one step, so it reports (2, Some(2)) | (0, Some(0)) once done, as `ExactSizeIterator::len` expects | not executed | Edges.Edge.SizeHint | Edges.Edge.Len |
| src/geometry/map/map.rs:302-316 | `edge` takes the corners even when the grid has no columns (or no rows) | a grid of width 0 and height 1: the Down edge runs from (0,0) towards (-1,0) in direction Right and never reaches it, so `next` never returns `None` | an empty edge, as `EdgeLine` gives with length 0 | not executed | Edges.EmptyEdgeNeverEnds | Edges.MapEdge |
