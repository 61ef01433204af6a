# Koala Kombo engine, modelled in Dafny

Koala Kombo is a block-placement puzzle played on an 8 x 8 board. The player
holds a queue of three pieces. Each piece has one of 25 fixed polyomino
shapes. Placing a piece fills the cells under its offsets. Full rows are then
emptied, then any column still full, for 8 points per line. Once all three pieces are
used, three fresh ones are drawn.

This project models the game engine of `src/koala_kombo.rs`:

- `Shapes` (`shapes.dfy`): the shape enum and its table of `(dx, dy)`
  offsets.
- `Board` (`board.dfy`): the row-major 64-cell board as a value. It has the
  value-level specifications of preview, fit, stamping and the two line
  passes, and the lemmas about them.
- `Engine` (`engine.dfy`): `Piece`, the variant table and the class
  `KoalaKombo`. The class has a 64-cell `array<bool>` board, a three-slot
  `seq<Piece>` queue and a `nat` score. Its methods write the board in
  place, and each is proved against the `Board` functions.
- `Scenarios` (`scenarios.dfy`): worked examples on concrete boards.

Random draws are not modelled as randomness. The caller passes each draw in
as an index into the variant table (`d0`, `d1`, `d2`).

Line clearing follows `clear_lines` as written: it first
scans the rows top to bottom and empties each full row on the spot. It then
scans the columns on the board the row pass left behind. A design that
snapshots the board and clears every full row and column at once behaves
differently. The code never clears a row and a column in the same call,
because a cleared row leaves a gap in every column (`RowsBlockColumns`).
`CrossScenario` shows the difference on a board whose row 0 and column 0
are both full. The code clears only row 0 and scores 8 points. A snapshot
design would clear both lines and score 16.

The doc comment of `preview_cells` (src/koala_kombo.rs:193) says the result
is empty when the placement is out of bounds. The code filters offset by
offset instead, and the model follows the code. With the anchor itself off
the board to the right or below, nothing lands and the preview is empty
(`PreviewOffBoard`). A piece only partly on the board yields the cells
that do land: the 3-wide bar at (6, 0) previews slots 6 and 7
(`ShortHeroPartialPreview`).

## Model

| member | source | states |
|---|---|---|
| Shapes.Anchors | src/koala_kombo.rs:72-100 | every shape lists 1 to 9 offsets, each with both coordinates in 0..4 (never negative) |
| Shapes.DistinctOffsets | src/koala_kombo.rs:73-99 | no shape lists the same offset twice |
| Shapes.Normalized | src/koala_kombo.rs:73-99 | every shape has an offset in column 0 and one in row 0, so the anchor is the bounding box's top-left corner |
| Shapes.SizeExtremes | src/koala_kombo.rs:92-98 | `Single` has 1 cell and `Huge` has 9; every shape lies between them; `Huge` is the solid 3 x 3 block |
| Board.Index | src/koala_kombo.rs:164 | the row-major slot `y * 8 + x` of an in-bounds cell is below 64 |
| Board.IndexBijective | src/koala_kombo.rs:149 | row-major indexing is one-to-one on the board and reaches every slot |
| Board.Preview | src/koala_kombo.rs:199-212 | at most one slot per offset, each slot below 64 |
| Board.PreviewMembers | src/koala_kombo.rs:203-211 | a slot is previewed exactly when some translated offset is in bounds and lands on it |
| Board.PreviewMembersAll | src/koala_kombo.rs:203-211 | the previewed slots are exactly the slots of the in-bounds translated offsets |
| Board.PreviewComplete | src/koala_kombo.rs:203-211 | the preview keeps every offset exactly when every translated offset is in bounds |
| Board.PreviewConcat | src/koala_kombo.rs:199-212 | offsets are visited in order: the preview of a concatenation is the concatenation of the previews |
| Board.PreviewInOrder | src/koala_kombo.rs:199-212 | when every offset lands, the preview keeps them all and the j-th previewed slot is that of the j-th offset |
| Board.PreviewOffBoard | src/koala_kombo.rs:192-212 | with the anchor off the board (right or below), no offset of any shape lands and the preview is empty |
| Board.PreviewDistinct | src/koala_kombo.rs:199-212 | distinct offsets give distinct previewed slots |
| Board.FitsIffPreviewFree | src/koala_kombo.rs:177-189 | a shape fits exactly when its preview keeps every offset and every previewed cell is empty |
| Board.Stamp | src/koala_kombo.rs:227-231 | filling cells keeps the board size |
| Board.StampEffect | src/koala_kombo.rs:227-231 | after filling, a cell is filled exactly when it was filled before or is among the written slots |
| Board.StampSnoc | src/koala_kombo.rs:227-231 | filling one more slot is a single-cell update of the board |
| Board.ClearRow | src/koala_kombo.rs:254-256 | emptying a row keeps the board size |
| Board.ClearCol | src/koala_kombo.rs:264-266 | emptying a column keeps the board size |
| Board.ClearRowAt | src/koala_kombo.rs:254-256 | emptying row y0 empties exactly the cells of row y0 |
| Board.ClearColAt | src/koala_kombo.rs:264-266 | emptying column x0 empties exactly the cells of column x0 |
| Board.SweepRows | src/koala_kombo.rs:251-259 | the row pass over the first n rows keeps the board size and clears at most n lines |
| Board.SweepCols | src/koala_kombo.rs:262-269 | the column pass over the first n columns keeps the board size and clears at most n lines |
| Board.ClearFullLines | src/koala_kombo.rs:247-272 | both passes in order keep the board size |
| Board.FullRows | src/koala_kombo.rs:251-253 | at most n of the first n rows are full |
| Board.FullCols | src/koala_kombo.rs:262-263 | at most n of the first n columns are full |
| Board.SweepRowsEffect | src/koala_kombo.rs:251-259 | after the row pass over n rows, a cell is filled exactly when it was filled and its row (among the first n) was not full; the lines counted are the full rows |
| Board.SweepColsEffect | src/koala_kombo.rs:262-269 | the same for the column pass over n columns |
| Board.ClearFullLinesEffect | src/koala_kombo.rs:247-272 | cell-by-cell result of the row pass then the column pass; lines = full rows of the input + full columns of the board after the row pass |
| Board.ClearFullLinesOnlyEmpties | src/koala_kombo.rs:247-272 | clearing only ever turns cells from filled to empty |
| Board.FullRowsZero | src/koala_kombo.rs:251-253 | no row counts as full exactly when no row is full |
| Board.FullColsZero | src/koala_kombo.rs:262-263 | no column counts as full exactly when no column is full |
| Board.FullRowsSingle | src/koala_kombo.rs:251-253 | with exactly one full row y0, the count over the first n rows is 1 if y0 < n, else 0 |
| Board.FullRowWitness | src/koala_kombo.rs:251-253 | when some row counts as full, the returned row is one of them |
| Board.RowsBlockColumns | src/koala_kombo.rs:250-269 | when any row is full, no column is full after the row pass, so the call clears rows only |
| Board.SingleRowCleared | src/koala_kombo.rs:247-272 | with exactly one full row, the call clears 1 line: exactly that row's cells are emptied |
| Board.NoFullLineAfter | src/koala_kombo.rs:247-272 | after clearing, no row and no column is full |
| Board.AtMostOneDirection | src/koala_kombo.rs:247-272 | a call clears at most 8 lines; when some row is full the whole call is the row pass, and otherwise it is the column pass on the unchanged board |
| Board.ClearFullLinesIdempotent | src/koala_kombo.rs:247-272 | clearing again right away changes nothing and scores nothing |
| Board.NoneFullSweepsNothing | src/koala_kombo.rs:247-272 | a board with no full line is left as it is, with 0 lines |
| Board.UnchangedSweepRows | src/koala_kombo.rs:251-259 | with no full row, the row pass changes nothing |
| Board.UnchangedSweepCols | src/koala_kombo.rs:262-269 | with no full column, the column pass changes nothing |
| Engine.VariantIndex | src/koala_kombo.rs:111-137 | every shape sits at some position of the variant table |
| Engine.VariantsComplete | src/koala_kombo.rs:111-137 | the variant table lists each of the 25 shapes exactly once |
| Engine.RandomPiece | src/koala_kombo.rs:139-143 | a drawn piece is unused and its shape is in the variant table |
| Engine.EveryShapeDrawable | src/koala_kombo.rs:139-143 | every shape is the result of some draw |
| Engine.PlacementEffect | src/koala_kombo.rs:222-231 | a legal placement fills every target cell; each cell it changes was empty and lies under an offset |
| Engine.KoalaKombo.constructor | src/koala_kombo.rs:155-161 | new game: all 64 cells empty, three unused drawn pieces, score 0 |
| Engine.KoalaKombo.CellFilled | src/koala_kombo.rs:163-165 | reads the board at the row-major slot of (x, y) |
| Engine.KoalaKombo.CanPlace | src/koala_kombo.rs:168-190 | true exactly when the slot is unused and every translated offset is in bounds on an empty cell |
| Engine.KoalaKombo.FitsAt | src/koala_kombo.rs:177-189 | the offset loop with early exits returns exactly whether every offset lands on an empty cell |
| Engine.KoalaKombo.PreviewCells | src/koala_kombo.rs:194-213 | the preview of the slot's offsets: in-bounds slots below 64, one per landing offset, distinct, in offset order (position by position when all land); full length exactly when all land; empty when the anchor is off the board; ignores occupancy and the used flag |
| Engine.KoalaKombo.PlaceShape | src/koala_kombo.rs:217-244 | returns whether the placement was legal; illegal: nothing changes; legal: board = cleared(stamped old board), score grows by 8 per line (never decreases, at most +64), slot i marked used, queue refilled from the draws exactly when all three are used |
| Engine.KoalaKombo.FillCells | src/koala_kombo.rs:227-231 | the write loop leaves the old board stamped with the previewed slots |
| Engine.KoalaKombo.ClearLines | src/koala_kombo.rs:247-272 | board becomes the row-then-column pass of the old board; returns 8 points per cleared line |
| Engine.KoalaKombo.EmptyRow | src/koala_kombo.rs:254-256 | board becomes the old board with row y emptied |
| Engine.KoalaKombo.EmptyColumn | src/koala_kombo.rs:264-266 | board becomes the old board with column x emptied |
| Scenarios.Empty | src/koala_kombo.rs:157 | the empty board has no filled cell |
| Scenarios.RowPrefix | src/koala_kombo.rs:149 | the board on which cell (x, y) is filled exactly when y = 0 and x < k |
| Scenarios.Cross | src/koala_kombo.rs:149 | the board with only row 0 and column 0 filled |
| Scenarios.ShortRowClearsNothing | src/koala_kombo.rs:247-272 | a board filled only left of column 7 in row 0 has no full line and is left unchanged |
| Scenarios.ShortHeroOffsets | src/koala_kombo.rs:88 | the 3-wide bar's offsets |
| Scenarios.ShortHeroPreview | src/koala_kombo.rs:194-213 | the 3-wide bar at (0, 0) previews slots 0, 1, 2 |
| Scenarios.ShortHeroPartialPreview | src/koala_kombo.rs:192-212 | at anchor (6, 0) the 3-wide bar previews slots 6 and 7, not an empty list |
| Scenarios.ShortHeroFits | src/koala_kombo.rs:168-190 | the 3-wide bar fits at (0, 0) on the empty board |
| Scenarios.ShortHeroPlaced | src/koala_kombo.rs:227-231 | placing it there fills exactly cells 0, 1, 2 |
| Scenarios.ShortHeroScenario | src/koala_kombo.rs:217-244 | that placement clears nothing and scores nothing |
| Scenarios.ShortHeroOffBoard | src/koala_kombo.rs:181-183 | at anchor (6, 0) the 3-wide bar leaves the board, so it does not fit |
| Scenarios.RowFillScenario | src/koala_kombo.rs:217-272 | singles fill row 0 from the left; the eighth completes it, clears 1 line and empties the board |
| Scenarios.RowFillCompletes | src/koala_kombo.rs:247-272 | a full row 0 with nothing else clears to the empty board for 1 line |
| Scenarios.CrossFullRows | src/koala_kombo.rs:251-253 | row 0 is the cross's only full row |
| Scenarios.CrossScenario | src/koala_kombo.rs:250-269 | with row 0 and column 0 full, only row 0 is cleared (1 line); column 0 keeps its seven lower cells |

## Left out

- The Fyrox user interface (`src/plugin.rs`) is not part of this model: widgets, painting, drag state and mouse messages. It also expects an engine API that `src/koala_kombo.rs` does not define.
- `src/lib.rs` and `src/main.rs` are startup and wasm glue and are not part of this model.
- Randomness: `Piece::random` draws with `rand`. Here the caller supplies each draw as an index into the variant table, and no claim is made about the distribution.
- Engine.KoalaKombo.PlaceShape: the score is a `nat`, so the overflow of the source's `u32` score is not modelled. At 8 points per line it comes after 2^32 / 8, about 537 million lines. There `self.score += …` panics in a debug build and wraps in a release build.
- Engine.KoalaKombo.CanPlace, Engine.KoalaKombo.PreviewCells, Engine.KoalaKombo.PlaceShape: anchors and offsets are unbounded integers. Two machine effects are not modelled. The `usize` to `i32` cast of the anchor (src/koala_kombo.rs:174-175, 196-197, 224-225) truncates anchors of 2^31 and above. The `i32` addition `ax + dx` (src/koala_kombo.rs:178, 204, 228) overflows for anchors within 4 of 2^31 - 1.
- Engine.KoalaKombo.CanPlace, Engine.KoalaKombo.PreviewCells, Engine.KoalaKombo.PlaceShape: require a slot index below 3; the source panics on a larger index.
- Engine.KoalaKombo.CellFilled: requires x and y below 8. The source does not check this: it reads a cell of another row when x is 8 or more, and panics past the end of the array.
- Game-over detection is not modelled; the code has none.
- Simultaneous row-and-column clearing is not modelled, because the code clears rows first and judges columns afterwards (see `CrossScenario`).
- Engine.KoalaKombo.CanPlace and Engine.KoalaKombo.FitsAt: the source's single function is split in two: the used-flag test, and the loop over offsets.
- Engine.KoalaKombo.PlaceShape, Engine.KoalaKombo.ClearLines: the inner board-writing loops are separate methods (`FillCells`, `EmptyRow`, `EmptyColumn`). They write the same cells in the same order.
