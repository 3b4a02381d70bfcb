# Minesweeper rule engine, modelled in Dafny

This project models the rule engine of a Minesweeper game written in Rust
(`src/main.rs`): the board of covered, pinned and uncovered squares, the
generation of a board with 15 percent of its squares mined, uncovering a
square (`Game::discover`), the breadth-first flood fill that opens a region
of blank squares (`fill_area`), pinning a square (`Game::pin`) and declaring
the game won (`Game::update_game_state`).

The modules follow the program's structure:

- `cells.dfy`, module `Cells`, models the `Item`, `Cell` and `GameState` enums.
  - `GetItem` and `TurnDiscovered` are the two methods of `Cell`.
  - `u8` and `u32` are newtypes, so a neighbour count or a counter that
    overflows or underflows is a proof obligation.
- `grid.dfy`, module `Grid`, defines positions, neighbourhood, and the
  number of bombs around a square.
  - The lemmas here show that a count fits a `u8`.
  - They also show how laying one more bomb changes the counts.
- `flood.dfy`, module `Flood`, models `fill_area` as a method over an
  `array2<Cell>` (the board, indexed [row, column] = [y, x]).
  - The BFS loop becomes a `while` loop over a queue, with an `explored`
    matrix of the same shape.
  - The eight-way neighbour scan becomes a `for` loop.
  - Ghost state records what has been uncovered and why.
- `board.dfy`, module `Board`, states `ConsistentOn`, the invariant a game
  keeps between moves, over a value view of the board. The invariant says:
  - the bombs are distinct squares on the board;
  - every square keeps the item generation gave it;
  - pins are distinct squares that are no longer covered;
  - a won game has nothing left to uncover;
  - a lost game shows every bomb;
  - no uncovered blank square has a covered bomb-free neighbour.

  One lemma per kind of move shows that the move keeps the invariant.
- `game.dfy`, module `Minesweeper`, has the generation loop of `Game::new`
  and the class `Game`.
  - The class has the Rust struct's five fields.
  - Its constructor and its methods `Discover`, `Pin` and
    `UpdateGameState` update the board in place.
  - `Valid()` is the invariant above plus the counter invariant:
    `hiddenEmpty` is the number of bomb-free squares not yet uncovered.
    Pinned bomb-free squares still count.

Positions. `bombs` and `pins` hold (x, y) pairs, as in the source. The
board's own positions, and the ghost sets of squares, are (row, column) =
(y, x). `Discover(x, y)` passes (y, x) to `FillArea`, as `discover` does.

The random number generator is replaced by a parameter. The constructor
draws coordinates from a caller-supplied sequence `candidates`, in order.
A coordinate drawn before is skipped, exactly as a failed `HashSet::insert`
is skipped. The caller must supply enough distinct coordinates to fill the
budget.

The model follows the code where it departs from the usual rules of
Minesweeper:

- Uncovering or pinning after the game is won or lost is not refused. In
  the usual rules a finished game takes no more moves; the code has no such
  guard, and the model has none either.
- `discover` never calls `update_game_state`. A game with nothing left to
  uncover stays `Playing` until `UpdateGameState` is called. In the usual
  rules, a 1x1 board would be won by its first move.
- Out-of-range coordinates are not an error result: the Rust code panics
  on them. In-range coordinates are therefore a precondition of every
  move.
- Zero width or height is not rejected.
- There is no unpin.

## Model

| member | source | states |
|---|---|---|
| Cells.GetItem | src/main.rs:44-48 | the item returned is the one the square wraps, whatever its tag |
| Cells.TurnDiscovered | src/main.rs:49-51 | the result is uncovered and keeps the square's item; an uncovered square is returned as it is |
| Grid.BombsAroundBound | src/main.rs:142-153 | no square has more than eight bombs around it, so the `u8` neighbour count cannot overflow |
| Grid.BombsAroundInsert | src/main.rs:146-153 | adding a bomb adds one to the bomb count of exactly the squares next to it |
| Grid.ItemAtInsert | src/main.rs:141-155 | laying one more bomb makes its square a bomb, keeps existing bombs, adds one to the count of each bomb-free neighbour, and changes no other square |
| Grid.AllCellsCard | src/main.rs:136 | the board has height * width squares |
| Flood.StepAdjacent | src/main.rs:211-224 | each of the eight offsets leads to a neighbouring square |
| Flood.DirectionTo | src/main.rs:211 | every neighbour of a square is reached by one of the eight offsets |
| Flood.Uncover | src/main.rs:216 | the square becomes uncovered with its item, no other square changes, and it leaves the squares still to uncover |
| Flood.UncoverCounted | src/main.rs:216-217 | one square is uncovered and the counter drops by one without underflow, staying at least the number of squares left to uncover |
| Flood.UncoveredLeaveToUncover | src/main.rs:216-217 | uncovering covered bomb-free squares removes exactly those squares from the ones still to uncover |
| Flood.ConsiderNeighbour | src/main.rs:225-234 | a neighbour is queued at most once, and only when it is on the board, covered, bomb-free and unexplored; otherwise the queue is unchanged |
| Flood.ScanDirection | src/main.rs:222-235 | one more offset around the blank square is handled, keeping the queue's bookkeeping |
| Flood.ScannedAll | src/main.rs:222-235 | when all eight offsets are done, every neighbour of the square is queued, uncovered or not eligible |
| Flood.QueueNeighbours | src/main.rs:222-235 | after the scan every covered bomb-free neighbour of the blank square is queued or uncovered, and each queued square is queued once |
| Flood.FrontierAfterPop | src/main.rs:215-217 | taking the head of the queue keeps the queue bookkeeping, except for that square's own neighbours |
| Flood.Visit | src/main.rs:215-236 | one turn uncovers a square not uncovered before, counts it off, and keeps the queue bookkeeping |
| Flood.PopOrderStep | src/main.rs:215-217 | taking the head of the queue appends it to the pop order; the order starts at the start square, lists each uncovered square once, and puts each square after the square that queued it |
| Flood.ReachedByParents | src/main.rs:222-235 | once the queue is empty, every uncovered square but the start comes after an uncovered blank square next to it in the pop order, so the whole set is reached from the start through uncovered blank squares |
| Flood.SettledWhenClosed | src/main.rs:215-237 | when the queue is empty, no uncovered blank square has a covered bomb-free neighbour |
| Flood.FillArea | src/main.rs:208-238 | the fill terminates; it uncovers the start and only covered bomb-free squares, never a bomb or a pin, each once and keeping its item, and changes nothing else; the counter drops by the number uncovered; no uncovered blank square is left with a covered bomb-free neighbour; the uncovered squares form a region reached from the start: in the order they were taken off the queue, each comes after an uncovered blank square next to it |
| Board.UncoverKeeps | src/main.rs:179-185 | uncovering covered bomb-free squares, with no covered bomb-free square left next to their blanks, keeps the game invariant and removes exactly those squares from the ones left to uncover |
| Board.LoseKeeps | src/main.rs:173-177 | showing every bomb keeps the game invariant for a lost game and leaves the squares to uncover unchanged |
| Board.PinKeeps | src/main.rs:193-199 | pinning a covered square and listing it keeps the invariant, including pins without duplicates |
| Board.WinKeeps | src/main.rs:201-205 | with nothing left to uncover, the game may be declared won |
| Minesweeper.Budget | src/main.rs:135 | the bomb budget never exceeds the number of squares |
| Minesweeper.Min | src/main.rs:143-145 | the smaller of two sizes is one of them and at most both |
| Minesweeper.AsU32 | src/main.rs:164 | the `as u32` cast keeps a value that fits, and otherwise gives the `u32` congruent to it modulo 2^32 |
| Minesweeper.PlaceInRow | src/main.rs:146-154 | one row of the clamped box around a new bomb is updated: the bomb's own square, and the counts of the bomb-free squares |
| Minesweeper.PlaceBomb | src/main.rs:141-155 | after laying a new bomb, every square holds its item for the enlarged bomb set: a bomb, or the exact number of bombs around it |
| Minesweeper.AddCandidate | src/main.rs:139-141 | drawing one more coordinate adds it to the set of coordinates drawn |
| Minesweeper.DrawNext | src/main.rs:139-156 | one turn of the loop adds the drawn coordinate to the bomb set, lays its bomb once, and keeps the board generated for the bombs so far |
| Minesweeper.Generate | src/main.rs:135-157 | exactly the budget of distinct in-bounds bombs; they are exactly the coordinates of a prefix of the candidates, and drawing stops as soon as the budget is reached; every other square is covered with the exact count of bombs around it |
| Minesweeper.ShowBombs | src/main.rs:175-177 | every listed bomb square is shown and no other square changes |
| Minesweeper.FillKeeps | src/main.rs:179-185 | uncovering covered bomb-free squares from a consistent board, with no covered bomb-free square left next to their blanks, leaves it consistent and removes exactly those squares from the ones to uncover |
| Minesweeper.UncoverNumber | src/main.rs:179-183 | on the board, the numbered square alone is uncovered with its item, the counter drops by one and still counts the squares to uncover, and the board stays consistent |
| Minesweeper.ToUncoverAfterGeneration | src/main.rs:136-164 | a freshly generated board has height * width - bombs squares to uncover |
| Minesweeper.DistinctCard | src/main.rs:141 | a list of distinct bombs has as many elements as it is long |
| Minesweeper.Game.FreshGame | src/main.rs:158-165 | a new game is consistent, and it satisfies the counter invariant when the count fits in a `u32` |
| Minesweeper.Game.CounterZeroIffCleared | src/main.rs:201-205 | the counter is zero exactly when every bomb-free square is uncovered |
| Minesweeper.Game.constructor | src/main.rs:133-166 | `new` builds a new board of height x width squares, owned by the game, and lays exactly the budget of distinct bombs, the coordinates of the shortest prefix of the candidates that holds that many, with correct neighbour counts, every square covered, state `Playing`, no pins, and counter `(height*width - budget) as u32`; the game is consistent, and valid when the count fits |
| Minesweeper.Game.LoseGame | src/main.rs:173-177 | the game is lost, every bomb is shown, the counter, pins and all other squares are unchanged, and the invariant holds |
| Minesweeper.Game.RevealNumber | src/main.rs:179-183 | only that square is uncovered, keeping its item, and nothing else changes; the counter drops by exactly one; the state and pins are unchanged; the invariant holds |
| Minesweeper.Game.RevealArea | src/main.rs:185 | the fill from (y, x) uncovers only covered bomb-free squares, never a pin, and changes nothing else; they are reached from (y, x) through uncovered blank squares, and none of their blanks keeps a covered bomb-free neighbour; the counter drops by their number; state and pins are unchanged; the invariant holds |
| Minesweeper.Game.Discover | src/main.rs:168-191 | pinned or uncovered: nothing changes. Covered bomb: loss and every bomb shown, nothing else changes. Otherwise only covered bomb-free squares are uncovered, never a pin, reached from the square through uncovered blank ones, and the counter drops by their number. Covered number: only that square. Covered blank: no covered bomb-free square is left next to an uncovered blank one. The state is never set to `Win`, and the invariant is kept |
| Minesweeper.Game.Pin | src/main.rs:193-199 | a covered square becomes a pin with the same item and (x, y) is appended to the pins; any other square is a no-op; counter and state never change |
| Minesweeper.DefaultGame | src/main.rs:124-130 | `Default for Game`: a new valid 16 x 16 game with the budget of bombs and no pins, whose square (7, 7) is uncovered; it is lost exactly when a bomb lies there, and otherwise still `Playing` |
| Minesweeper.Game.UpdateGameState | src/main.rs:201-205 | the state becomes `Win` exactly when the counter is zero, and is otherwise unchanged |

## Left out

- The iced GUI (`Cell::to_button`, `view`, `update`, `main`, the `Message`
  enum, the SVG handles and the `println!`): presentation and a foreign
  library.
- `rand::thread_rng` and `gen_range`: randomness is replaced by the
  `candidates` parameter of the constructor. The constructor requires
  enough distinct coordinates among them. The Rust loop relies on the
  generator eventually producing them.
- `Debug for Game`: diagnostic text only.
- The order of `bombs`. The Rust code collects a `HashSet`, so the order is
  unspecified. The model keeps the order in which the bombs were laid, and
  no contract depends on it.
- Minesweeper.Game.constructor: `width * height` is an unbounded integer.
  The `usize` overflow of that product is not modelled. The `as u32`
  truncation of the counter is modelled. When the count does not fit in
  32 bits, the constructor promises only consistency, not `Valid()`.
- Every move requires `Valid()`. That is, the moves are specified for
  games built by the constructor whose count fits a `u32`, and changed only
  by these moves. The Rust methods have no such precondition.
- Flood.FillArea: it requires the counter to be at least the number of
  squares left to uncover. The game's counter invariant guarantees this.
  `fill_area` itself does not check it. An underflow of `*hidden_count -= 1`
  would panic in a debug build and wrap to 2^32 - 1 in a release build,
  after which the game could never be won.
- Flood.FillArea: `fill_area` reads the number of columns from
  `field[0].len()`. The model uses the width of a rectangular `array2`,
  which is the same for a board built by `new`.
- Aliasing between the board and the `explored` matrix: the model takes
  them as distinct arrays, as in the Rust code.
