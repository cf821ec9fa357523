# Game of Life board, modelled in Dafny

This project models the simulation core of a browser Game of Life toy. The
board is a fixed grid of 40 rows by 60 columns of boolean cells. Its edges are
hard: a cell outside the board counts as dead, and nothing wraps around.

The game component holds five pieces of state:

- the grid;
- the reset snapshot (`initialGrid`), which may be absent;
- the run flag;
- the generation counter;
- the tick interval (`speed`).

Its handlers are play/pause, randomize, clear, reset and the two speed keys.
A timer callback runs one generation step while the game is running. The
canvas's pointer handler paints a cell alive while the game is stopped.

Files:

- `wrappers.dfy`: `Option`, standing for a snapshot that may be null.
- `life.dfy` (module `Life`): the pure part.
  - The board's shape and the empty grid.
  - The eight neighbour offsets and the neighbour count with hard edges.
  - The birth/survival rule and the whole-board next generation (`NextGeneration`).
  - The all-dead check.
  - Lemmas tying the table-driven count to a row-by-row reference count (`MooreCount`), and lemmas on locality and on the empty board.
- `patterns.dfy` (module `Patterns`): small patterns.
  - A lone cell dies anywhere, corners included.
  - A blinker has period two.
  - A dead cell is born with exactly three neighbours.
- `canvas.dfy` (module `Canvas`): the pointer handler's copy-on-write "set cell alive". It works on any rectangular grid.
- `gameboard.dfy` (module `GameBoard`):
  - the imperative step (`CountNeighbors`, `Step`), proved equal to `NextGeneration`;
  - the speed-key clamps;
  - class `Game` with the handlers as methods;
  - two client methods that check scenarios against the handlers' contracts.

Grids are values (`seq<seq<bool>>`). The game never mutates a grid that is
already in its state. Each update builds a new one: the step fills a copy, and
painting copies the outer array and one row. Value semantics captures this
exactly.

Three behaviours of the code are easy to miss:

- Starting play runs the first generation step at once (`togglePlay` calls
  `runSimulation()` directly, index.tsx:92). It does not wait one interval.
  So `Game.TogglePlay` takes the snapshot and then performs one `Tick`.
- Pausing plays the `click` cue.
- Only the speed keys clamp the interval. The slider writes it directly.

## Model

| member | source | states |
|---|---|---|
| `Life.EmptyGrid` | src/components/GameBoard/index.tsx:16 | the fresh board has ROWS×COLS cells, all dead |
| `Life.OperationsAreMoore` | src/components/GameBoard/index.tsx:19-22 | the offset table has 8 distinct entries, each a non-zero displacement in {-1,0,1}², and every such displacement is in the table |
| `Life.LiveAmong` | src/components/GameBoard/index.tsx:51-57 | counting over the first k offsets gives at most k |
| `Life.NeighborCount` | src/components/GameBoard/index.tsx:50-57 | a cell's neighbour count is between 0 and 8 |
| `Life.NeighborCountIsMooreCount` | src/components/GameBoard/index.tsx:51-57 | the table-driven count with its bounds check equals the number of live on-board cells among the eight neighbours, listed row by row |
| `Life.NeighborCountIsLocal` | src/components/GameBoard/index.tsx:51-57 | grids that agree on the eight cells around (i, j) give it the same count; there is no wraparound |
| `Life.NextCell` | src/components/GameBoard/index.tsx:59-66 | a live cell with fewer than 2 or more than 3 neighbours dies; with 2 or 3 it survives; a dead cell is born exactly when it has 3 |
| `Life.NextGeneration` | src/components/GameBoard/index.tsx:45-70 | the next generation has the same ROWS×COLS shape |
| `Life.NextCellIsLocal` | src/components/GameBoard/index.tsx:44-69 | a next-generation cell depends only on the cell and its neighbours in the pre-step grid |
| `Life.AllDead` | src/components/GameBoard/index.tsx:223 | the nested `every` holds exactly when no row contains a live cell |
| `GameBoard.Game.ShowsPaintHint` | src/components/GameBoard/index.tsx:223 | the overlay shows exactly at generation 0, stopped, on a board equal to the empty board |
| `Life.AllDeadIffEmpty` | src/components/GameBoard/index.tsx:223 | a board of the game's shape passes the all-dead check exactly when it equals the empty board |
| `Life.EmptyIsStill` | src/components/GameBoard/index.tsx:44-70 | the empty board's next generation is the empty board |
| `Patterns.LoneCellDies` | src/components/GameBoard/index.tsx:48-69 | a single live cell, anywhere including corners and edges, dies, and the board becomes empty |
| `Patterns.BlinkerHasPeriodTwo` | src/components/GameBoard/index.tsx:48-69 | away from the edges, a vertical bar of three becomes a horizontal bar and back, so two steps restore it |
| `Patterns.BirthNeedsThree` | src/components/GameBoard/index.tsx:59-66 | a dead cell with three live neighbours is born; with two or four it stays dead |
| `GameBoard.CountNeighbors` | src/components/GameBoard/index.tsx:50-57 | the accumulating loop over the offset table returns `NeighborCount` |
| `GameBoard.Step` | src/components/GameBoard/index.tsx:44-71 | the loops that fill the copy from the pre-step grid produce `NextGeneration(g)`; `changed` is true exactly when some cell differs; when nothing changed, the input grid is returned |
| `GameBoard.Faster` | src/components/GameBoard/index.tsx:159-161 | the '+' key gives max(50, s-50): it lowers the interval by at most 50, to s-50 or to the clamp 50, never below 50, and an in-range interval stays in range and does not grow |
| `GameBoard.Slower` | src/components/GameBoard/index.tsx:163-165 | the '-' key gives min(1000, s+50): it raises the interval by at most 50, to s+50 or to the clamp 1000, never above 1000, and an in-range interval stays in range and does not shrink |
| `GameBoard.SpeedKeysUndoEachOther` | src/components/GameBoard/index.tsx:159-166 | away from the clamps, '+' and '-' undo each other |
| `GameBoard.KeysKeepSpeedInRange` | src/components/GameBoard/index.tsx:159-166 | from any interval in [50, 1000] on the 50 ms grid, any sequence of speed keys stays in [50, 1000] on that grid |
| `GameBoard.SpeedFromStartStaysInRange` | src/components/GameBoard/index.tsx:29 | from the initial 500 ms, the speed keys keep the interval in [50, 1000] and a multiple of 50 |
| `GameBoard.Game.constructor` | src/components/GameBoard/index.tsx:25-29 | the game starts with an empty board, no snapshot, stopped, at generation 0, at 500 ms, with the paint-here overlay showing |
| `GameBoard.Game.Tick` | src/components/GameBoard/index.tsx:41-79 | stopped, a timer firing changes nothing; running, the grid becomes its next generation and the generation grows by exactly 1, even when no cell changed; the snapshot, the flag and the speed are kept |
| `GameBoard.Game.TogglePlay` | src/components/GameBoard/index.tsx:82-96 | flips the run flag; pausing changes nothing else; starting takes the pre-step grid as the snapshot when there is none or the generation is 0, keeping it otherwise, and then runs one step |
| `GameBoard.Game.Randomize` | src/components/GameBoard/index.tsx:98-104 | the new board becomes both the grid and the snapshot, at generation 0; the run flag and speed are kept |
| `GameBoard.Game.Clear` | src/components/GameBoard/index.tsx:106-112 | leaves the empty board, no snapshot, generation 0, stopped, with the overlay showing |
| `GameBoard.Game.Reset` | src/components/GameBoard/index.tsx:114-124 | with a snapshot, the grid becomes the snapshot, at generation 0, stopped, and the snapshot is kept; without one, the result is exactly that of clear |
| `GameBoard.Game.SpeedUp` | src/components/GameBoard/index.tsx:159-162 | the interval becomes `Faster` of the old one; nothing else changes |
| `GameBoard.Game.SpeedDown` | src/components/GameBoard/index.tsx:163-166 | the interval becomes `Slower` of the old one; nothing else changes |
| `GameBoard.Game.Paint` | src/components/GameBoard/index.tsx:212-220 | the canvas is interactive exactly while stopped; a stopped, in-bounds paint sets the grid to the painted copy, with that cell alive, and plays a click; while running or off the board nothing changes |
| `GameBoard.PlayThenReset` | src/components/GameBoard/index.tsx:82-124 | play from a stopped board at generation 0, let the timer fire any number of times, then reset: the board is the one play started from, at generation 0, stopped |
| `GameBoard.ClearThenTick` | src/components/GameBoard/index.tsx:106-112 | after a clear, a pending timer firing leaves the empty board and generation 0, and the simulation stays stopped |
| `Canvas.Painted` | src/components/GameBoard/GridCanvas.tsx:91-97 | an in-bounds paint makes that cell alive; every other cell and every row length is unchanged; an out-of-bounds paint returns the grid as it was |
| `Canvas.HandleInteraction` | src/components/GameBoard/GridCanvas.tsx:75-100 | an update is produced exactly when the board is interactive and the point is on the board, and it is the painted grid |
| `Canvas.PaintedIsRectangular` | src/components/GameBoard/GridCanvas.tsx:92-93 | painting keeps the grid rectangular with the same width |
| `Canvas.PaintIsIdempotent` | src/components/GameBoard/GridCanvas.tsx:94-97 | painting a cell twice gives the same grid as painting it once |
| `Canvas.PaintCommutes` | src/components/GameBoard/GridCanvas.tsx:91-97 | painting two cells in either order gives the same grid |
| `Canvas.PaintKeepsLiveCells` | src/components/GameBoard/GridCanvas.tsx:97 | painting sets a cell true and never turns a live cell off |

## Left out

- Random board generation (`Math.random() > 0.7`, index.tsx:17): `Game.Randomize` takes the new board as a parameter of the right shape.
- Timer scheduling (`setTimeout`, index.tsx:78), React state batching and the `useRef` syncing: each timer firing is one call of `Game.Tick`. The model does not count how many timer chains are alive. In the code, pausing and playing again before the pending timeout fires leaves that timeout alive. It finds the run flag set again and keeps its own chain going beside the new one. The model cannot show that.
- Sound synthesis (`src/utils/sound.ts`) and muting: the cues are recorded in the ghost log `Game.sounds`, and the mute flag is not modelled.
- Canvas drawing (GridCanvas.tsx:21-73) and pixel-to-cell conversion (GridCanvas.tsx:81-89): painting takes integer row and column.
- The drag flag `isDrawing` (GridCanvas.tsx:19, 108-114): it only decides whether a pointer event calls the handler, and each call is one `Game.Paint`.
- The speed slider (Controls.tsx:73-83): it writes a non-integer interval directly. `Game.Valid` keeps the interval in [50, 1000], which holds under the speed keys. The multiple-of-50 property holds only when the keys alone move the interval.
- Keyboard dispatch, the help modal, the colour picker, the mute and help toggles, and page bootstrapping: UI with no simulation logic.
- The generation counter is an unbounded `nat`. The code uses a JavaScript number, which is exact up to 2^53.
- Object identity: `Step` returns the input grid itself when nothing changed. The model compares grids by value, so "the same grid" reads as an equal grid.
