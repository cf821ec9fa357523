/**
 * The game board component: the imperative generation step, the speed keys,
 * and the small state machine of handlers over grid, reset snapshot,
 * run flag, generation counter and tick interval. The timer that re-runs the
 * step is modelled as repeated calls of Tick; the sound cues the handlers
 * play are recorded in a ghost log.
 */
module GameBoard {
  import opened Wrappers
  import opened Life
  import Canvas

  /** Some cell among the first i rows, or among the first j cells of row i,
      has a next state different from its current one. */
  ghost predicate DiffersBefore(g: Grid, i: int, j: int)
    requires WellShaped(g)
  {
    exists a, b :: 0 <= a < ROWS && 0 <= b < COLS && (a < i || (a == i && b < j)) && NextCellAt(g, a, b) != g[a][b]
  }

  /** The neighbour count of the step: the offset table walked in order, each
      offset that stays on the board adding 1 when it reaches a live cell. */
  method CountNeighbors(g: Grid, i: int, j: int) returns (neighbors: nat)
    requires WellShaped(g)
    ensures neighbors == NeighborCount(g, i, j)
  {
    neighbors := 0;
    var k := 0;
    while k < |Operations|
      invariant 0 <= k <= |Operations|
      invariant neighbors == LiveAmong(g, i, j, k)
    {
      var d := Operations[k];
      var newI := i + d.0;
      var newJ := j + d.1;
      if newI >= 0 && newI < ROWS && newJ >= 0 && newJ < COLS {
        neighbors := neighbors + (if g[newI][newJ] then 1 else 0);
      }
      k := k + 1;
    }
  }

  /** One generation: a copy of g is updated cell by cell, every neighbour read
      from g itself, and changed records whether any cell was written. When
      nothing changed the input grid itself is returned. */
  method Step(g: Grid) returns (next: Grid, changed: bool)
    requires WellShaped(g)
    ensures next == NextGeneration(g)
    ensures changed <==> exists a, b :: 0 <= a < ROWS && 0 <= b < COLS && next[a][b] != g[a][b]
    ensures !changed ==> next == g
  {
    var nextGrid := g;
    changed := false;
    var i := 0;
    while i < ROWS
      invariant 0 <= i <= ROWS
      invariant WellShaped(nextGrid)
      invariant forall a, b :: 0 <= a < i && 0 <= b < COLS ==> nextGrid[a][b] == NextCellAt(g, a, b)
      invariant forall a :: i <= a < ROWS ==> nextGrid[a] == g[a]
      invariant changed <==> DiffersBefore(g, i, 0)
    {
      // nextGrid[i] is this row's own copy; the cell writes go to it
      var row := nextGrid[i];
      var j := 0;
      while j < COLS
        invariant 0 <= j <= COLS
        invariant |row| == COLS
        invariant forall b :: 0 <= b < j ==> row[b] == NextCellAt(g, i, b)
        invariant forall b :: j <= b < COLS ==> row[b] == g[i][b]
        invariant changed <==> DiffersBefore(g, i, j)
      {
        var neighbors := CountNeighbors(g, i, j);
        if neighbors < 2 || neighbors > 3 {
          if g[i][j] {
            row := row[j := false];
            changed := true;
          }
        } else if g[i][j] == false && neighbors == 3 {
          row := row[j := true];
          changed := true;
        }
        j := j + 1;
      }
      nextGrid := nextGrid[i := row];
      i := i + 1;
    }
    SameCellsSameGrid(nextGrid, NextGeneration(g));
    if !changed {
      SameCellsSameGrid(g, NextGeneration(g));
    }
    next := if changed then nextGrid else g;
  }

  /** Tick interval in milliseconds: its start value and the bounds the speed
      keys clamp to, and the amount one key press moves it. */
  const InitialSpeed: int := 500
  const MinSpeed: int := 50
  const MaxSpeed: int := 1000
  const SpeedStep: int := 50

  predicate SpeedInRange(s: int) {
    MinSpeed <= s <= MaxSpeed
  }

  /** The '+' key: a shorter interval, never below the minimum. */
  function Faster(s: int): (r: int)
    ensures r >= MinSpeed
    ensures r >= s - SpeedStep
    ensures r == s - SpeedStep || r == MinSpeed
    ensures SpeedInRange(s) ==> SpeedInRange(r) && r <= s
  {
    if s - SpeedStep > MinSpeed then s - SpeedStep else MinSpeed
  }

  /** The '-' key: a longer interval, never above the maximum. */
  function Slower(s: int): (r: int)
    ensures r <= MaxSpeed
    ensures r <= s + SpeedStep
    ensures r == s + SpeedStep || r == MaxSpeed
    ensures SpeedInRange(s) ==> SpeedInRange(r) && r >= s
  {
    if s + SpeedStep < MaxSpeed then s + SpeedStep else MaxSpeed
  }

  /** Inside the range, one key press is undone by the other key. */
  lemma SpeedKeysUndoEachOther(s: int)
    ensures MinSpeed + SpeedStep <= s <= MaxSpeed ==> Slower(Faster(s)) == s
    ensures MinSpeed <= s <= MaxSpeed - SpeedStep ==> Faster(Slower(s)) == s
  {
  }

  datatype SpeedKey = Plus | Minus

  /** The interval after a sequence of speed key presses. */
  function AfterKeys(s: int, keys: seq<SpeedKey>): int
    decreases |keys|
  {
    if keys == [] then s
    else
      var s' := if keys[0] == Plus then Faster(s) else Slower(s);
      AfterKeys(s', keys[1..])
  }

  /** Whatever keys are pressed, an interval in range on the 50 ms grid stays in
      range on the 50 ms grid. */
  lemma {:induction false} KeysKeepSpeedInRange(s: int, keys: seq<SpeedKey>)
    requires SpeedInRange(s) && s % SpeedStep == 0
    ensures SpeedInRange(AfterKeys(s, keys)) && AfterKeys(s, keys) % SpeedStep == 0
    decreases |keys|
  {
    if keys != [] {
      var s' := if keys[0] == Plus then Faster(s) else Slower(s);
      KeysKeepSpeedInRange(s', keys[1..]);
    }
  }

  /** Starting from the initial interval, the speed keys alone keep it in
      [50, 1000] and a multiple of 50. */
  lemma SpeedFromStartStaysInRange(keys: seq<SpeedKey>)
    ensures SpeedInRange(AfterKeys(InitialSpeed, keys))
    ensures AfterKeys(InitialSpeed, keys) % SpeedStep == 0
  {
    KeysKeepSpeedInRange(InitialSpeed, keys);
  }

  /** The sound cues the handlers ask for. StepCue records the step's request
      for a 'step' sound, which the sound player has no case for, so it makes
      no sound. */
  datatype Sound = StartCue | ClickCue | StepCue | ResetCue | ClearCue | SuccessCue

  class Game {
    var grid: Grid
    /** The reset snapshot; None before the first play or randomize and after clear. */
    var initialGrid: Option<Grid>
    var running: bool
    var generation: nat
    /** The tick interval in milliseconds. */
    var speed: int
    /** The sound cues played so far, in order. */
    ghost var sounds: seq<Sound>

    ghost predicate Valid()
      reads this
    {
      WellShaped(grid) &&
      (initialGrid.Some? ==> WellShaped(initialGrid.value)) &&
      SpeedInRange(speed)
    }

    /** Whether the board shows its "paint here" overlay: a stopped, untouched,
        all-dead board. */
    predicate ShowsPaintHint()
      reads this
      ensures WellShaped(grid) ==>
        (ShowsPaintHint() <==> generation == 0 && !running && grid == EmptyGrid())
    {
      var hint := generation == 0 && !running && AllDead(grid);
      if WellShaped(grid) then AllDeadIffEmpty(grid); hint else hint
    }

    constructor ()
      ensures Valid()
      ensures grid == EmptyGrid() && initialGrid == None && !running
      ensures generation == 0 && speed == InitialSpeed && sounds == []
      ensures ShowsPaintHint()
    {
      grid := EmptyGrid();
      initialGrid := None;
      running := false;
      generation := 0;
      speed := InitialSpeed;
      sounds := [];
    }

    /** One firing of the simulation timer. Stopped, it does nothing; running, it
        replaces the grid by its next generation and counts one generation,
        whether or not any cell changed. */
    method Tick()
      requires Valid()
      modifies this
      ensures Valid()
      ensures !old(running) ==> unchanged(this)
      ensures old(running) ==> grid == NextGeneration(old(grid)) && generation == old(generation) + 1
      ensures old(running) ==> sounds == old(sounds) + [StepCue]
      ensures running == old(running) && initialGrid == old(initialGrid) && speed == old(speed)
    {
      if !running {
        return;
      }
      var next, _ := Step(grid);
      grid := next;
      generation := generation + 1;
      sounds := sounds + [StepCue];
    }

    /** Play/pause. Starting play takes a snapshot of the grid when there is none
        or no generation has run yet, and runs the first step at once; pausing
        changes nothing but the flag. */
    method TogglePlay()
      requires Valid()
      modifies this
      ensures Valid()
      ensures running == !old(running) && speed == old(speed)
      ensures old(running) ==> grid == old(grid) && generation == old(generation) && initialGrid == old(initialGrid)
      ensures old(running) ==> sounds == old(sounds) + [ClickCue]
      ensures !old(running) ==>
        initialGrid == (if old(initialGrid).None? || old(generation) == 0 then Some(old(grid)) else old(initialGrid))
      ensures !old(running) ==> grid == NextGeneration(old(grid)) && generation == old(generation) + 1
      ensures !old(running) ==> sounds == old(sounds) + [StartCue, StepCue]
    {
      var isNowPlaying := !running;
      running := isNowPlaying;
      if isNowPlaying {
        sounds := sounds + [StartCue];
        if initialGrid.None? || generation == 0 {
          initialGrid := Some(grid);
        }
        Tick();
      } else {
        sounds := sounds + [ClickCue];
      }
    }

    /** A new board of the simulation's shape (a random one, in the game)
        becomes both the grid and the reset snapshot. The run flag is kept:
        a running simulation carries on from the new board. */
    method Randomize(newGrid: Grid)
      requires Valid() && WellShaped(newGrid)
      modifies this
      ensures Valid()
      ensures grid == newGrid && initialGrid == Some(newGrid) && generation == 0
      ensures running == old(running) && speed == old(speed)
      ensures sounds == old(sounds) + [SuccessCue]
    {
      grid := newGrid;
      initialGrid := Some(newGrid);
      generation := 0;
      sounds := sounds + [SuccessCue];
    }

    /** An empty, stopped board with no snapshot. */
    method Clear()
      requires Valid()
      modifies this
      ensures Valid()
      ensures grid == EmptyGrid() && initialGrid == None && generation == 0 && !running
      ensures speed == old(speed)
      ensures sounds == old(sounds) + [ClearCue]
      ensures ShowsPaintHint()
    {
      grid := EmptyGrid();
      initialGrid := None;
      generation := 0;
      running := false;
      sounds := sounds + [ClearCue];
    }

    /** Back to the snapshot, stopped, at generation 0, keeping the snapshot;
        without a snapshot, exactly a clear. */
    method Reset()
      requires Valid()
      modifies this
      ensures Valid()
      ensures old(initialGrid).Some? ==>
        grid == old(initialGrid).value && initialGrid == old(initialGrid) && sounds == old(sounds) + [ResetCue]
      ensures old(initialGrid).None? ==>
        grid == EmptyGrid() && initialGrid == None && sounds == old(sounds) + [ClearCue]
      ensures generation == 0 && !running && speed == old(speed)
    {
      if initialGrid.Some? {
        grid := initialGrid.value;
        generation := 0;
        running := false;
        sounds := sounds + [ResetCue];
      } else {
        Clear();
      }
    }

    /** The '+' key. */
    method SpeedUp()
      requires Valid()
      modifies this
      ensures Valid()
      ensures speed == Faster(old(speed)) && speed <= old(speed)
      ensures grid == old(grid) && initialGrid == old(initialGrid) && running == old(running)
      ensures generation == old(generation) && sounds == old(sounds)
    {
      speed := Faster(speed);
    }

    /** The '-' key. */
    method SpeedDown()
      requires Valid()
      modifies this
      ensures Valid()
      ensures speed == Slower(old(speed)) && speed >= old(speed)
      ensures grid == old(grid) && initialGrid == old(initialGrid) && running == old(running)
      ensures generation == old(generation) && sounds == old(sounds)
    {
      speed := Slower(speed);
    }

    /** A pointer event over cell (row, col) of the canvas, which is interactive
        exactly while the simulation is stopped. An accepted paint replaces the
        grid and plays a click; a refused one changes nothing. */
    method Paint(row: int, col: int)
      requires Valid()
      modifies this
      ensures Valid()
      ensures old(running) || !Canvas.OnBoard(old(grid), row, col) ==> unchanged(this)
      ensures !old(running) && Canvas.OnBoard(old(grid), row, col) ==>
        grid == Canvas.Painted(old(grid), row, col) && sounds == old(sounds) + [ClickCue]
      ensures !old(running) && 0 <= row < ROWS && 0 <= col < COLS ==> grid[row][col]
      ensures initialGrid == old(initialGrid) && running == old(running)
      ensures generation == old(generation) && speed == old(speed)
    {
      var update := Canvas.HandleInteraction(grid, !running, row, col);
      if update.Some? {
        grid := update.value;
        sounds := sounds + [ClickCue];
      }
    }
  }

  /** Play from a stopped board at generation 0, let the timer fire n more
      times, then reset: the board is the one play started from, stopped, at
      generation 0. */
  method PlayThenReset(game: Game, n: nat)
    requires game.Valid() && !game.running && game.generation == 0
    modifies game
    ensures game.Valid()
    ensures game.grid == old(game.grid) && game.initialGrid == Some(old(game.grid))
    ensures game.generation == 0 && !game.running
  {
    game.TogglePlay();
    var k := 0;
    while k < n
      invariant game.Valid() && game.running
      invariant game.initialGrid == Some(old(game.grid))
      invariant game.generation == k + 1
    {
      game.Tick();
      k := k + 1;
    }
    game.Reset();
  }

  /** A clear while running stops the simulation: a timer firing after it
      leaves the empty board as it is. */
  method ClearThenTick(game: Game)
    requires game.Valid()
    modifies game
    ensures game.Valid()
    ensures game.grid == EmptyGrid() && game.initialGrid == None
    ensures game.generation == 0 && !game.running
    ensures game.sounds == old(game.sounds) + [ClearCue]
  {
    game.Clear();
    game.Tick();
  }
}
