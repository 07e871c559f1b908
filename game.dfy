/**
  * The single-player engine: the current and following pieces, the score,
  * level, lives and multiplier counters, line clearing and the turn timer.
  * The timer is a discrete Tick step; what the game tells its listeners is
  * recorded as a ghost list of events.
  */
module Games {
  import opened Optional
  import opened Pieces
  import opened Boards
  import opened Grids
  import opened Counting

  /** Lives a new game starts with. */
  const StartLives: int := 3

  /** The timer fires every TickMillis milliseconds and takes that much off the time left. */
  const TickMillis: int := 500

  /** A call to one of the game's listeners. */
  datatype Event =
    | PiecesChanged(current: Option<Piece>, following: Option<Piece>)
    | LinesCleared(blocks: set<Coord>)
    | TimerStarted(delay: int)
    | ScoreChanged
    | GameOver

  /** Points for one placement: lines times cleared blocks times 10 times the multiplier. */
  function ScoreGain(lineCount: int, blockCount: int, multiplier: int): (gain: int)
    requires lineCount >= 0 && blockCount >= 0 && multiplier >= 1
    ensures gain >= 0
    ensures gain > 0 <==> lineCount > 0 && blockCount > 0
  {
    lineCount * blockCount * 10 * multiplier
  }

  /** The multiplier after a placement: one more for every placement that clears, back to 1 otherwise. */
  function NextMultiplier(multiplier: int, lineCount: int): (m: int)
    requires multiplier >= 1
    ensures m >= 1
    ensures lineCount > 0 ==> m > multiplier
  {
    if lineCount > 0 then multiplier + 1 else 1
  }

  /** The level reached with a score: one level per 1000 points. */
  function LevelFor(score: int): (level: int)
    requires score >= 0
    ensures level >= 0 && 1000 * level <= score < 1000 * (level + 1)
  {
    score / 1000
  }

  /** Milliseconds the player has to place a piece: 12 seconds, half a second less per level, never under 2.5 seconds. */
  function TimerDelay(level: int): (delay: int)
    ensures level >= 0 ==> 2500 <= delay <= 12000 && delay % TickMillis == 0
  {
    if level <= 19 then 12000 - 500 * level else 2500
  }

  /** A higher level never gives more time. */
  lemma TimerDelayNonIncreasing(l1: int, l2: int)
    requires 0 <= l1 <= l2
    ensures TimerDelay(l2) <= TimerDelay(l1)
    ensures l2 <= 19 ==> TimerDelay(l2) == TimerDelay(l1) - 500 * (l2 - l1)
  {
  }

  /** A higher score never gives more time. */
  lemma {:induction false} DelayShrinksWithScore(s1: int, s2: int)
    requires 0 <= s1 <= s2
    ensures LevelFor(s1) <= LevelFor(s2)
    ensures TimerDelay(LevelFor(s2)) <= TimerDelay(LevelFor(s1))
  {
    var l1, l2 := LevelFor(s1), LevelFor(s2);
    TimerDelayNonIncreasing(l1, l2);
  }

  /**
    * Started with the delay of any level, the countdown passes 0 exactly
    * once: after delay / 500 ticks, which is between 5 and 24.
    */
  lemma TimerExpiresOnce(level: int, ticks: nat)
    requires level >= 0
    ensures TimerDelay(level) - TickMillis * ticks == 0 <==> ticks == TimerDelay(level) / TickMillis
    ensures 5 <= TimerDelay(level) / TickMillis <= 24
  {
    var d := TimerDelay(level);
    var n := d / TickMillis;
    assert d == TickMillis * n;
  }

  /**
    * On a grid with at least one row and one column, a placement scores lines
    * exactly when it has cells to clear, so the score grows exactly when a
    * line is completed.
    */
  lemma LinesIffClearedCells(b: Board, cols: nat, rows: nat)
    requires IsBoard(b, cols, rows) && cols > 0 && rows > 0
    ensures LineCount(b, cols, rows) > 0 <==> |ClearedCells(b, cols, rows)| > 0
  {
    var fc, fr := FullColumns(b, cols, rows), FullRows(b, cols, rows);
    ClearedCellsSize(b, cols, rows);
    if |fc| > 0 {
      var x := Pick(fc);
      assert (x, 0) in ClearedCells(b, cols, rows);
    } else if |fr| > 0 {
      var y := Pick(fr);
      assert (0, y) in ClearedCells(b, cols, rows);
    }
  }

  class Game {
    const cols: nat
    const rows: nat
    const grid: Grid
    /** The pieces GamePiece.createPiece can make, by id. */
    const catalog: seq<Piece>

    var score: int
    var level: int
    var lives: int
    var multiplier: int
    var currentPiece: Option<Piece>
    var followingPiece: Option<Piece>
    /** Milliseconds left on the turn timer. */
    var timeLeft: int
    /** The timer task is scheduled. */
    var timerRunning: bool
    /** Every listener call so far, oldest first. */
    ghost var events: seq<Event>

    ghost predicate Valid()
      reads this, grid, grid.cells
    {
      && grid.Valid() && grid.cols == cols && grid.rows == rows
      && |catalog| > 0 && (forall i :: 0 <= i < |catalog| ==> WellFormed(catalog[i]))
      && score >= 0 && level >= 0 && lives >= 0 && multiplier >= 1
      && (currentPiece.Some? ==> WellFormed(currentPiece.value))
      && (followingPiece.Some? ==> WellFormed(followingPiece.value))
      && (timerRunning ==> 0 < timeLeft && timeLeft % TickMillis == 0)
      && CellsInRange(grid.Board(), cols, rows)
    }

    /** Score, level, lives and multiplier are as they were. */
    twostate predicate SameCounters()
      reads this
    {
      score == old(score) && level == old(level) && lives == old(lives) && multiplier == old(multiplier)
    }

    /** A game on an empty grid with no pieces yet and the starting counters. */
    constructor (cols: nat, rows: nat, catalog: seq<Piece>)
      requires |catalog| > 0 && forall i :: 0 <= i < |catalog| ==> WellFormed(catalog[i])
      ensures Valid() && fresh(grid) && fresh(grid.cells)
      ensures this.cols == cols && this.rows == rows && this.catalog == catalog
      ensures grid.Board() == Zero(cols, rows)
      ensures score == 0 && level == 0 && lives == StartLives && multiplier == 1
      ensures currentPiece == None && followingPiece == None
      ensures !timerRunning && events == []
    {
      this.cols := cols;
      this.rows := rows;
      this.catalog := catalog;
      grid := new Grid(cols, rows);
      score, level, lives, multiplier := 0, 0, StartLives, 1;
      currentPiece, followingPiece := None, None;
      timeLeft, timerRunning := 0, false;
      events := [];
    }

    /** Starts the timer, then deals the first pieces. */
    method Start()
      requires Valid()
      modifies this
      ensures Valid() && SameCounters()
      ensures timerRunning && timeLeft == TimerDelay(level)
      ensures currentPiece.Some? && followingPiece.Some? && followingPiece.value in catalog
      ensures old(followingPiece).Some? ==> currentPiece == old(followingPiece)
      ensures old(followingPiece).None? ==> currentPiece.value in catalog
      ensures events == old(events) + [TimerStarted(TimerDelay(level)), PiecesChanged(currentPiece, followingPiece)]
    {
      StartTimer();
      InitialiseGame();
    }

    /** The first deal of a game. */
    method InitialiseGame()
      requires Valid()
      modifies this
      ensures Valid() && SameCounters()
      ensures timeLeft == old(timeLeft) && timerRunning == old(timerRunning)
      ensures currentPiece.Some? && followingPiece.Some? && followingPiece.value in catalog
      ensures old(followingPiece).Some? ==> currentPiece == old(followingPiece)
      ensures old(followingPiece).None? ==> currentPiece.value in catalog
      ensures events == old(events) + [PiecesChanged(currentPiece, followingPiece)]
    {
      NextPiece();
    }

    /** A piece of the catalogue, chosen at random. */
    method SpawnPiece() returns (p: Piece)
      requires Valid()
      ensures p in catalog && WellFormed(p)
    {
      var id :| 0 <= id < |catalog|;
      p := catalog[id];
    }

    /** The following piece becomes current (spawning one first if there is none) and a new following piece is spawned. */
    method NextPiece()
      requires Valid()
      modifies this
      ensures Valid() && SameCounters()
      ensures timeLeft == old(timeLeft) && timerRunning == old(timerRunning)
      ensures old(followingPiece).Some? ==> currentPiece == old(followingPiece)
      ensures old(followingPiece).None? ==> currentPiece.Some? && currentPiece.value in catalog
      ensures currentPiece.Some? && followingPiece.Some? && followingPiece.value in catalog
      ensures events == old(events) + [PiecesChanged(currentPiece, followingPiece)]
    {
      if followingPiece == None {
        var p := SpawnPiece();
        followingPiece := Some(p);
      }
      currentPiece := followingPiece;
      var p := SpawnPiece();
      followingPiece := Some(p);
      events := events + [PiecesChanged(currentPiece, followingPiece)];
    }

    /** Whether column x is complete: counts filled cells from the top and stops at the first empty one. */
    method ColumnIsFull(x: int) returns (full: bool)
      requires Valid() && 0 <= x < cols
      ensures full <==> ColumnFull(grid.Board(), cols, rows, x)
    {
      var counter := 0;
      var y := 0;
      while y < rows
        invariant 0 <= y <= rows && counter == y
        invariant forall y' :: 0 <= y' < y ==> grid.Board()[x][y'] != 0
      {
        var v := grid.Get(x, y);
        if v == 0 {
          break;
        }
        counter := counter + 1;
        y := y + 1;
      }
      full := counter == rows;
    }

    /** Whether row y is complete: counts filled cells from the left and stops at the first empty one. */
    method RowIsFull(y: int) returns (full: bool)
      requires Valid() && 0 <= y < rows
      ensures full <==> RowFull(grid.Board(), cols, rows, y)
    {
      var counter := 0;
      var x := 0;
      while x < cols
        invariant 0 <= x <= cols && counter == x
        invariant forall x' :: 0 <= x' < x ==> grid.Board()[x'][y] != 0
      {
        var v := grid.Get(x, y);
        if v == 0 {
          break;
        }
        counter := counter + 1;
        x := x + 1;
      }
      full := counter == cols;
    }

    /**
      * The first half of afterPiece: counts the complete columns and rows
      * and collects their cells into one set, so a cell where a complete
      * column crosses a complete row is collected once.
      */
    method FindLines() returns (lineCount: nat, blocks: set<Coord>)
      requires Valid()
      ensures lineCount == LineCount(grid.Board(), cols, rows)
      ensures blocks == ClearedCells(grid.Board(), cols, rows)
    {
      var columnLines, columnBlocks := ScanColumns();
      lineCount, blocks := ScanRows(columnLines, columnBlocks);
      ClearedCellsSplit(grid.Board(), cols, rows);
    }

    /** The column pass of afterPiece: one line and a column of cells per complete column. */
    method ScanColumns() returns (lineCount: nat, blocks: set<Coord>)
      requires Valid()
      ensures lineCount == |FullColumns(grid.Board(), cols, rows)|
      ensures blocks == Product(FullColumns(grid.Board(), cols, rows), Range(rows))
    {
      ghost var b := grid.Board();
      ghost var fc: set<int> := {};
      lineCount, blocks := 0, {};
      var x := 0;
      while x < cols
        invariant 0 <= x <= cols
        invariant forall x' :: x' in fc <==> 0 <= x' < x && ColumnFull(b, cols, rows, x')
        invariant lineCount == |fc|
        invariant blocks == Product(fc, Range(rows))
      {
        var full := ColumnIsFull(x);
        if full {
          lineCount := lineCount + 1;
          var coordY := 0;
          while coordY < rows
            invariant 0 <= coordY <= rows
            invariant blocks == Product(fc, Range(rows)) + Product({x}, Range(coordY))
          {
            ProductUnionRight({x}, Range(coordY), {coordY});
            ProductSingleton(x, coordY);
            assert Range(coordY + 1) == Range(coordY) + {coordY};
            blocks := blocks + {(x, coordY)};
            coordY := coordY + 1;
          }
          ProductUnionLeft(fc, {x}, Range(rows));
          assert x !in fc;
          fc := fc + {x};
        }
        x := x + 1;
      }
      assert fc == FullColumns(b, cols, rows);
    }

    /** The row pass of afterPiece, continuing the count and the set from the column pass. */
    method ScanRows(columnLines: nat, columnBlocks: set<Coord>) returns (lineCount: nat, blocks: set<Coord>)
      requires Valid()
      ensures lineCount == columnLines + |FullRows(grid.Board(), cols, rows)|
      ensures blocks == columnBlocks + Product(Range(cols), FullRows(grid.Board(), cols, rows))
    {
      ghost var b := grid.Board();
      ghost var fr: set<int> := {};
      lineCount, blocks := columnLines, columnBlocks;
      var y := 0;
      while y < rows
        invariant 0 <= y <= rows
        invariant forall y' :: y' in fr <==> 0 <= y' < y && RowFull(b, cols, rows, y')
        invariant lineCount == columnLines + |fr|
        invariant blocks == columnBlocks + Product(Range(cols), fr)
      {
        var full := RowIsFull(y);
        if full {
          lineCount := lineCount + 1;
          var coordX := 0;
          while coordX < cols
            invariant 0 <= coordX <= cols
            invariant blocks == columnBlocks + Product(Range(cols), fr) + Product(Range(coordX), {y})
          {
            ProductUnionLeft(Range(coordX), {coordX}, {y});
            ProductSingleton(coordX, y);
            assert Range(coordX + 1) == Range(coordX) + {coordX};
            blocks := blocks + {(coordX, y)};
            coordX := coordX + 1;
          }
          ProductUnionRight(Range(cols), fr, {y});
          assert y !in fr;
          fr := fr + {y};
        }
        y := y + 1;
      }
      assert fr == FullRows(b, cols, rows);
    }

    /** Sets every given cell back to 0 and reports the set to the listener. */
    method ClearLines(blocks: set<Coord>)
      requires Valid()
      requires forall c :: c in blocks ==> InBounds(cols, rows, c.0, c.1)
      modifies this`events, grid.cells
      ensures Valid()
      ensures grid.Board() == Clear(old(grid.Board()), cols, rows, blocks)
      ensures events == old(events) + [LinesCleared(blocks)]
    {
      ClearCells(blocks);
      events := events + [LinesCleared(blocks)];
    }

    /** The loop of clearLines: the given cells become 0, in any order, and no other cell changes. */
    method ClearCells(blocks: set<Coord>)
      requires Valid()
      requires forall c :: c in blocks ==> InBounds(cols, rows, c.0, c.1)
      modifies grid.cells
      ensures Valid()
      ensures grid.Board() == Clear(old(grid.Board()), cols, rows, blocks)
    {
      ghost var b0 := grid.Board();
      var rest := blocks;
      while rest != {}
        invariant rest <= blocks
        invariant grid.Valid()
        invariant forall x, y :: InBounds(cols, rows, x, y) ==>
          grid.Board()[x][y] == if (x, y) in blocks - rest then 0 else b0[x][y]
        decreases |rest|
      {
        var c :| c in rest;
        grid.Set(c.0, c.1, 0);
        rest := rest - {c};
      }
      SameBoard(grid.Board(), Clear(b0, cols, rows, blocks), cols, rows);
    }

    /** Adds the points for a placement, then updates the multiplier and the level. */
    method Score(lineCount: int, blockCount: int)
      requires Valid() && lineCount >= 0 && blockCount >= 0
      modifies this
      ensures Valid()
      ensures score == old(score) + ScoreGain(lineCount, blockCount, old(multiplier))
      ensures multiplier == NextMultiplier(old(multiplier), lineCount)
      ensures level == LevelFor(score) && lives == old(lives)
      ensures currentPiece == old(currentPiece) && followingPiece == old(followingPiece)
      ensures timeLeft == old(timeLeft) && timerRunning == old(timerRunning)
      ensures events == old(events) + [ScoreChanged]
    {
      var scoreToAdd := lineCount * blockCount * 10 * multiplier;
      assert scoreToAdd == ScoreGain(lineCount, blockCount, multiplier);
      score := scoreToAdd + score;
      events := events + [ScoreChanged];
      Multiplier(lineCount);
      Level();
    }

    /** One more after a clearing placement, back to 1 after any other. */
    method Multiplier(lineCount: int)
      requires Valid()
      modifies this`multiplier
      ensures Valid()
      ensures multiplier == NextMultiplier(old(multiplier), lineCount)
      ensures score == old(score) && level == old(level) && lives == old(lives)
      ensures currentPiece == old(currentPiece) && followingPiece == old(followingPiece)
      ensures timeLeft == old(timeLeft) && timerRunning == old(timerRunning) && events == old(events)
    {
      if lineCount > 0 {
        multiplier := multiplier + 1;
      } else {
        multiplier := 1;
      }
    }

    /** The level follows the score. */
    method Level()
      requires Valid()
      modifies this
      ensures Valid()
      ensures level == LevelFor(score)
      ensures score == old(score) && lives == old(lives) && multiplier == old(multiplier)
      ensures currentPiece == old(currentPiece) && followingPiece == old(followingPiece)
      ensures timeLeft == old(timeLeft) && timerRunning == old(timerRunning) && events == old(events)
    {
      level := score / 1000;
    }

    /** Line clearing and scoring after a placement. */
    method AfterPiece()
      requires Valid()
      modifies this, grid.cells
      ensures Valid() && lives == old(lives)
      ensures grid.Board() == Clear(old(grid.Board()), cols, rows, ClearedCells(old(grid.Board()), cols, rows))
      ensures score == old(score) + ScoreGain(LineCount(old(grid.Board()), cols, rows), |ClearedCells(old(grid.Board()), cols, rows)|, old(multiplier))
      ensures multiplier == NextMultiplier(old(multiplier), LineCount(old(grid.Board()), cols, rows))
      ensures level == LevelFor(score)
      ensures currentPiece == old(currentPiece) && followingPiece == old(followingPiece)
      ensures timeLeft == old(timeLeft) && timerRunning == old(timerRunning)
      ensures events == old(events) + [LinesCleared(ClearedCells(old(grid.Board()), cols, rows)), ScoreChanged]
    {
      ghost var b0 := grid.Board();
      var lineCount, blocks := FindLines();
      assert blocks == ClearedCells(b0, cols, rows) && lineCount == LineCount(b0, cols, rows);
      ClearLines(blocks);
      Score(lineCount, |blocks|);
    }

    /**
      * A click on (x, y): when the current piece fits there the turn is
      * played; when it does not fit nothing changes.
      */
    method BlockClicked(x: int, y: int)
      requires Valid() && currentPiece.Some?
      modifies this, grid.cells
      ensures Valid()
      ensures !Fits(old(grid.Board()), cols, rows, old(currentPiece.value), x, y) ==>
        grid.Board() == old(grid.Board()) && SameCounters()
        && currentPiece == old(currentPiece) && followingPiece == old(followingPiece)
        && timeLeft == old(timeLeft) && timerRunning == old(timerRunning) && events == old(events)
      ensures Fits(old(grid.Board()), cols, rows, old(currentPiece.value), x, y) ==> PlayedTurn(x, y)
    {
      var ok := grid.CanPlayPiece(currentPiece.value, x, y);
      if ok {
        PlayTurn(x, y);
      }
    }

    /**
      * How a played turn leaves the game: the piece is stamped and the
      * completed lines cleared, the points added with the multiplier from
      * before the turn, the timer restarted with the delay of the level from
      * before the turn, and the following piece made current.
      */
    twostate predicate PlayedTurn(x: int, y: int)
      requires old(Valid()) && old(currentPiece).Some?
      reads this, grid, grid.cells
    {
      var played := Play(old(grid.Board()), cols, rows, old(currentPiece).value, x, y);
      var cleared := ClearedCells(played, cols, rows);
      && grid.Board() == Clear(played, cols, rows, cleared)
      && score == old(score) + ScoreGain(LineCount(played, cols, rows), |cleared|, old(multiplier))
      && multiplier == NextMultiplier(old(multiplier), LineCount(played, cols, rows))
      && level == score / 1000 && lives == old(lives)
      && timerRunning && timeLeft == TimerDelay(old(level))
      && (old(followingPiece).Some? ==> currentPiece == old(followingPiece))
      && currentPiece.Some? && followingPiece.Some? && followingPiece.value in catalog
      && (old(followingPiece).None? ==> currentPiece.value in catalog)
      && events == old(events) + [TimerStarted(TimerDelay(old(level))), LinesCleared(cleared), ScoreChanged,
                                  PiecesChanged(currentPiece, followingPiece)]
    }

    /** The accepted branch of a click: place, restart the timer, clear and score, deal the next piece. */
    method PlayTurn(x: int, y: int)
      requires Valid() && currentPiece.Some?
      requires Fits(grid.Board(), cols, rows, currentPiece.value, x, y)
      modifies this, grid.cells
      ensures Valid() && PlayedTurn(x, y)
    {
      ghost var score0, multiplier0, events0 := score, multiplier, events;
      PlacePiece(x, y);
      ghost var played := grid.Board();
      RestartTimer();
      ghost var delay := timeLeft;
      AfterPiece();
      ghost var cleared := ClearedCells(played, cols, rows);
      assert score == score0 + ScoreGain(LineCount(played, cols, rows), |cleared|, multiplier0);
      assert events == events0 + [TimerStarted(delay), LinesCleared(cleared), ScoreChanged];
      NextPiece();
    }

    /** Stamps the current piece, which fits at (x, y). */
    method PlacePiece(x: int, y: int)
      requires Valid() && currentPiece.Some?
      requires Fits(grid.Board(), cols, rows, currentPiece.value, x, y)
      modifies grid.cells
      ensures Valid()
      ensures grid.Board() == Play(old(grid.Board()), cols, rows, currentPiece.value, x, y)
    {
      grid.PlayPiece(currentPiece.value, x, y);
    }

    /** Replaces the current piece by its rotated form (rotation itself is not modelled) and redisplays the pieces. */
    method RotateCurrentPiece(rotations: int, rotated: Piece)
      requires Valid() && currentPiece.Some?
      requires WellFormed(rotated) && rotated.value == currentPiece.value.value
      modifies this
      ensures Valid() && SameCounters()
      ensures currentPiece == Some(rotated) && followingPiece == old(followingPiece)
      ensures timeLeft == old(timeLeft) && timerRunning == old(timerRunning)
      ensures events == old(events) + [PiecesChanged(currentPiece, followingPiece)]
    {
      currentPiece := Some(rotated);
      events := events + [PiecesChanged(currentPiece, followingPiece)];
    }

    /** Exchanges the current and following pieces; doing it twice restores both. */
    method SwapCurrentPiece()
      requires Valid()
      modifies this
      ensures Valid() && SameCounters()
      ensures currentPiece == old(followingPiece) && followingPiece == old(currentPiece)
      ensures timeLeft == old(timeLeft) && timerRunning == old(timerRunning)
      ensures events == old(events) + [PiecesChanged(currentPiece, followingPiece)]
    {
      var tempPiece := currentPiece;
      currentPiece := followingPiece;
      followingPiece := tempPiece;
      events := events + [PiecesChanged(currentPiece, followingPiece)];
    }

    /** The delay for the current level. */
    method GetTimerDelay() returns (delay: int)
      requires Valid()
      ensures delay == TimerDelay(level)
      ensures 2500 <= delay <= 12000 && delay % TickMillis == 0
    {
      if level <= 19 {
        delay := 12000 - 500 * level;
      } else {
        delay := 2500;
      }
    }

    /** Sets the time left to the delay for the current level and schedules the ticks. */
    method StartTimer()
      requires Valid()
      modifies this
      ensures Valid() && SameCounters()
      ensures currentPiece == old(currentPiece) && followingPiece == old(followingPiece)
      ensures timerRunning && timeLeft == TimerDelay(level)
      ensures events == old(events) + [TimerStarted(TimerDelay(level))]
    {
      timeLeft := GetTimerDelay();
      events := events + [TimerStarted(timeLeft)];
      timerRunning := true;
    }

    /** Cancels the scheduled ticks and starts the timer again from the full delay. */
    method RestartTimer()
      requires Valid()
      modifies this
      ensures Valid() && SameCounters()
      ensures currentPiece == old(currentPiece) && followingPiece == old(followingPiece)
      ensures timerRunning && timeLeft == TimerDelay(level)
      ensures events == old(events) + [TimerStarted(TimerDelay(level))]
    {
      timerRunning := false;
      StartTimer();
    }

    /**
      * The body of one timer tick: half a second off the time left; at 0 the
      * timer shuts down and reports that it expired.
      */
    method CountDown() returns (expired: bool)
      requires Valid() && timerRunning
      modifies this
      ensures Valid() && SameCounters()
      ensures currentPiece == old(currentPiece) && followingPiece == old(followingPiece) && events == old(events)
      ensures timeLeft == old(timeLeft) - TickMillis
      ensures expired <==> old(timeLeft) == TickMillis
      ensures timerRunning == !expired
    {
      timeLeft := timeLeft - TickMillis;
      expired := timeLeft == 0;
      if expired {
        timerRunning := false;
      }
    }

    /** One timer tick; the tick that reaches 0 runs the game loop. */
    method Tick()
      requires Valid() && timerRunning
      modifies this
      ensures Valid()
      ensures old(timeLeft) != TickMillis ==>
        SameCounters() && timerRunning && timeLeft == old(timeLeft) - TickMillis
        && currentPiece == old(currentPiece) && followingPiece == old(followingPiece) && events == old(events)
      ensures old(timeLeft) == TickMillis && old(lives) == 0 ==>
        SameCounters() && !timerRunning && timeLeft == 0
        && currentPiece == old(currentPiece) && followingPiece == old(followingPiece)
        && events == old(events) + [GameOver]
      ensures old(timeLeft) == TickMillis && old(lives) > 0 ==>
        lives == old(lives) - 1 && multiplier == 1 && score == old(score) && level == old(level)
        && (old(followingPiece).Some? ==> currentPiece == old(followingPiece))
        && currentPiece.Some? && followingPiece.Some? && followingPiece.value in catalog
        && (old(followingPiece).None? ==> currentPiece.value in catalog)
        && timerRunning && timeLeft == TimerDelay(level)
        && events == old(events) + [PiecesChanged(currentPiece, followingPiece), TimerStarted(TimerDelay(level))]
    {
      var expired := CountDown();
      if expired {
        GameLoop();
      }
    }

    /**
      * What happens when the time runs out: with no lives left the game ends;
      * otherwise a life is lost, the multiplier resets, the current piece is
      * discarded for the following one and the timer starts again.
      */
    method GameLoop()
      requires Valid()
      modifies this
      ensures Valid()
      ensures old(lives) == 0 ==>
        SameCounters() && currentPiece == old(currentPiece) && followingPiece == old(followingPiece)
        && timeLeft == old(timeLeft) && timerRunning == old(timerRunning)
        && events == old(events) + [GameOver]
      ensures old(lives) > 0 ==>
        lives == old(lives) - 1 && multiplier == 1 && score == old(score) && level == old(level)
        && (old(followingPiece).Some? ==> currentPiece == old(followingPiece))
        && currentPiece.Some? && followingPiece.Some? && followingPiece.value in catalog
        && (old(followingPiece).None? ==> currentPiece.value in catalog)
        && timerRunning && timeLeft == TimerDelay(level)
        && events == old(events) + [PiecesChanged(currentPiece, followingPiece), TimerStarted(TimerDelay(level))]
    {
      if lives == 0 {
        events := events + [GameOver];
        return;
      }
      lives := lives - 1;
      multiplier := 1;
      NextPiece();
      StartTimer();
    }
  }
}
