/**
  * The multiplayer engine. It plays the single-player rules on a Game it
  * holds, but takes its pieces from a queue of the server's PIECE replies,
  * reports the board, the score and the lives to the server, and keeps the
  * leaderboard of the last SCORES reply. Messages sent to the server are a
  * ghost outbox, oldest first; inbound messages are calls of OnMessage.
  */
module MultiplayerGames {
  import opened Optional
  import opened Text
  import opened Pieces
  import opened Boards
  import opened Grids
  import opened Games
  import opened Protocol

  /** A call to one of the multiplayer listeners. */
  datatype Notice = ChatReceived(line: string) | GameEnded

  lemma EmptyPrefix<T>(s: seq<T>)
    ensures [] + s == s
  {
  }

  /** The requests initialiseGame sends: the leaderboard, then six pieces. */
  const OpeningRequests: seq<string> := ["SCORES", "PIECE", "PIECE", "PIECE", "PIECE", "PIECE", "PIECE"]

  class MultiplayerGame {
    /** The single-player state and rules this engine overrides parts of. */
    const game: Game
    /** PIECE replies received and not yet used, oldest first. */
    var queue: seq<string>
    /** The leaderboard: one (name, score, lives) row per line of the last SCORES reply. */
    var scores: seq<PlayerScore>
    /** Every message sent to the server, oldest first. */
    ghost var outbox: seq<string>
    /** Every call of the chat and game-end listeners, oldest first. */
    ghost var notices: seq<Notice>

    ghost predicate Valid()
      reads game, game.grid, game.grid.cells
    {
      game.Valid()
    }

    /** The grid and every counter, piece and timer field of the engine are as they were. */
    twostate predicate SameGame()
      requires old(Valid()) && Valid()
      reads game, game.grid, game.grid.cells
    {
      && game.grid.Board() == old(game.grid.Board())
      && game.score == old(game.score) && game.level == old(game.level)
      && game.lives == old(game.lives) && game.multiplier == old(game.multiplier)
      && game.currentPiece == old(game.currentPiece) && game.followingPiece == old(game.followingPiece)
      && game.timeLeft == old(game.timeLeft) && game.timerRunning == old(game.timerRunning)
      && game.events == old(game.events)
    }

    /**
      * How taking the PIECE reply value moves the pieces: the piece it names
      * becomes the following piece, and a following piece that was there
      * moves to current; with no following piece the current one stays.
      */
    twostate predicate TookPiece(value: string)
      requires old(game.Valid()) && IsPieceMessage(value, |game.catalog|)
      reads game
    {
      && game.followingPiece == Some(game.catalog[PieceId(value, |game.catalog|)])
      && game.currentPiece == (if old(game.followingPiece).Some? then old(game.followingPiece) else old(game.currentPiece))
    }

    /**
      * How the pieces stand after taking a piece failed. When no head was
      * removed (the queue was empty) nothing moved. When the removed head
      * names no piece, a following piece has already moved to current
      * before the parse throws, and the following piece stays.
      */
    twostate predicate FailedTake(removed: bool)
      reads game`currentPiece, game`followingPiece
    {
      && game.followingPiece == old(game.followingPiece)
      && game.currentPiece == (if removed && old(game.followingPiece).Some? then old(game.followingPiece) else old(game.currentPiece))
    }

    /**
      * How a PIECE reply leaves the queue and the pieces. With both pieces
      * present it is only queued. With one missing, the head of the queue
      * (the oldest reply, possibly this one) is removed and taken, as
      * TookPiece says, or as FailedTake says when it names no piece.
      */
    twostate predicate PieceReceived(message: string)
      requires old(game.Valid())
      reads this, game
    {
      if old(game.currentPiece).Some? && old(game.followingPiece).Some? then
        && queue == old(queue) + [message]
        && game.currentPiece == old(game.currentPiece) && game.followingPiece == old(game.followingPiece)
        && game.events == old(game.events)
      else
        var head := (old(queue) + [message])[0];
        && queue == (old(queue) + [message])[1..]
        && (IsPieceMessage(head, |game.catalog|) ==> TookPiece(head) && game.events == old(game.events) + ShiftEvents())
        && (!IsPieceMessage(head, |game.catalog|) ==> FailedTake(true) && game.events == old(game.events))
    }

    /** The piece listener is called when a taken piece moved a following piece to current, and not otherwise. */
    twostate function ShiftEvents(): seq<Event>
      reads game
    {
      if old(game.followingPiece).Some? then [PiecesChanged(game.currentPiece, game.followingPiece)] else []
    }

    /** A multiplayer game on an empty grid with no pieces, an empty queue and an empty leaderboard. */
    constructor (cols: nat, rows: nat, catalog: seq<Piece>)
      requires |catalog| > 0 && forall i :: 0 <= i < |catalog| ==> WellFormed(catalog[i])
      ensures Valid() && fresh(game) && fresh(game.grid) && fresh(game.grid.cells)
      ensures game.cols == cols && game.rows == rows && game.catalog == catalog
      ensures game.grid.Board() == Zero(cols, rows)
      ensures game.score == 0 && game.level == 0 && game.lives == StartLives && game.multiplier == 1
      ensures game.currentPiece == None && game.followingPiece == None
      ensures queue == [] && scores == [] && outbox == [] && notices == []
    {
      game := new Game(cols, rows, catalog);
      queue, scores := [], [];
      outbox, notices := [], [];
    }

    /** Starts the timer, then runs the multiplayer initialisation (which deals no piece). */
    method Start()
      requires Valid()
      modifies this`queue, this`outbox, game
      ensures Valid() && game.SameCounters()
      ensures game.currentPiece == old(game.currentPiece) && game.followingPiece == old(game.followingPiece)
      ensures game.timerRunning && game.timeLeft == TimerDelay(game.level)
      ensures game.events == old(game.events) + [TimerStarted(TimerDelay(game.level))]
      ensures queue == [] && outbox == old(outbox) + OpeningRequests
    {
      game.StartTimer();
      InitialiseGame();
    }

    /** Empties the queue, asks for the leaderboard and asks for six pieces in advance. */
    method InitialiseGame()
      requires Valid()
      modifies this`queue, this`outbox
      ensures queue == [] && outbox == old(outbox) + OpeningRequests
    {
      queue := [];
      GetScores();
      for i := 0 to 6
        invariant queue == []
        invariant outbox == old(outbox) + ["SCORES"] + seq(i, _ => "PIECE")
      {
        RequestPiece();
      }
      assert seq(6, _ => "PIECE") == OpeningRequests[1..];
    }

    /**
      * A message from the server, handled by the tag it starts with (at
      * most one applies). A PIECE reply is queued, and taken at once while
      * a piece is missing; an ERROR or untagged message changes nothing.
      */
    method OnMessage(message: string)
      requires Valid()
      requires TagOf(message) == Chat ==> IsChatMessage(message)
      requires TagOf(message) == ScoresReply ==> IsScoresMessage(message)
      modifies this`queue, this`scores, this`notices, game`currentPiece, game`followingPiece, game`events
      ensures Valid()
      ensures game.grid.Board() == old(game.grid.Board()) && game.SameCounters()
      ensures game.timeLeft == old(game.timeLeft) && game.timerRunning == old(game.timerRunning)
      ensures TagOf(message) != Chat ==> notices == old(notices)
      ensures TagOf(message) != ScoresReply ==> scores == old(scores)
      ensures TagOf(message) != PieceReply ==>
        queue == old(queue)
        && game.currentPiece == old(game.currentPiece) && game.followingPiece == old(game.followingPiece)
        && game.events == old(game.events)
      ensures TagOf(message) == Chat ==> notices == old(notices) + [ChatReceived(ChatLine(message))]
      ensures TagOf(message) == ScoresReply ==> scores == ScoreTable(message)
      ensures TagOf(message) == PieceReply ==> PieceReceived(message)
    {
      match TagOf(message) {
        case Chat => ReceiveMessage(message);
        case PieceReply => ReceivePiece(message);
        case ScoresReply => ReceiveScores(message);
        case ErrorReply => // only logged
        case Untagged =>
      }
    }

    /** The PIECE branch of a server message: queued, and taken at once while a piece is missing. */
    method ReceivePiece(message: string)
      requires Valid()
      modifies this`queue, game`currentPiece, game`followingPiece, game`events
      ensures Valid()
      ensures game.grid.Board() == old(game.grid.Board()) && game.SameCounters()
      ensures game.timeLeft == old(game.timeLeft) && game.timerRunning == old(game.timerRunning)
      ensures PieceReceived(message)
    {
      queue := queue + [message];
      if game.currentPiece == None || game.followingPiece == None {
        var _ := TakeNextPiece();
      }
    }

    /**
      * nextPiece(pieceQueue.remove()): removes the head of the queue and
      * takes the piece it names. It fails when the queue is empty (nothing
      * changes) or the head does not name a piece of the catalogue (the
      * head is removed and the pieces stand as FailedTake says).
      */
    method TakeNextPiece() returns (failed: bool)
      requires Valid()
      modifies this`queue, game`currentPiece, game`followingPiece, game`events
      ensures Valid() && game.SameCounters()
      ensures game.timeLeft == old(game.timeLeft) && game.timerRunning == old(game.timerRunning)
      ensures queue == if old(queue) == [] then [] else old(queue)[1..]
      ensures failed <==> old(queue) == [] || !IsPieceMessage(old(queue)[0], |game.catalog|)
      ensures failed ==> FailedTake(old(queue) != []) && game.events == old(game.events)
      ensures !failed ==> TookPiece(old(queue)[0]) && game.events == old(game.events) + ShiftEvents()
    {
      if queue == [] {
        // remove() on an empty queue throws
        return true;
      }
      var head := queue[0];
      queue := queue[1..];
      failed := NextPieceFrom(head);
    }

    /**
      * nextPiece(String): the id after the first space of a PIECE reply
      * names the new following piece; an existing following piece moves to
      * current first. A text that is not such an id fails: parsing throws
      * after an existing following piece has moved to current, so only that
      * move is kept and the piece listener is not called.
      */
    method NextPieceFrom(value: string) returns (failed: bool)
      requires Valid()
      modifies game`currentPiece, game`followingPiece, game`events
      ensures Valid() && game.SameCounters()
      ensures game.timeLeft == old(game.timeLeft) && game.timerRunning == old(game.timerRunning)
      ensures failed <==> !IsPieceMessage(value, |game.catalog|)
      ensures failed ==> FailedTake(true) && game.events == old(game.events)
      ensures !failed ==> TookPiece(value) && game.events == old(game.events) + ShiftEvents()
    {
      if game.followingPiece == None {
        if !IsPieceMessage(value, |game.catalog|) {
          // parseInt or createPiece throws
          return true;
        }
        game.followingPiece := Some(game.catalog[PieceId(value, |game.catalog|)]);
        return false;
      }
      game.currentPiece := game.followingPiece;
      if !IsPieceMessage(value, |game.catalog|) {
        // parseInt or createPiece throws, after the move above
        return true;
      }
      failed := false;
      game.followingPiece := Some(game.catalog[PieceId(value, |game.catalog|)]);
      game.events := game.events + [PiecesChanged(game.currentPiece, game.followingPiece)];
    }

    /** A chat message goes to the chat listener as sender, ':' and the first segment of the body. */
    method ReceiveMessage(message: string)
      requires IsChatMessage(message)
      modifies this`notices
      ensures notices == old(notices) + [ChatReceived(ChatLine(message))]
    {
      var messageSplitter := JavaSplit(message, ':');
      messageSplitter := messageSplitter[0 := AfterFirst(messageSplitter[0], ' ')];
      notices := notices + [ChatReceived(messageSplitter[0] + ":" + messageSplitter[1])];
    }

    /** Rebuilds the leaderboard from a SCORES reply, one row per line. */
    method ReceiveScores(message: string)
      requires IsScoresMessage(message)
      modifies this`scores
      ensures scores == ScoreTable(message)
    {
      scores := [];
      var scoresSplitter := ScoreLines(message);
      AddScoreLines(scoresSplitter);
      EmptyPrefix(ScoreRows(scoresSplitter));
    }

    /** The loop of receiveScores: one row per line, appended in order. */
    method AddScoreLines(lines: seq<string>)
      requires forall i :: 0 <= i < |lines| ==> IsScoreLine(lines[i])
      modifies this`scores
      ensures scores == old(scores) + ScoreRows(lines)
    {
      ghost var scores0 := scores;
      for i := 0 to |lines|
        invariant scores == scores0 + ScoreRows(lines[..i])
      {
        var splitter := JavaSplit(lines[i], ':');
        ScoreRowsStep(lines, i);
        AddScore(PlayerScore(splitter[0], splitter[1], splitter[2]));
      }
      assert lines[..|lines|] == lines;
    }

    /** Appends one row to the leaderboard. */
    method AddScore(score: PlayerScore)
      modifies this`scores
      ensures scores == old(scores) + [score]
    {
      scores := scores + [score];
    }

    /** Asks the server for one more piece. */
    method RequestPiece()
      modifies this`outbox
      ensures outbox == old(outbox) + ["PIECE"]
    {
      outbox := outbox + ["PIECE"];
    }

    /** Asks the server for the leaderboard. */
    method GetScores()
      modifies this`outbox
      ensures outbox == old(outbox) + ["SCORES"]
    {
      outbox := outbox + ["SCORES"];
    }

    /**
      * The multiplayer score: the points are added as in the single-player
      * game and the multiplier updated, but the level is left alone, the
      * score listener is not called, and the new score is sent to the
      * server exactly when a line was completed.
      */
    method Score(lineCount: int, blockCount: int)
      requires Valid() && lineCount >= 0 && blockCount >= 0
      modifies this`outbox, game`score, game`multiplier
      ensures Valid()
      ensures game.score == old(game.score) + ScoreGain(lineCount, blockCount, old(game.multiplier))
      ensures game.multiplier == NextMultiplier(old(game.multiplier), lineCount)
      ensures game.level == old(game.level) && game.lives == old(game.lives)
      ensures game.currentPiece == old(game.currentPiece) && game.followingPiece == old(game.followingPiece)
      ensures game.timeLeft == old(game.timeLeft) && game.timerRunning == old(game.timerRunning)
      ensures game.events == old(game.events)
      ensures outbox == old(outbox) + (if lineCount != 0 then ["SCORE " + IntToString(game.score)] else [])
    {
      var scoreToAdd := lineCount * blockCount * 10 * game.multiplier;
      assert scoreToAdd == ScoreGain(lineCount, blockCount, game.multiplier);
      game.score := scoreToAdd + game.score;
      if lineCount != 0 {
        outbox := outbox + ["SCORE " + IntToString(game.score)];
      }
      game.Multiplier(lineCount);
    }

    /** Line clearing after a placement, scored by the multiplayer rule. */
    method AfterPiece()
      requires Valid()
      modifies this`outbox, game, game.grid.cells
      ensures Valid()
      ensures game.grid.Board() == Clear(old(game.grid.Board()), game.cols, game.rows, ClearedCells(old(game.grid.Board()), game.cols, game.rows))
      ensures game.score == old(game.score) + ScoreGain(LineCount(old(game.grid.Board()), game.cols, game.rows),
                                                        |ClearedCells(old(game.grid.Board()), game.cols, game.rows)|, old(game.multiplier))
      ensures game.multiplier == NextMultiplier(old(game.multiplier), LineCount(old(game.grid.Board()), game.cols, game.rows))
      ensures game.level == old(game.level) && game.lives == old(game.lives)
      ensures game.currentPiece == old(game.currentPiece) && game.followingPiece == old(game.followingPiece)
      ensures game.timeLeft == old(game.timeLeft) && game.timerRunning == old(game.timerRunning)
      ensures game.events == old(game.events) + [LinesCleared(ClearedCells(old(game.grid.Board()), game.cols, game.rows))]
      ensures outbox == old(outbox) + (if LineCount(old(game.grid.Board()), game.cols, game.rows) != 0
                                       then ["SCORE " + IntToString(game.score)] else [])
    {
      ghost var b0 := game.grid.Board();
      var lineCount, blocks := game.FindLines();
      assert blocks == ClearedCells(b0, game.cols, game.rows) && lineCount == LineCount(b0, game.cols, game.rows);
      game.ClearLines(blocks);
      ghost var b1 := game.grid.Board();
      assert b1 == Clear(b0, game.cols, game.rows, blocks);
      Score(lineCount, |blocks|);
      assert game.grid.Board() == b1;
    }

    /** The BOARD report body: every cell value followed by a space, column by column, each column top to bottom. */
    method BoardValues() returns (values: string)
      requires game.grid.Valid() && game.grid.cols == game.cols && game.grid.rows == game.rows
      ensures values == Spaced(Flatten(game.grid.Board(), game.cols, game.rows))
    {
      ghost var b := game.grid.Board();
      values := "";
      var i := 0;
      while i < game.cols
        invariant 0 <= i <= game.cols
        invariant values == Spaced(Columns(b, i))
      {
        var j := 0;
        ColumnsStart(b, game.cols, game.rows, i);
        while j < game.rows
          invariant 0 <= j <= game.rows
          invariant values == Spaced(Columns(b, i) + b[i][..j])
        {
          var v := game.grid.Get(i, j);
          assert v == b[i][j];
          SpacedAppend(Columns(b, i) + b[i][..j], v);
          ColumnsStep(b, game.cols, game.rows, i, j);
          values := values + IntToString(v) + " ";
          j := j + 1;
        }
        ColumnsNext(b, game.cols, game.rows, i);
        i := i + 1;
      }
    }

    /** The engine's grid has the engine's dimensions. */
    ghost predicate GridShape()
      reads game.grid
    {
      game.grid.Valid() && game.grid.cols == game.cols && game.grid.rows == game.rows
    }

    /**
      * How a placement at (x, y) that fitted leaves the board and the
      * counters: the piece stamped and the completed lines cleared, the
      * points added, the multiplier updated, the level and lives kept and
      * the timer restarted.
      */
    twostate predicate PlacedAndScored(x: int, y: int)
      requires old(game.Valid()) && old(game.currentPiece).Some? && GridShape()
      reads game`score, game`multiplier, game`level, game`lives, game`timerRunning, game`timeLeft, game.grid, game.grid.cells
    {
      var played := Play(old(game.grid.Board()), game.cols, game.rows, old(game.currentPiece).value, x, y);
      var cleared := ClearedCells(played, game.cols, game.rows);
      && game.grid.Board() == Clear(played, game.cols, game.rows, cleared)
      && game.score == old(game.score) + ScoreGain(LineCount(played, game.cols, game.rows), |cleared|, old(game.multiplier))
      && game.multiplier == NextMultiplier(old(game.multiplier), LineCount(played, game.cols, game.rows))
      && game.level == old(game.level) && game.lives == old(game.lives)
      && game.timerRunning && game.timeLeft == TimerDelay(game.level)
    }

    /** What a fitting placement reports of its score: the new score if it completed a line, nothing otherwise. */
    twostate function ScoreReport(x: int, y: int): seq<string>
      requires old(game.Valid()) && old(game.currentPiece).Some?
      reads game`score
    {
      var played := Play(old(game.grid.Board()), game.cols, game.rows, old(game.currentPiece).value, x, y);
      if LineCount(played, game.cols, game.rows) != 0 then ["SCORE " + IntToString(game.score)] else []
    }

    /** The listener calls of the placement itself: the timer restart, then the cleared cells. */
    twostate function TurnEvents(x: int, y: int): seq<Event>
      requires old(game.Valid()) && old(game.currentPiece).Some?
      reads game`level
    {
      var played := Play(old(game.grid.Board()), game.cols, game.rows, old(game.currentPiece).value, x, y);
      [TimerStarted(TimerDelay(game.level)), LinesCleared(ClearedCells(played, game.cols, game.rows))]
    }

    /**
      * A mouse click on block (x, y). With no current piece yet the click
      * fails at once. A placement that fits is played and scored, one piece
      * is requested and the head of the queue taken, which fails on an
      * empty queue or a head that names no piece. Unless it failed, the
      * click ends by sending the board, whether the piece fitted or not.
      */
    method BlockClicked(x: int, y: int) returns (failed: bool)
      requires Valid()
      modifies this`queue, this`outbox, game, game.grid.cells
      ensures Valid()
      ensures old(game.currentPiece).None? ==> failed && SameGame() && queue == old(queue) && outbox == old(outbox)
      ensures old(game.currentPiece).Some? && !Fits(old(game.grid.Board()), game.cols, game.rows, old(game.currentPiece).value, x, y) ==>
        !failed && SameGame() && queue == old(queue)
        && outbox == old(outbox) + [BoardMessage(game.grid.Board(), game.cols, game.rows)]
      ensures old(game.currentPiece).Some? && Fits(old(game.grid.Board()), game.cols, game.rows, old(game.currentPiece).value, x, y) ==>
        PlacedAndScored(x, y)
        && queue == (if old(queue) == [] then [] else old(queue)[1..])
        && (failed <==> old(queue) == [] || !IsPieceMessage(old(queue)[0], |game.catalog|))
        && (failed ==> FailedTake(old(queue) != []))
        && (!failed ==> TookPiece(old(queue)[0]))
        && game.events == old(game.events) + TurnEvents(x, y) + (if failed then [] else ShiftEvents())
        && outbox == old(outbox) + ScoreReport(x, y) + ["PIECE"]
                     + (if failed then [] else [BoardMessage(game.grid.Board(), game.cols, game.rows)])
    {
      if game.currentPiece == None {
        // canPlayPiece dereferences the missing piece
        return true;
      }
      var ok := game.grid.CanPlayPiece(game.currentPiece.value, x, y);
      if ok {
        failed := PlayTurn(x, y);
        if failed {
          return;
        }
      } else {
        failed := false;
      }
      SendBoard();
    }

    /** Sends the BOARD report of the current grid. */
    method SendBoard()
      requires Valid()
      modifies this`outbox
      ensures outbox == old(outbox) + [BoardMessage(game.grid.Board(), game.cols, game.rows)]
    {
      var values := BoardValues();
      assert "BOARD" + " " == "BOARD ";
      outbox := outbox + ["BOARD" + " " + values];
    }

    /** The accepted branch of a mouse click, up to and including taking the next piece from the queue. */
    method PlayTurn(x: int, y: int) returns (failed: bool)
      requires Valid() && game.currentPiece.Some?
      requires Fits(game.grid.Board(), game.cols, game.rows, game.currentPiece.value, x, y)
      modifies this`queue, this`outbox, game, game.grid.cells
      ensures Valid() && PlacedAndScored(x, y)
      ensures outbox == old(outbox) + ScoreReport(x, y) + ["PIECE"]
      ensures queue == if old(queue) == [] then [] else old(queue)[1..]
      ensures failed <==> old(queue) == [] || !IsPieceMessage(old(queue)[0], |game.catalog|)
      ensures failed ==> FailedTake(old(queue) != []) && game.events == old(game.events) + TurnEvents(x, y)
      ensures !failed ==> TookPiece(old(queue)[0]) && game.events == old(game.events) + TurnEvents(x, y) + ShiftEvents()
    {
      Place(x, y);
      RequestPiece();
      failed := TakeNextPiece();
    }

    /**
      * The part both kinds of placement share: the piece is played, the
      * timer restarted and the lines cleared and scored; the pieces are
      * not touched yet.
      */
    method Place(x: int, y: int)
      requires Valid() && game.currentPiece.Some?
      requires Fits(game.grid.Board(), game.cols, game.rows, game.currentPiece.value, x, y)
      modifies this`outbox, game, game.grid.cells
      ensures Valid() && PlacedAndScored(x, y)
      ensures game.currentPiece == old(game.currentPiece) && game.followingPiece == old(game.followingPiece)
      ensures game.events == old(game.events) + TurnEvents(x, y)
      ensures outbox == old(outbox) + ScoreReport(x, y)
    {
      ghost var played := Play(game.grid.Board(), game.cols, game.rows, game.currentPiece.value, x, y);
      game.PlacePiece(x, y);
      assert game.grid.Board() == played;
      game.RestartTimer();
      AfterPiece();
    }

    /**
      * A keyboard placement at (x, y): like the single-player turn, but
      * scored by the multiplayer rule, with the next piece spawned at random
      * (no PIECE request, nothing taken from the queue), and with the board
      * sent afterwards whether the piece fitted or not. Before the second
      * PIECE reply there is no current piece yet; canPlayPiece then throws
      * before anything is sent, which is `failed` here.
      */
    method BlockClickedAt(x: int, y: int) returns (failed: bool)
      requires Valid()
      modifies this`outbox, game, game.grid.cells
      ensures Valid()
      ensures failed <==> old(game.currentPiece).None?
      ensures failed ==> SameGame() && outbox == old(outbox)
      ensures old(game.currentPiece).Some? && !Fits(old(game.grid.Board()), game.cols, game.rows, old(game.currentPiece).value, x, y) ==>
        SameGame() && outbox == old(outbox) + [BoardMessage(game.grid.Board(), game.cols, game.rows)]
      ensures old(game.currentPiece).Some? && Fits(old(game.grid.Board()), game.cols, game.rows, old(game.currentPiece).value, x, y) ==>
        KeyTurnPlayed(x, y) && outbox == old(outbox) + ScoreReport(x, y) + [BoardMessage(game.grid.Board(), game.cols, game.rows)]
    {
      if game.currentPiece == None {
        // canPlayPiece dereferences the missing piece
        return true;
      }
      failed := false;
      var ok := game.grid.CanPlayPiece(game.currentPiece.value, x, y);
      if ok {
        KeyTurn(x, y);
      }
      SendBoard();
    }

    /** A keyboard turn: the placement scored by the multiplayer rule, then a random next piece. */
    twostate predicate KeyTurnPlayed(x: int, y: int)
      requires old(game.Valid()) && old(game.currentPiece).Some? && game.Valid()
      reads game, game.grid, game.grid.cells
    {
      && PlacedAndScored(x, y)
      && (old(game.followingPiece).Some? ==> game.currentPiece == old(game.followingPiece))
      && (old(game.followingPiece).None? ==> game.currentPiece.Some? && game.currentPiece.value in game.catalog)
      && game.currentPiece.Some? && game.followingPiece.Some? && game.followingPiece.value in game.catalog
      && game.events == old(game.events) + TurnEvents(x, y) + [PiecesChanged(game.currentPiece, game.followingPiece)]
    }

    /** The accepted branch of a keyboard placement. */
    method KeyTurn(x: int, y: int)
      requires Valid() && game.currentPiece.Some?
      requires Fits(game.grid.Board(), game.cols, game.rows, game.currentPiece.value, x, y)
      modifies this`outbox, game, game.grid.cells
      ensures Valid() && KeyTurnPlayed(x, y)
      ensures outbox == old(outbox) + ScoreReport(x, y)
    {
      Place(x, y);
      game.NextPiece();
    }

    /**
      * What happens when the time runs out. With no lives left DIE is
      * sent and the game ends. Otherwise a life is lost and the server told
      * how many remain, the multiplier resets, one piece is requested, the
      * head of the queue taken and the timer started; when taking the piece
      * fails the timer is not started.
      */
    method GameLoop() returns (failed: bool)
      requires Valid()
      modifies this`queue, this`outbox, this`notices, game
      ensures Valid()
      ensures game.score == old(game.score) && game.level == old(game.level)
      ensures old(game.lives) == 0 ==>
        !failed && SameGame() && queue == old(queue)
        && outbox == old(outbox) + ["DIE"] && notices == old(notices) + [GameEnded]
      ensures old(game.lives) > 0 ==>
        game.lives == old(game.lives) - 1 && game.multiplier == 1 && notices == old(notices)
        && game.grid.Board() == old(game.grid.Board())
        && outbox == old(outbox) + ["LIVES " + IntToString(old(game.lives) - 1), "PIECE"]
        && queue == (if old(queue) == [] then [] else old(queue)[1..])
        && (failed <==> old(queue) == [] || !IsPieceMessage(old(queue)[0], |game.catalog|))
        && (failed ==>
              FailedTake(old(queue) != []) && game.events == old(game.events)
              && game.timeLeft == old(game.timeLeft) && game.timerRunning == old(game.timerRunning))
        && (!failed ==>
              TookPiece(old(queue)[0]) && game.timerRunning && game.timeLeft == TimerDelay(game.level)
              && game.events == old(game.events) + ShiftEvents() + [TimerStarted(TimerDelay(game.level))])
    {
      if game.lives == 0 {
        outbox := outbox + ["DIE"];
        notices := notices + [GameEnded];
        return false;
      }
      var livesBefore := game.lives;
      // The lives and multiplier updates are deferred to the UI thread in
      // the source; they are applied at once here, and the LIVES report
      // carries the value from before the update, less one.
      game.lives := livesBefore - 1;
      outbox := outbox + ["LIVES " + IntToString(livesBefore - 1)];
      game.multiplier := 1;
      RequestPiece();
      failed := TakeNextPiece();
      if failed {
        return;
      }
      game.StartTimer();
    }

    /** One timer tick; the tick that reaches 0 runs the multiplayer game loop. */
    method Tick() returns (failed: bool)
      requires Valid() && game.timerRunning
      modifies this`queue, this`outbox, this`notices, game
      ensures Valid()
      ensures old(game.timeLeft) != TickMillis ==>
        !failed && game.SameCounters() && game.timerRunning && game.timeLeft == old(game.timeLeft) - TickMillis
        && game.currentPiece == old(game.currentPiece) && game.followingPiece == old(game.followingPiece)
        && game.events == old(game.events)
        && queue == old(queue) && outbox == old(outbox) && notices == old(notices)
      ensures old(game.timeLeft) == TickMillis ==>
        game.grid.Board() == old(game.grid.Board()) && game.score == old(game.score) && game.level == old(game.level)
      ensures old(game.timeLeft) == TickMillis && old(game.lives) == 0 ==>
        !failed && game.SameCounters() && !game.timerRunning && game.timeLeft == 0
        && game.currentPiece == old(game.currentPiece) && game.followingPiece == old(game.followingPiece)
        && game.events == old(game.events) && queue == old(queue)
        && outbox == old(outbox) + ["DIE"] && notices == old(notices) + [GameEnded]
      ensures old(game.timeLeft) == TickMillis && old(game.lives) > 0 ==>
        game.lives == old(game.lives) - 1 && game.multiplier == 1 && notices == old(notices)
        && outbox == old(outbox) + ["LIVES " + IntToString(old(game.lives) - 1), "PIECE"]
        && queue == (if old(queue) == [] then [] else old(queue)[1..])
        && (failed <==> old(queue) == [] || !IsPieceMessage(old(queue)[0], |game.catalog|))
        && (failed ==>
              FailedTake(old(queue) != []) && game.events == old(game.events)
              && !game.timerRunning && game.timeLeft == 0)
        && (!failed ==>
              TookPiece(old(queue)[0]) && game.timerRunning && game.timeLeft == TimerDelay(game.level)
              && game.events == old(game.events) + ShiftEvents() + [TimerStarted(TimerDelay(game.level))])
    {
      var expired := game.CountDown();
      if expired {
        failed := GameLoop();
      } else {
        failed := false;
      }
    }
  }
}
