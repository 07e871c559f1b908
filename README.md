# TetrECS game core in Dafny

This project models the game logic of TetrECS, a block-placement puzzle game.
Pieces are 3 x 3 shapes placed on a grid of coloured cells. A full column or row
is cleared and scores points. A turn timer costs a life when it runs out. In
multiplayer, pieces arrive from a server and the board, score and lives are
reported back to it. The scores screen keeps a local and an online high-score
list.

The Java classes that update fields in place are modelled as Dafny classes:

- `Grids.Grid` holds an `array2` of cells.
- `Games.Game` holds the single-player engine.
- `MultiplayerGames.MultiplayerGame` holds a `Game` and overrides its score, turn and timer behaviour.
- `ScoresScenes.ScoresScene` holds the two score lists.
- `BoardViews.GameBoard` and `BoardViews.PieceBoard` hold the board views.

Each method is proved against pure specification functions:

- `Boards.Play`, `Boards.Clear`, `Boards.ClearedCells` and `Boards.LineCount` describe the board.
- `Games.ScoreGain`, `Games.LevelFor` and `Games.TimerDelay` describe the counters.
- `Protocol.BoardMessage`, `Protocol.ScoreTable` and `Protocol.ChatLine` describe the server messages.
- `ScoresScenes.SortDesc` and `ScoresScenes.AddedLocally` describe the score lists.

Lemmas then prove what those functions promise. These include round trips of
every message format, the number of cells cleared, a sort that is ordered, a
permutation and stable, and an aim that stays on the board.

Side effects are recorded as ghost lists, oldest first:

- listener calls are `Game.events` and `MultiplayerGame.notices`;
- messages sent to the server are `outbox`.

The modules are:

- `Optional` — the Option type;
- `Text` — integer printing and parsing, `indexOf`, `substring` and `String.split`;
- `Pieces` and `Boards` — pieces and the board specification;
- `Counting` — set-size arithmetic;
- `Grids`, `Games` and `MultiplayerGames` — the engine;
- `Protocol` — the server messages;
- `ScoresScenes` — the scores screen;
- `BoardViews` — the board views.

## Model

| member | source | states |
|---|---|---|
| Grids.Grid.constructor | src/main/java/uk/ac/soton/comp1206/game/Grid.java:46-59 | A new grid has the given size and every cell is 0. |
| Grids.Grid.Set | src/main/java/uk/ac/soton/comp1206/game/Grid.java:80-82 | Cell (x, y) takes the value. Every other cell keeps its value. |
| Grids.Grid.Get | src/main/java/uk/ac/soton/comp1206/game/Grid.java:91-99 | On the grid it returns the cell's value. Off the grid it returns -1 (the caught out-of-bounds exception). |
| Grids.Grid.CanPlayPiece | src/main/java/uk/ac/soton/comp1206/game/Grid.java:127-151 | True exactly when every block of the piece, centred on (x, y), lands on an on-grid cell that holds 0 (`Fits`). |
| Grids.Grid.PlayPiece | src/main/java/uk/ac/soton/comp1206/game/Grid.java:160-179 | The new board is `Play` of the old one: each cell under a block takes the piece's colour, every other cell is unchanged. |
| Grids.PlayedPlaceIsTaken | src/main/java/uk/ac/soton/comp1206/game/Grid.java:127-179 | Once a piece with at least one block has been played at (x, y), it no longer fits there. |
| Boards.Zero | src/main/java/uk/ac/soton/comp1206/game/Grid.java:51-58 | A board of the given size with every cell 0. |
| Boards.FootprintSize | src/main/java/uk/ac/soton/comp1206/game/Grid.java:170-178 | A placed piece covers exactly as many cells as its layout has blocks. |
| Boards.FootprintIsCovered | src/main/java/uk/ac/soton/comp1206/game/Grid.java:170-178 | A cell is in the footprint exactly when a block of the layout lands on it. |
| Boards.FootprintEmpty | src/main/java/uk/ac/soton/comp1206/game/Grid.java:135-150 | Every cell of a fitting piece's footprint is on the grid and empty. |
| Boards.PlayCells | src/main/java/uk/ac/soton/comp1206/game/Grid.java:160-179 | After a fitting play, the occupied cells are the old occupied cells plus exactly the footprint. |
| Boards.PlayFillsFootprint | src/main/java/uk/ac/soton/comp1206/game/Grid.java:160-179 | A fitting piece's footprint is disjoint from the occupied cells, so the count of occupied cells grows by the piece's block count. |
| Boards.Clear | src/main/java/uk/ac/soton/comp1206/game/Game.java:469-476 | Cells in the set become 0. Every other cell keeps its value. |
| Boards.ClearedCellsSplit | src/main/java/uk/ac/soton/comp1206/game/Game.java:417-454 | The blocks to clear are exactly the cells of the full columns plus the cells of the full rows. |
| Boards.CrossingCells | src/main/java/uk/ac/soton/comp1206/game/Game.java:417-454 | A column cell and a row cell coincide exactly at the crossings of a full column and a full row. |
| Boards.ClearedCellsSize | src/main/java/uk/ac/soton/comp1206/game/Game.java:417-458 | The size of the set is full columns × rows + full rows × cols − crossings. The set counts a crossing cell once. |
| Boards.ClearedCellsBound | src/main/java/uk/ac/soton/comp1206/game/Game.java:417-458 | No more cells are cleared than the grid has. |
| Boards.NoLineSurvivesClear | src/main/java/uk/ac/soton/comp1206/game/Game.java:411-476 | After the blocks to clear are cleared, the board has no full column or row. |
| Games.ScoreGain | src/main/java/uk/ac/soton/comp1206/game/Game.java:484-491 | The points added are never negative. They are positive exactly when a line and a block were cleared. |
| Games.NextMultiplier | src/main/java/uk/ac/soton/comp1206/game/Game.java:498-505 | The multiplier stays at least 1 and strictly grows when a line was cleared. |
| Games.LevelFor | src/main/java/uk/ac/soton/comp1206/game/Game.java:510-513 | The level is the number of whole thousands in the score. |
| Games.TimerDelay | src/main/java/uk/ac/soton/comp1206/game/Game.java:545-551 | For any level, the turn time is between 2500 and 12000 ms and a whole number of 500 ms ticks. |
| Games.TimerDelayNonIncreasing | src/main/java/uk/ac/soton/comp1206/game/Game.java:545-551 | A higher level never gives more time. Up to level 19, each level takes 500 ms off. |
| Games.DelayShrinksWithScore | src/main/java/uk/ac/soton/comp1206/game/Game.java:545-551 | A higher score never lowers the level and never lengthens the turn time. |
| Games.TimerExpiresOnce | src/main/java/uk/ac/soton/comp1206/game/Game.java:567-579 | Counting down by 500 ms from the turn time reaches exactly 0 at one tick only, after 5 to 24 ticks. |
| Games.LinesIffClearedCells | src/main/java/uk/ac/soton/comp1206/game/Game.java:411-461 | At least one line is counted exactly when at least one block is to be cleared. |
| Games.Game.constructor | src/main/java/uk/ac/soton/comp1206/game/Game.java:228-234 | A new game has an empty grid, score 0, level 0, 3 lives, multiplier 1, no pieces and no timer. |
| Games.Game.Start | src/main/java/uk/ac/soton/comp1206/game/Game.java:239-243 | Starts the timer at the level's delay, then deals pieces. Both pieces are set, the new following piece comes from the catalogue, and so does the current one when there was no following piece to move up. The events are the timer start and then the piece change. |
| Games.Game.InitialiseGame | src/main/java/uk/ac/soton/comp1206/game/Game.java:248-253 | Deals the first pieces. The following piece comes from the catalogue. The current one is the old following piece, or also comes from the catalogue when there was none, as at the start of a game. The counters, grid and timer are unchanged. |
| Games.Game.SpawnPiece | src/main/java/uk/ac/soton/comp1206/game/Game.java:380-388 | The piece is one of the catalogue. |
| Games.Game.NextPiece | src/main/java/uk/ac/soton/comp1206/game/Game.java:393-406 | The old following piece (a fresh one when there was none) becomes current. A fresh following piece is drawn. One piece-change event follows, and nothing else changes. |
| Games.Game.ColumnIsFull | src/main/java/uk/ac/soton/comp1206/game/Game.java:418-426 | True exactly when no cell of column x is 0. |
| Games.Game.RowIsFull | src/main/java/uk/ac/soton/comp1206/game/Game.java:438-446 | True exactly when no cell of row y is 0. |
| Games.Game.ScanColumns | src/main/java/uk/ac/soton/comp1206/game/Game.java:417-434 | Counts the full columns and collects all of their cells. |
| Games.Game.ScanRows | src/main/java/uk/ac/soton/comp1206/game/Game.java:437-454 | Adds the full rows to the count and all of their cells to the set. |
| Games.Game.FindLines | src/main/java/uk/ac/soton/comp1206/game/Game.java:411-458 | The line count and block set are `LineCount` and `ClearedCells` of the board. |
| Games.Game.ClearLines | src/main/java/uk/ac/soton/comp1206/game/Game.java:469-476 | Zeroes exactly the given cells, then records one lines-cleared event. |
| Games.Game.ClearCells | src/main/java/uk/ac/soton/comp1206/game/Game.java:470-472 | Zeroes exactly the given cells. |
| Games.Game.Score | src/main/java/uk/ac/soton/comp1206/game/Game.java:484-491 | The score grows by lines × blocks × 10 × the old multiplier. The multiplier is then updated and the level follows the new score. |
| Games.Game.Multiplier | src/main/java/uk/ac/soton/comp1206/game/Game.java:498-505 | The multiplier becomes `NextMultiplier` of the old one. Nothing else changes. |
| Games.Game.Level | src/main/java/uk/ac/soton/comp1206/game/Game.java:510-513 | The level becomes the score's thousands. Nothing else changes. |
| Games.Game.AfterPiece | src/main/java/uk/ac/soton/comp1206/game/Game.java:411-462 | Clears every full column and row of the board as it was, scores them, updates multiplier and level, and records the lines-cleared and score events. |
| Games.Game.BlockClicked | src/main/java/uk/ac/soton/comp1206/game/Game.java:287-301 | If the current piece does not fit at (x, y), nothing changes. Otherwise the piece is placed, the timer restarts, lines are cleared and scored, and the next piece is dealt from the catalogue (`PlayedTurn`). |
| Games.Game.PlayTurn | src/main/java/uk/ac/soton/comp1206/game/Game.java:289-300 | The fitting branch of a click: the new state is exactly the `PlayedTurn` description, including that the dealt following piece comes from the catalogue. |
| Games.Game.PlacePiece | src/main/java/uk/ac/soton/comp1206/game/Game.java:290 | The board becomes `Play` of the old board with the current piece. |
| Games.Game.RotateCurrentPiece | src/main/java/uk/ac/soton/comp1206/game/Game.java:519-524 | The current piece becomes its rotation and one piece-change event is recorded. Nothing else changes. |
| Games.Game.SwapCurrentPiece | src/main/java/uk/ac/soton/comp1206/game/Game.java:529-538 | The current and following pieces trade places and one piece-change event is recorded. |
| Games.Game.GetTimerDelay | src/main/java/uk/ac/soton/comp1206/game/Game.java:545-551 | The delay for the current level, within [2500, 12000] and a multiple of 500. |
| Games.Game.StartTimer | src/main/java/uk/ac/soton/comp1206/game/Game.java:556-581 | Time left becomes the level's delay, the timer runs, and one timer-started event is recorded. |
| Games.Game.RestartTimer | src/main/java/uk/ac/soton/comp1206/game/Game.java:586-590 | The same as starting the timer afresh. |
| Games.Game.CountDown | src/main/java/uk/ac/soton/comp1206/game/Game.java:570-577 | Takes 500 ms off. The timer stops exactly when time left reaches 0. |
| Games.Game.Tick | src/main/java/uk/ac/soton/comp1206/game/Game.java:567-580 | One tick of the timer task. Before 0 only time left drops. At 0 with no lives the timer stops at 0 and the game ends. Otherwise a life and the multiplier are lost, the next piece is dealt from the catalogue, both pieces are set and the timer restarts at the level's delay. |
| Games.Game.GameLoop | src/main/java/uk/ac/soton/comp1206/game/Game.java:595-613 | With 0 lives, one game-over event and nothing else. Otherwise lives − 1, multiplier 1, the next piece dealt from the catalogue, and the timer restarted at the level's delay. |
| MultiplayerGames.MultiplayerGame.constructor | src/main/java/uk/ac/soton/comp1206/game/MultiplayerGame.java:57-60 | A fresh game with an empty piece queue, an empty leaderboard and nothing sent. |
| MultiplayerGames.MultiplayerGame.Start | src/main/java/uk/ac/soton/comp1206/game/Game.java:239-243 | Starts the timer, then sends SCORES and six PIECE requests with an empty queue. No piece is dealt yet. |
| MultiplayerGames.MultiplayerGame.InitialiseGame | src/main/java/uk/ac/soton/comp1206/game/MultiplayerGame.java:66-77 | The queue is emptied and the sent messages are SCORES followed by six PIECE requests. |
| MultiplayerGames.MultiplayerGame.OnMessage | src/main/java/uk/ac/soton/comp1206/game/MultiplayerGame.java:80-105 | Handles a message by its tag. MSG forwards the chat line. PIECE is handled as `ReceivePiece` states (`PieceReceived`). SCORES replaces the leaderboard. ERROR and untagged messages change nothing. |
| MultiplayerGames.MultiplayerGame.ReceivePiece | src/main/java/uk/ac/soton/comp1206/game/MultiplayerGame.java:88-94 | Queues the reply (`PieceReceived`). When both pieces are present, nothing else changes. When a piece is missing, the head of the queue is removed and taken as `TookPiece` says, or as `FailedTake` says when it is malformed. The grid, counters and timer are unchanged. |
| MultiplayerGames.MultiplayerGame.TakeNextPiece | src/main/java/uk/ac/soton/comp1206/game/MultiplayerGame.java:92 | Removes the queue's head. Fails exactly when the queue is empty or the head is not a PIECE reply. On success the pieces move as `TookPiece` says and the piece listener is called when a following piece moved. On failure no listener is called: an empty queue changes no piece, and a malformed head has already moved a following piece to current (`FailedTake`). |
| MultiplayerGames.MultiplayerGame.NextPieceFrom | src/main/java/uk/ac/soton/comp1206/game/MultiplayerGame.java:210-227 | The named piece becomes the following one. An old following piece moves to current and the piece listener is called; with none, the current piece stays and no event is recorded. Fails exactly on a malformed reply. The old following piece has then already moved to current, the following piece stays and no listener is called (`FailedTake`). |
| MultiplayerGames.MultiplayerGame.ReceiveMessage | src/main/java/uk/ac/soton/comp1206/game/MultiplayerGame.java:235-242 | Forwards "sender:text", the first segment after the sender, as one chat notice. |
| MultiplayerGames.MultiplayerGame.ReceiveScores | src/main/java/uk/ac/soton/comp1206/game/MultiplayerGame.java:310-328 | The leaderboard becomes exactly the rows of the reply (`ScoreTable`), in order. |
| MultiplayerGames.MultiplayerGame.AddScoreLines | src/main/java/uk/ac/soton/comp1206/game/MultiplayerGame.java:321-327 | Appends one (name, score, lives) row per line, in order. |
| MultiplayerGames.MultiplayerGame.AddScore | src/main/java/uk/ac/soton/comp1206/game/MultiplayerGame.java:335-339 | Appends the row. |
| MultiplayerGames.MultiplayerGame.RequestPiece | src/main/java/uk/ac/soton/comp1206/game/MultiplayerGame.java:301-303 | Sends PIECE. |
| MultiplayerGames.MultiplayerGame.GetScores | src/main/java/uk/ac/soton/comp1206/game/MultiplayerGame.java:344-346 | Sends SCORES. |
| MultiplayerGames.MultiplayerGame.Score | src/main/java/uk/ac/soton/comp1206/game/MultiplayerGame.java:252-264 | Adds the same points as single-player. Sends "SCORE <new score>" exactly when a line was cleared, then updates the multiplier. The level and events are unchanged. |
| MultiplayerGames.MultiplayerGame.AfterPiece | src/main/java/uk/ac/soton/comp1206/game/Game.java:411-462 | Single-player line clearing with the multiplayer score. The level stays and the only event is the lines-cleared one. |
| MultiplayerGames.MultiplayerGame.BoardValues | src/main/java/uk/ac/soton/comp1206/game/MultiplayerGame.java:140-144 | The text is every cell, column by column, written in decimal and followed by a space. |
| MultiplayerGames.MultiplayerGame.SendBoard | src/main/java/uk/ac/soton/comp1206/game/MultiplayerGame.java:147 | Sends `BoardMessage` of the current board. |
| MultiplayerGames.MultiplayerGame.BlockClicked | src/main/java/uk/ac/soton/comp1206/game/MultiplayerGame.java:114-148 | A mouse click. With no current piece it fails and changes nothing. If the piece does not fit, only the board is sent. Otherwise the piece is placed and scored, PIECE is requested, the queue's head is taken, and the board is sent unless taking failed. The events are the timer restart and the cleared blocks, then the piece listener call when taking succeeded and moved a following piece. On failure the pieces stand as `FailedTake` says. |
| MultiplayerGames.MultiplayerGame.PlayTurn | src/main/java/uk/ac/soton/comp1206/game/MultiplayerGame.java:122-138 | The fitting branch of a mouse click: places and scores, sends PIECE, then takes the queue's head. States the events, the queue and the pieces on success and on failure. |
| MultiplayerGames.MultiplayerGame.Place | src/main/java/uk/ac/soton/comp1206/game/MultiplayerGame.java:122-131 | Plays the current piece, restarts the timer, and clears and scores lines. The pieces are unchanged. |
| MultiplayerGames.MultiplayerGame.BlockClickedAt | src/main/java/uk/ac/soton/comp1206/game/MultiplayerGame.java:158-183 | A keyboard placement. With no current piece yet (before the second PIECE reply) it fails and changes nothing. If the piece does not fit, only the board is sent. Otherwise it is placed and scored, the next piece comes from the single-player deal, and the board is sent. The events are the timer restart, the cleared blocks and one piece listener call with the new pieces. |
| MultiplayerGames.MultiplayerGame.KeyTurn | src/main/java/uk/ac/soton/comp1206/game/MultiplayerGame.java:162-173 | The fitting branch of a keyboard placement, as `KeyTurnPlayed` describes: placed and scored, the following piece moved to current, a new following piece from the catalogue, and the timer, cleared-blocks and piece listener events in that order. |
| MultiplayerGames.MultiplayerGame.GameLoop | src/main/java/uk/ac/soton/comp1206/game/MultiplayerGame.java:270-296 | With 0 lives, sends DIE and ends the game. Otherwise lives − 1, "LIVES <lives − 1>" and PIECE are sent, the multiplier is reset, and the queue's head is taken. The board is unchanged. On success the timer restarts at the level's delay and the events are the piece listener call, then the timer start. On failure the timer, the events and the pieces (`FailedTake`) are left alone. |
| MultiplayerGames.MultiplayerGame.Tick | src/main/java/uk/ac/soton/comp1206/game/Game.java:567-580 | One timer tick. Before 0 only time left drops. At 0 the timer stops and the multiplayer game loop runs. With no lives, DIE is sent, the game ends and nothing else changes. Otherwise the life, the LIVES and PIECE messages, the queue pop, the pieces and the events follow `GameLoop`. The timer restarts at the level's delay exactly when taking the piece succeeded. |
| Protocol.TagsExclusive | src/main/java/uk/ac/soton/comp1206/game/MultiplayerGame.java:80-105 | No message starts with two of MSG, PIECE, SCORES and ERROR, so at most one branch runs. |
| Protocol.TagOf | src/main/java/uk/ac/soton/comp1206/game/MultiplayerGame.java:80-105 | Each tag is chosen exactly when the message starts with that keyword. |
| Protocol.PieceId | src/main/java/uk/ac/soton/comp1206/game/MultiplayerGame.java:213-223 | The id read from a PIECE reply names a piece of the catalogue. |
| Protocol.PieceMessageRoundTrip | src/main/java/uk/ac/soton/comp1206/game/MultiplayerGame.java:213-223 | "PIECE <id>" is a valid reply and reads back as that id. |
| Protocol.SpacedAppend | src/main/java/uk/ac/soton/comp1206/game/MultiplayerGame.java:142 | Appending a cell appends its decimal text and one space. |
| Protocol.ColumnsLength | src/main/java/uk/ac/soton/comp1206/game/MultiplayerGame.java:140-144 | n columns give n × rows values. |
| Protocol.ColumnsIndex | src/main/java/uk/ac/soton/comp1206/game/MultiplayerGame.java:140-144 | Cell (x, y) is value number x × rows + y. |
| Protocol.FlattenIndex | src/main/java/uk/ac/soton/comp1206/game/MultiplayerGame.java:140-144 | The board text lists cols × rows values, and cell (x, y) is value number x × rows + y. |
| Protocol.SpacedIsJoin | src/main/java/uk/ac/soton/comp1206/game/MultiplayerGame.java:140-147 | The board text is the values joined by spaces with a trailing space. |
| Protocol.SpacedSplits | src/main/java/uk/ac/soton/comp1206/game/MultiplayerGame.java:140-147 | Splitting the board text at spaces gives back each value's decimal text. The split drops the trailing empty string. |
| Protocol.BoardMessageRoundTrip | src/main/java/uk/ac/soton/comp1206/game/MultiplayerGame.java:140-147 | After its tag, the BOARD message splits into cols × rows integers that are the cells, column by column. |
| Protocol.ChatRoundTrip | src/main/java/uk/ac/soton/comp1206/game/MultiplayerGame.java:235-242 | "MSG sender:text" is forwarded as "sender:text". |
| Protocol.ChatKeepsFirstSegment | src/main/java/uk/ac/soton/comp1206/game/MultiplayerGame.java:235-242 | A text that itself contains ':' is cut at its first ':'. Only the segment before it is forwarded. |
| Protocol.ScoreRows | src/main/java/uk/ac/soton/comp1206/game/MultiplayerGame.java:321-327 | One row per line, each holding the line's first three ':' fields. |
| Protocol.EntryLineSplits | src/main/java/uk/ac/soton/comp1206/game/MultiplayerGame.java:323-326 | A "name:score:lives" line with plain fields reads back as that row. |
| Protocol.TaggedSplit | src/main/java/uk/ac/soton/comp1206/game/MultiplayerGame.java:316 | A tagged multi-line message splits at newlines into its lines, the first still tagged. |
| Protocol.TaggedLines | src/main/java/uk/ac/soton/comp1206/game/MultiplayerGame.java:316-319 | Removing the tag from the first line gives back exactly the lines. |
| Protocol.ScoreLinesOf | src/main/java/uk/ac/soton/comp1206/game/MultiplayerGame.java:316-319 | The lines of a SCORES reply are the rows' lines. |
| Protocol.ScoresRoundTrip | src/main/java/uk/ac/soton/comp1206/game/MultiplayerGame.java:310-328 | A SCORES reply built from plain rows reads back as exactly those rows, in order. |
| Text.NatToString | src/main/java/uk/ac/soton/comp1206/game/MultiplayerGame.java:142 | The decimal text of a natural is digits only, and has no leading zero from 10 on. |
| Text.IntToString | src/main/java/uk/ac/soton/comp1206/game/MultiplayerGame.java:142 | The decimal text of an int has no space, ':' or newline. |
| Text.IntRoundTrip | src/main/java/uk/ac/soton/comp1206/game/MultiplayerGame.java:216 | `Integer.parseInt` reads back every int that string concatenation wrote. |
| Text.IndexOf | src/main/java/uk/ac/soton/comp1206/game/MultiplayerGame.java:213 | -1 exactly when the character is absent. Otherwise it is the position of its first occurrence. |
| Text.AfterFirst | src/main/java/uk/ac/soton/comp1206/game/MultiplayerGame.java:213 | `substring(indexOf(c) + 1)`: the whole string when c is absent, otherwise exactly what follows the first c. |
| Text.SplitOn | src/main/java/uk/ac/soton/comp1206/game/MultiplayerGame.java:236 | At least one piece, and no piece contains the separator. |
| Text.DropTrailingEmpty | src/main/java/uk/ac/soton/comp1206/game/MultiplayerGame.java:236 | Removes trailing empty strings and nothing else. |
| Text.JavaSplit | src/main/java/uk/ac/soton/comp1206/game/MultiplayerGame.java:236 | No piece of `String.split` contains the separator. |
| Text.SplitJoin | src/main/java/uk/ac/soton/comp1206/game/MultiplayerGame.java:236 | Splitting the join of separator-free parts gives the parts back. |
| Text.JavaSplitJoin | src/main/java/uk/ac/soton/comp1206/game/MultiplayerGame.java:236 | The same for `String.split`, when the last part is not empty. |
| ScoresScenes.InsertDescSorted | src/main/java/uk/ac/soton/comp1206/scene/ScoresScene.java:236 | Inserting into a sorted list keeps it sorted. |
| ScoresScenes.SortDescSorted | src/main/java/uk/ac/soton/comp1206/scene/ScoresScene.java:236 | Sorting by descending score gives a non-increasing list of the same entries (a permutation). |
| ScoresScenes.SortDescOfSorted | src/main/java/uk/ac/soton/comp1206/scene/ScoresScene.java:236 | Sorting an ordered list changes nothing. |
| ScoresScenes.SortDescStable | src/main/java/uk/ac/soton/comp1206/scene/ScoresScene.java:236 | The sort is stable: entries with equal scores keep their order. |
| ScoresScenes.BeatsSorted | src/main/java/uk/ac/soton/comp1206/scene/ScoresScene.java:246-257 | On a sorted list, some entry scores less than v exactly when the last one does. |
| ScoresScenes.AddedLocallySorted | src/main/java/uk/ac/soton/comp1206/scene/ScoresScene.java:295-304 | Once an entry has been added, the local list is sorted. |
| ScoresScenes.AddedLocallyMultiset | src/main/java/uk/ac/soton/comp1206/scene/ScoresScene.java:295-304 | Adding entries one by one keeps every old entry and adds exactly the new ones. |
| ScoresScenes.LoadedFacts | src/main/java/uk/ac/soton/comp1206/scene/ScoresScene.java:295-307 | The loaded list ends sorted and holds old and new entries. When something was added, the final sort changes nothing. |
| ScoresScenes.Loaded | src/main/java/uk/ac/soton/comp1206/scene/ScoresScene.java:295-298 | At most ten lines are loaded, and all of them when there are fewer. |
| ScoresScenes.EntryTextSplits | src/main/java/uk/ac/soton/comp1206/scene/ScoresScene.java:374 | "name:score" with a plain name reads back as that entry. |
| ScoresScenes.OnlineRoundTrip | src/main/java/uk/ac/soton/comp1206/scene/ScoresScene.java:314-330 | A tagged list of plain entries reads back as exactly those entries, in order. |
| ScoresScenes.HiscoreRoundTrip | src/main/java/uk/ac/soton/comp1206/scene/ScoresScene.java:373-374 | The HISCORE message carries exactly the player's entry. |
| ScoresScenes.MultiplayerEntriesOf | src/main/java/uk/ac/soton/comp1206/scene/ScoresScene.java:220-226 | Leaderboard rows whose scores were written as ints give back their names and scores. Lives are dropped. |
| ScoresScenes.ScoresScene.AfterGame | src/main/java/uk/ac/soton/comp1206/scene/ScoresScene.java:82-86 | The screen after a single-player game holds that score and no leaderboard. |
| ScoresScenes.ScoresScene.AfterMultiplayerGame | src/main/java/uk/ac/soton/comp1206/scene/ScoresScene.java:93-96 | The screen after a multiplayer game holds the leaderboard and no score. |
| ScoresScenes.ScoresScene.AddScore | src/main/java/uk/ac/soton/comp1206/scene/ScoresScene.java:207-215 | Local: appended then sorted, so the list is sorted and holds the old entries plus the new one. Remote: appended only. |
| ScoresScenes.ScoresScene.OrderScores | src/main/java/uk/ac/soton/comp1206/scene/ScoresScene.java:231-240 | The local list becomes a sorted permutation of itself and stays the same when already sorted. |
| ScoresScenes.ScoresScene.OrderOnlineScores | src/main/java/uk/ac/soton/comp1206/scene/ScoresScene.java:384-387 | The online list becomes a sorted permutation of itself. |
| ScoresScenes.ScoresScene.AddMultiplayerScores | src/main/java/uk/ac/soton/comp1206/scene/ScoresScene.java:220-226 | Appends one (name, parsed score) entry per leaderboard row, in order and unsorted. |
| ScoresScenes.ScoresScene.CompareScores | src/main/java/uk/ac/soton/comp1206/scene/ScoresScene.java:246-257 | When some local score is lower, the typed name is recorded and the score inserted in order, once. Otherwise nothing changes. |
| ScoresScenes.ScoresScene.CompareOnlineScores | src/main/java/uk/ac/soton/comp1206/scene/ScoresScene.java:262-269 | When some online score is lower, the score is submitted and inserted in order. With no score it fails at the first entry. |
| ScoresScenes.ScoresScene.WriteOnlineScore | src/main/java/uk/ac/soton/comp1206/scene/ScoresScene.java:373-379 | Sends "HISCORE name:score" and adds the entry to the online list, which ends sorted. |
| ScoresScenes.ScoresScene.LoadScores | src/main/java/uk/ac/soton/comp1206/scene/ScoresScene.java:276-308 | Adds the first ten lines at most, one at a time. The list ends sorted and holds old and loaded entries exactly. |
| ScoresScenes.ScoresScene.LoadOnlineScores | src/main/java/uk/ac/soton/comp1206/scene/ScoresScene.java:314-330 | Appends the entries of the reply to the online list, in order and unsorted. It fails exactly when the reply is not well formed: no line at all, or a line that is not "name:score". The entries of the lines before the first bad one are kept, as Java adds them before it throws. |
| ScoresScenes.ScoresScene.AddOnlineLines | src/main/java/uk/ac/soton/comp1206/scene/ScoresScene.java:324-329 | Appends one online entry per line, in order. It fails exactly when some line is not "name:score", keeping the entries of the lines before the first one. |
| ScoresScenes.EntryPrefix | src/main/java/uk/ac/soton/comp1206/scene/ScoresScene.java:324-329 | How far the loop gets: every line before it is "name:score", and the line at it, if any, is not. |
| BoardViews.MovedStaysOnBoard | src/main/java/uk/ac/soton/comp1206/component/GameBoard.java:228-245 | One keyboard move keeps an on-board aim on the board. |
| BoardViews.AfterMovesStaysOnBoard | src/main/java/uk/ac/soton/comp1206/component/GameBoard.java:228-245 | Any sequence of keyboard moves keeps it on the board. |
| BoardViews.AxesIndependent | src/main/java/uk/ac/soton/comp1206/component/GameBoard.java:233-239 | Each axis moves on its own. A blocked x step does not block the y step. |
| BoardViews.MoveUndone | src/main/java/uk/ac/soton/comp1206/component/GameBoard.java:228-245 | A move taken on both axes is undone by the opposite move. |
| BoardViews.GameBoard.constructor | src/main/java/uk/ac/soton/comp1206/component/GameBoard.java:53-58 | A new board aims at (2, 2), which is on any board of at least 3 × 3. |
| BoardViews.GameBoard.AimChange | src/main/java/uk/ac/soton/comp1206/component/GameBoard.java:228-245 | Each axis takes its step only when the result stays on the board, and the aim stays on the board. |
| BoardViews.GameBoard.AimChangeTo | src/main/java/uk/ac/soton/comp1206/component/GameBoard.java:252-263 | The aim jumps to the entered block. |
| BoardViews.PreviewCells | src/main/java/uk/ac/soton/comp1206/component/PieceBoard.java:39-48 | A 3 × 3 preview shows the piece's colour exactly under its blocks and 0 elsewhere. |
| BoardViews.PieceBoard.constructor | src/main/java/uk/ac/soton/comp1206/component/PieceBoard.java:27-32 | A new preview has an empty grid. |
| BoardViews.PieceBoard.SetPiece | src/main/java/uk/ac/soton/comp1206/component/PieceBoard.java:39-48 | The shown board is the piece stamped at (1, 1) on an empty board, whatever was shown before. |
| BoardViews.PieceBoard.AimChange | src/main/java/uk/ac/soton/comp1206/component/PieceBoard.java:68-70 | Changes nothing. |
| BoardViews.PieceBoard.AimChangeTo | src/main/java/uk/ac/soton/comp1206/component/PieceBoard.java:77-79 | Changes nothing. |
| BoardViews.PieceBoard.ExitedBlock | src/main/java/uk/ac/soton/comp1206/component/PieceBoard.java:86-88 | Changes nothing. |

## Left out

- Rendering, audio, logging and the JavaFX scene set-up (`build`, `initialise`, key handlers, `fadeOut`) are not modelled. Neither are listener registration and the property bindings. A listener call is recorded as an event or notice.
- The server connection is not modelled. A message sent is an `outbox` entry, and a message received is a call of `OnMessage`.
- The scheduled executor thread is not modelled. `Platform.runLater` is treated as running at once. The timer task is the discrete step `Tick`, and cancelling and rescheduling are the `timerRunning` flag. Races between the timer thread and the player are not modelled.
- `GamePiece` is not part of this model. A piece is a colour and a 3 × 3 layout, and `createPiece(id)` is the id-th entry of a catalogue given to the constructor.
- Games.Game.SpawnPiece: the random number generator is not modelled. The method may return any catalogue entry.
- Games.Game.RotateCurrentPiece: the rotated layout is a parameter, because rotation is part of `GamePiece`.
- Java's 32-bit `int` is modelled as an unbounded integer. Overflow of the score product in `score` and of the scores compared is not modelled.
- Text.IsDigit, Text.IsIntLiteral and Text.ParseInt accept only the ASCII digits 0 to 9. Java's `Integer.parseInt` also accepts the decimal digits of other scripts. The model treats a number written with them as malformed.
- Grids.Grid.Set requires an on-grid cell. Its Java callers only pass on-grid cells, and an off-grid `set` would throw.
- Grids.Grid.PlayPiece and BoardViews.PieceBoard.SetPiece require every block of the piece to land on the grid, for the same reason: an off-grid block would make `set` throw. The game plays a piece only after `canPlayPiece` accepts it, and a piece board is 3 by 3 with the piece centred at (1, 1).
- Games.Game.BlockClicked requires a current piece. The single-player `start` deals both pieces before any click can arrive; a click before that would throw.
- The `blockClicked(GameBlock)` overloads of `Game` are modelled by the (x, y) versions, since they only read the block's coordinates.
- MultiplayerGames.MultiplayerGame.TakeNextPiece, NextPieceFrom, BlockClicked, BlockClickedAt, GameLoop and Tick: Java throws on an empty queue, a malformed PIECE reply or a missing current piece. The model keeps what had changed before the throw and returns `failed`. After a malformed PIECE reply, that includes a following piece already moved to current (`FailedTake`). What the exception does to the rest of the caller is not modelled. After that failure Java's two piece fields hold the same object, so a later rotation of the current piece also rotates the following one. Pieces are values here, so that aliasing is not modelled.
- MultiplayerGames.MultiplayerGame.OnMessage, ReceiveMessage, ReceiveScores and AddScoreLines require well-formed MSG and SCORES messages (every SCORES line with at least three fields separated by ':'). Java would throw on malformed ones.
- MultiplayerGames.MultiplayerGame.OnMessage: Java tests the four prefixes with independent `if`s. The model dispatches on one tag. `Protocol.TagsExclusive` proves that no two prefixes can hold at once, so this is equivalent.
- ScoresScenes.ScoresScene.LoadScores takes the file's lines as a parameter and requires the loaded lines to be "name:score". A missing file is the empty sequence. Reading the file is not modelled.
- `writeScores` is not modelled. It writes the local list, or five default entries when the file is missing, so file contents are not modelled.
- The name dialog is not modelled. The typed name is a parameter of `CompareScores`.
- ScoresScenes.ScoresScene.AddMultiplayerScores requires the leaderboard (not null) with integer scores.
- ScoresScenes.ScoresScene.CompareScores requires a score (not null). Java would throw after a multiplayer game, which never calls it.
- `BoardViews.GameBoard` keeps only its size and aim. Its grid, blocks and highlight drawing are not modelled.
- BoardViews.GameBoard.AimChange requires the aim to be on the board, because Java looks up the old aim's block first. The constructor places it on the board for any board of at least 3 × 3, and every move keeps it there.
- BoardViews.GameBoard.AimChangeTo requires the entered block to be on this board, as every block of the board is.
- The `PieceBoard` aim fields are the inherited ones and never move. `clicked` only calls a listener and is not modelled.
- `ScoresList`, `Leaderboard`, the scene classes and `Multimedia` are not part of this model.
- Several Java methods are split into helpers so that each part can be proved on its own:
  - `Games.Game`: `ColumnIsFull`, `RowIsFull`, `ScanColumns` and `ScanRows` are the inner loops of `afterPiece`; `FindLines`, `ClearCells`, `PlayTurn`, `PlacePiece` and `CountDown` are steps of the Java methods.
  - `MultiplayerGames.MultiplayerGame`: `ReceivePiece`, `TakeNextPiece`, `AddScoreLines`, `BoardValues`, `SendBoard`, `PlayTurn`, `Place` and `KeyTurn`.
  - `ScoresScenes.ScoresScene`: `AddOnlineLines`.
