# tic-tac-go rules engine, in Dafny

A model of the tic-tac-toe server `tic-tac-go`: the game object and its rules
engine (package `game`) and the state transitions that the HTTP handlers of
package `main` perform on the one shared game.

- `game.dfy`, module `TicTacToe` (game/game.go). The game is a class `Game`
  with the fields `gameOver`, `xIsNext` and a 3 by 3 `array2<string>` board,
  where the empty string is an unoccupied cell. `Game.NewGame` builds a fresh
  game. `ApplyMove` runs the three checks in the source's order (game over,
  coordinates in 0..2, cell empty) and writes the mover's mark in place.
  `PlayerWon` is the two-loop win query with early exit. Both methods are
  proved against the pure functions `Apply` and `Wins` over the value view
  `State`, which is what `Game.Snapshot` returns.
- `server.dfy`, module `Server` (main.go). The class `GameServer` owns the
  current game. It installs a fresh game at start-up and on reset. The GET
  handler reads the game and changes nothing. The POST handler applies a
  move; on a refusal it stops, otherwise it asks `PlayerWon` about the
  mover's mark and either sets `gameOver` or flips `xIsNext`. The pure
  function `Step` states that transition, and `Run` folds it over a
  sequence of move requests.

The win rule is reproduced as the code has it. A win needs row `x` AND
column `y` of the move to be all the player's mark, or the main diagonal to
be all that mark wherever the move lies. The anti-diagonal is never
examined. `AntiDiagonalIgnored` and `FullRowIgnored` show boards with a
complete line that the rule does not call a win. `WinsIsSound` shows that
every win it does declare rests on a real line.

## Model

| member | source | states |
|---|---|---|
| `TicTacToe.InitialState` | game/game.go:28-35 | a fresh game is not over, has X to move, and all nine cells are the empty string |
| `TicTacToe.Game.NewGame` | game/game.go:28-35 | the constructed game object satisfies its invariant (3 by 3, cells in {"", "X", "O"}) and its view is the fresh state |
| `TicTacToe.Game.Snapshot` | game/game.go:8-12 | the value view carries the object's `gameOver`, `xIsNext` and every cell of the grid, and is a well-formed 3 by 3 board |
| `TicTacToe.Apply` | game/game.go:37-60 | a game that is over refuses every move, even out-of-range ones; otherwise out-of-range coordinates are refused before any cell is read; then an occupied cell is refused; every refusal carries status 400 and changes nothing; the move succeeds exactly when the game runs, both coordinates are in 0..2 and the cell is empty; on success the cell gets "X" if X is next and "O" otherwise, and the other eight cells and both flags are unchanged |
| `TicTacToe.ApplyMove` | game/game.go:37-60 | the in-place method returns the outcome `Apply` gives and leaves the game holding `Apply`'s new state, with the grid invariant kept |
| `TicTacToe.PlayerWon` | game/game.go:62-82 | the two loops answer true exactly when row x and column y are both entirely `player`, or the main diagonal is entirely `player`; the method modifies nothing |
| `TicTacToe.WinsIsSound` | game/game.go:62-82 | whenever the rule declares a win, the board holds a complete row, column or diagonal of the player's mark |
| `TicTacToe.Wins` | game/game.go:63-81 | the win rule as the code has it: a complete main diagonal is a win wherever the move lies, and any other win runs through the played cell, which then holds the player's mark |
| `TicTacToe.Mark` | game/game.go:51-56 | the mark written for, and later checked for, the mover is "X" exactly when X is next and "O" otherwise, and is never the empty cell |
| `TicTacToe.WinsReadsOnlyItsLines` | game/game.go:62-82 | two boards that agree on row x, on column y and on the main diagonal get the same answer, so the anti-diagonal and the remaining cells are never consulted |
| `TicTacToe.AntiDiagonalIgnored` | game/game.go:72-81 | a board whose anti-diagonal is all X, with X having just played (0,2), is not a win |
| `TicTacToe.FullRowIgnored` | game/game.go:63-70 | a board whose row 0 is all X, with X having just played (0,2), is not a win because column 2 is not all X |
| `Server.Step` | main.go:42-72 | a refused move is answered with the engine's own error (its reason and status 400) and leaves the state unchanged; a finished game stays unchanged; a winning move sets `gameOver`, keeps `xIsNext`, and names as winner the mark that was just written into the played cell, which is "X" exactly when X was next; any other accepted move leaves the game running and flips `xIsNext`; the board is always the one the engine produced |
| `Server.Response.Status` | main.go:44-72 | a refused move is answered with the status the engine's error carries; an accepted move, winning or not, with the default 200 that follows the written message |
| `Server.Run` | main.go:42-72 | any sequence of move requests keeps the board a well-formed 3 by 3 grid of "", "X" and "O" |
| `Server.GameOverIsFinal` | game/game.go:38-41 | once the game is over, every further sequence of move requests leaves the state exactly as it was |
| `Server.GameOverMonotone` | main.go:66-67 | `gameOver` never goes from true back to false within one game; only a reset clears it |
| `Server.MarksPersist` | game/game.go:46-58 | a cell that holds a mark keeps that mark through any sequence of move requests |
| `Server.InitialBalanced` | game/game.go:28-35 | a fresh board holds no X and no O and satisfies the turn balance |
| `Server.StepKeepsBalance` | main.go:58-71 | one move request keeps the turn balance: while the game runs, the X count equals the O count when X is next and exceeds it by one otherwise, and the reverse once a win has frozen `xIsNext` |
| `Server.RunKeepsBalance` | main.go:58-71 | any sequence of move requests keeps the turn balance |
| `Server.ReachableBalanced` | main.go:86 | every state that move requests reach from the start-up game (or from a reset, which installs the same state) satisfies the turn balance |
| `Server.WinIsReal` | main.go:65-68 | a request that ends the game with a win leaves a complete line of the winner's marks on the board |
| `Server.ScenarioNoWin` | main.go:42-72 | X (0,0), O (0,1), X (1,1), O (2,2), X (0,2) from a fresh game leaves the game running with O to move and the five marks in place |
| `Server.ScenarioDiagonalWin` | main.go:65-68 | X (0,0), O (0,1), X (1,1), O (0,2), X (2,2) leaves the game running after four moves with X to move, and the fifth ends it with X as winner while `xIsNext` stays true |
| `Server.ScenarioOutOfBounds` | game/game.go:42-45 | the move (5,0) on a fresh game is refused as out of bounds with status 400, and the state is unchanged |
| `Server.ScenarioOccupied` | game/game.go:46-49 | playing (0,0) twice: the second request is refused as occupied with status 400 |
| `Server.GameServer.constructor` | main.go:86 | start-up installs a fresh object whose view is the new-game state |
| `Server.GameServer.HandleGetGame` | main.go:14-16 | the GET handler returns the current flags and every cell of the board, and modifies nothing |
| `Server.GameServer.HandleResetGame` | main.go:18-21 | reset installs a freshly allocated game whose view is the new-game state, and returns that state |
| `Server.GameServer.HandlePlayerMove` | main.go:42-72 | the POST handler's response and the game's new view are exactly what `Step` gives for the old view; the game keeps its grid array and its invariant |

## Left out

- HTTP routing, the server set-up and `ListenAndServe` (main.go:75-89): transport plumbing. Start-up is kept only as the installation of a fresh game.
- Decoding the JSON request body and the malformed-request branch (main.go:24-40): `decodeJSONBody` and `malformedRequest` are defined in a file that is not part of this model. A move reaches the model already decoded, as two unbounded integers.
- JSON encoding of the game and the text of every message (game/game.go:39, 43, 47; main.go:15, 20, 68, 71). Refusals are modelled as a reason plus status 400; responses are modelled as `Rejected`, `PlayerWins(player)` or `MoveApplied`.
- The logging and status-500 branch of the POST handler (main.go:48-55): `ApplyMove` only ever returns an `InvalidMove`, so this branch cannot be reached.
- Concurrency: the handlers share one unguarded global game. The model has one sequential owner of the game.
- Draw detection: the source has none, so the model has none.
- Board shape: the source's board is a slice of slices, so a ragged or aliased board could be built in principle. The model uses a fixed 3 by 3 `array2`, which is the only shape `NewGame` ever builds.
- TicTacToe.PlayerWon: requires the move to be in range. The source indexes the board without a check and would panic out of range, but it is only called after `ApplyMove` succeeded, which guarantees the range.
- Go's 64-bit `int` for the coordinates: the source only compares them with 0 and 2, so unbounded integers behave the same.
