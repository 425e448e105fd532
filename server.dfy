/** The server's orchestration of one shared game (package `main`): the
    post-move step that sets `gameOver` or hands the turn over, reset, and
    the read-only view. */
module Server {
  import opened TicTacToe

  const StatusOK: int := 200

  /** What a POST of a move answers. */
  datatype Response =
    | Rejected(error: InvalidMove)  // the engine refused the move
    | PlayerWins(player: string)    // the move won the game for `player`
    | MoveApplied                   // the move was placed and the turn passes
  {
    /** The HTTP status written back: the engine's status for a refusal,
        the default 200 once the move is accepted. */
    function Status(): (code: int)
      ensures Rejected? ==> code == error.status
      ensures !Rejected? ==> code == StatusOK
    {
      if Rejected? then error.status else StatusOK
    }
  }

  /** One move request handled against a game state: apply the move; on a
      refusal stop there; otherwise ask whether the mover won and either end
      the game or hand the turn to the other player. */
  function Step(s: State, m: Move): (r: (Response, State))
    requires WellFormed(s)
    ensures WellFormed(r.1)
    // a refused move is answered with status 400 and changes nothing
    ensures r.0.Rejected? <==> Apply(s, m).0.Failure?
    ensures r.0.Rejected? ==> r.0.Status() == StatusBadRequest && r.1 == s
    // the refusal carries the engine's own error, reason included
    ensures r.0.Rejected? ==> r.0.error == Apply(s, m).0.error
    // a finished game stays finished
    ensures s.gameOver ==> r.1 == s
    // a winning move ends the game without flipping the turn; the winner is
    // the mark that was just written into the played cell
    ensures r.0.PlayerWins? ==>
              InBounds(m) && r.0.player == Mark(s.xIsNext) &&
              r.1.board[m.x][m.y] == r.0.player &&
              r.1.gameOver && r.1.xIsNext == s.xIsNext &&
              Wins(r.0.player, m, r.1.board)
    // any other accepted move keeps the game running and flips the turn
    ensures r.0 == MoveApplied ==>
              InBounds(m) && !r.1.gameOver && r.1.xIsNext == !s.xIsNext &&
              !Wins(Mark(s.xIsNext), m, r.1.board)
    // either way the board is the one the engine produced
    ensures !r.0.Rejected? ==> r.1.board == Apply(s, m).1.board
  {
    var (err, t) := Apply(s, m);
    if err.Failure? then
      (Rejected(err.error), t)
    else
      var player := Mark(t.xIsNext);
      if Wins(player, m, t.board) then
        (PlayerWins(player), t.(gameOver := true))
      else
        (MoveApplied, t.(xIsNext := !t.xIsNext))
  }

  /** The state after a sequence of move requests, in order. */
  function Run(s: State, moves: seq<Move>): (t: State)
    requires WellFormed(s)
    ensures WellFormed(t)
    decreases |moves|
  {
    if moves == [] then s else Run(Step(s, moves[0]).1, moves[1..])
  }

  /** Once a game is over every further move is refused: the state is frozen
      until a reset. */
  lemma {:induction false} GameOverIsFinal(s: State, moves: seq<Move>)
    requires WellFormed(s) && s.gameOver
    ensures Run(s, moves) == s
    decreases |moves|
  {
    if moves != [] {
      GameOverIsFinal(Step(s, moves[0]).1, moves[1..]);
    }
  }

  /** `gameOver` never goes from true back to false within one game. */
  lemma {:induction false} GameOverMonotone(s: State, moves: seq<Move>)
    requires WellFormed(s)
    ensures s.gameOver ==> Run(s, moves).gameOver
  {
    if s.gameOver {
      GameOverIsFinal(s, moves);
    }
  }

  /** A cell once marked keeps its mark for the rest of the game. */
  lemma {:induction false} MarksPersist(s: State, moves: seq<Move>, i: int, j: int)
    requires WellFormed(s)
    requires 0 <= i < Size && 0 <= j < Size && s.board[i][j] != Empty
    ensures Run(s, moves).board[i][j] == s.board[i][j]
    decreases |moves|
  {
    if moves != [] {
      var t := Step(s, moves[0]).1;
      assert t.board[i][j] == s.board[i][j];
      MarksPersist(t, moves[1..], i, j);
    }
  }

  /** How many cells of the board hold `p`. */
  function Count(b: Board, p: string): nat
    requires |b| == Size
  {
    multiset(b[0])[p] + multiset(b[1])[p] + multiset(b[2])[p]
  }

  /** Turns alternate: X moves first, so while the game runs there are as
      many X marks as O marks when X is to move and one more X otherwise;
      a win freezes `xIsNext` on the winner, so the balance is the reverse
      once the game is over. */
  predicate TurnsBalanced(s: State)
    requires WellFormed(s)
  {
    var xs, os := Count(s.board, MarkX), Count(s.board, MarkO);
    if s.xIsNext != s.gameOver then xs == os else xs == os + 1
  }

  /** Writing `v` over an empty cell adds one `v` and leaves every other
      mark's count alone. */
  lemma PlaceCounts(b: Board, x: int, y: int, v: string, p: string)
    requires |b| == Size && forall i :: 0 <= i < Size ==> |b[i]| == Size
    requires 0 <= x < Size && 0 <= y < Size && b[x][y] == Empty && p != Empty
    ensures Count(b[x := b[x][y := v]], p) == Count(b, p) + (if p == v then 1 else 0)
  {
    var row := b[x][y := v];
    var b' := b[x := row];
    assert multiset(row) == multiset(b[x]) - multiset{Empty} + multiset{v};
    assert multiset(row)[p] == multiset(b[x])[p] + (if p == v then 1 else 0);
    if x == 0 {
      assert b'[1] == b[1] && b'[2] == b[2];
    } else if x == 1 {
      assert b'[0] == b[0] && b'[2] == b[2];
    } else {
      assert b'[0] == b[0] && b'[1] == b[1];
    }
  }

  /** A fresh game is balanced. */
  lemma InitialBalanced()
    ensures TurnsBalanced(InitialState())
    ensures Count(InitialState().board, MarkX) == 0 && Count(InitialState().board, MarkO) == 0
  {
  }

  /** Every step keeps the turn balance. */
  lemma StepKeepsBalance(s: State, m: Move)
    requires WellFormed(s) && TurnsBalanced(s)
    ensures TurnsBalanced(Step(s, m).1)
  {
    var (err, t) := Apply(s, m);
    if err == Success {
      var mark := Mark(s.xIsNext);
      assert t.board == s.board[m.x := s.board[m.x][m.y := mark]];
      PlaceCounts(s.board, m.x, m.y, mark, MarkX);
      PlaceCounts(s.board, m.x, m.y, mark, MarkO);
    }
  }

  /** Any sequence of requests keeps the turn balance. */
  lemma {:induction false} RunKeepsBalance(s: State, moves: seq<Move>)
    requires WellFormed(s) && TurnsBalanced(s)
    ensures TurnsBalanced(Run(s, moves))
    decreases |moves|
  {
    if moves != [] {
      StepKeepsBalance(s, moves[0]);
      RunKeepsBalance(Step(s, moves[0]).1, moves[1..]);
    }
  }

  /** Every game reached from a fresh one is balanced. */
  lemma ReachableBalanced(moves: seq<Move>)
    ensures TurnsBalanced(Run(InitialState(), moves))
  {
    InitialBalanced();
    RunKeepsBalance(InitialState(), moves);
  }

  /** A game that a request has just ended was ended by a real line of the
      winner's marks. */
  lemma WinIsReal(s: State, m: Move)
    requires WellFormed(s)
    requires Step(s, m).0.PlayerWins?
    ensures HasLine(Step(s, m).0.player, Step(s, m).1.board)
  {
  }

  /** X (0,0), O (0,1), X (1,1), O (2,2), X (0,2): row 0 is X, O, X and
      column 2 is X, _, O, and the main diagonal is X, X, O, so X has not won
      and the game goes on with O to move. */
  lemma ScenarioNoWin()
    ensures var s := Run(InitialState(), [Move(0, 0), Move(0, 1), Move(1, 1), Move(2, 2), Move(0, 2)]);
            !s.gameOver && !s.xIsNext &&
            s.board[0][0] == MarkX && s.board[0][1] == MarkO && s.board[0][2] == MarkX &&
            s.board[1][1] == MarkX && s.board[2][2] == MarkO
  {
  }

  /** X (0,0), O (0,1), X (1,1), O (0,2), X (2,2): X completes the main
      diagonal; the game ends and the turn stays with X. */
  lemma ScenarioDiagonalWin()
    ensures var before := Run(InitialState(), [Move(0, 0), Move(0, 1), Move(1, 1), Move(0, 2)]);
            var last := Step(before, Move(2, 2));
            !before.gameOver && before.xIsNext &&
            last.0 == PlayerWins(MarkX) && last.1.gameOver && last.1.xIsNext
  {
  }

  /** A move off the board on a fresh game is refused as out of bounds. */
  lemma ScenarioOutOfBounds()
    ensures Step(InitialState(), Move(5, 0)) ==
            (Rejected(InvalidMove(OutOfBounds, StatusBadRequest)), InitialState())
  {
  }

  /** Playing the same cell twice: the second request is refused as occupied. */
  lemma ScenarioOccupied()
    ensures var s := Step(InitialState(), Move(0, 0)).1;
            Step(s, Move(0, 0)).0 == Rejected(InvalidMove(Occupied, StatusBadRequest))
  {
    var t := Apply(InitialState(), Move(0, 0)).1;
    assert t.board[0][1] == Empty && t.board[1][1] == Empty;
    var s := Step(InitialState(), Move(0, 0)).1;
    assert !s.gameOver && s.board[0][0] == MarkX;
  }

  /** The single shared game the handlers work on. */
  class GameServer {
    var currentGame: Game

    ghost predicate Valid()
      reads this, currentGame, currentGame.board
    {
      currentGame.Valid()
    }

    /** Start-up installs a fresh game. */
    constructor ()
      ensures Valid() && fresh(currentGame) && fresh(currentGame.board)
      ensures currentGame.Snapshot() == InitialState()
    {
      currentGame := new Game.NewGame();
    }

    /** GET: report the current game; nothing changes. */
    method HandleGetGame() returns (view: State)
      requires Valid()
      ensures WellFormed(view)
      ensures view.gameOver == currentGame.gameOver && view.xIsNext == currentGame.xIsNext
      ensures forall i, j :: 0 <= i < Size && 0 <= j < Size ==> view.board[i][j] == currentGame.board[i, j]
    {
      view := currentGame.Snapshot();
    }

    /** DELETE: replace the game with a fresh one and report it. */
    method HandleResetGame() returns (view: State)
      modifies this
      ensures Valid() && fresh(currentGame) && fresh(currentGame.board)
      ensures currentGame.Snapshot() == InitialState() && view == InitialState()
    {
      currentGame := new Game.NewGame();
      view := currentGame.Snapshot();
    }

    /** POST: apply the move; on success check for a win by the mover and
        either end the game or pass the turn. */
    method HandlePlayerMove(move: Move) returns (resp: Response)
      requires Valid()
      modifies currentGame, currentGame.board
      ensures Valid() && currentGame.board == old(currentGame.board)
      ensures (resp, currentGame.Snapshot()) == Step(old(currentGame.Snapshot()), move)
    {
      ghost var before := currentGame.Snapshot();
      var err := ApplyMove(move, currentGame);
      if err.Failure? {
        return Rejected(err.error);
      }

      var player: string;
      if currentGame.xIsNext {
        player := MarkX;
      } else {
        player := MarkO;
      }

      var win := PlayerWon(player, move, currentGame);
      if win {
        currentGame.gameOver := true;
        resp := PlayerWins(player);
      } else {
        currentGame.xIsNext := !currentGame.xIsNext;
        resp := MoveApplied;
      }
      SameCells(currentGame.Snapshot().board, Step(before, move).1.board);
    }
  }
}
