/** The rules engine of the tic-tac-toe server (package `game`): the game
    object, move validation and placement, and the win query. */
module TicTacToe {

  /** The HTTP status every rejected move carries (400 Bad Request). */
  const StatusBadRequest: int := 400

  /** Cell contents: the empty string marks an unoccupied cell. */
  const Empty: string := ""
  const MarkX: string := "X"
  const MarkO: string := "O"

  /** The grid is 3 by 3 and is never resized. */
  const Size: int := 3

  predicate IsCell(c: string) {
    c == Empty || c == MarkX || c == MarkO
  }

  /** The mark of the player whose turn it is: "X" exactly when X is next,
      "O" otherwise, never the empty cell. */
  function Mark(xIsNext: bool): (mark: string)
    ensures IsCell(mark) && mark != Empty
    ensures mark == MarkX <==> xIsNext
  {
    if xIsNext then MarkX else MarkO
  }

  /** A move names a row `x` and a column `y`; the request may hold any integers. */
  datatype Move = Move(x: int, y: int)

  predicate InBounds(m: Move) {
    0 <= m.x < Size && 0 <= m.y < Size
  }

  /** Why a move was refused. */
  datatype Reason = GameIsOver | OutOfBounds | Occupied

  /** The error value a refused move produces, with its HTTP status. */
  datatype InvalidMove = InvalidMove(reason: Reason, status: int)

  /** What applying a move returns: no error, or an `InvalidMove`. */
  datatype Outcome = Success | Failure(error: InvalidMove)

  type Board = seq<seq<string>>

  /** A value view of the game: what the server serialises and what the
      specification functions below work on. */
  datatype State = State(gameOver: bool, xIsNext: bool, board: Board)

  predicate WellFormed(s: State) {
    |s.board| == Size &&
    forall i :: 0 <= i < Size ==>
      |s.board[i]| == Size && forall j :: 0 <= j < Size ==> IsCell(s.board[i][j])
  }

  /** The state of a fresh game: not over, X to move, nine empty cells. */
  function InitialState(): (s: State)
    ensures WellFormed(s) && !s.gameOver && s.xIsNext
    ensures forall i, j :: 0 <= i < Size && 0 <= j < Size ==> s.board[i][j] == Empty
  {
    State(false, true, [[Empty, Empty, Empty], [Empty, Empty, Empty], [Empty, Empty, Empty]])
  }

  /** Applying a move to a game state: the three checks in their fixed order,
      then the current player's mark written into the target cell. */
  function Apply(s: State, m: Move): (r: (Outcome, State))
    requires WellFormed(s)
    ensures WellFormed(r.1)
    // every refusal carries status 400
    ensures r.0.Failure? ==> r.0.error.status == StatusBadRequest
    // the first failing check decides the error
    ensures s.gameOver ==> r.0 == Failure(InvalidMove(GameIsOver, StatusBadRequest))
    ensures !s.gameOver && !InBounds(m) ==> r.0 == Failure(InvalidMove(OutOfBounds, StatusBadRequest))
    ensures !s.gameOver && InBounds(m) && s.board[m.x][m.y] != Empty ==>
              r.0 == Failure(InvalidMove(Occupied, StatusBadRequest))
    // success exactly when the game is running, the move in range, the cell free
    ensures r.0 == Success <==> !s.gameOver && InBounds(m) && s.board[m.x][m.y] == Empty
    // a refused move changes nothing
    ensures r.0.Failure? ==> r.1 == s
    // an accepted move writes the mover's mark into its cell and nothing else
    ensures r.0 == Success ==>
              r.1.gameOver == s.gameOver && r.1.xIsNext == s.xIsNext &&
              r.1.board[m.x][m.y] == Mark(s.xIsNext) &&
              forall i, j :: 0 <= i < Size && 0 <= j < Size && (i != m.x || j != m.y) ==>
                r.1.board[i][j] == s.board[i][j]
  {
    if s.gameOver then
      (Failure(InvalidMove(GameIsOver, StatusBadRequest)), s)
    else if m.x < 0 || m.x > 2 || m.y < 0 || m.y > 2 then
      (Failure(InvalidMove(OutOfBounds, StatusBadRequest)), s)
    else if s.board[m.x][m.y] != Empty then
      (Failure(InvalidMove(Occupied, StatusBadRequest)), s)
    else
      var row := s.board[m.x][m.y := Mark(s.xIsNext)];
      (Success, s.(board := s.board[m.x := row]))
  }

  /** The win rule exactly as the engine implements it: row `m.x` AND column
      `m.y` both entirely `p`, or the main diagonal entirely `p` wherever the
      move lies. The anti-diagonal is never looked at. */
  predicate Wins(p: string, m: Move, b: Board): (w: bool)
    requires |b| == Size && forall i :: 0 <= i < Size ==> |b[i]| == Size
    requires InBounds(m)
    // a complete main diagonal is a win whatever cell was played
    ensures b[0][0] == p && b[1][1] == p && b[2][2] == p ==> w
    // any other win runs through the played cell, which then holds `p`
    ensures w && !(b[0][0] == p && b[1][1] == p && b[2][2] == p) ==> b[m.x][m.y] == p
  {
    (forall k :: 0 <= k < Size ==> b[m.x][k] == p && b[k][m.y] == p) ||
    (forall k :: 0 <= k < Size ==> b[k][k] == p)
  }

  /** Two 3 by 3 boards that agree cell by cell are the same board. */
  lemma SameCells(a: Board, b: Board)
    requires |a| == Size && forall i :: 0 <= i < Size ==> |a[i]| == Size
    requires |b| == Size && forall i :: 0 <= i < Size ==> |b[i]| == Size
    requires forall i, j :: 0 <= i < Size && 0 <= j < Size ==> a[i][j] == b[i][j]
    ensures a == b
  {
    forall i | 0 <= i < Size ensures a[i] == b[i] {
      assert forall j :: 0 <= j < Size ==> a[i][j] == b[i][j];
    }
  }

  /** The usual tic-tac-toe rule, as an independent reference: some row, some
      column or one of the two diagonals is entirely `p`. */
  predicate HasLine(p: string, b: Board)
    requires |b| == Size && forall i :: 0 <= i < Size ==> |b[i]| == Size
  {
    (exists i :: 0 <= i < Size && b[i][0] == p && b[i][1] == p && b[i][2] == p) ||
    (exists j :: 0 <= j < Size && b[0][j] == p && b[1][j] == p && b[2][j] == p) ||
    (b[0][0] == p && b[1][1] == p && b[2][2] == p) ||
    (b[0][2] == p && b[1][1] == p && b[2][0] == p)
  }

  /** The engine never declares a win without a complete line. */
  lemma WinsIsSound(p: string, m: Move, b: Board)
    requires |b| == Size && forall i :: 0 <= i < Size ==> |b[i]| == Size
    requires InBounds(m)
    ensures Wins(p, m, b) ==> HasLine(p, b)
  {
  }

  /** The rule reads only the move's row, the move's column and the main
      diagonal: two boards that agree there get the same answer, whatever the
      anti-diagonal and the other cells hold. */
  lemma WinsReadsOnlyItsLines(p: string, m: Move, a: Board, b: Board)
    requires |a| == Size && forall i :: 0 <= i < Size ==> |a[i]| == Size
    requires |b| == Size && forall i :: 0 <= i < Size ==> |b[i]| == Size
    requires InBounds(m)
    requires forall k :: 0 <= k < Size ==> a[m.x][k] == b[m.x][k] && a[k][m.y] == b[k][m.y]
    requires forall k :: 0 <= k < Size ==> a[k][k] == b[k][k]
    ensures Wins(p, m, a) <==> Wins(p, m, b)
  {
  }

  /** A complete anti-diagonal is not a win: X holds (0,2), (1,1), (2,0) and
      has just played (0,2), yet the rule answers false. */
  lemma AntiDiagonalIgnored()
    ensures var b := [[Empty, Empty, MarkX], [MarkO, MarkX, MarkO], [MarkX, Empty, Empty]];
            HasLine(MarkX, b) && !Wins(MarkX, Move(0, 2), b)
  {
  }

  /** A complete row alone is not a win: X fills row 0 by playing (0,2), but
      column 2 is not all X. */
  lemma FullRowIgnored()
    ensures var b := [[MarkX, MarkX, MarkX], [MarkO, MarkO, Empty], [Empty, Empty, Empty]];
            HasLine(MarkX, b) && !Wins(MarkX, Move(0, 2), b)
  {
    var b := [[MarkX, MarkX, MarkX], [MarkO, MarkO, Empty], [Empty, Empty, Empty]];
    assert b[0][0] == MarkX && b[0][1] == MarkX && b[0][2] == MarkX;
    assert b[1][2] != MarkX && b[1][1] != MarkX;
  }

  /** The game object the server mutates: the fields of the source's struct,
      with the grid as a fixed 3 by 3 array. */
  class Game {
    var gameOver: bool
    var xIsNext: bool
    var board: array2<string>

    ghost predicate Valid()
      reads this, board
    {
      board.Length0 == Size && board.Length1 == Size &&
      forall i, j :: 0 <= i < Size && 0 <= j < Size ==> IsCell(board[i, j])
    }

    /** Row `i` of the grid as a sequence. */
    function Row(i: int): (row: seq<string>)
      reads this, board
      requires Valid() && 0 <= i < Size
      ensures |row| == Size && forall j :: 0 <= j < Size ==> row[j] == board[i, j]
    {
      [board[i, 0], board[i, 1], board[i, 2]]
    }

    /** The value the game currently holds. */
    function Snapshot(): (s: State)
      reads this, board
      requires Valid()
      ensures WellFormed(s) && s.gameOver == gameOver && s.xIsNext == xIsNext
      ensures forall i, j :: 0 <= i < Size && 0 <= j < Size ==> s.board[i][j] == board[i, j]
    {
      State(gameOver, xIsNext, [Row(0), Row(1), Row(2)])
    }

    /** A fresh game: not over, X to move, every cell empty. */
    constructor NewGame()
      ensures Valid() && fresh(board)
      ensures Snapshot() == InitialState()
    {
      gameOver := false;
      xIsNext := true;
      board := new string[Size, Size]((i, j) => Empty);
    }
  }

  /** Validates `move` against `game` and, if it is legal, writes the current
      player's mark into the grid in place. */
  method ApplyMove(move: Move, game: Game) returns (r: Outcome)
    requires game.Valid()
    modifies game.board
    ensures game.Valid()
    ensures (r, game.Snapshot()) == Apply(old(game.Snapshot()), move)
  {
    if game.gameOver {
      return Failure(InvalidMove(GameIsOver, StatusBadRequest));
    }
    if move.x < 0 || move.x > 2 || move.y < 0 || move.y > 2 {
      return Failure(InvalidMove(OutOfBounds, StatusBadRequest));
    }
    if game.board[move.x, move.y] != Empty {
      return Failure(InvalidMove(Occupied, StatusBadRequest));
    }

    var playerMark: string;
    if game.xIsNext {
      playerMark := MarkX;
    } else {
      playerMark := MarkO;
    }

    ghost var before := old(game.Snapshot());
    game.board[move.x, move.y] := playerMark;
    r := Success;
    SameCells(game.Snapshot().board, Apply(before, move).1.board);
  }

  /** The read-only win query: two loops with early exit, one over the row and
      column of the move, one down the main diagonal. */
  method PlayerWon(player: string, move: Move, game: Game) returns (won: bool)
    requires game.Valid()
    requires InBounds(move)
    ensures won == Wins(player, move, game.Snapshot().board)
  {
    var winOnRow := true;
    var rc := 0;
    while rc < Size
      invariant 0 <= rc <= Size
      invariant winOnRow
      invariant forall k :: 0 <= k < rc ==> game.board[move.x, k] == player && game.board[k, move.y] == player
    {
      if game.board[move.x, rc] != player || game.board[rc, move.y] != player {
        winOnRow := false;
        break;
      }
      rc := rc + 1;
    }

    var winOnCol := true;
    var x, y := 0, 0;
    while x < Size
      invariant 0 <= x <= Size && y == x
      invariant winOnCol
      invariant forall k :: 0 <= k < x ==> game.board[k, k] == player
    {
      if game.board[x, y] != player {
        winOnCol := false;
        break;
      }
      x, y := x + 1, y + 1;
    }

    won := winOnRow || winOnCol;
  }
}
