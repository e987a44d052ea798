/**
 * The local game engine: a nine-cell board changed in place, the difficulty
 * setting, and the computer player. Each method is proved against the
 * functions of module EngineSpec. The injected random generator is not a
 * field: each method that needs a random number takes `draw`, and uses
 * `draw % n` where the app asks its generator for a number below n.
 */
module Engine {
  import opened Counting
  import opened EngineSpec

  class TicTacToeGame {
    const board: array<char>
    var difficulty: Difficulty

    ghost predicate Valid() {
      board.Length == BoardSize
    }

    /** The board's current contents. */
    ghost function Cells(): Board
      reads board
      requires Valid()
    {
      board[..]
    }

    /** A fresh engine: an open board and the Expert difficulty. */
    constructor ()
      ensures Valid() && fresh(board)
      ensures Cells() == EmptyBoard && difficulty == Expert
    {
      board := new char[BoardSize](i => OpenSpot);
      difficulty := Expert;
    }

    method GetDifficultyLevel() returns (level: Difficulty)
      ensures level == difficulty
    {
      level := difficulty;
    }

    method SetDifficultyLevel(level: Difficulty)
      modifies this
      ensures difficulty == level
    {
      difficulty := level;
    }

    method ClearBoard()
      requires Valid()
      modifies board
      ensures Cells() == EmptyBoard
    {
      var i := 0;
      while i < BoardSize
        invariant 0 <= i <= BoardSize
        invariant forall j :: 0 <= j < i ==> board[j] == OpenSpot
      {
        board[i] := OpenSpot;
        i := i + 1;
      }
    }

    /**
     * Places `player` at `location` when the location is on the board and the
     * cell is open; otherwise changes nothing and answers false.
     */
    method SetMove(player: char, location: int) returns (placed: bool)
      requires Valid()
      modifies board
      ensures placed <==> 0 <= location < BoardSize && old(Cells())[location] == OpenSpot
      ensures Cells() == if placed then old(Cells())[location := player] else old(Cells())
    {
      if location < 0 || location >= BoardSize {
        return false;
      }
      if board[location] != OpenSpot {
        return false;
      }
      board[location] := player;
      return true;
    }

    /** The winner code of the current board; the board is only read. */
    method CheckForWinner() returns (code: int)
      requires Valid()
      ensures code == Winner(Cells())
    {
      ghost var b := Cells();
      var k := 0;
      while k < |Lines|
        invariant 0 <= k <= LineCount
        invariant forall j :: 0 <= j < k ==> !Owns(b, j)
      {
        var (x, y, z) := Lines[k];
        if board[x] != OpenSpot && board[x] == board[y] && board[y] == board[z] {
          assert Owns(b, k);
          return if board[x] == HumanPlayer then HumanWins else ComputerWins;
        }
        k := k + 1;
      }
      var filled := true;
      var i := 0;
      while i < BoardSize
        invariant 0 <= i <= BoardSize
        invariant filled
        invariant forall j :: 0 <= j < i ==> board[j] != OpenSpot
      {
        if board[i] == OpenSpot {
          filled := false;
          break;
        }
        i := i + 1;
      }
      return if filled then Tie else NoWinner;
    }

    /** The random move: -1 on a full board, else the `draw % free`-th open cell. */
    method GetRandomMove(draw: nat) returns (move: int)
      requires Valid()
      ensures move == RandomMove(Cells(), draw)
    {
      ghost var b := Cells();
      var freeCount := 0;
      var i := 0;
      while i < BoardSize
        invariant 0 <= i <= BoardSize
        invariant freeCount == CountOpen(b[..i])
      {
        CountStep(b, OpenSpot, i);
        if board[i] == OpenSpot {
          freeCount := freeCount + 1;
        }
        i := i + 1;
      }
      assert b[..BoardSize] == b;
      if freeCount == 0 {
        return -1;
      }
      var target := draw % freeCount;
      var seen := 0;
      i := 0;
      while i < BoardSize
        invariant 0 <= i <= BoardSize
        invariant seen == CountOpen(b[..i])
        invariant PickFrom(b, target, i) == PickFrom(b, target, 0)
      {
        CountStep(b, OpenSpot, i);
        if board[i] == OpenSpot {
          if seen == target {
            return i;
          }
          seen := seen + 1;
        }
        i := i + 1;
      }
      return -1;
    }

    /**
     * Tries `mark` on each open cell in index order, undoing every trial, and
     * answers the first cell where the winner check gives `code`, or -1.
     */
    method TrialSearch(mark: char, code: int) returns (move: int)
      requires Valid()
      modifies board
      ensures move == TrialFrom(old(Cells()), mark, code, 0)
      ensures Cells() == old(Cells())
    {
      ghost var b := Cells();
      var i := 0;
      while i < BoardSize
        invariant 0 <= i <= BoardSize
        invariant Cells() == b
        invariant TrialFrom(b, mark, code, i) == TrialFrom(b, mark, code, 0)
      {
        if board[i] == OpenSpot {
          board[i] := mark;
          assert Cells() == b[i := mark];
          var w := CheckForWinner();
          board[i] := OpenSpot;
          assert Cells() == b;
          if w == code {
            return i;
          }
        }
        i := i + 1;
      }
      return -1;
    }

    /** The lowest open cell where an 'O' wins; the board ends as it began. */
    method GetWinningMove() returns (move: int)
      requires Valid()
      modifies board
      ensures move == WinningMove(old(Cells()))
      ensures Cells() == old(Cells())
    {
      move := TrialSearch(ComputerPlayer, ComputerWins);
    }

    /** The lowest open cell where an 'X' would win; the board ends as it began. */
    method GetBlockingMove() returns (move: int)
      requires Valid()
      modifies board
      ensures move == BlockingMove(old(Cells()))
      ensures Cells() == old(Cells())
    {
      move := TrialSearch(HumanPlayer, HumanWins);
    }

    /** The computer's move at the current difficulty; the board ends as it began. */
    method GetComputerMove(draw: nat) returns (move: int)
      requires Valid()
      modifies board
      ensures move == ComputerMove(old(Cells()), difficulty, draw)
      ensures Cells() == old(Cells())
    {
      match difficulty
      case Easy =>
        move := GetRandomMove(draw);
      case Harder =>
        var win := GetWinningMove();
        if win != -1 {
          move := win;
        } else {
          move := GetRandomMove(draw);
        }
      case Expert =>
        move := GetWinningMove();
        if move == -1 {
          move := GetBlockingMove();
        }
        if move == -1 {
          move := GetRandomMove(draw);
        }
    }

    /** A fresh copy of the board, cell for cell. */
    method GetBoardSnapshot() returns (snap: array<char>)
      requires Valid()
      ensures fresh(snap) && snap[..] == Cells()
    {
      snap := new char[BoardSize];
      var i := 0;
      while i < BoardSize
        invariant 0 <= i <= BoardSize
        invariant forall j :: 0 <= j < i ==> snap[j] == board[j]
      {
        snap[i] := board[i];
        i := i + 1;
      }
    }

    /** The mark in cell `index`, or an open spot for an index off the board. */
    method GetBoardOccupant(index: int) returns (c: char)
      requires Valid()
      ensures 0 <= index < BoardSize ==> c == Cells()[index]
      ensures !(0 <= index < BoardSize) ==> c == OpenSpot
    {
      if index >= 0 && index < BoardSize {
        var snap := GetBoardSnapshot();
        c := snap[index];
      } else {
        c := OpenSpot;
      }
    }
  }
}
