/**
 * The rules behind the local tic-tac-toe engine, as functions on a snapshot of
 * its nine-cell board: winner detection, the random move, the trial searches
 * for a winning or blocking move, and the move chosen at each difficulty.
 * The class in module Engine is proved against these functions.
 */
module EngineSpec {
  import opened Counting

  const BoardSize: nat := 9
  const OpenSpot: char := ' '
  const HumanPlayer: char := 'X'
  const ComputerPlayer: char := 'O'

  /** The codes returned by the winner check. */
  const NoWinner: int := 0
  const Tie: int := 1
  const HumanWins: int := 2
  const ComputerWins: int := 3

  type Index = i: int | 0 <= i < 9

  /** A snapshot of the board: nine cells, row-major. */
  type Board = b: seq<char> | |b| == 9 witness "         "

  const EmptyBoard: Board := seq(9, i => OpenSpot)

  datatype Difficulty = Easy | Harder | Expert

  /** The eight lines in the order they are scanned: rows, columns, diagonals. */
  const Lines: seq<(Index, Index, Index)> :=
    [(0, 1, 2), (3, 4, 5), (6, 7, 8),
     (0, 3, 6), (1, 4, 7), (2, 5, 8),
     (0, 4, 8), (2, 4, 6)]

  const LineCount: nat := 8

  /** Line k holds three equal marks. */
  predicate Owns(b: Board, k: nat)
    requires k < LineCount
  {
    var (x, y, z) := Lines[k];
    b[x] != OpenSpot && b[x] == b[y] && b[y] == b[z]
  }

  /** Some line is owned by mark p. */
  predicate HasLine(b: Board, p: char) {
    exists k :: 0 <= k < LineCount && Owns(b, k) && b[Lines[k].0] == p
  }

  predicate AnyLine(b: Board) {
    exists k :: 0 <= k < LineCount && Owns(b, k)
  }

  predicate Full(b: Board) {
    forall i :: 0 <= i < BoardSize ==> b[i] != OpenSpot
  }

  /** The first owned line at or after line k, or LineCount when there is none. */
  function FirstOwned(b: Board, k: nat): (r: nat)
    requires k <= LineCount
    ensures k <= r <= LineCount
    ensures r < LineCount ==> Owns(b, r)
    ensures forall j :: k <= j < r ==> !Owns(b, j)
    decreases LineCount - k
  {
    if k == LineCount then LineCount
    else if Owns(b, k) then k
    else FirstOwned(b, k + 1)
  }

  /**
   * The winner code: the owner of the first owned line decides (HumanWins for
   * 'X', ComputerWins for any other mark); otherwise Tie on a full board and
   * NoWinner while a cell is open.
   */
  function Winner(b: Board): (code: int)
    ensures NoWinner <= code <= ComputerWins
    ensures code == NoWinner ==> !Full(b) && !AnyLine(b)
    ensures code == Tie ==> Full(b) && !AnyLine(b)
    ensures code == HumanWins ==> HasLine(b, HumanPlayer)
    ensures code == ComputerWins ==> HasLineNotOf(b, HumanPlayer)
  {
    var k := FirstOwned(b, 0);
    if k < LineCount then
      (if b[Lines[k].0] == HumanPlayer then HumanWins else ComputerWins)
    else if Full(b) then Tie
    else NoWinner
  }

  /** Some line is owned by a mark other than p. */
  predicate HasLineNotOf(b: Board, p: char) {
    exists k :: 0 <= k < LineCount && Owns(b, k) && b[Lines[k].0] != p
  }

  /** Winner's code read back as statements about lines and open cells. */
  lemma WinnerMeaning(b: Board)
    ensures Winner(b) == NoWinner <==> !AnyLine(b) && !Full(b)
    ensures Winner(b) == Tie <==> !AnyLine(b) && Full(b)
    ensures Winner(b) == HumanWins ==> HasLine(b, HumanPlayer)
    ensures Winner(b) == ComputerWins ==> HasLineNotOf(b, HumanPlayer)
    ensures HasLine(b, HumanPlayer) && !HasLineNotOf(b, HumanPlayer) ==> Winner(b) == HumanWins
    ensures HasLineNotOf(b, HumanPlayer) && !HasLine(b, HumanPlayer) ==> Winner(b) == ComputerWins
  {
    var k := FirstOwned(b, 0);
    if k < LineCount {
      assert Owns(b, k);
    }
  }

  // ----- the random move -----

  /** Number of open cells in s. */
  function CountOpen(s: seq<char>): nat {
    Count(s, OpenSpot)
  }

  /**
   * Scanning from cell i, the first open cell preceded by exactly t open
   * cells, or -1.
   */
  function PickFrom(b: Board, t: nat, i: nat): int
    requires i <= BoardSize
    decreases BoardSize - i
  {
    if i == BoardSize then -1
    else if b[i] == OpenSpot && CountOpen(b[..i]) == t then i
    else PickFrom(b, t, i + 1)
  }

  lemma {:induction false} PickFromFinds(b: Board, t: nat, i: nat)
    requires i <= BoardSize
    requires CountOpen(b[..i]) <= t < CountOpen(b)
    ensures var r := PickFrom(b, t, i);
      i <= r < BoardSize && b[r] == OpenSpot && CountOpen(b[..r]) == t
    decreases BoardSize - i
  {
    assert b[..BoardSize] == b;
    if b[i] == OpenSpot && CountOpen(b[..i]) == t {
    } else {
      CountStep(b, OpenSpot, i);
      PickFromFinds(b, t, i + 1);
    }
  }

  /**
   * The random move: -1 on a full board, otherwise the open cell that has
   * exactly `draw % free` open cells before it, where `free` is the number of
   * open cells and `draw` stands for the random generator's output.
   */
  function RandomMove(b: Board, draw: nat): (r: int)
    ensures r == -1 <==> CountOpen(b) == 0
    ensures r != -1 ==> 0 <= r < BoardSize && b[r] == OpenSpot && CountOpen(b[..r]) == draw % CountOpen(b)
  {
    var free := CountOpen(b);
    if free == 0 then -1
    else
      assert b[..0] == [];
      PickFromFinds(b, draw % free, 0);
      PickFrom(b, draw % free, 0)
  }

  lemma RandomMoveMeaning(b: Board, draw: nat)
    ensures RandomMove(b, draw) == -1 <==> Full(b)
    ensures RandomMove(b, draw) != -1 ==>
      var r := RandomMove(b, draw);
      0 <= r < BoardSize && b[r] == OpenSpot && CountOpen(b[..r]) == draw % CountOpen(b)
  {
    CountZero(b, OpenSpot);
    if CountOpen(b) != 0 {
      assert b[..0] == [];
      PickFromFinds(b, draw % CountOpen(b), 0);
    }
  }

  /** Every open cell is the random move for some draw. */
  lemma EveryOpenCellCanBeDrawn(b: Board, i: Index)
    requires b[i] == OpenSpot
    ensures RandomMove(b, CountOpen(b[..i])) == i
  {
    var t := CountOpen(b[..i]);
    var free := CountOpen(b);
    CountStep(b, OpenSpot, i);
    CountPrefixGrows(b, OpenSpot, i + 1, BoardSize);
    assert b[..BoardSize] == b;
    assert 0 <= t < free;
    ModSmall(t, free);
    PickFromReaches(b, i, 0);
  }

  lemma ModSmall(t: nat, n: nat)
    requires t < n
    ensures t % n == t
  {
  }

  lemma {:induction false} PickFromReaches(b: Board, i: Index, j: nat)
    requires j <= i && b[i] == OpenSpot
    ensures PickFrom(b, CountOpen(b[..i]), j) == i
    decreases i - j
  {
    if j < i {
      CountStep(b, OpenSpot, j);
      CountPrefixGrows(b, OpenSpot, j + 1, i);
      PickFromReaches(b, i, j + 1);
    }
  }

  // ----- the trial searches -----

  /** Marking open cell i with `mark` makes the winner check return `code`. */
  predicate Completes(b: Board, mark: char, code: int, i: int) {
    0 <= i < BoardSize && b[i] == OpenSpot && Winner(b[i := mark]) == code
  }

  /** The lowest cell from `from` on that Completes, or -1. */
  function TrialFrom(b: Board, mark: char, code: int, from: nat): (r: int)
    requires from <= BoardSize
    ensures r == -1 || (from <= r < BoardSize && Completes(b, mark, code, r))
    ensures r == -1 ==> forall i :: from <= i < BoardSize ==> !Completes(b, mark, code, i)
    ensures r != -1 ==> forall i :: from <= i < r ==> !Completes(b, mark, code, i)
    decreases BoardSize - from
  {
    if from == BoardSize then -1
    else if b[from] == OpenSpot && Winner(b[from := mark]) == code then from
    else TrialFrom(b, mark, code, from + 1)
  }

  /** The lowest open cell where an 'O' wins for the computer, or -1. */
  function WinningMove(b: Board): int {
    TrialFrom(b, ComputerPlayer, ComputerWins, 0)
  }

  /** The lowest open cell where an 'X' would win for the human, or -1. */
  function BlockingMove(b: Board): int {
    TrialFrom(b, HumanPlayer, HumanWins, 0)
  }

  /** The computer's move at each difficulty; `draw` feeds the random fallback. */
  function ComputerMove(b: Board, level: Difficulty, draw: nat): (r: int)
    ensures r == -1 || (0 <= r < BoardSize && b[r] == OpenSpot)
  {
    match level
    case Easy => RandomMove(b, draw)
    case Harder =>
      var win := WinningMove(b);
      if win != -1 then win else RandomMove(b, draw)
    case Expert =>
      var win := WinningMove(b);
      if win != -1 then win
      else
        var block := BlockingMove(b);
        if block != -1 then block else RandomMove(b, draw)
  }

  /** Every difficulty plays an open cell, and gives up only on a full board. */
  lemma ComputerMoveIsLegal(b: Board, level: Difficulty, draw: nat)
    ensures ComputerMove(b, level, draw) == -1 <==> Full(b)
    ensures ComputerMove(b, level, draw) != -1 ==>
      0 <= ComputerMove(b, level, draw) < BoardSize && b[ComputerMove(b, level, draw)] == OpenSpot
  {
    RandomMoveMeaning(b, draw);
  }

  /** Harder and Expert never miss a win that one 'O' completes. */
  lemma TakesAvailableWin(b: Board, level: Difficulty, draw: nat)
    requires level != Easy
    requires exists i :: Completes(b, ComputerPlayer, ComputerWins, i)
    ensures Completes(b, ComputerPlayer, ComputerWins, ComputerMove(b, level, draw))
  {
  }

  /** With no win of its own, Expert plays where one 'X' would win for the human. */
  lemma ExpertBlocks(b: Board, draw: nat)
    requires !exists i :: Completes(b, ComputerPlayer, ComputerWins, i)
    requires exists i :: Completes(b, HumanPlayer, HumanWins, i)
    ensures Completes(b, HumanPlayer, HumanWins, ComputerMove(b, Expert, draw))
  {
  }

  /** With neither a win nor a block, Expert plays the random move. */
  lemma ExpertFallsBackToRandom(b: Board, draw: nat)
    requires !exists i :: Completes(b, ComputerPlayer, ComputerWins, i)
    requires !exists i :: Completes(b, HumanPlayer, HumanWins, i)
    ensures ComputerMove(b, Expert, draw) == RandomMove(b, draw)
  {
  }

  // ----- two openings -----

  /** A line owned by p needs three cells holding p, so two such cells are not enough. */
  lemma NoLineFromTwo(b: Board, p: char, i: Index, j: Index)
    requires forall c :: 0 <= c < BoardSize && b[c] == p ==> c == i || c == j
    ensures !HasLine(b, p)
  {
  }

  /** A board holding only open cells, 'X' and 'O', with at most two 'O', has no winner 'O'. */
  lemma NoComputerWinFromTwo(b: Board, i: Index, j: Index)
    requires forall c :: 0 <= c < BoardSize ==> b[c] == OpenSpot || b[c] == HumanPlayer || b[c] == ComputerPlayer
    requires forall c :: 0 <= c < BoardSize && b[c] == ComputerPlayer ==> c == i || c == j
    ensures Winner(b) != ComputerWins
  {
    WinnerMeaning(b);
    NoLineFromTwo(b, ComputerPlayer, i, j);
  }

  /**
   * After the human's corner opening, Expert has neither a win nor a block
   * and plays the random move: with draw 0 that is cell 1, not the centre.
   */
  lemma CornerOpeningReply()
    ensures ComputerMove(EmptyBoard[0 := HumanPlayer], Expert, 0) == 1
  {
    var b := EmptyBoard[0 := HumanPlayer];
    CornerOpeningNoThreat(b);
    ExpertFallsBackToRandom(b, 0);
    CornerOpeningFirstOpen(b);
  }

  /** After a corner opening the random move for draw 0 is cell 1, the first open cell. */
  lemma CornerOpeningFirstOpen(b: Board)
    requires b == EmptyBoard[0 := HumanPlayer]
    ensures RandomMove(b, 0) == 1
  {
    assert CountOpen(b) == 8 by {
      CountAfterWrite(EmptyBoard, 0, HumanPlayer, OpenSpot);
      EmptyBoardAllOpen();
    }
    assert b[..1] == [HumanPlayer];
  }

  /** After a corner opening no cell wins for either side. */
  lemma CornerOpeningNoThreat(b: Board)
    requires b == EmptyBoard[0 := HumanPlayer]
    ensures forall i :: 0 <= i < BoardSize ==> !Completes(b, ComputerPlayer, ComputerWins, i)
    ensures forall i :: 0 <= i < BoardSize ==> !Completes(b, HumanPlayer, HumanWins, i)
  {
    forall i | 0 <= i < BoardSize ensures !Completes(b, ComputerPlayer, ComputerWins, i) {
      if b[i] == OpenSpot {
        NoComputerWinFromTwo(b[i := ComputerPlayer], i, i);
      }
    }
    forall i | 0 <= i < BoardSize ensures !Completes(b, HumanPlayer, HumanWins, i) {
      if b[i] == OpenSpot {
        var b' := b[i := HumanPlayer];
        WinnerMeaning(b');
        NoLineFromTwo(b', HumanPlayer, 0, i);
      }
    }
  }

  lemma EmptyBoardAllOpen()
    ensures CountOpen(EmptyBoard) == BoardSize
  {
    CountAll(EmptyBoard, OpenSpot);
  }

  /** With 'X' on cells 0 and 1 and 'O' on cell 3, Expert blocks at cell 2 whatever the draw. */
  lemma ExpertBlocksTopRow(draw: nat)
    ensures ComputerMove(EmptyBoard[0 := HumanPlayer][1 := HumanPlayer][3 := ComputerPlayer], Expert, draw) == 2
  {
    var b := EmptyBoard[0 := HumanPlayer][1 := HumanPlayer][3 := ComputerPlayer];
    forall i | 0 <= i < BoardSize ensures !Completes(b, ComputerPlayer, ComputerWins, i) {
      if b[i] == OpenSpot {
        NoComputerWinFromTwo(b[i := ComputerPlayer], 3, i);
      }
    }
    assert WinningMove(b) == -1;
    var b' := b[2 := HumanPlayer];
    assert Owns(b', 0);
    assert FirstOwned(b', 0) == 0;
    assert Completes(b, HumanPlayer, HumanWins, 2);
    assert BlockingMove(b) == 2;
  }
}
