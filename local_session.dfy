/**
 * The local game screen: a human ('X') against the computer ('O') on one
 * engine. A touch on the board places the human's mark and, when the game
 * goes on, the computer's reply; the screen's state can be saved and restored.
 * The one-second pause before the computer's reply is not modelled: the reply
 * follows the human's move at once.
 */
module LocalSession {
  import opened Wrappers
  import opened Counting
  import opened EngineSpec
  import opened Engine

  /** The messages of the information line. */
  datatype Message = FirstHuman | TurnHuman | TurnComputer | ResultTie | ResultHumanWins | ResultComputerWins

  /** The saved instance state; each entry may be absent. */
  datatype SavedState = SavedState(
    board: Option<seq<char>>,
    gameOver: Option<bool>,
    info: Option<Message>,
    difficulty: Option<int>)

  /** The position of a level in the declaration order Easy, Harder, Expert. */
  function Ordinal(level: Difficulty): nat {
    match level
    case Easy => 0
    case Harder => 1
    case Expert => 2
  }

  /** The level at position n; any number outside 0..2 gives Expert. */
  function LevelOf(n: int): (level: Difficulty)
    ensures 0 <= n <= 2 ==> Ordinal(level) == n
    ensures !(0 <= n <= 2) ==> level == Expert
  {
    if n == 0 then Easy else if n == 1 then Harder else Expert
  }

  /** The message for a final winner code. */
  function ResultMessage(code: int): (m: Message)
    requires Tie <= code <= ComputerWins
    ensures code == Tie <==> m == ResultTie
    ensures code == HumanWins <==> m == ResultHumanWins
    ensures code == ComputerWins <==> m == ResultComputerWins
  {
    if code == Tie then ResultTie
    else if code == HumanWins then ResultHumanWins
    else ResultComputerWins
  }

  predicate IsMark(c: char) {
    c == HumanPlayer || c == ComputerPlayer
  }

  /** Every cell is open or holds one of the two marks. */
  predicate PlayerCells(b: Board) {
    forall i :: 0 <= i < BoardSize ==> b[i] == OpenSpot || IsMark(b[i])
  }

  /**
   * The board rebuilt from saved characters: each of the first nine saved
   * characters that is a mark is placed in its cell, everything else is open.
   */
  function RestoredBoard(saved: Option<seq<char>>): (b: Board)
    ensures PlayerCells(b)
  {
    seq(BoardSize, i requires 0 <= i < BoardSize =>
      if saved.Some? && i < |saved.value| && IsMark(saved.value[i]) then saved.value[i] else OpenSpot)
  }

  /** Kotlin's integer division, which truncates toward zero. */
  function Quot(a: int, d: int): (q: int)
    requires d > 0
    ensures a >= 0 ==> q * d <= a < q * d + d
    ensures a < 0 ==> q * d - d < a <= q * d
  {
    if a >= 0 then a / d else -((-a) / d)
  }

  /** The cell index a touch at (x, y) computes: row times three plus column. */
  function TouchedCell(x: int, y: int, cellW: int, cellH: int): int
    requires cellW > 0 && cellH > 0
  {
    Quot(y, cellH) * 3 + Quot(x, cellW)
  }

  /** A touched cell on the board is the one whose rectangle holds the touch. */
  lemma TouchedCellHit(x: int, y: int, cellW: int, cellH: int)
    requires cellW > 0 && cellH > 0
    requires 0 <= x < 3 * cellW && 0 <= y < 3 * cellH
    ensures var p := TouchedCell(x, y, cellW, cellH);
      0 <= p < BoardSize && (p % 3) * cellW <= x < (p % 3) * cellW + cellW
      && (p / 3) * cellH <= y < (p / 3) * cellH + cellH
  {
    var c := Quot(x, cellW);
    var r := Quot(y, cellH);
    QuotBelowThree(x, cellW);
    QuotBelowThree(y, cellH);
    assert (r * 3 + c) % 3 == c && (r * 3 + c) / 3 == r;
  }

  /** A coordinate inside three cells falls in cell 0, 1 or 2. */
  lemma QuotBelowThree(a: int, d: int)
    requires d > 0 && 0 <= a < 3 * d
    ensures 0 <= Quot(a, d) < 3
  {
    var q := Quot(a, d);
    if q >= 3 {
      MulMono(3, q, d);
    }
  }

  lemma MulMono(p: int, q: int, d: int)
    requires p <= q && d > 0
    ensures p * d <= q * d
  {
  }

  /** The board, the game-over flag and the information line after one touch. */
  datatype Turn = Turn(board: Board, over: bool, info: Message)

  /**
   * The human plays the open cell `pos`; if that ends the game the result is
   * shown, otherwise the computer replies at `level` and the game is either
   * over or back to the human.
   */
  function PlayTurn(b: Board, pos: Index, level: Difficulty, draw: nat): (t: Turn)
    requires b[pos] == OpenSpot
    ensures t.board[pos] == HumanPlayer
    ensures t.over <==> Winner(t.board) != NoWinner
    ensures t.over ==> t.info == ResultMessage(Winner(t.board))
    ensures !t.over ==> t.info == TurnHuman
  {
    var afterHuman := b[pos := HumanPlayer];
    var w := Winner(afterHuman);
    if w != NoWinner then Turn(afterHuman, true, ResultMessage(w))
    else
      var m := ComputerMove(afterHuman, level, draw);
      var afterComputer := if 0 <= m < BoardSize then afterHuman[m := ComputerPlayer] else afterHuman;
      var w2 := Winner(afterComputer);
      if w2 == NoWinner then Turn(afterComputer, false, TurnHuman)
      else Turn(afterComputer, true, ResultMessage(w2))
  }

  /**
   * A touch ends the game exactly when the board it leaves has a winner or is
   * full, and the message names the result; when the game goes on, the
   * computer has answered in a cell that was open, and the human is to move
   * on a board with an open cell.
   */
  lemma PlayTurnMeaning(b: Board, pos: Index, level: Difficulty, draw: nat)
    requires b[pos] == OpenSpot
    ensures var t := PlayTurn(b, pos, level, draw);
      && (t.over <==> Winner(t.board) != NoWinner)
      && (t.over ==> t.info == ResultMessage(Winner(t.board)))
      && (!t.over ==> t.info == TurnHuman && !Full(t.board))
      && t.board[pos] == HumanPlayer
      && (!t.over ==> exists m :: 0 <= m < BoardSize && m != pos && b[m] == OpenSpot
                                  && t.board == b[pos := HumanPlayer][m := ComputerPlayer])
  {
    var afterHuman := b[pos := HumanPlayer];
    var t := PlayTurn(b, pos, level, draw);
    WinnerMeaning(t.board);
    if Winner(afterHuman) == NoWinner {
      WinnerMeaning(afterHuman);
      var m := ComputerMove(afterHuman, level, draw);
      ComputerMoveIsLegal(afterHuman, level, draw);
      assert 0 <= m < BoardSize && m != pos && b[m] == OpenSpot;
    }
  }

  /** The human's and the computer's marks are equally many. */
  predicate Balanced(b: Board) {
    Count(b, HumanPlayer) == Count(b, ComputerPlayer)
  }

  /**
   * From a balanced board a touch leaves a balanced board when the game goes
   * on, and at most one extra 'X' when it ends: the marks alternate.
   */
  lemma PlayTurnAlternates(b: Board, pos: Index, level: Difficulty, draw: nat)
    requires b[pos] == OpenSpot && Balanced(b)
    ensures var t := PlayTurn(b, pos, level, draw);
      && (!t.over ==> Balanced(t.board))
      && Count(t.board, ComputerPlayer) <= Count(t.board, HumanPlayer) <= Count(t.board, ComputerPlayer) + 1
  {
    var afterHuman := b[pos := HumanPlayer];
    CountAfterWrite(b, pos, HumanPlayer, HumanPlayer);
    CountAfterWrite(b, pos, HumanPlayer, ComputerPlayer);
    if Winner(afterHuman) == NoWinner {
      var m := ComputerMove(afterHuman, level, draw);
      WinnerMeaning(afterHuman);
      ComputerMoveIsLegal(afterHuman, level, draw);
      CountAfterWrite(afterHuman, m, ComputerPlayer, HumanPlayer);
      CountAfterWrite(afterHuman, m, ComputerPlayer, ComputerPlayer);
    }
  }

  /** Saving and restoring gives back the board, the flag, the message and the level. */
  lemma SaveRestoreRoundTrip(b: Board, over: bool, info: Message, level: Difficulty)
    requires PlayerCells(b)
    ensures var s := SavedState(Some(b), Some(over), Some(info), Some(Ordinal(level)));
      && RestoredBoard(s.board) == b
      && s.gameOver.GetOr(false) == over
      && s.info.GetOr(FirstHuman) == info
      && LevelOf(s.difficulty.GetOr(Ordinal(Expert))) == level
  {
    var r := RestoredBoard(Some(b));
    forall i | 0 <= i < BoardSize ensures r[i] == b[i] {
      assert b[i] == OpenSpot || IsMark(b[i]);
    }
  }

  /** A state with no entries restores an open board, a running game, the first message and Expert. */
  lemma EmptyStateRestoresDefaults()
    ensures RestoredBoard(None) == EmptyBoard
    ensures LevelOf(Option<int>.None.GetOr(Ordinal(Expert))) == Expert
  {
  }

  /** The local game screen: the engine, the game-over flag and the information line. */
  class MainActivity {
    const game: TicTacToeGame
    var gameOver: bool
    var info: Message

    ghost predicate Valid()
      reads this, game, game.board
    {
      game.Valid() && PlayerCells(game.Cells())
    }

    /** A new screen starts a new game, or restores the saved state when there is one. */
    constructor (saved: Option<SavedState>)
      ensures Valid() && fresh(game) && fresh(game.board)
      ensures saved.None? ==>
        game.Cells() == EmptyBoard && !gameOver && info == FirstHuman && game.difficulty == Expert
      ensures saved.Some? ==>
        && game.Cells() == RestoredBoard(saved.value.board)
        && gameOver == saved.value.gameOver.GetOr(false)
        && info == saved.value.info.GetOr(FirstHuman)
        && game.difficulty == LevelOf(saved.value.difficulty.GetOr(Ordinal(Expert)))
    {
      game := new TicTacToeGame();
      gameOver := false;
      info := FirstHuman;
      new;
      if saved.None? {
        StartNewGame();
      } else {
        RestoreFromState(saved.value);
      }
    }

    /** Clears the board and starts over with the human to move; the level stays. */
    method StartNewGame()
      requires game.Valid()
      modifies this, game.board
      ensures Valid()
      ensures game.Cells() == EmptyBoard && !gameOver && info == FirstHuman
    {
      game.ClearBoard();
      gameOver := false;
      info := FirstHuman;
    }

    method EndGame(message: Message)
      modifies this
      ensures gameOver && info == message
    {
      gameOver := true;
      info := message;
    }

    /** The difficulty chosen in the dialog: 0 Easy, 1 Harder, anything else Expert. */
    method ChooseDifficulty(which: int)
      modifies game
      ensures game.difficulty == LevelOf(which)
    {
      game.SetDifficultyLevel(LevelOf(which));
    }

    /**
     * A touch at (x, y) on a board of cells `cellW` by `cellH`. It is ignored
     * when the game is over, the cells have no size, the computed cell is off
     * the board or taken; otherwise the turn is played, with `draw` as the
     * computer's random number.
     */
    method Touch(x: int, y: int, cellW: int, cellH: int, draw: nat)
      requires Valid()
      modifies this, game.board
      ensures Valid()
      ensures var b := old(game.Cells());
        if old(gameOver) || cellW <= 0 || cellH <= 0
           || !(0 <= TouchedCell(x, y, cellW, cellH) < BoardSize)
           || b[TouchedCell(x, y, cellW, cellH)] != OpenSpot
        then game.Cells() == b && gameOver == old(gameOver) && info == old(info)
        else var t := PlayTurn(b, TouchedCell(x, y, cellW, cellH), game.difficulty, draw);
          game.Cells() == t.board && gameOver == t.over && info == t.info
    {
      if gameOver || cellW <= 0 || cellH <= 0 {
        return;
      }
      var col := Quot(x, cellW);
      var row := Quot(y, cellH);
      var pos := row * 3 + col;
      if pos < 0 || pos >= BoardSize {
        return;
      }
      ghost var b := game.Cells();
      var placed := game.SetMove(HumanPlayer, pos);
      if placed {
        FinishTurn(b, pos, draw);
      }
    }

    /**
     * The rest of a turn once the human's mark is on open cell `pos` of `b`:
     * the result if that ends the game, otherwise the computer's reply and the
     * check after it.
     */
    method FinishTurn(ghost b: Board, pos: Index, draw: nat)
      requires game.Valid() && b[pos] == OpenSpot && PlayerCells(b) && !gameOver
      requires game.Cells() == b[pos := HumanPlayer]
      modifies this, game.board
      ensures Valid()
      ensures var t := PlayTurn(b, pos, game.difficulty, draw);
        game.Cells() == t.board && gameOver == t.over && info == t.info
    {
      ghost var afterHuman := game.Cells();
      var winner := game.CheckForWinner();
      if winner != NoWinner {
        EndGame(ResultMessage(winner));
        return;
      }
      info := TurnComputer;
      var move := game.GetComputerMove(draw);
      ComputerMoveIsLegal(afterHuman, game.difficulty, draw);
      if move != -1 {
        var _ := game.SetMove(ComputerPlayer, move);
      }
      winner := game.CheckForWinner();
      if winner == NoWinner {
        info := TurnHuman;
      } else {
        EndGame(ResultMessage(winner));
      }
    }

    /** The saved state: the board's characters, the flag, the message and the level's position. */
    method SaveState() returns (s: SavedState)
      requires Valid()
      ensures s == SavedState(Some(game.Cells()), Some(gameOver), Some(info), Some(Ordinal(game.difficulty)))
    {
      var snap := game.GetBoardSnapshot();
      var level := game.GetDifficultyLevel();
      s := SavedState(Some(snap[..]), Some(gameOver), Some(info), Some(Ordinal(level)));
    }

    /**
     * Restores a saved state: absent entries take their defaults, a level
     * outside 0..2 becomes Expert, and the board is cleared and then replayed
     * from the first nine saved characters, marks only.
     */
    method RestoreFromState(state: SavedState)
      requires game.Valid()
      modifies this, game, game.board
      ensures Valid()
      ensures gameOver == state.gameOver.GetOr(false)
      ensures info == state.info.GetOr(FirstHuman)
      ensures game.difficulty == LevelOf(state.difficulty.GetOr(Ordinal(Expert)))
      ensures game.Cells() == RestoredBoard(state.board)
    {
      gameOver := state.gameOver.GetOr(false);
      info := state.info.GetOr(FirstHuman);
      var n := state.difficulty.GetOr(Ordinal(Expert));
      var safe := if 0 <= n <= 2 then n else Ordinal(Expert);
      game.SetDifficultyLevel(LevelOf(safe));
      game.ClearBoard();
      if state.board.Some? {
        var saved := state.board.value;
        var i := 0;
        while i < |saved| && i < BoardSize
          invariant 0 <= i <= BoardSize
          invariant game.Valid()
          invariant gameOver == state.gameOver.GetOr(false) && info == state.info.GetOr(FirstHuman)
          invariant game.difficulty == LevelOf(safe)
          invariant forall j :: 0 <= j < i ==> game.Cells()[j] == RestoredBoard(state.board)[j]
          invariant forall j :: i <= j < BoardSize ==> game.Cells()[j] == OpenSpot
        {
          var ch := saved[i];
          if ch == HumanPlayer || ch == ComputerPlayer {
            var _ := game.SetMove(ch, i);
          }
          i := i + 1;
        }
      }
      assert game.Cells() == RestoredBoard(state.board);
    }
  }
}
