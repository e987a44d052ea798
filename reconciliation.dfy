/**
 * What a client does with each record it receives: it rebuilds the local
 * board from the remote one, finds the cell that changed since the previous
 * record (to choose the move sound), and picks the status line to show.
 */
module Reconciliation {
  import opened Wrappers
  import opened EngineSpec
  import opened Engine
  import opened OnlineRecord
  import opened Arbitration

  // ----- the local board rebuilt from the remote one -----

  /** The engine's mark for a remote cell: "X" and "O" map to 'X' and 'O', anything else to an open cell. */
  function LocalMark(cell: string): char {
    if cell == MarkX then HumanPlayer
    else if cell == MarkO then ComputerPlayer
    else OpenSpot
  }

  /** The engine board that replaying `remote` onto a cleared board yields; cells past the ninth are ignored. */
  function LocalBoard(remote: seq<string>): (b: Board)
    ensures forall i :: 0 <= i < BoardSize ==>
      && (b[i] == HumanPlayer <==> i < |remote| && remote[i] == MarkX)
      && (b[i] == ComputerPlayer <==> i < |remote| && remote[i] == MarkO)
      && (b[i] == OpenSpot <==> !(i < |remote| && (remote[i] == MarkX || remote[i] == MarkO)))
  {
    seq(BoardSize, i requires 0 <= i < BoardSize => if i < |remote| then LocalMark(remote[i]) else OpenSpot)
  }

  /** The remote cell for an engine mark. */
  function RemoteCell(c: char): string {
    if c == HumanPlayer then MarkX
    else if c == ComputerPlayer then MarkO
    else ""
  }

  /** On a valid remote board nothing is lost: the remote board can be read back from the local one. */
  lemma LocalBoardRoundTrip(remote: seq<string>)
    requires ValidCells(remote)
    ensures seq(BoardSize, i requires 0 <= i < BoardSize => RemoteCell(LocalBoard(remote)[i])) == remote
  {
    forall i | 0 <= i < BoardSize
      ensures RemoteCell(LocalBoard(remote)[i]) == remote[i]
    {
      assert IsCell(remote[i]);
    }
  }

  /** On valid cells, a line is complete on the remote board exactly when the local board owns it. */
  lemma CompleteIffOwns(remote: seq<string>, k: nat)
    requires ValidCells(remote) && k < LineCount
    ensures Complete(remote, k) <==> Owns(LocalBoard(remote), k)
    ensures Complete(remote, k) ==> LocalBoard(remote)[Lines[k].0] == LocalMark(LineSymbol(remote, k))
  {
    var (a, b, c) := Lines[k];
    assert IsCell(remote[a]) && IsCell(remote[b]) && IsCell(remote[c]);
  }

  lemma {:induction false} ScanFollowsFirstOwned(remote: seq<string>, k: nat)
    requires ValidCells(remote) && k <= LineCount
    ensures var f := FirstOwned(LocalBoard(remote), k);
      ScanLines(remote, k) == if f < LineCount then Found(remote[Lines[f].0]) else NoLine
    decreases LineCount - k
  {
    if k < LineCount {
      CompleteIffOwns(remote, k);
      ScanFollowsFirstOwned(remote, k + 1);
    }
  }

  /**
   * The online line scan and the engine's winner check agree on every valid
   * remote board: "X" is found exactly when the engine reports a human win,
   * "O" exactly when it reports a computer win, and no line exactly when it
   * reports no winner or a tie; the board is filled exactly when the engine
   * sees it full.
   */
  lemma ScanAgreesWithWinner(remote: seq<string>)
    requires ValidCells(remote)
    ensures CheckWinnerSymbol(remote) == Found(MarkX) <==> Winner(LocalBoard(remote)) == HumanWins
    ensures CheckWinnerSymbol(remote) == Found(MarkO) <==> Winner(LocalBoard(remote)) == ComputerWins
    ensures CheckWinnerSymbol(remote) == NoLine <==> Winner(LocalBoard(remote)) == NoWinner || Winner(LocalBoard(remote)) == Tie
    ensures AllFilled(remote) <==> Full(LocalBoard(remote))
  {
    var lb := LocalBoard(remote);
    ScanFollowsFirstOwned(remote, 0);
    var f := FirstOwned(lb, 0);
    if f < LineCount {
      CompleteIffOwns(remote, f);
      assert IsCell(remote[Lines[f].0]);
    }
    forall i | 0 <= i < BoardSize ensures remote[i] != "" <==> lb[i] != OpenSpot {
      assert IsCell(remote[i]);
    }
  }

  // ----- the changed cell -----

  /** The first index from i on where the two boards differ, or -1. */
  function FirstDifferenceFrom(prev: seq<string>, cur: seq<string>, i: nat): (r: int)
    requires |prev| == |cur| && i <= |cur|
    ensures r == -1 <==> prev[i..] == cur[i..]
    ensures r != -1 ==> i <= r < |cur| && prev[r] != cur[r] && prev[i..r] == cur[i..r]
    decreases |cur| - i
  {
    if i == |cur| then -1
    else if prev[i] != cur[i] then i
    else
      var r := FirstDifferenceFrom(prev, cur, i + 1);
      assert prev[i..] == [prev[i]] + prev[i + 1..] && cur[i..] == [cur[i]] + cur[i + 1..];
      assert r != -1 ==> prev[i..r] == [prev[i]] + prev[i + 1..r] && cur[i..r] == [cur[i]] + cur[i + 1..r];
      r
  }

  /** The first index where the previous and the new board differ, or -1 when they are equal. */
  function FirstDifference(prev: seq<string>, cur: seq<string>): int
    requires |prev| == |cur|
  {
    FirstDifferenceFrom(prev, cur, 0)
  }

  /** Two boards that differ in exactly one cell have that cell as their first difference. */
  lemma OnlyDifference(prev: seq<string>, cur: seq<string>, p: nat)
    requires |prev| == |cur| && p < |cur| && prev[p] != cur[p]
    requires forall i :: 0 <= i < |cur| && i != p ==> prev[i] == cur[i]
    ensures FirstDifference(prev, cur) == p
  {
    assert prev[0..] == prev && cur[0..] == cur;
    assert prev != cur;
  }

  /** Scans the two boards in index order and stops at the first cell that differs. */
  method ChangedIndex(prev: seq<string>, cur: seq<string>) returns (changed: int)
    requires |prev| == |cur|
    ensures changed == -1 <==> prev == cur
    ensures changed != -1 ==> 0 <= changed < |cur| && prev[changed] != cur[changed]
                              && forall j :: 0 <= j < changed ==> prev[j] == cur[j]
    ensures changed == FirstDifference(prev, cur)
  {
    changed := -1;
    var i := 0;
    while i < |cur|
      invariant 0 <= i <= |cur|
      invariant forall j :: 0 <= j < i ==> prev[j] == cur[j]
      invariant FirstDifferenceFrom(prev, cur, i) == FirstDifference(prev, cur)
    {
      if prev[i] != cur[i] {
        changed := i;
        break;
      }
      i := i + 1;
    }
    assert prev[0..] == prev && cur[0..] == cur;
    if changed == -1 {
      assert prev == cur;
    }
  }

  /** The move sound a record asks for. */
  datatype Feedback = Silent | MySound | OpponentSound

  /** The viewer is `id` (the viewer's id may be unknown). */
  predicate IsMe(uid: Option<string>, id: string) {
    uid.Some? && uid.value == id
  }

  /** The host sees itself as "X", everyone else as "O". */
  function MySymbol(g: OnlineGame, uid: Option<string>): string {
    if IsMe(uid, g.hostId) then MarkX else MarkO
  }

  /**
   * The sound for a new record: only when a previous board of the same size
   * was seen and some cell changed, the first changed cell decides (the
   * viewer's own symbol or another non-empty one).
   */
  function FeedbackOf(previous: Option<seq<string>>, g: OnlineGame, uid: Option<string>): (r: Feedback)
    ensures r != Silent ==>
      && previous.Some? && |previous.value| == |g.board|
      && var c := FirstDifference(previous.value, g.board);
         0 <= c < |g.board| && g.board[c] != ""
         && (r == MySound <==> g.board[c] == MySymbol(g, uid))
    ensures previous.Some? && previous.value == g.board ==> r == Silent
    ensures (&& previous.Some? && |previous.value| == |g.board|
             && FirstDifference(previous.value, g.board) != -1
             && g.board[FirstDifference(previous.value, g.board)] != "")
            ==> r != Silent
  {
    if previous.Some? && |previous.value| == |g.board| then
      var c := FirstDifference(previous.value, g.board);
      if c == -1 then Silent
      else if g.board[c] == MySymbol(g, uid) then MySound
      else if g.board[c] != "" then OpponentSound
      else Silent
    else Silent
  }

  // ----- the status line -----

  datatype StatusLine =
    | AwaitingOpponent
    | YourTurn(symbol: string)
    | OpponentsTurn
    | DrawMessage
    | YouWin
    | YouLose
    | NoMessage
  {
    /** The text shown for the status line. */
    function Text(): string {
      match this
      case AwaitingOpponent => "Share this code and wait for the other player."
      case YourTurn(s) => "Your turn (" + s + ")"
      case OpponentsTurn => "Opponent's turn"
      case DrawMessage => "Draw!"
      case YouWin => "You win!"
      case YouLose => "You lose!"
      case NoMessage => ""
    }
  }

  /** The status line for `uid`, chosen by the first case that applies. */
  function StatusOf(g: OnlineGame, uid: Option<string>): (r: StatusLine)
    ensures r == AwaitingOpponent <==> g.status == Waiting
    ensures r.YourTurn? <==> g.status == Playing && IsMe(uid, g.currentTurn)
    ensures r.YourTurn? ==> r.symbol == MySymbol(g, uid)
    ensures r == OpponentsTurn <==> g.status == Playing && !IsMe(uid, g.currentTurn)
    ensures r == DrawMessage <==> g.status == Finished && g.winner == DrawMark
    ensures r == YouWin <==> g.status == Finished && g.winner != DrawMark && IsMe(uid, g.winner)
    ensures r == YouLose <==> g.status == Finished && g.winner != DrawMark && !IsMe(uid, g.winner) && g.winner != ""
    ensures r == NoMessage <==> !KnownStatus(g.status) || (g.status == Finished && g.winner == "" && !IsMe(uid, ""))
  {
    if g.status == Waiting then AwaitingOpponent
    else if g.status == Playing && IsMe(uid, g.currentTurn) then YourTurn(MySymbol(g, uid))
    else if g.status == Playing then OpponentsTurn
    else if g.status == Finished && g.winner == DrawMark then DrawMessage
    else if g.status == Finished && IsMe(uid, g.winner) then YouWin
    else if g.status == Finished && g.winner != "" then YouLose
    else NoMessage
  }

  /**
   * A written move is the first (and only) changed cell of the new record,
   * and the rebuilt local board gains exactly the mover's mark there; the
   * mover hears its own sound and the other participant the opponent's.
   */
  lemma MoveIsTheChange(g: OnlineGame, uid: string, position: int)
    requires Consistent(g)
    requires MakeMove(Some(g), uid, position).Written?
    ensures var g' := MakeMove(Some(g), uid, position).game;
      && FirstDifference(g.board, g'.board) == position
      && LocalBoard(g'.board) == LocalBoard(g.board)[position := LocalMark(MoverSymbol(g, uid))]
      && FeedbackOf(Some(g.board), g', Some(uid)) == MySound
      && FeedbackOf(Some(g.board), g', Some(OtherPlayer(g, uid))) == OpponentSound
  {
    var g' := MakeMove(Some(g), uid, position).game;
    var sym := MoverSymbol(g, uid);
    MoveWritten(g, uid, position);
    assert g'.board == g.board[position := sym];
    OnlyDifference(g.board, g'.board, position);
    LocalBoardAfterWrite(g.board, position, sym);
    assert MySymbol(g', Some(uid)) == sym;
    assert MySymbol(g', Some(OtherPlayer(g, uid))) != sym;
  }

  /** Writing one remote cell changes the rebuilt board in that cell only. */
  lemma LocalBoardAfterWrite(remote: seq<string>, p: nat, s: string)
    requires p < |remote| && p < BoardSize
    ensures LocalBoard(remote[p := s]) == LocalBoard(remote)[p := LocalMark(s)]
  {
    var after := LocalBoard(remote[p := s]);
    var expected := LocalBoard(remote)[p := LocalMark(s)];
    forall i | 0 <= i < BoardSize ensures after[i] == expected[i] {
    }
  }

  /**
   * The status lines both participants see after a written move on a
   * consistent record: while the match goes on, the other participant is
   * told it is their turn and the mover that it is the opponent's; after a
   * draw both see the draw; after a win (for ids other than the draw marker)
   * the mover sees a win and the other a loss.
   */
  lemma BothSidesSeeTheOutcome(g: OnlineGame, uid: string, position: int)
    requires Consistent(g)
    requires MakeMove(Some(g), uid, position).Written?
    ensures var g' := MakeMove(Some(g), uid, position).game;
      var other := OtherPlayer(g, uid);
      && (g'.status == Playing ==>
            StatusOf(g', Some(uid)) == OpponentsTurn
            && StatusOf(g', Some(other)) == YourTurn(MySymbol(g', Some(other))))
      && (g'.status == Finished && g'.winner == DrawMark ==>
            StatusOf(g', Some(uid)) == DrawMessage && StatusOf(g', Some(other)) == DrawMessage)
      && (g'.status == Finished && g'.winner != DrawMark && uid != DrawMark && other != DrawMark ==>
            StatusOf(g', Some(uid)) == YouWin && StatusOf(g', Some(other)) == YouLose)
  {
    var g' := MakeMove(Some(g), uid, position).game;
    MoveWritten(g, uid, position);
    if g'.status == Finished && g'.winner != DrawMark {
      WinnerIsMover(g, uid, position);
    }
  }

  // ----- the client -----

  /** The online screen's read model: the engine that draws the board, and the last board seen. */
  class OnlineView {
    const game: TicTacToeGame
    var lastBoard: Option<seq<string>>

    ghost predicate Valid() {
      game.Valid()
    }

    constructor ()
      ensures Valid() && fresh(game) && fresh(game.board)
      ensures lastBoard == None && game.Cells() == EmptyBoard
    {
      game := new TicTacToeGame();
      lastBoard := None;
    }

    /** Clears the engine's board and replays every "X" and "O" of `remote` through SetMove. */
    method RebuildBoard(remote: seq<string>)
      requires Valid()
      modifies game.board
      ensures game.Cells() == LocalBoard(remote)
    {
      game.ClearBoard();
      var i := 0;
      while i < |remote|
        invariant 0 <= i <= |remote|
        invariant game.Cells() == LocalBoard(remote[..i])
      {
        if i < BoardSize {
          assert LocalBoard(remote[..i + 1]) == LocalBoard(remote[..i])[i := LocalMark(remote[i])];
        } else {
          assert LocalBoard(remote[..i + 1]) == LocalBoard(remote[..i]);
        }
        if remote[i] == MarkX {
          var _ := game.SetMove(HumanPlayer, i);
        } else if remote[i] == MarkO {
          var _ := game.SetMove(ComputerPlayer, i);
        }
        i := i + 1;
      }
      assert remote[..|remote|] == remote;
    }

    /**
     * Handles a new record: remembers its board, rebuilds the local board,
     * picks the move sound from the first changed cell and chooses the status
     * line for viewer `uid`.
     */
    method UpdateFromGame(g: OnlineGame, uid: Option<string>) returns (feedback: Feedback, status: StatusLine)
      requires Valid()
      modifies this, game.board
      ensures Valid()
      ensures lastBoard == Some(g.board)
      ensures game.Cells() == LocalBoard(g.board)
      ensures feedback == FeedbackOf(old(lastBoard), g, uid)
      ensures status == StatusOf(g, uid)
    {
      var previous := lastBoard;
      lastBoard := Some(g.board);
      RebuildBoard(g.board);
      var mySymbol := if uid.Some? && uid.value == g.hostId then MarkX else MarkO;
      feedback := Silent;
      if previous.Some? && |previous.value| == |g.board| {
        var changed := ChangedIndex(previous.value, g.board);
        if changed != -1 {
          var newSymbol := g.board[changed];
          if newSymbol == mySymbol {
            feedback := MySound;
          } else if newSymbol != "" {
            feedback := OpponentSound;
          }
        }
      }
      status := StatusOf(g, uid);
    }
  }
}
