/**
 * The move transaction of an online match, as one step from the stored record
 * to either a rejection (nothing is written) or the record that is written
 * back, together with the line scan it uses to find a winner.
 */
module Arbitration {
  import opened Wrappers
  import opened EngineSpec
  import opened Counting
  import opened OnlineRecord

  // ----- the winner scan on the record's board -----

  /** The outcome of the line scan: a symbol, no line, or an index past the end of the list. */
  datatype Scan = Found(symbol: string) | NoLine | OutOfRange

  /** Line k lies inside the board and holds three equal non-empty cells. */
  predicate Complete(board: seq<string>, k: nat)
    requires k < LineCount
  {
    var (a, b, c) := Lines[k];
    a < |board| && b < |board| && c < |board| &&
    board[a] != "" && board[a] == board[b] && board[a] == board[c]
  }

  /** The symbol of line k, when line k lies inside the board. */
  function LineSymbol(board: seq<string>, k: nat): string
    requires k < LineCount && Lines[k].0 < |board|
  {
    board[Lines[k].0]
  }

  /**
   * The scan from line k on. Each line test reads cell a, then b, then c, and
   * stops early as soon as it fails, so a board shorter than nine cells may
   * still find a line before it reads past its end.
   */
  function ScanLines(board: seq<string>, k: nat): (r: Scan)
    requires k <= LineCount
    ensures |board| >= BoardSize ==> !r.OutOfRange?
    ensures r.NoLine? ==> forall j :: k <= j < LineCount ==> !Complete(board, j)
    ensures r.Found? ==> exists j :: k <= j < LineCount && Complete(board, j) && LineSymbol(board, j) == r.symbol
                                     && forall i :: k <= i < j ==> !Complete(board, i)
    decreases LineCount - k
  {
    if k == LineCount then NoLine
    else
      var (a, b, c) := Lines[k];
      if a >= |board| then OutOfRange
      else if board[a] == "" then ScanLines(board, k + 1)
      else if b >= |board| then OutOfRange
      else if board[a] != board[b] then ScanLines(board, k + 1)
      else if c >= |board| then OutOfRange
      else if board[a] != board[c] then ScanLines(board, k + 1)
      else
        assert Complete(board, k) && LineSymbol(board, k) == board[a];
        Found(board[a])
  }

  /** The symbol of the first complete line, rows, then columns, then diagonals. */
  function CheckWinnerSymbol(board: seq<string>): Scan {
    ScanLines(board, 0)
  }

  // ----- the move -----

  /** Why a move is not written. Failed stands for an exception inside the transaction. */
  datatype Rejection = Missing | NotPlaying | BadPosition | CellTaken | NotYourTurn | Failed

  datatype MoveResult = Written(game: OnlineGame) | Rejected(reason: Rejection)

  /** The host plays "X", anyone else "O". */
  function MoverSymbol(g: OnlineGame, uid: string): string {
    if uid == g.hostId then MarkX else MarkO
  }

  /** The participant who is not `uid`, as the transaction computes it. */
  function OtherPlayer(g: OnlineGame, uid: string): string {
    if uid == g.hostId then g.guestId else g.hostId
  }

  /**
   * The transaction body for `uid` playing at `position` against the stored
   * record (None when the record is missing or cannot be read).
   */
  function MakeMove(stored: Option<OnlineGame>, uid: string, position: int): (r: MoveResult)
    ensures stored.None? ==> r == Rejected(Missing)
    ensures r.Written? ==>
      && stored.Some? && stored.value.status == Playing && stored.value.currentTurn == uid
      && 0 <= position < |stored.value.board| && stored.value.board[position] == ""
      && r.game.board == stored.value.board[position := MoverSymbol(stored.value, uid)]
      && r.game.hostId == stored.value.hostId && r.game.guestId == stored.value.guestId
      && r.game.code == stored.value.code
    ensures r.Written? && r.game.status == stored.value.status ==>
      r.game.currentTurn == OtherPlayer(stored.value, uid) && r.game.winner == stored.value.winner
  {
    match stored
    case None => Rejected(Missing)
    case Some(g) =>
      if g.status != Playing then Rejected(NotPlaying)
      else if !(0 <= position <= 8) then Rejected(BadPosition)
      else if position >= |g.board| then Rejected(Failed)
      else if g.board[position] != "" then Rejected(CellTaken)
      else if g.currentTurn != uid then Rejected(NotYourTurn)
      else
        var newBoard := g.board[position := MoverSymbol(g, uid)];
        match CheckWinnerSymbol(newBoard)
        case OutOfRange => Rejected(Failed)
        case Found(s) =>
          Written(g.(board := newBoard, status := Finished,
                     winner := if s == MarkX then g.hostId else g.guestId,
                     currentTurn := ""))
        case NoLine =>
          if AllFilled(newBoard) then
            Written(g.(board := newBoard, status := Finished, winner := DrawMark, currentTurn := ""))
          else
            Written(g.(board := newBoard, currentTurn := OtherPlayer(g, uid)))
  }

  /** On a board of at least nine cells a move is refused exactly for the listed reasons, in that order. */
  lemma MoveRejectedExactly(g: OnlineGame, uid: string, position: int)
    requires |g.board| >= BoardSize
    ensures MakeMove(None, uid, position) == Rejected(Missing)
    ensures MakeMove(Some(g), uid, position).Rejected? <==>
      g.status != Playing || !(0 <= position < BoardSize) || g.board[position] != "" || g.currentTurn != uid
    ensures var r := MakeMove(Some(g), uid, position);
      r.Rejected? ==>
        r.reason == (if g.status != Playing then NotPlaying
                     else if !(0 <= position < BoardSize) then BadPosition
                     else if g.board[position] != "" then CellTaken
                     else NotYourTurn)
  {
    if 0 <= position < BoardSize {
      var newBoard := g.board[position := MoverSymbol(g, uid)];
      assert !CheckWinnerSymbol(newBoard).OutOfRange?;
    }
  }

  /**
   * A written move puts the mover's symbol at `position` and nowhere else,
   * keeps the participants and the code, and ends in exactly one of three
   * ways: a win, a draw, or the turn passed to the other participant.
   */
  lemma MoveWritten(g: OnlineGame, uid: string, position: int)
    requires MakeMove(Some(g), uid, position).Written?
    ensures var g' := MakeMove(Some(g), uid, position).game;
      && 0 <= position < |g.board| && g.board[position] == "" && g.currentTurn == uid && g.status == Playing
      && |g'.board| == |g.board| && g'.board[position] == MoverSymbol(g, uid)
      && (forall i :: 0 <= i < |g.board| && i != position ==> g'.board[i] == g.board[i])
      && g'.hostId == g.hostId && g'.guestId == g.guestId && g'.code == g.code
      && var scan := CheckWinnerSymbol(g'.board);
      && (scan.Found? ==>
            g'.status == Finished && g'.currentTurn == ""
            && g'.winner == (if scan.symbol == MarkX then g.hostId else g.guestId))
      && (scan.NoLine? && AllFilled(g'.board) ==>
            g'.status == Finished && g'.winner == DrawMark && g'.currentTurn == "")
      && (scan.NoLine? && !AllFilled(g'.board) ==>
            g'.status == g.status && g'.winner == g.winner && g'.currentTurn == OtherPlayer(g, uid))
      && !scan.OutOfRange?
  {
  }

  // ----- the record invariant -----

  /**
   * The invariant the protocol keeps: nine valid cells and a known status; a
   * waiting record has an empty board, no guest and the host to move; a
   * playing record has two distinct participants, one of them to move, no
   * complete line and an open cell; a finished record has no one to move;
   * and "X" (the host) is never behind "O" nor more than one ahead, being
   * ahead exactly when it is not the host's turn.
   */
  ghost predicate Consistent(g: OnlineGame) {
    && ValidCells(g.board)
    && KnownStatus(g.status)
    && g.hostId != ""
    && (g.status != Waiting ==> g.guestId != "")
    && (g.status == Waiting ==>
          g.guestId == "" && g.currentTurn == g.hostId
          && forall i :: 0 <= i < |g.board| ==> g.board[i] == "")
    && (g.status == Playing ==>
          && g.hostId != g.guestId
          && (g.currentTurn == g.hostId || g.currentTurn == g.guestId)
          && CheckWinnerSymbol(g.board).NoLine?
          && !AllFilled(g.board)
          && Count(g.board, MarkX) == Count(g.board, MarkO) + (if g.currentTurn == g.hostId then 0 else 1))
    && (g.status == Finished ==> g.currentTurn == "")
    && Count(g.board, MarkO) <= Count(g.board, MarkX) <= Count(g.board, MarkO) + 1
  }

  /** A written move keeps the record invariant. */
  lemma MoveKeepsConsistent(g: OnlineGame, uid: string, position: int)
    requires Consistent(g)
    requires MakeMove(Some(g), uid, position).Written?
    ensures Consistent(MakeMove(Some(g), uid, position).game)
  {
    var g' := MakeMove(Some(g), uid, position).game;
    MoveWritten(g, uid, position);
    var s := MoverSymbol(g, uid);
    CountAfterWrite(g.board, position, s, MarkX);
    CountAfterWrite(g.board, position, s, MarkO);
    assert g'.board == g.board[position := s];
    assert ValidCells(g'.board) by {
      forall i | 0 <= i < |g'.board| ensures IsCell(g'.board[i]) {
        if i != position {
          assert IsCell(g.board[i]);
        }
      }
    }
  }

  /** Once finished, a record never changes again. */
  lemma FinishedIsFinal(g: OnlineGame, uid: string, position: int)
    requires g.status == Finished
    ensures MakeMove(Some(g), uid, position) == Rejected(NotPlaying)
  {
  }

  /**
   * After a written move, neither the same participant nor anyone else can
   * play the same cell, and the mover cannot move again until the other
   * participant has: two submissions for one turn never both succeed.
   */
  lemma NoDoubleMove(g: OnlineGame, uid: string, position: int, other: string, next: int)
    requires Consistent(g)
    requires MakeMove(Some(g), uid, position).Written?
    ensures var g' := MakeMove(Some(g), uid, position).game;
      MakeMove(Some(g'), other, position).Rejected?
      && MakeMove(Some(g'), uid, next).Rejected?
  {
    MoveWritten(g, uid, position);
  }

  /**
   * When the record was playing (so no line was complete before), a line
   * found after the move belongs to the mover, and the mover is the winner.
   */
  lemma WinnerIsMover(g: OnlineGame, uid: string, position: int)
    requires Consistent(g)
    requires MakeMove(Some(g), uid, position).Written?
    requires CheckWinnerSymbol(MakeMove(Some(g), uid, position).game.board).Found?
    ensures CheckWinnerSymbol(MakeMove(Some(g), uid, position).game.board).symbol == MoverSymbol(g, uid)
    ensures MakeMove(Some(g), uid, position).game.winner == uid
  {
    MoveWritten(g, uid, position);
    var b' := MakeMove(Some(g), uid, position).game.board;
    var s := CheckWinnerSymbol(b').symbol;
    var j :| 0 <= j < LineCount && Complete(b', j) && LineSymbol(b', j) == s;
    var (x, y, z) := Lines[j];
    if x != position && y != position && z != position {
      assert Complete(g.board, j);
      assert false;
    }
  }
}
