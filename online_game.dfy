/**
 * The shared record of one online match, as the remote store holds it: a
 * record of strings whose updates are made by copying with some fields
 * replaced.
 */
module OnlineRecord {
  import opened Counting

  const Waiting: string := "waiting"
  const Playing: string := "playing"
  const Finished: string := "finished"

  /** The `winner` value of a drawn match. */
  const DrawMark: string := "draw"

  const MarkX: string := "X"
  const MarkO: string := "O"

  datatype OnlineGame = OnlineGame(
    board: seq<string>,
    hostId: string,
    guestId: string,
    currentTurn: string,
    status: string,
    winner: string,
    code: string)

  /** The record every field of which has its default value. */
  function DefaultGame(): (g: OnlineGame)
    ensures |g.board| == 9 && forall i :: 0 <= i < 9 ==> g.board[i] == ""
    ensures g.hostId == "" && g.guestId == "" && g.currentTurn == ""
    ensures g.status == Waiting && g.winner == "" && g.code == ""
  {
    OnlineGame(seq(9, i => ""), "", "", "", Waiting, "", "")
  }

  /** Every cell is empty, "X" or "O". */
  predicate IsCell(s: string) {
    s == "" || s == MarkX || s == MarkO
  }

  /** Nine cells, each empty, "X" or "O". */
  predicate ValidCells(board: seq<string>) {
    |board| == 9 && forall i :: 0 <= i < |board| ==> IsCell(board[i])
  }

  predicate KnownStatus(status: string) {
    status == Waiting || status == Playing || status == Finished
  }

  /** No cell is empty. */
  predicate AllFilled(board: seq<string>) {
    forall i :: 0 <= i < |board| ==> board[i] != ""
  }

  lemma {:induction false} CountOfEmptyCells(board: seq<string>, m: string)
    requires m != ""
    requires forall i :: 0 <= i < |board| ==> board[i] == ""
    ensures Count(board, m) == 0
  {
    if board != [] {
      CountOfEmptyCells(board[..|board| - 1], m);
    }
  }
}
