# Tic-tac-toe: local engine and online match rules

A Dafny model of the core of an Android tic-tac-toe app. It has two ways to play.

**Local game.** A human (`'X'`) plays against the computer (`'O'`) on one engine object. The engine has three difficulty levels.

**Online match.** Two players share one record in a remote document store. The record holds:
- the nine-cell board;
- the host and the guest;
- whose turn it is;
- the status (`waiting`, `playing` or `finished`);
- the winner;
- a five-character join code.

A move is one transaction on that record. Each client rebuilds its own local board from every record it receives.

The model has these modules:

- `EngineSpec` holds the engine's rules as functions on a nine-cell snapshot. These are winner detection, the random move, the win and block searches, and the computer's move at each level. It also holds the lemmas about them.
- `Engine` holds the class `TicTacToeGame`. It keeps the board in a `char` array changed in place, and the difficulty in a field. Every method is proved against `EngineSpec`. The win and block searches write a trial mark and undo it, as the app does.
- `Counting` holds the one counting function that both boards use, with its lemmas.
- `OnlineRecord` holds the shared record and its default values.
- `Arbitration` holds the move transaction as one pure step. The step goes from the stored record (or its absence) to either a rejection, with nothing written, or the record written back. The module also holds the line scan the step uses, the invariant the protocol keeps, and the lemmas about the step.
- `Matchmaking` covers three things:
  - the record a host creates and the join code it gets;
  - how a typed code is trimmed and upper-cased;
  - which waiting record a code finds, and what the join writes into it.
- `Reconciliation` holds the client side of an online match. It covers the local board rebuilt from the remote one, the first changed cell (which picks the move sound) and the status line. The class `OnlineView` does the update in place.
- `LocalSession` holds the local game screen as the class `MainActivity`, with its game-over flag and information line. It covers:
  - a touch, which is the human's move followed at once by the computer's reply;
  - a new game and the end of a game;
  - choosing the difficulty;
  - saving and restoring the screen's state.

Randomness is a parameter. Where the app asks its generator for a number below `n`, the model takes an arbitrary `draw: nat` and uses `draw % n`, which reaches every value below `n`. Touch coordinates and cell sizes are integers. Kotlin's integer division truncates toward zero, and `Quot` models that.

Expert has no fixed preference for the centre, the corners or the edges. When it has neither a win nor a block, it plays the random move (`TicTacToeGame.kt:49`). `EngineSpec.CornerOpeningReply` shows that after a corner opening, Expert's reply for draw 0 is cell 1, not the centre.

## Model

| member | source | states |
|---|---|---|
| Engine.TicTacToeGame.constructor | app/src/main/java/co/edu/unal/tictactoe/TicTacToeGame.kt:17-21 | A new engine has nine open cells and the Expert difficulty |
| Engine.TicTacToeGame.GetDifficultyLevel | app/src/main/java/co/edu/unal/tictactoe/TicTacToeGame.kt:18 | Returns the current level |
| Engine.TicTacToeGame.SetDifficultyLevel | app/src/main/java/co/edu/unal/tictactoe/TicTacToeGame.kt:19 | After the call the level is the one set, so a later get returns it |
| Engine.TicTacToeGame.ClearBoard | app/src/main/java/co/edu/unal/tictactoe/TicTacToeGame.kt:23-29 | Afterwards all nine cells are open |
| Engine.TicTacToeGame.SetMove | app/src/main/java/co/edu/unal/tictactoe/TicTacToeGame.kt:31-36 | Answers true exactly when the location is in 0..8 and its cell is open. In that case only that cell changes, to the player. Otherwise the board is unchanged |
| Engine.TicTacToeGame.CheckForWinner | app/src/main/java/co/edu/unal/tictactoe/TicTacToeGame.kt:113-136 | Returns `Winner` of the board and does not change it |
| EngineSpec.Winner | app/src/main/java/co/edu/unal/tictactoe/TicTacToeGame.kt:113-136 | 0 only on a board with an open cell and no complete line, 1 only on a full board with no complete line, 2 only with a complete line of 'X', 3 only with a complete line of another mark |
| EngineSpec.FirstOwned | app/src/main/java/co/edu/unal/tictactoe/TicTacToeGame.kt:114-128 | The first line, in the order rows, columns, diagonals, that holds three equal marks: no earlier line does |
| EngineSpec.WinnerMeaning | app/src/main/java/co/edu/unal/tictactoe/TicTacToeGame.kt:113-136 | 0 exactly when no line is complete and a cell is open. 1 exactly when no line is complete and no cell is open. 2 and 3 mean a complete line of 'X' and of another mark respectively |
| Engine.TicTacToeGame.GetRandomMove | app/src/main/java/co/edu/unal/tictactoe/TicTacToeGame.kt:56-78 | Both counting loops together compute `RandomMove` of the board |
| EngineSpec.RandomMove | app/src/main/java/co/edu/unal/tictactoe/TicTacToeGame.kt:56-78 | -1 exactly when no cell is open. Otherwise an open cell with exactly `draw % free` open cells before it |
| EngineSpec.RandomMoveMeaning | app/src/main/java/co/edu/unal/tictactoe/TicTacToeGame.kt:56-78 | -1 exactly when the board is full. Otherwise the result is an open cell with exactly `draw % free` open cells before it |
| EngineSpec.PickFromFinds | app/src/main/java/co/edu/unal/tictactoe/TicTacToeGame.kt:68-76 | The second scan finds the open cell with the target number of open cells before it |
| EngineSpec.EveryOpenCellCanBeDrawn | app/src/main/java/co/edu/unal/tictactoe/TicTacToeGame.kt:64-76 | Every open cell is the random move for some draw |
| EngineSpec.TrialFrom | app/src/main/java/co/edu/unal/tictactoe/TicTacToeGame.kt:81-108 | The lowest open cell where the trial mark makes the winner check return the code, or -1 when no cell does |
| Engine.TicTacToeGame.TrialSearch | app/src/main/java/co/edu/unal/tictactoe/TicTacToeGame.kt:81-108 | The trial loop returns `TrialFrom` of the board and leaves the board exactly as it was |
| Engine.TicTacToeGame.GetWinningMove | app/src/main/java/co/edu/unal/tictactoe/TicTacToeGame.kt:81-93 | The lowest cell where an 'O' makes the check return 3, or -1. The board is unchanged |
| Engine.TicTacToeGame.GetBlockingMove | app/src/main/java/co/edu/unal/tictactoe/TicTacToeGame.kt:96-108 | The lowest cell where an 'X' makes the check return 2, or -1. The board is unchanged |
| Engine.TicTacToeGame.GetComputerMove | app/src/main/java/co/edu/unal/tictactoe/TicTacToeGame.kt:39-53 | Returns `ComputerMove` of the board at the current level (Easy random; Harder win else random; Expert win, else block, else random). The board is unchanged |
| EngineSpec.ComputerMoveIsLegal | app/src/main/java/co/edu/unal/tictactoe/TicTacToeGame.kt:39-53 | At every level the move is -1 exactly on a full board, and otherwise an open cell |
| EngineSpec.ComputerMove | app/src/main/java/co/edu/unal/tictactoe/TicTacToeGame.kt:39-53 | At every level the move is -1 or an open cell |
| EngineSpec.TakesAvailableWin | app/src/main/java/co/edu/unal/tictactoe/TicTacToeGame.kt:42-48 | Harder and Expert play a winning cell whenever one exists |
| EngineSpec.ExpertBlocks | app/src/main/java/co/edu/unal/tictactoe/TicTacToeGame.kt:46-49 | With no win available, Expert plays a cell where the human would win, when there is one |
| EngineSpec.ExpertFallsBackToRandom | app/src/main/java/co/edu/unal/tictactoe/TicTacToeGame.kt:46-50 | With neither a win nor a block, Expert plays exactly the random move. There is no fixed fallback order |
| EngineSpec.CornerOpeningReply | app/src/main/java/co/edu/unal/tictactoe/TicTacToeGame.kt:46-50 | After 'X' on corner 0, Expert with draw 0 plays cell 1, not the centre |
| EngineSpec.ExpertBlocksTopRow | app/src/main/java/co/edu/unal/tictactoe/TicTacToeGame.kt:46-50 | With 'X' on 0 and 1 and 'O' on 3, Expert plays 2 whatever the draw |
| Engine.TicTacToeGame.GetBoardSnapshot | app/src/main/java/co/edu/unal/tictactoe/TicTacToeGame.kt:138-143 | A fresh array equal to the board cell for cell |
| Engine.TicTacToeGame.GetBoardOccupant | app/src/main/java/co/edu/unal/tictactoe/TicTacToeGame.kt:145-153 | The cell's content for an index in 0..8, the open mark otherwise |
| OnlineRecord.DefaultGame | app/src/main/java/co/edu/unal/tictactoe/online/OnlineGame.kt:3-11 | Defaults: nine empty cells, status "waiting", every other field empty |
| Arbitration.ScanLines | app/src/main/java/co/edu/unal/tictactoe/online/OnlineGameActivity.kt:363-384 | On a board of at least nine cells the scan never reads past the end. "No line" means no line is complete. A found symbol belongs to the first complete line in the fixed order |
| Arbitration.MakeMove | app/src/main/java/co/edu/unal/tictactoe/online/OnlineGameActivity.kt:317-357 | A missing record is rejected. A written move needs a playing record, the mover to be on turn and an empty cell in range; it puts the mover's symbol at the position and keeps host, guest and code. When the status stays the same, the turn passes to the other participant and the winner is kept |
| Arbitration.MoveRejectedExactly | app/src/main/java/co/edu/unal/tictactoe/online/OnlineGameActivity.kt:317-326 | A missing record is rejected. On a record of at least nine cells a move is rejected exactly when the status is not playing, the position is outside 0..8, the cell is taken, or it is not the mover's turn, and the reason is the first of these that applies |
| Arbitration.MoveWritten | app/src/main/java/co/edu/unal/tictactoe/online/OnlineGameActivity.kt:328-356 | A written move puts the mover's symbol ("X" exactly for the host) at the position and changes no other cell. It keeps the host, the guest and the code. It ends in exactly one of three ways: a win (finished, winner host or guest, no turn), a draw (finished, "draw", no turn), or the turn passed to the other participant with status and winner kept |
| Arbitration.MoveKeepsConsistent | app/src/main/java/co/edu/unal/tictactoe/online/OnlineGameActivity.kt:317-357 | A written move keeps the record invariant: valid cells, a known status, two distinct players while playing, one of them to move, no complete line and an open cell while playing, no one to move when finished, and the 'X' count equal to the 'O' count or one more, according to whose turn it is |
| Arbitration.FinishedIsFinal | app/src/main/java/co/edu/unal/tictactoe/online/OnlineGameActivity.kt:323 | A finished record rejects every move |
| Arbitration.NoDoubleMove | app/src/main/java/co/edu/unal/tictactoe/online/OnlineGameActivity.kt:323-336 | After a written move, nobody can play the same cell again, and the mover cannot move twice in a row |
| Arbitration.WinnerIsMover | app/src/main/java/co/edu/unal/tictactoe/online/OnlineGameActivity.kt:338-342 | On a consistent record, the line found after a move carries the mover's symbol, and the recorded winner is the mover |
| Matchmaking.NewGame | app/src/main/java/co/edu/unal/tictactoe/online/OnlineGameActivity.kt:120-128 | A created record has nine empty cells, no guest, the host to move, status waiting, no winner and the given code |
| Matchmaking.NewGameConsistent | app/src/main/java/co/edu/unal/tictactoe/online/OnlineGameActivity.kt:120-128 | A created record with a signed-in host satisfies the record invariant |
| Matchmaking.CreateGame | app/src/main/java/co/edu/unal/tictactoe/online/OnlineGameActivity.kt:115-128 | The created record is a new record for the host whose code has five characters, each the alphabet's `draws[i] % 32`-th |
| Matchmaking.GenerateCode | app/src/main/java/co/edu/unal/tictactoe/online/OnlineGameActivity.kt:386-395 | The code has the requested length, and its i-th character is the alphabet's `draws[i] % 32`-th |
| Matchmaking.CodeAlphabetFacts | app/src/main/java/co/edu/unal/tictactoe/online/OnlineGameActivity.kt:387 | The alphabet has 32 characters, all capitals or digits 2-9, none of I, O, 0, 1 |
| Matchmaking.EveryCodeCanBeDrawn | app/src/main/java/co/edu/unal/tictactoe/online/OnlineGameActivity.kt:386-395 | Every string over the alphabet comes out of some draws |
| Matchmaking.TrimStart | app/src/main/java/co/edu/unal/tictactoe/online/OnlineGameActivity.kt:151 | A suffix of the input whose first character is not whitespace, with only whitespace removed |
| Matchmaking.TrimEnd | app/src/main/java/co/edu/unal/tictactoe/online/OnlineGameActivity.kt:151 | A prefix of the input whose last character is not whitespace, with only whitespace removed |
| Matchmaking.UpperChar | app/src/main/java/co/edu/unal/tictactoe/online/OnlineGameActivity.kt:151 | A lower-case ASCII letter becomes the capital 32 code points below it; everything else is kept |
| Matchmaking.NormalizeCode | app/src/main/java/co/edu/unal/tictactoe/online/OnlineGameActivity.kt:151 | The normalised code is no longer than the input, and it is empty exactly when the input is all whitespace |
| Matchmaking.TrimEmptyIffBlank | app/src/main/java/co/edu/unal/tictactoe/online/OnlineGameActivity.kt:151-152 | Trimming leaves nothing exactly when every character of the input is whitespace |
| Matchmaking.NormalizeCodeMeaning | app/src/main/java/co/edu/unal/tictactoe/online/OnlineGameActivity.kt:151 | A normalised code has no whitespace at either end and no lower-case letter, and it is a slice of the input with its letters upper-cased |
| Matchmaking.NormalizeCodeIdempotent | app/src/main/java/co/edu/unal/tictactoe/online/OnlineGameActivity.kt:151 | Normalising twice is the same as normalising once |
| Matchmaking.TrimStable | app/src/main/java/co/edu/unal/tictactoe/online/OnlineGameActivity.kt:151 | Trimming a string that neither starts nor ends with whitespace changes nothing |
| Matchmaking.FindWaiting | app/src/main/java/co/edu/unal/tictactoe/online/OnlineGameActivity.kt:159-168 | None exactly when no record waits under the code. Otherwise the first record, in query order, that does |
| Matchmaking.Join | app/src/main/java/co/edu/unal/tictactoe/online/OnlineGameActivity.kt:171-177 | The joined record has the joiner as guest, status playing and the host to move; board, host, winner and code are unchanged |
| Matchmaking.JoinByCode | app/src/main/java/co/edu/unal/tictactoe/online/OnlineGameActivity.kt:151-177 | An empty normalised code is refused before any search. "Not found" exactly when no record waits under the code. A join writes into a waiting record with that code |
| Matchmaking.JoinConsistent | app/src/main/java/co/edu/unal/tictactoe/online/OnlineGameActivity.kt:171-177 | Joining a consistent waiting record as someone other than the host gives a consistent playing record with the host to move. The board, host and code are unchanged |
| Reconciliation.LocalBoardRoundTrip | app/src/main/java/co/edu/unal/tictactoe/online/OnlineGameActivity.kt:222-232 | The rebuilt local board gives back the remote cells exactly |
| Reconciliation.LocalBoard | app/src/main/java/co/edu/unal/tictactoe/online/OnlineGameActivity.kt:222-232 | A local cell is 'X' exactly when the remote cell is "X", 'O' exactly when it is "O", and open otherwise |
| Reconciliation.CompleteIffOwns | app/src/main/java/co/edu/unal/tictactoe/online/OnlineGameActivity.kt:375-381 | A line is complete on the remote board exactly when it is complete on the rebuilt local board |
| Reconciliation.ScanFollowsFirstOwned | app/src/main/java/co/edu/unal/tictactoe/online/OnlineGameActivity.kt:363-384 | The online scan stops at the same line as the engine's winner check |
| Reconciliation.ScanAgreesWithWinner | app/src/main/java/co/edu/unal/tictactoe/online/OnlineGameActivity.kt:363-384 | The online scan finds "X" or "O" exactly when the engine's check on the rebuilt board returns 2 or 3. The board is full on both sides alike |
| Reconciliation.FirstDifferenceFrom | app/src/main/java/co/edu/unal/tictactoe/online/OnlineGameActivity.kt:241-249 | -1 exactly when the boards agree from i on. Otherwise a differing index with agreement before it |
| Reconciliation.ChangedIndex | app/src/main/java/co/edu/unal/tictactoe/online/OnlineGameActivity.kt:241-249 | The loop returns -1 exactly when the boards are equal. Otherwise it returns the first index where they differ |
| Reconciliation.FeedbackOf | app/src/main/java/co/edu/unal/tictactoe/online/OnlineGameActivity.kt:241-257 | No sound unless a previous board of the same size exists; otherwise a sound is played exactly when the first changed cell is filled, and it is the player's own sound exactly when that cell holds the player's symbol. An unchanged board gives no sound |
| Reconciliation.MoveIsTheChange | app/src/main/java/co/edu/unal/tictactoe/online/OnlineGameActivity.kt:241-257 | After a written move the first changed cell is the move's position, and the local board gains just the mover's mark. The mover hears their own sound and the other player the opponent's |
| Reconciliation.BothSidesSeeTheOutcome | app/src/main/java/co/edu/unal/tictactoe/online/OnlineGameActivity.kt:268-288 | After a written move: while playing, the mover sees "Opponent's turn" and the other "Your turn". After a draw both see "Draw!". After a win the mover sees "You win!" and the other "You lose!" |
| Reconciliation.StatusOf | app/src/main/java/co/edu/unal/tictactoe/online/OnlineGameActivity.kt:268-288 | Each status line exactly when its case holds: waiting, the player's turn (with their symbol), the opponent's turn, a draw, a win by the player, a win by someone else; no message for an unknown status or a finished record without a winner |
| Reconciliation.OnlineView.constructor | app/src/main/java/co/edu/unal/tictactoe/online/OnlineGameActivity.kt:42 | No board seen yet, and an open local board |
| Reconciliation.OnlineView.RebuildBoard | app/src/main/java/co/edu/unal/tictactoe/online/OnlineGameActivity.kt:222-232 | The cleared and replayed engine board is `LocalBoard` of the remote board |
| Reconciliation.OnlineView.UpdateFromGame | app/src/main/java/co/edu/unal/tictactoe/online/OnlineGameActivity.kt:216-291 | Remembers the new board, rebuilds the local board, and returns the sound for the first changed cell and the status line |
| LocalSession.LevelOf | app/src/main/java/co/edu/unal/tictactoe/MainActivity.kt:128-132 | A number in 0..2 gives the level at that position; any other number gives Expert |
| LocalSession.ResultMessage | app/src/main/java/co/edu/unal/tictactoe/MainActivity.kt:80-92 | Codes 1, 2 and 3 give the tie, human-wins and computer-wins messages, each exactly for its code |
| LocalSession.RestoredBoard | app/src/main/java/co/edu/unal/tictactoe/MainActivity.kt:135-145 | The restored board holds only marks and open cells |
| LocalSession.Quot | app/src/main/java/co/edu/unal/tictactoe/MainActivity.kt:61-62 | Truncating division: the quotient times the divisor lies within one divisor of the dividend, on the dividend's side of zero |
| LocalSession.TouchedCellHit | app/src/main/java/co/edu/unal/tictactoe/MainActivity.kt:58-65 | A touch inside the three-by-three grid gives a cell in 0..8 whose rectangle contains the touch |
| LocalSession.PlayTurnMeaning | app/src/main/java/co/edu/unal/tictactoe/MainActivity.kt:66-92 | After a touch the game is over exactly when the winner check is non-zero, and the message names the result. While the game goes on, the human is to move on a board with an open cell, and the computer has answered in a cell that was open |
| LocalSession.PlayTurn | app/src/main/java/co/edu/unal/tictactoe/MainActivity.kt:66-92 | The touched cell holds 'X' afterwards. The game is over exactly when the winner check is non-zero; then the message names the result, otherwise it asks the human to move |
| LocalSession.PlayTurnAlternates | app/src/main/java/co/edu/unal/tictactoe/MainActivity.kt:66-92 | From equal numbers of marks, a touch leaves them equal when the game goes on, and at most one extra 'X' when it ends |
| LocalSession.SaveRestoreRoundTrip | app/src/main/java/co/edu/unal/tictactoe/MainActivity.kt:122-155 | Restoring a saved state gives back the board, the game-over flag, the message and the difficulty |
| LocalSession.EmptyStateRestoresDefaults | app/src/main/java/co/edu/unal/tictactoe/MainActivity.kt:123-128 | A state with no entries restores an open board and Expert |
| LocalSession.MainActivity.constructor | app/src/main/java/co/edu/unal/tictactoe/MainActivity.kt:46-53 | Without a saved state: a new game at Expert. With one: the restored state |
| LocalSession.MainActivity.StartNewGame | app/src/main/java/co/edu/unal/tictactoe/MainActivity.kt:102-107 | Open board, game not over, first-move message, and the level kept |
| LocalSession.MainActivity.EndGame | app/src/main/java/co/edu/unal/tictactoe/MainActivity.kt:109-112 | Game over, with the given message shown |
| LocalSession.MainActivity.ChooseDifficulty | app/src/main/java/co/edu/unal/tictactoe/MainActivity.kt:191-197 | 0 sets Easy, 1 sets Harder, anything else sets Expert |
| LocalSession.MainActivity.Touch | app/src/main/java/co/edu/unal/tictactoe/MainActivity.kt:56-99 | A touch changes nothing in any of these cases: the game is over, a cell size is not positive, the cell is off the board, or the cell is taken. Otherwise board, flag and message become those of `PlayTurn` |
| LocalSession.MainActivity.FinishTurn | app/src/main/java/co/edu/unal/tictactoe/MainActivity.kt:68-92 | After the human's mark: the winner check, then either the result or the computer's reply and a second check. The board, flag and message end as `PlayTurn` says |
| LocalSession.MainActivity.SaveState | app/src/main/java/co/edu/unal/tictactoe/MainActivity.kt:149-155 | The state holds the board's cells, the flag, the message and the level's position |
| LocalSession.MainActivity.RestoreFromState | app/src/main/java/co/edu/unal/tictactoe/MainActivity.kt:122-147 | Absent entries take their defaults and a level outside 0..2 becomes Expert. The board is cleared and then replayed from the first nine saved marks |

## Left out

- The document store is not modelled: sign-in, the writes of the created record and of the join update, the code query, the snapshot listener, and the transaction's retries and atomicity. The transaction body is modelled as the pure step `Arbitration.MakeMove`. A missing or unreadable record is `None`.
- Concurrency is not modelled. This includes two guests joining the same code at once: the join is a plain update, not a transaction, so both can succeed and the last write wins.
- Matchmaking.JoinByCode: the stored record is assumed to carry a host id. When the field is absent, the app makes the joiner the one to move (`OnlineGameActivity.kt:176`); the model always gives the turn to the stored host.
- Matchmaking.JoinConsistent: requires the joiner to differ from the host. The app does not guard against a host joining their own code. Such a record has the same id as host and guest, and every move is then an "X".
- The one-second pause before the computer's reply is not modelled. The reply follows the human's move at once. In the app, a second touch during that second can place a second 'X' before the reply.
- The online touch handler (`handleBoardTouch`) is not modelled. Its checks are repeated by the transaction, which is modelled.
- The user interface is not modelled: drawing, sounds (only which sound is asked for is modelled), toasts, dialogs, menus and the code text view. Quitting, the about dialog and opening the online screen are menu actions with no game logic.
- Randomness comes in as `draw` parameters. The model does not say which draws the generators produce.
- Touch coordinates are integers. The app's conversion of a float coordinate to an integer is taken as already done.
- Matchmaking.TrimStart: Kotlin's `trim` also removes non-ASCII whitespace; the model removes only ASCII whitespace and the characters 0x1C-0x1F.
- Matchmaking.TrimEnd: as for `TrimStart`, only ASCII whitespace and the characters 0x1C-0x1F are removed.
- Matchmaking.UpperChar: Kotlin's `uppercase` also maps non-ASCII letters; the model maps only a-z. Kotlin can also lengthen a string when it upper-cases it ("ß" becomes "SS"), so `NormalizeCode`'s bound `|code| <= |input|` holds only for the model.
- The information line is modelled as one of the app's six messages. The app saves and restores its text, whatever that text is.
