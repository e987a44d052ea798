/**
 * Creating a match and joining one by its code: the record a host creates,
 * the join code the host shares, how a typed code is normalised, how the
 * waiting record is found and what the join writes into it.
 */
module Matchmaking {
  import opened Wrappers
  import opened EngineSpec
  import opened OnlineRecord
  import opened Arbitration

  /** The join-code alphabet: capitals and digits without I, O, 0 and 1. */
  const CodeAlphabet: string := "ABCDEFGHJKLMNPQRSTUVWXYZ23456789"
  const CodeLength: nat := 5

  /** The record a host creates: an empty board, no guest, the host to move, waiting. */
  function NewGame(hostUid: string, code: string): (g: OnlineGame)
    ensures |g.board| == 9 && forall i :: 0 <= i < |g.board| ==> g.board[i] == ""
    ensures g.hostId == hostUid && g.guestId == "" && g.currentTurn == hostUid
    ensures g.status == Waiting && g.winner == "" && g.code == code
  {
    DefaultGame().(hostId := hostUid, currentTurn := hostUid, code := code)
  }

  lemma NewGameConsistent(hostUid: string, code: string)
    requires hostUid != ""
    ensures Consistent(NewGame(hostUid, code))
  {
    var g := NewGame(hostUid, code);
    CountOfEmptyCells(g.board, MarkX);
    CountOfEmptyCells(g.board, MarkO);
  }

  /**
   * A join code of `length` characters; `draws` stands for the random
   * generator's outputs, the i-th character being the alphabet's
   * `draws[i] % 32`-th letter.
   */
  method GenerateCode(length: nat, draws: seq<nat>) returns (code: string)
    requires |draws| == length
    ensures |code| == length
    ensures forall i :: 0 <= i < length ==> code[i] == CodeAlphabet[draws[i] % |CodeAlphabet|]
  {
    code := "";
    var i := 0;
    while i < length
      invariant 0 <= i <= length
      invariant |code| == i
      invariant forall j :: 0 <= j < i ==> code[j] == CodeAlphabet[draws[j] % |CodeAlphabet|]
    {
      var idx := draws[i] % |CodeAlphabet|;
      code := code + [CodeAlphabet[idx]];
      i := i + 1;
    }
  }

  /**
   * The record a signed-in host creates: a fresh code of the default length
   * drawn from the alphabet, in an otherwise new record.
   */
  method CreateGame(hostUid: string, draws: seq<nat>) returns (g: OnlineGame)
    requires |draws| == CodeLength
    ensures g == NewGame(hostUid, g.code)
    ensures |g.code| == CodeLength && forall i :: 0 <= i < |g.code| ==> g.code[i] in CodeAlphabet
    ensures forall i :: 0 <= i < CodeLength ==> g.code[i] == CodeAlphabet[draws[i] % |CodeAlphabet|]
  {
    var code := GenerateCode(CodeLength, draws);
    g := NewGame(hostUid, code);
  }

  /** Position of the first c in s. */
  function IndexIn(s: string, c: char): (n: nat)
    requires c in s
    ensures n < |s| && s[n] == c
  {
    if s[0] == c then 0 else 1 + IndexIn(s[1..], c)
  }

  /** I, O, 0 and 1, which are easily confused with one another. */
  predicate Ambiguous(c: char) {
    c == 'I' || c == 'O' || c == '0' || c == '1'
  }

  /** The alphabet has 32 characters, all capitals or digits, none of them ambiguous. */
  lemma CodeAlphabetFacts()
    ensures |CodeAlphabet| == 32
    ensures forall i :: 0 <= i < |CodeAlphabet| ==>
      !Ambiguous(CodeAlphabet[i]) && ('A' <= CodeAlphabet[i] <= 'Z' || '2' <= CodeAlphabet[i] <= '9')
  {
    assert CodeAlphabet == ['A', 'B', 'C', 'D', 'E', 'F', 'G', 'H', 'J', 'K', 'L', 'M', 'N', 'P', 'Q', 'R',
                            'S', 'T', 'U', 'V', 'W', 'X', 'Y', 'Z', '2', '3', '4', '5', '6', '7', '8', '9'];
  }

  /** Every string over the alphabet is the code of some draws. */
  lemma EveryCodeCanBeDrawn(s: string)
    requires forall i :: 0 <= i < |s| ==> s[i] in CodeAlphabet
    ensures var draws := seq(|s|, i requires 0 <= i < |s| => IndexIn(CodeAlphabet, s[i]));
      forall i :: 0 <= i < |s| ==> CodeAlphabet[draws[i] % |CodeAlphabet|] == s[i]
  {
    var draws := seq(|s|, i requires 0 <= i < |s| => IndexIn(CodeAlphabet, s[i]));
    forall i | 0 <= i < |s|
      ensures CodeAlphabet[draws[i] % |CodeAlphabet|] == s[i]
    {
      DrawReaches(s[i]);
    }
  }

  /** The draw at a character's position in the alphabet picks that character. */
  lemma DrawReaches(c: char)
    requires c in CodeAlphabet
    ensures CodeAlphabet[IndexIn(CodeAlphabet, c) % |CodeAlphabet|] == c
  {
    var n := IndexIn(CodeAlphabet, c);
    ModSmall(n, |CodeAlphabet|);
  }

  // ----- the typed join code -----

  /** The whitespace that trimming removes (the ASCII part of Kotlin's isWhitespace). */
  predicate IsWhitespace(c: char) {
    c == ' ' || c == '\t' || c == '\n' || c == '\r' || c == '\U{0B}' || c == '\U{0C}'
    || ('\U{1C}' <= c <= '\U{1F}')
  }

  function TrimStart(s: string): (r: string)
    ensures |r| <= |s| && r == s[|s| - |r|..]
    ensures r != [] ==> !IsWhitespace(r[0])
    ensures forall i :: 0 <= i < |s| - |r| ==> IsWhitespace(s[i])
  {
    if s != [] && IsWhitespace(s[0]) then TrimStart(s[1..]) else s
  }

  function TrimEnd(s: string): (r: string)
    ensures |r| <= |s| && r == s[..|r|]
    ensures r != [] ==> !IsWhitespace(r[|r| - 1])
    ensures forall i :: |r| <= i < |s| ==> IsWhitespace(s[i])
  {
    if s != [] && IsWhitespace(s[|s| - 1]) then TrimEnd(s[..|s| - 1]) else s
  }

  function Trim(s: string): string {
    TrimEnd(TrimStart(s))
  }

  function UpperChar(c: char): (u: char)
    ensures 'a' <= c <= 'z' ==> 'A' <= u <= 'Z' && u as int == c as int - 32
    ensures !('a' <= c <= 'z') ==> u == c
  {
    if 'a' <= c <= 'z' then (c as int - 'a' as int + 'A' as int) as char else c
  }

  function Uppercase(s: string): (r: string)
    ensures |r| == |s|
  {
    seq(|s|, i requires 0 <= i < |s| => UpperChar(s[i]))
  }

  /** The code as typed, trimmed and upper-cased. */
  function NormalizeCode(input: string): (code: string)
    ensures |code| <= |input|
    ensures code == [] <==> forall i :: 0 <= i < |input| ==> IsWhitespace(input[i])
  {
    TrimEmptyIffBlank(input);
    Uppercase(Trim(input))
  }

  /** Trimming leaves nothing exactly when the input is all whitespace. */
  lemma TrimEmptyIffBlank(input: string)
    ensures Trim(input) == [] <==> forall i :: 0 <= i < |input| ==> IsWhitespace(input[i])
  {
    var t := TrimStart(input);
    var a := |input| - |t|;
    assert t == input[a..];
    if Trim(input) == [] {
      forall i | 0 <= i < |input| ensures IsWhitespace(input[i]) {
        if i >= a {
          assert input[i] == t[i - a];
        }
      }
    }
  }

  /** n is input[a..a + |n|] with every letter upper-cased. */
  predicate UpperSliceAt(n: string, input: string, a: nat) {
    a + |n| <= |input| && forall i :: 0 <= i < |n| ==> n[i] == UpperChar(input[a + i])
  }

  /**
   * A normalised code has no whitespace at either end and no lower-case
   * letter, and is a slice of the input with letters upper-cased.
   */
  lemma NormalizeCodeMeaning(input: string)
    ensures var n := NormalizeCode(input);
      && (n != [] ==> !IsWhitespace(n[0]) && !IsWhitespace(n[|n| - 1]))
      && (forall i :: 0 <= i < |n| ==> !('a' <= n[i] <= 'z'))
      && (exists a :: UpperSliceAt(n, input, a))
  {
    var t := Trim(input);
    var a := |input| - |TrimStart(input)|;
    TrimIsSlice(input);
    UpperSlice(t, input, a);
    UppercaseFacts(t);
    assert UpperSliceAt(NormalizeCode(input), input, a);
  }

  /** Upper-casing a trimmed string keeps its ends and leaves no lower-case letter. */
  lemma UppercaseFacts(t: string)
    requires t != [] ==> !IsWhitespace(t[0]) && !IsWhitespace(t[|t| - 1])
    ensures var n := Uppercase(t);
      && (n != [] ==> !IsWhitespace(n[0]) && !IsWhitespace(n[|n| - 1]))
      && (forall i :: 0 <= i < |n| ==> !('a' <= n[i] <= 'z'))
  {
    var n := Uppercase(t);
    forall i | 0 <= i < |n| ensures !('a' <= n[i] <= 'z') && (!IsWhitespace(t[i]) ==> !IsWhitespace(n[i])) {
      UpperCharFacts(t[i]);
    }
  }

  /** Upper-casing leaves no lower-case letter and turns no character into whitespace. */
  lemma UpperCharFacts(c: char)
    ensures !('a' <= UpperChar(c) <= 'z')
    ensures !IsWhitespace(c) ==> !IsWhitespace(UpperChar(c))
  {
  }

  /** Trimming keeps a contiguous slice of the input. */
  lemma TrimIsSlice(input: string)
    ensures var a := |input| - |TrimStart(input)|;
      a + |Trim(input)| <= |input| && Trim(input) == input[a..a + |Trim(input)|]
  {
    var s := TrimStart(input);
    var t := TrimEnd(s);
    var a := |input| - |s|;
    assert s == input[a..];
    assert t == s[..|t|];
  }

  lemma UpperSlice(t: string, input: string, a: nat)
    requires a + |t| <= |input| && t == input[a..a + |t|]
    ensures UpperSliceAt(Uppercase(t), input, a)
  {
    var n := Uppercase(t);
    forall i | 0 <= i < |n| ensures n[i] == UpperChar(input[a + i]) {
      assert t[i] == input[a + i];
    }
  }

  /** Normalising a normalised code changes nothing. */
  lemma NormalizeCodeIdempotent(input: string)
    ensures NormalizeCode(NormalizeCode(input)) == NormalizeCode(input)
  {
    var t := Trim(input);
    UppercaseFacts(t);
    var n := Uppercase(t);
    TrimStable(n);
    UppercaseStable(n);
  }

  /** Upper-casing a string with no lower-case letter changes nothing. */
  lemma UppercaseStable(n: string)
    requires forall i :: 0 <= i < |n| ==> !('a' <= n[i] <= 'z')
    ensures Uppercase(n) == n
  {
  }

  /** Trimming a string that starts and ends with something other than whitespace changes nothing. */
  lemma TrimStable(s: string)
    requires s != [] ==> !IsWhitespace(s[0]) && !IsWhitespace(s[|s| - 1])
    ensures Trim(s) == s
  {
  }

  /** The outcome of a join attempt. */
  datatype JoinOutcome = EmptyCode | NotFound | Joined(gameId: string, game: OnlineGame)

  /** A stored record with its id, as the store's query returns it. */
  datatype StoredGame = StoredGame(id: string, game: OnlineGame)

  /** Record is waiting for a guest under code `code`. */
  predicate Matches(d: StoredGame, code: string) {
    d.game.code == code && d.game.status == Waiting
  }

  /** The first record, in the store's order, that waits under `code` (the query's limit of one). */
  function FindWaiting(docs: seq<StoredGame>, code: string): (r: Option<nat>)
    ensures r.None? <==> forall i :: 0 <= i < |docs| ==> !Matches(docs[i], code)
    ensures r.Some? ==> r.value < |docs| && Matches(docs[r.value], code)
                        && forall i :: 0 <= i < r.value ==> !Matches(docs[i], code)
  {
    if docs == [] then None
    else if Matches(docs[0], code) then Some(0)
    else match FindWaiting(docs[1..], code)
      case None => None
      case Some(k) => Some(k + 1)
  }

  /** The join update: the guest, the playing status, and the host to move. */
  function Join(g: OnlineGame, uid: string): (r: OnlineGame)
    ensures r.guestId == uid && r.status == Playing && r.currentTurn == g.hostId
    ensures r.board == g.board && r.hostId == g.hostId && r.winner == g.winner && r.code == g.code
  {
    g.(guestId := uid, status := Playing, currentTurn := g.hostId)
  }

  /**
   * Joining by a typed code: an empty normalised code is refused before any
   * search; otherwise the first waiting record with that code is joined, and
   * without one nothing is written.
   */
  function JoinByCode(docs: seq<StoredGame>, input: string, uid: string): (r: JoinOutcome)
    ensures r.EmptyCode? <==> NormalizeCode(input) == []
    ensures r.NotFound? <==> NormalizeCode(input) != []
                             && forall i :: 0 <= i < |docs| ==> !Matches(docs[i], NormalizeCode(input))
    ensures r.Joined? ==> exists i :: 0 <= i < |docs| && Matches(docs[i], NormalizeCode(input))
                                      && r.gameId == docs[i].id && r.game == Join(docs[i].game, uid)
  {
    var code := NormalizeCode(input);
    if code == [] then EmptyCode
    else match FindWaiting(docs, code)
      case None => NotFound
      case Some(i) => Joined(docs[i].id, Join(docs[i].game, uid))
  }

  /**
   * A join of a consistent waiting record by someone other than the host
   * gives a consistent playing record whose host moves first and whose board,
   * host and code are unchanged.
   */
  lemma JoinConsistent(g: OnlineGame, uid: string)
    requires Consistent(g) && g.status == Waiting
    requires uid != "" && uid != g.hostId
    ensures var j := Join(g, uid);
      Consistent(j) && j.status == Playing && j.currentTurn == g.hostId
      && j.board == g.board && j.hostId == g.hostId && j.code == g.code
  {
    var j := Join(g, uid);
    CountOfEmptyCells(g.board, MarkX);
    CountOfEmptyCells(g.board, MarkO);
    EmptyBoardHasNoLine(g.board, 0);
    assert !AllFilled(g.board) by {
      assert g.board[0] == "";
    }
  }

  lemma {:induction false} EmptyBoardHasNoLine(board: seq<string>, k: nat)
    requires |board| == 9 && forall i :: 0 <= i < |board| ==> board[i] == ""
    requires k <= 8
    ensures ScanLines(board, k).NoLine?
    decreases 8 - k
  {
    if k < 8 {
      EmptyBoardHasNoLine(board, k + 1);
    }
  }
}
