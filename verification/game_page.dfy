/**
 * The game page: one session against the rules engine. A dropped piece is
 * submitted to the engine; an accepted move updates the turn, the move list
 * and the detected opening, ends the game when the engine says it is over,
 * and otherwise, against the computer, schedules a random reply. The page
 * also owns the result, the restart, the time-out and the chat log.
 */
module GamePage {
  import opened Wrappers
  import opened Chess
  import opened Openings
  import GameTimer

  datatype Mode = Human | Computer

  /** One numbered line of the move list. The random `evaluation` figure is not modelled. */
  datatype MoveRecord = MoveRecord(moveNumber: nat, white: string, black: string)

  /** The `type` of a chat message: "system", "emoji" or "message". */
  datatype MessageKind = SystemNotice | Emoji | Text

  /** A chat message; its id and timestamp (clock readings) are not modelled. */
  datatype ChatMessage = ChatMessage(sender: string, text: string, kind: MessageKind)

  // ---------------------------------------------------------------------------
  // The outcome of a finished game
  // ---------------------------------------------------------------------------

  /**
   * The result `handleGameEnd` announces. Checkmate goes first (the side to
   * move is the side mated), then stalemate, then insufficient material;
   * anything else is a plain draw.
   */
  function GameEndResult(checkmate: bool, stalemate: bool, insufficient: bool, turn: Color): (result: string)
    ensures result == "Black wins!" <==> checkmate && turn == White
    ensures result == "White wins!" <==> checkmate && turn == Black
    ensures result == "Stalemate - Draw!" <==> !checkmate && stalemate
    ensures result == "Insufficient material - Draw!" <==> !checkmate && !stalemate && insufficient
    ensures result == "Draw" <==> !checkmate && !stalemate && !insufficient
  {
    if checkmate then (match turn case White => "Black wins!" case Black => "White wins!")
    else if stalemate then "Stalemate - Draw!"
    else if insufficient then "Insufficient material - Draw!"
    else "Draw"
  }

  /** The system notice posted when a game ends. */
  function GameOverNotice(result: string): (notice: ChatMessage)
    ensures notice.sender == "System" && notice.kind == SystemNotice
  {
    ChatMessage("System", "Game Over: " + result, SystemNotice)
  }

  /** The notice's text is "Game Over: " followed by the result, which can be read back from it. */
  lemma GameOverNoticeText(result: string)
    ensures GameOverNotice(result).text[..11] == "Game Over: "
    ensures GameOverNotice(result).text[11..] == result
  {
  }

  /** The notice that opens every chat. */
  const Welcome: ChatMessage := ChatMessage("System", "Game started! Good luck!", SystemNotice)

  // ---------------------------------------------------------------------------
  // The move list
  // ---------------------------------------------------------------------------

  /**
   * The move list of a history: half-moves paired into numbered lines,
   * white's move then black's, black's left empty after an odd number.
   */
  function MoveRecords(history: seq<string>): (records: seq<MoveRecord>)
    ensures |records| == (|history| + 1) / 2
    decreases |history|
  {
    var n := |history|;
    if n == 0 then []
    else if n % 2 == 1 then MoveRecords(history[..n - 1]) + [MoveRecord((n + 1) / 2, history[n - 1], "")]
    else MoveRecords(history[..n - 2]) + [MoveRecord(n / 2, history[n - 2], history[n - 1])]
  }

  /**
   * Line `k` of the move list is numbered `k + 1` and holds half-moves `2k`
   * and `2k + 1`, black's slot empty when the history stops after white's.
   */
  lemma {:induction false} MoveRecordsShape(history: seq<string>)
    ensures forall k :: 0 <= k < |MoveRecords(history)| ==>
      MoveRecords(history)[k] == MoveRecord(k + 1, history[2 * k], if 2 * k + 1 < |history| then history[2 * k + 1] else "")
    decreases |history|
  {
    var n := |history|;
    if n > 0 {
      var m := if n % 2 == 1 then n - 1 else n - 2;
      MoveRecordsShape(history[..m]);
    }
  }

  /** The loop of `updateMoveHistory`: two half-moves per line. */
  method FormatMoves(history: seq<string>) returns (records: seq<MoveRecord>)
    ensures records == MoveRecords(history)
  {
    MoveRecordsShape(history);
    records := [];
    var i := 0;
    while i < |history|
      invariant 0 <= i <= |history| + 1 && i % 2 == 0
      invariant |records| == i / 2
      invariant forall k :: 0 <= k < |records| ==> records[k] == MoveRecords(history)[k]
    {
      var black := if i + 1 < |history| then history[i + 1] else "";
      records := records + [MoveRecord(i / 2 + 1, history[i], black)];
      i := i + 2;
    }
  }

  /** The half-moves a line shows: white's, then black's unless that slot is empty. */
  function LineMoves(r: MoveRecord): seq<string>
  {
    [r.white] + (if r.black == "" then [] else [r.black])
  }

  /** Reading a move list back into half-moves. */
  function HalfMoves(records: seq<MoveRecord>): seq<string>
  {
    if records == [] then [] else HalfMoves(records[..|records| - 1]) + LineMoves(records[|records| - 1])
  }

  /** Reading back one more line appends its half-moves. */
  lemma HalfMovesSnoc(records: seq<MoveRecord>, r: MoveRecord)
    ensures HalfMoves(records + [r]) == HalfMoves(records) + LineMoves(r)
  {
    assert (records + [r])[..|records|] == records;
  }

  lemma SplitLast<T>(s: seq<T>)
    requires |s| >= 1
    ensures s == s[..|s| - 1] + [s[|s| - 1]]
  {
  }

  lemma SplitLastTwo<T>(s: seq<T>)
    requires |s| >= 2
    ensures s == s[..|s| - 2] + [s[|s| - 2], s[|s| - 1]]
  {
    assert s[..|s| - 1] == s[..|s| - 2] + [s[|s| - 2]];
  }

  /** The move list loses nothing: read back, it is the SAN history (SAN moves are never empty). */
  lemma {:induction false} MoveRecordsRoundTrip(history: seq<string>)
    requires "" !in history
    ensures HalfMoves(MoveRecords(history)) == history
    decreases |history|
  {
    var n := |history|;
    if n % 2 == 1 {
      var front := history[..n - 1];
      MoveRecordsRoundTrip(front);
      var last := MoveRecord((n + 1) / 2, history[n - 1], "");
      HalfMovesSnoc(MoveRecords(front), last);
      SplitLast(history);
    } else if n > 0 {
      var front := history[..n - 2];
      MoveRecordsRoundTrip(front);
      var last := MoveRecord(n / 2, history[n - 2], history[n - 1]);
      HalfMovesSnoc(MoveRecords(front), last);
      assert history[n - 1] in history;
      SplitLastTwo(history);
    }
  }

  // ---------------------------------------------------------------------------
  // Chat
  // ---------------------------------------------------------------------------

  /** The characters `String.prototype.trim` removes: white space and line terminators. */
  predicate IsJsWhitespace(c: char)
  {
    var n := c as int;
    (0x09 <= n <= 0x0D) || n == 0x20 || n == 0xA0 || n == 0x1680 ||
    (0x2000 <= n <= 0x200A) || n == 0x2028 || n == 0x2029 || n == 0x202F ||
    n == 0x205F || n == 0x3000 || n == 0xFEFF
  }

  /** Drops the white space in front: what is left is a suffix of `s`. */
  function TrimStart(s: string): (rest: string)
    ensures |rest| <= |s| && rest == s[|s| - |rest|..]
  {
    if s != [] && IsJsWhitespace(s[0]) then TrimStart(s[1..]) else s
  }

  /** Drops the white space behind: what is left is a prefix of `s`. */
  function TrimEnd(s: string): (rest: string)
    ensures |rest| <= |s| && rest == s[..|rest|]
  {
    if s != [] && IsJsWhitespace(s[|s| - 1]) then TrimEnd(s[..|s| - 1]) else s
  }

  predicate IsBlank(s: string)
  {
    forall i :: 0 <= i < |s| ==> IsJsWhitespace(s[i])
  }

  /**
   * `s.trim()`: nothing is left exactly when the string is all white space,
   * what is left neither starts nor ends with white space, and it is one
   * contiguous slice of `s`.
   */
  function Trim(s: string): (t: string)
    ensures t == [] <==> IsBlank(s)
    ensures t != [] ==> !IsJsWhitespace(t[0]) && !IsJsWhitespace(t[|t| - 1])
    ensures exists i, j :: 0 <= i <= j <= |s| && t == s[i..j]
  {
    var front := TrimStart(s);
    TrimStartResult(s);
    TrimEndKeepsHead(front);
    TrimEndResult(front);
    var t := TrimEnd(front);
    PrefixOfSuffix(s, front, t);
    t
  }

  /** A prefix of a suffix of `s` is a slice of `s`. */
  lemma PrefixOfSuffix<T>(s: seq<T>, front: seq<T>, t: seq<T>)
    requires |front| <= |s| && front == s[|s| - |front|..]
    requires |t| <= |front| && t == front[..|t|]
    ensures exists i, j :: 0 <= i <= j <= |s| && t == s[i..j]
  {
    var i := |s| - |front|;
    assert t == s[i..i + |t|];
  }

  /** The handler's `!message.trim()` test: trimming leaves nothing exactly for a blank message. */
  predicate TrimsToNothing(message: string)
    ensures TrimsToNothing(message) <==> IsBlank(message)
  {
    Trim(message) == []
  }

  /** TrimStart leaves nothing exactly when the string is all white space; else a non-space leads. */
  lemma {:induction false} TrimStartResult(s: string)
    ensures TrimStart(s) == [] <==> IsBlank(s)
    ensures TrimStart(s) != [] ==> !IsJsWhitespace(TrimStart(s)[0])
  {
    if s != [] && IsJsWhitespace(s[0]) {
      TrimStartResult(s[1..]);
      assert IsBlank(s[1..]) ==> IsBlank(s) by {
        if IsBlank(s[1..]) {
          forall i | 0 <= i < |s| ensures IsJsWhitespace(s[i]) {
            if i > 0 { assert s[i] == s[1..][i - 1]; }
          }
        }
      }
      assert IsBlank(s) ==> IsBlank(s[1..]) by {
        if IsBlank(s) {
          forall i | 0 <= i < |s[1..]| ensures IsJsWhitespace(s[1..][i]) {
            assert s[1..][i] == s[i + 1];
          }
        }
      }
    } else if s != [] {
      assert !IsJsWhitespace(s[0]);
    }
  }

  /** TrimEnd keeps a leading character that is not white space. */
  lemma {:induction false} TrimEndKeepsHead(s: string)
    ensures s != [] && !IsJsWhitespace(s[0]) ==> TrimEnd(s) != [] && TrimEnd(s)[0] == s[0]
  {
    if s != [] && !IsJsWhitespace(s[0]) && IsJsWhitespace(s[|s| - 1]) {
      assert |s| > 1;
      TrimEndKeepsHead(s[..|s| - 1]);
    }
  }

  /** What TrimEnd leaves does not end with white space. */
  lemma {:induction false} TrimEndResult(s: string)
    ensures TrimEnd(s) != [] ==> !IsJsWhitespace(TrimEnd(s)[|TrimEnd(s)| - 1])
  {
    if s != [] && IsJsWhitespace(s[|s| - 1]) {
      TrimEndResult(s[..|s| - 1]);
    }
  }

  /** The emoji ranges of the chat's pattern: U+1F600–1F64F, U+1F300–1F5FF, U+1F680–1F6FF, U+1F1E0–1F1FF. */
  predicate IsEmojiCodePoint(c: char)
  {
    var n := c as int;
    (0x1F600 <= n <= 0x1F64F) || (0x1F300 <= n <= 0x1F5FF) ||
    (0x1F680 <= n <= 0x1F6FF) || (0x1F1E0 <= n <= 0x1F1FF)
  }

  /** `s.length`: the number of UTF-16 code units, two for a code point above U+FFFF. */
  function Utf16Length(s: string): (n: nat)
    ensures n >= |s|
  {
    if s == [] then 0 else (if s[0] as int >= 0x10000 then 2 else 1) + Utf16Length(s[1..])
  }

  /** The unanchored pattern `.test(message)`: some code point of the message is in an emoji range. */
  predicate ContainsEmoji(s: string)
  {
    exists i :: 0 <= i < |s| && IsEmojiCodePoint(s[i])
  }

  /** The message type as written: `message.length === 1 && pattern.test(message)`. */
  function MessageKindAsWritten(message: string): (kind: MessageKind)
    ensures kind == Emoji ==> |message| == 1 && ContainsEmoji(message)
    ensures kind != SystemNotice
  {
    if Utf16Length(message) == 1 && ContainsEmoji(message) then Emoji else Text
  }

  /**
   * As written, no message is ever typed "emoji": a message of UTF-16 length
   * one is a single code point below U+10000, and every emoji range lies above.
   */
  lemma {:induction false} AsWrittenNeverEmoji(message: string)
    ensures MessageKindAsWritten(message) == Text
  {
    if Utf16Length(message) == 1 {
      assert |message| == 1;
      assert Utf16Length(message) == (if message[0] as int >= 0x10000 then 2 else 1) + Utf16Length(message[1..]);
      assert message[0] as int < 0x10000;
      assert !IsEmojiCodePoint(message[0]);
    }
  }

  /** The message type counting code points: a message that is one emoji is typed "emoji". */
  function MessageKindOf(message: string): (kind: MessageKind)
    ensures kind == Emoji <==> |message| == 1 && IsEmojiCodePoint(message[0])
    ensures kind != SystemNotice
  {
    if |message| == 1 && IsEmojiCodePoint(message[0]) then Emoji else Text
  }

  /** A lone emoji such as U+1F600 shows the difference: typed "emoji" here, "message" as written. */
  lemma SingleEmojiClassified(c: char)
    requires IsEmojiCodePoint(c)
    ensures MessageKindOf([c]) == Emoji
    ensures MessageKindAsWritten([c]) == Text
  {
    AsWrittenNeverEmoji([c]);
  }

  /** The corrected typing departs from the code's only on a message that is one emoji. */
  lemma KindsAgreeExceptLoneEmoji(message: string)
    ensures MessageKindOf(message) == MessageKindAsWritten(message) <==>
      !(|message| == 1 && IsEmojiCodePoint(message[0]))
  {
    AsWrittenNeverEmoji(message);
  }

  // ---------------------------------------------------------------------------
  // The session
  // ---------------------------------------------------------------------------

  class Session {
    /** The rules engine's answers. */
    const engine: Engine
    /** The opening catalog, in file order. */
    const catalog: seq<Opening>

    /** The engine's position (`game`), as its SAN history. */
    var history: seq<string>
    var winner: Option<string>
    var gameOver: bool
    var openingName: string
    var playerMode: Mode
    var gameStarted: bool
    var playerTurn: Color
    var moveHistory: seq<MoveRecord>
    var currentMoveIndex: int
    var showGameOverModal: bool
    var chatMessages: seq<ChatMessage>
    /** Computer replies scheduled with `setTimeout` that have not fired yet. */
    var pendingReplies: nat

    /**
     * What every handler keeps: the displayed turn is the engine's, the move
     * list is the engine's history, the selected line exists (or none is
     * selected), a result is shown exactly when the game is over, and the game
     * only counts as started once a move was accepted.
     */
    ghost predicate Valid()
      reads this
    {
      && playerTurn == Turn(history)
      && moveHistory == MoveRecords(history)
      && -1 <= currentMoveIndex < |moveHistory|
      && (gameOver <==> winner.Some?)
      && showGameOverModal == gameOver
      && (gameStarted ==> |history| > 0)
    }

    /**
     * The clock runs while the game is started and not over (`isActive`):
     * only in a game with at least one move and no result yet.
     */
    predicate IsActive()
      reads this
      ensures IsActive() && Valid() ==> |history| > 0 && winner == None
    {
      gameStarted && !gameOver
    }

    /** The result `handleGameEnd` would announce in position `h`. */
    function EndResult(h: seq<string>): string
    {
      GameEndResult(engine.inCheckmate(h), engine.inStalemate(h), engine.insufficientMaterial(h), Turn(h))
    }

    /** Whether `makeRandomMove` ends the game instead of moving. */
    predicate NoReplyPossible()
      reads this
    {
      engine.gameOver(history) || engine.inDraw(history) || |engine.moves(history)| == 0
    }

    /** A freshly opened page: the start position, vs Computer, one welcome notice. */
    constructor (engine: Engine, catalog: seq<Opening>)
      ensures Valid()
      ensures this.engine == engine && this.catalog == catalog
      ensures history == [] && winner == None && !gameOver && openingName == ""
      ensures playerMode == Computer && !gameStarted && playerTurn == White
      ensures moveHistory == [] && currentMoveIndex == -1 && !showGameOverModal
      ensures chatMessages == [Welcome] && pendingReplies == 0
    {
      this.engine := engine;
      this.catalog := catalog;
      history := [];
      winner := None;
      gameOver := false;
      openingName := "";
      playerMode := Computer;
      gameStarted := false;
      playerTurn := White;
      moveHistory := [];
      currentMoveIndex := -1;
      showGameOverModal := false;
      chatMessages := [Welcome];
      pendingReplies := 0;
    }

    /** `updateMoveHistory`: rebuild the move list from the engine and select its last line. */
    method UpdateMoveHistory()
      modifies this
      ensures moveHistory == MoveRecords(history) && currentMoveIndex == |moveHistory| - 1
      ensures history == old(history) && playerTurn == old(playerTurn) && openingName == old(openingName)
      ensures winner == old(winner) && gameOver == old(gameOver) && showGameOverModal == old(showGameOverModal)
      ensures gameStarted == old(gameStarted) && playerMode == old(playerMode)
      ensures chatMessages == old(chatMessages) && pendingReplies == old(pendingReplies)
    {
      var records := FormatMoves(history);
      moveHistory := records;
      currentMoveIndex := |records| - 1;
    }

    /**
     * `handleGameEnd`: the game is over and no longer started, the result is
     * chosen by priority and shown, and one system notice is posted.
     */
    method HandleGameEnd()
      requires playerTurn == Turn(history) && moveHistory == MoveRecords(history)
      requires -1 <= currentMoveIndex < |moveHistory|
      modifies this
      ensures Valid() && !IsActive()
      ensures gameOver && !gameStarted && showGameOverModal && winner == Some(EndResult(history))
      ensures chatMessages == old(chatMessages) + [GameOverNotice(EndResult(history))]
      ensures history == old(history) && playerTurn == old(playerTurn) && moveHistory == old(moveHistory)
      ensures currentMoveIndex == old(currentMoveIndex) && openingName == old(openingName)
      ensures playerMode == old(playerMode) && pendingReplies == old(pendingReplies)
    {
      gameOver := true;
      gameStarted := false;
      var result := EndResult(history);
      winner := Some(result);
      showGameOverModal := true;
      chatMessages := chatMessages + [GameOverNotice(result)];
    }

    /**
     * The accepted branch of `onDrop` up to the game-over test: the move is
     * played, the game is started, and the turn, the move list and the
     * opening follow the new history.
     */
    method AcceptMove(san: string)
      requires Valid()
      modifies this
      ensures Valid()
      ensures history == old(history) + [san] && gameStarted
      ensures currentMoveIndex == |moveHistory| - 1 && openingName == DetectOpening(catalog, history)
      ensures winner == old(winner) && gameOver == old(gameOver)
      ensures playerMode == old(playerMode) && chatMessages == old(chatMessages) && pendingReplies == old(pendingReplies)
    {
      var h := history + [san];
      var name := DetectOpening(catalog, h);
      history := h;
      gameStarted := true;
      playerTurn := Turn(h);
      UpdateMoveHistory();
      openingName := name;
    }

    /**
     * `onDrop`: a human move, always offered with promotion to a queen.
     * Refused, with nothing changed, when the game is over or the engine
     * rejects it. Otherwise the move is played, the game is started, the
     * turn, the move list and the opening follow the new history, and then
     * either the game ends or, against the computer, one reply is scheduled.
     */
    method OnDrop(source: string, target: string) returns (accepted: bool)
      requires Valid()
      modifies this
      ensures Valid()
      ensures accepted <==> !old(gameOver) && engine.move(old(history), MoveRequest(source, target, "q")).Some?
      ensures !accepted ==> unchanged(this)
      ensures accepted ==>
        && history == old(history) + [engine.move(old(history), MoveRequest(source, target, "q")).value]
        && openingName == DetectOpening(catalog, history)
        && currentMoveIndex == |moveHistory| - 1
        && playerMode == old(playerMode)
      ensures accepted && engine.gameOver(history) ==>
        && gameOver && !gameStarted && winner == Some(EndResult(history))
        && chatMessages == old(chatMessages) + [GameOverNotice(EndResult(history))]
        && pendingReplies == old(pendingReplies)
      ensures accepted && !engine.gameOver(history) ==>
        && !gameOver && gameStarted && winner == None && chatMessages == old(chatMessages)
        && pendingReplies == old(pendingReplies) + (if playerMode == Computer then 1 else 0)
    {
      if gameOver {
        return false;
      }
      var played := engine.move(history, MoveRequest(source, target, "q"));
      if played.None? {
        return false;
      }
      AcceptMove(played.value);
      if engine.gameOver(history) {
        HandleGameEnd();
        return true;
      }
      if playerMode == Computer {
        pendingReplies := pendingReplies + 1;
      }
      return true;
    }

    /**
     * `makeRandomMove`: when the engine reports the game over or drawn, or
     * has no legal move, the game ends and nothing is played; otherwise the
     * legal move at index `choice` (the random pick) is played and the turn
     * and the move list follow it. The opening and the game-over state are not
     * revisited after this move.
     */
    method MakeRandomMove(choice: nat)
      requires Valid()
      requires NoReplyPossible() || choice < |engine.moves(history)|
      modifies this
      ensures Valid()
      ensures openingName == old(openingName) && playerMode == old(playerMode) && pendingReplies == old(pendingReplies)
      ensures old(NoReplyPossible()) ==>
        && history == old(history) && currentMoveIndex == old(currentMoveIndex)
        && gameOver && !gameStarted && winner == Some(EndResult(history))
        && chatMessages == old(chatMessages) + [GameOverNotice(EndResult(history))]
      ensures !old(NoReplyPossible()) ==>
        && history == old(history) + [engine.moves(old(history))[choice]]
        && currentMoveIndex == |moveHistory| - 1
        && gameOver == old(gameOver) && winner == old(winner) && gameStarted == old(gameStarted)
        && chatMessages == old(chatMessages)
    {
      var possibleMoves := engine.moves(history);
      if engine.gameOver(history) || engine.inDraw(history) || |possibleMoves| == 0 {
        HandleGameEnd();
        return;
      }
      history := history + [possibleMoves[choice]];
      playerTurn := Turn(history);
      UpdateMoveHistory();
    }

    /** A scheduled reply fires (`setTimeout(makeRandomMove, 500)`), with the random pick `choice`. */
    method ComputerReply(choice: nat)
      requires Valid() && pendingReplies > 0
      requires NoReplyPossible() || choice < |engine.moves(history)|
      modifies this
      ensures Valid()
      ensures pendingReplies == old(pendingReplies) - 1
      ensures openingName == old(openingName) && playerMode == old(playerMode)
      ensures old(NoReplyPossible()) ==>
        && history == old(history) && currentMoveIndex == old(currentMoveIndex)
        && gameOver && !gameStarted && winner == Some(EndResult(history))
        && chatMessages == old(chatMessages) + [GameOverNotice(EndResult(history))]
      ensures !old(NoReplyPossible()) ==>
        && history == old(history) + [engine.moves(old(history))[choice]]
        && currentMoveIndex == |moveHistory| - 1
        && gameOver == old(gameOver) && winner == old(winner) && gameStarted == old(gameStarted)
        && chatMessages == old(chatMessages)
    {
      pendingReplies := pendingReplies - 1;
      MakeRandomMove(choice);
    }

    /**
     * `restartGame`: a new engine at the start position, nothing over or
     * started, no result, no opening, White to move, an empty move list.
     * The mode, the chat log and any scheduled reply are kept.
     */
    method RestartGame()
      modifies this
      ensures Valid()
      ensures history == [] && !gameOver && !gameStarted && winner == None && openingName == ""
      ensures playerTurn == White && moveHistory == [] && currentMoveIndex == -1 && !showGameOverModal
      ensures playerMode == old(playerMode) && chatMessages == old(chatMessages) && pendingReplies == old(pendingReplies)
    {
      history := [];
      gameOver := false;
      gameStarted := false;
      winner := None;
      openingName := "";
      playerTurn := White;
      moveHistory := [];
      currentMoveIndex := -1;
      showGameOverModal := false;
    }

    /**
     * `handleTimeUp`: the side not on turn wins on time and the game is
     * over; the board, the move list and `gameStarted` are left alone.
     */
    method HandleTimeUp()
      requires Valid()
      modifies this
      ensures Valid() && !IsActive()
      ensures gameOver && showGameOverModal
      ensures winner == Some(if old(playerTurn) == White then "Black wins on time!" else "White wins on time!")
      ensures history == old(history) && currentMoveIndex == old(currentMoveIndex) && openingName == old(openingName)
      ensures gameStarted == old(gameStarted) && playerMode == old(playerMode)
      ensures chatMessages == old(chatMessages) && pendingReplies == old(pendingReplies)
    {
      winner := Some(if playerTurn == White then "Black wins on time!" else "White wins on time!");
      gameOver := true;
      showGameOverModal := true;
    }

    /** `handleSendMessage`: a blank message is dropped; any other is appended as the player's. */
    method HandleSendMessage(message: string)
      requires Valid()
      modifies this
      ensures Valid()
      ensures IsBlank(message) ==> unchanged(this)
      ensures !IsBlank(message) ==> chatMessages == old(chatMessages) + [ChatMessage("You", message, MessageKindOf(message))]
      ensures !IsBlank(message) && !(|message| == 1 && IsEmojiCodePoint(message[0])) ==>
        chatMessages == old(chatMessages) + [ChatMessage("You", message, MessageKindAsWritten(message))]
      ensures history == old(history) && currentMoveIndex == old(currentMoveIndex) && openingName == old(openingName)
      ensures winner == old(winner) && gameOver == old(gameOver) && gameStarted == old(gameStarted)
      ensures playerMode == old(playerMode) && pendingReplies == old(pendingReplies)
    {
      KindsAgreeExceptLoneEmoji(message);
      if TrimsToNothing(message) {
        return;
      }
      chatMessages := chatMessages + [ChatMessage("You", message, MessageKindOf(message))];
    }

    /** The vs Human / vs Computer toggle. */
    method TogglePlayerMode()
      requires Valid()
      modifies this
      ensures Valid()
      ensures playerMode == if old(playerMode) == Human then Computer else Human
      ensures history == old(history) && currentMoveIndex == old(currentMoveIndex) && openingName == old(openingName)
      ensures winner == old(winner) && gameOver == old(gameOver) && gameStarted == old(gameStarted)
      ensures chatMessages == old(chatMessages) && pendingReplies == old(pendingReplies)
    {
      playerMode := if playerMode == Human then Computer else Human;
    }

    /** A click on line `index` of the move list selects it. */
    method SelectMove(index: int)
      requires Valid() && 0 <= index < |moveHistory|
      modifies this
      ensures Valid()
      ensures currentMoveIndex == index
      ensures history == old(history) && openingName == old(openingName) && playerMode == old(playerMode)
      ensures winner == old(winner) && gameOver == old(gameOver) && gameStarted == old(gameStarted)
      ensures chatMessages == old(chatMessages) && pendingReplies == old(pendingReplies)
    {
      currentMoveIndex := index;
    }
  }

  /**
   * One second of the page's clock: the timer ticks with `isActive` and
   * `playerTurn` taken from the session, and a time-up hands the game to the
   * other side. A finished or not yet started game leaves both counters alone.
   */
  method ClockTick(session: Session, clock: GameTimer.Clock)
    requires session.Valid() && clock.Valid()
    modifies session, clock
    ensures session.Valid() && clock.Valid()
    ensures !old(session.IsActive()) ==>
      clock.whiteTime == old(clock.whiteTime) && clock.blackTime == old(clock.blackTime) && unchanged(session)
    ensures old(session.IsActive()) && old(session.playerTurn) == White ==>
      clock.whiteTime == GameTimer.CountDown(old(clock.whiteTime)) && clock.blackTime == old(clock.blackTime)
    ensures old(session.IsActive()) && old(session.playerTurn) == Black ==>
      clock.blackTime == GameTimer.CountDown(old(clock.blackTime)) && clock.whiteTime == old(clock.whiteTime)
    ensures old(session.IsActive()) && GameTimer.TimesUp(old(if session.playerTurn == White then clock.whiteTime else clock.blackTime)) ==>
      session.gameOver && session.winner == Some(if old(session.playerTurn) == White then "Black wins on time!" else "White wins on time!")
    ensures old(session.IsActive()) && !GameTimer.TimesUp(old(if session.playerTurn == White then clock.whiteTime else clock.blackTime)) ==>
      unchanged(session)
    ensures session.history == old(session.history) && session.chatMessages == old(session.chatMessages)
    ensures session.currentMoveIndex == old(session.currentMoveIndex) && session.openingName == old(session.openingName)
    ensures session.gameStarted == old(session.gameStarted) && session.playerMode == old(session.playerMode)
    ensures session.moveHistory == old(session.moveHistory) && session.pendingReplies == old(session.pendingReplies)
  {
    var timeUp := clock.Tick(session.IsActive(), session.playerTurn);
    if timeUp {
      session.HandleTimeUp();
    }
  }
}
