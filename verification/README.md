# Chess web app — verified model of its game logic

This project models, in Dafny, the parts of the chess web application that
make decisions rather than draw the screen:

- **Opening detection** (`Openings`): the catalog of openings is scanned in
  order. Each entry's move string is split on single spaces and compared,
  index by index, with the SAN moves played so far. The first entry that
  matches names the opening. Otherwise the answer is `"No Opening"`.
- **The game page** (`GamePage`, over the abstract engine of `Chess`): a
  `Session` class holds the page's state variables and has one method per
  handler.
  - `onDrop`, `makeRandomMove`, `handleGameEnd`, `restartGame`,
    `handleTimeUp`, `handleSendMessage`, the mode toggle and the move-list click.
  - The move-list builder `updateMoveHistory`, with its pairing loop.
  - The outcome priority of a finished game.
  - The chat's trim test and message typing.
- **The two-sided clock** (`GameTimer`):
  - a `Clock` class whose `Tick` is one firing of the one-second interval;
  - `formatTime` ("m:ss") and `getTimeColor`.
- **The match-history list** (`Dashboard`): the case-insensitive search
  filter, the stable sort by date, the page of six, and the Previous / Next
  buttons.
- **The result badge** (`GameCard`): the label and the colour for a result
  string.

The rules of chess are not modelled. The engine (chess.js) is a value of
type `Chess.Engine`. Its fields are the page's queries, and each is a
function of the position. A position is identified with its SAN history
from the standard start. The side to move follows from the history's parity.
Randomness and timers are explicit inputs: the random move index is a
`choice` parameter, and a fired `setTimeout` or `setInterval` callback is a
method call (`ComputerReply`, `ClockTick`). Lower-casing in the dashboard is
the parameter `lower`.

The model follows the code, including where it does less than a reader
might expect:

- `makeRandomMove` neither re-detects the opening nor checks for the end of
  the game after the computer's move.
- `makeRandomMove` asks the engine whether the game is over, not the page's
  `gameOver` flag. A computer reply still pending when the game ends on time
  therefore still plays a move.
- `restartGame` resets neither the clock's counters nor the replies already
  scheduled.
- `restartGame` clears the opening name to the empty string, not to
  "No Opening".
- `handleTimeUp` posts no chat notice and leaves `gameStarted` set.
- Changing the search text or the sort key does not reset the page number.

There is one exception. `handleSendMessage` types a message with the
corrected test of the finding below, not with the code's length test.
`KindsAgreeExceptLoneEmoji` proves that the two differ only on a message
that is a single emoji.

## Model

| member | source | states |
|---|---|---|
| Openings.SplitOnSpace | src/utils/detectOpening.ts:11 | `split(' ')` yields at least one piece, and no piece contains a space |
| Openings.NoSpaceSplit | src/utils/detectOpening.ts:11 | a single move without spaces splits into itself |
| Openings.SplitAfterWord | src/utils/detectOpening.ts:11 | splitting "w t…" for a space-free word w gives w followed by the pieces of the rest |
| Openings.JoinSplit | src/utils/detectOpening.ts:11 | joining the pieces with single spaces gives back the catalog string, so the split loses nothing |
| Openings.SplitJoin | src/utils/detectOpening.ts:11 | splitting a space-joined line of space-free moves gives back exactly those moves |
| Openings.DetectOpening | src/utils/detectOpening.ts:9-20 | the answer is the sentinel or the name of a catalog entry whose line is matched |
| Openings.DetectOpeningFirstMatch | src/utils/detectOpening.ts:10-16 | when entry k is matched and no earlier entry is, the answer is entry k's name, whatever later entries match |
| Openings.DetectOpeningNoMatch | src/utils/detectOpening.ts:19 | when no entry is matched, the answer is exactly "No Opening" |
| Openings.DetectOpeningHasFirstMatch | src/utils/detectOpening.ts:10-19 | if no entry is itself named "No Opening": the answer differs from the sentinel if and only if some entry is the first match and supplies the answer |
| Openings.LineMatchesIsPrefix | src/utils/detectOpening.ts:12 | the `every` test holds exactly when the entry's line is a prefix of the played moves |
| Openings.ExtendedPlayKeepsMatch | src/utils/detectOpening.ts:12 | moves played after a matched line keep the entry matched |
| Openings.LongerLineNeverMatches | src/utils/detectOpening.ts:12 | an entry with more moves than were played never matches, because the missing moves read `undefined` |
| Openings.DetectOpeningOfNoMoves | src/utils/detectOpening.ts:11-19 | with no moves played, the answer is "No Opening" for every catalog |
| Openings.CatalogOrderDecides | src/utils/detectOpening.ts:10-16 | "Open Game" (e4 e5), listed before "King's Knight" (e4 e5 Nf3), wins on the moves e4 e5 Nf3 |
| GameCard.ResultColor | src/components/GameCard.tsx:19-23 | green exactly for "1-0", red exactly for "0-1", yellow exactly for every other string |
| GameCard.ResultText | src/components/GameCard.tsx:25-29 | "White Won" exactly for "1-0", "Black Won" exactly for "0-1", "Draw" exactly for every other string |
| GameCard.ColorAgreesWithText | src/components/GameCard.tsx:19-29 | the colour of a result is always the colour that belongs with its label |
| GameTimer.CountDown | src/components/GameTimer.tsx:23-29 | one tick leaves a counter non-negative, takes one second off a positive counter and leaves zero otherwise |
| GameTimer.CountDownTimesValue | src/components/GameTimer.tsx:21-39 | n ticks of one side take n seconds off its counter, stopping at zero |
| GameTimer.TimeUpOnTickNumber | src/components/GameTimer.tsx:24-27 | from t seconds, `onTimeUp` is called on tick number t and every later tick, and on none before; from 0 or 1 second, on every tick |
| GameTimer.Clock.constructor | src/components/GameTimer.tsx:15-16 | both counters start at `initialTime` |
| GameTimer.Clock.Tick | src/components/GameTimer.tsx:19-39 | inactive: nothing changes and time is not up; active: only the side to move counts down, time-up is reported when that counter was at 1 or below, and no counter increases or goes negative |
| GameTimer.DecimalString | src/components/GameTimer.tsx:47 | `toString()` of a whole number: at least one character, all decimal digits, one digit exactly below ten, and a leading zero only for zero itself |
| GameTimer.PadStart2 | src/components/GameTimer.tsx:47 | `padStart(2, "0")`: the result has length two, or the input's length when longer; it ends with the input and is zeros before it |
| GameTimer.FormatTime | src/components/GameTimer.tsx:44-48 | the display is the minutes' digits, a colon, and exactly two digits for the tens and units of `seconds % 60` |
| GameTimer.DecimalRoundTrip | src/components/GameTimer.tsx:47 | the decimal digits of a number read back as the number |
| GameTimer.SecondsField | src/components/GameTimer.tsx:46-47 | the padded seconds field is always two digits, the tens and units of `s % 60` |
| GameTimer.FormatTimeRoundTrip | src/components/GameTimer.tsx:44-48 | "m:ss" is exact: reading it back gives minutes × 60 + seconds = the counter, with seconds below 60 |
| GameTimer.TimeColor | src/components/GameTimer.tsx:50-54 | red exactly at 30 s or less, yellow exactly above 30 s up to 60 s, gray exactly above 60 s |
| GameTimer.TimeColorMonotone | src/components/GameTimer.tsx:50-54 | less time left never shows a calmer colour |
| Dashboard.Includes | src/pages/Dashboard.tsx:50-52 | `includes`: every string includes "", and no string includes a longer one |
| Dashboard.IncludesAt | src/pages/Dashboard.tsx:50-52 | an occurrence of the search text at any position makes `includes` true |
| Dashboard.IncludesIffOccurs | src/pages/Dashboard.tsx:50-52 | `includes` holds if and only if the search text occurs as a slice at some position |
| Dashboard.SearchMatches | src/pages/Dashboard.tsx:48-52 | a search whose lower case is empty matches every game |
| Dashboard.Filter | src/pages/Dashboard.tsx:47-53 | a game is kept if and only if it is stored and matches the search in a player name or the opening; each matching game is kept as many times as it is stored, and no other game at all |
| Dashboard.FilterEmptySearch | src/pages/Dashboard.tsx:48-53 | the empty search keeps every game, in stored order |
| Dashboard.Insert | src/pages/Dashboard.tsx:54-58 | inserting a game into a sorted list keeps it sorted and adds exactly that game |
| Dashboard.SortByDate | src/pages/Dashboard.tsx:54-58 | the sorted list is in date order for the sort key and is a permutation of its input |
| Dashboard.SortDirection | src/pages/Dashboard.tsx:54-58 | with "recent" dates never increase down the list; with any other key they never decrease |
| Dashboard.PageOf | src/pages/Dashboard.tsx:59 | page p holds positions (p−1)·6 up to p·6 of the list, clamped to its length, so at most six games |
| Dashboard.PageIsSortedRun | src/pages/Dashboard.tsx:59 | a page of a sorted list is sorted and holds only games of the list |
| Dashboard.FilteredGames | src/pages/Dashboard.tsx:47-59 | the list shows at most six stored games, each matching the search, in date order for the sort key |
| Dashboard.AdjacentPages | src/pages/Dashboard.tsx:59 | a full page followed by the next page is one contiguous run of the sorted list |
| Dashboard.PreviousEnabled | src/pages/Dashboard.tsx:188 | Previous is enabled exactly from page 2 on |
| Dashboard.NextEnabled | src/pages/Dashboard.tsx:195 | Next is enabled exactly when the page shows six games |
| Dashboard.PressPrevious | src/pages/Dashboard.tsx:188-189 | Previous goes one page back when enabled (page ≠ 1) and does nothing otherwise, so the page never drops below 1 |
| Dashboard.PressNext | src/pages/Dashboard.tsx:195-196 | Next goes one page on when the page shows six games and does nothing otherwise |
| Dashboard.NextContinues | src/pages/Dashboard.tsx:195-196 | Next is only enabled on a full page, and the page it opens continues the sorted list where the full page ended |
| Chess.Turn | src/pages/GamePage.tsx:88 | `game.turn()`: White is to move in the start position |
| Chess.TurnAlternates | src/pages/GamePage.tsx:88 | every accepted move hands the turn to the other side |
| GamePage.GameEndResult | src/pages/GamePage.tsx:139-146 | the outcome priority: checkmate (the side to move loses), then stalemate, then insufficient material, then a plain draw, each result if and only if its case |
| GamePage.GameOverNotice | src/pages/GamePage.tsx:151-160 | the end-of-game notice is a system message, never the player's |
| GamePage.GameOverNoticeText | src/pages/GamePage.tsx:151-160 | its text is "Game Over: " followed by the result, which can be read back from it |
| GamePage.MoveRecords | src/pages/GamePage.tsx:118-129 | the move list has ⌈n/2⌉ lines for n half-moves |
| GamePage.MoveRecordsShape | src/pages/GamePage.tsx:118-129 | line k is numbered k+1 and holds half-move 2k for white and half-move 2k+1, or "", for black |
| GamePage.FormatMoves | src/pages/GamePage.tsx:114-131 | the pairing loop builds exactly the move list of the history |
| GamePage.MoveRecordsRoundTrip | src/pages/GamePage.tsx:114-131 | reading the move list back line by line gives the SAN history, so pairing loses no move |
| GamePage.Trim | src/pages/GamePage.tsx:203 | `message.trim()` is empty if and only if the message is all white space; otherwise it neither starts nor ends with white space; it is always one contiguous slice of the message |
| GamePage.TrimsToNothing | src/pages/GamePage.tsx:203 | the handler's `!message.trim()` test holds exactly for a message that is all white space |
| GamePage.Utf16Length | src/pages/GamePage.tsx:211 | `length` counts at least one unit per character |
| GamePage.MessageKindAsWritten | src/pages/GamePage.tsx:210-216 | the code's typing: "emoji" only for a message of length one that contains an emoji, and never a system notice |
| GamePage.AsWrittenNeverEmoji | src/pages/GamePage.tsx:210-216 | as written, no message is ever typed "emoji" |
| GamePage.MessageKindOf | src/pages/GamePage.tsx:210-216 | corrected typing: "emoji" exactly for a message that is one emoji character; a user message is never a system notice |
| GamePage.SingleEmojiClassified | src/pages/GamePage.tsx:210-216 | a lone emoji is typed "emoji" by the corrected test and "message" by the code as written |
| GamePage.KindsAgreeExceptLoneEmoji | src/pages/GamePage.tsx:210-216 | the corrected typing and the code's typing agree on a message if and only if it is not a single emoji |
| GamePage.Session.IsActive | src/pages/GamePage.tsx:304 | the clock's `isActive`: it holds only in a game with at least one move and no result yet |
| GamePage.Session.constructor | src/pages/GamePage.tsx:27-49 | a new page: start position, no result, no opening, vs Computer, White to move, empty move list, the welcome notice alone in the chat |
| GamePage.Session.UpdateMoveHistory | src/pages/GamePage.tsx:114-133 | the move list becomes the engine history's list, its last line is selected, and nothing else changes |
| GamePage.Session.HandleGameEnd | src/pages/GamePage.tsx:135-161 | the game is over and no longer started (so the clock stops), the prioritised result is shown, exactly one "Game Over: …" notice is appended, and the board is untouched |
| GamePage.Session.AcceptMove | src/pages/GamePage.tsx:86-93 | after an accepted move the game is started, the turn and the move list follow the engine, and the opening is detected over the whole history |
| GamePage.Session.OnDrop | src/pages/GamePage.tsx:76-105 | accepted exactly when the game is not over and the engine plays the move offered with promotion "q"; a refusal changes nothing; an accepted move ends the game when the engine says so, and otherwise schedules one reply only against the computer |
| GamePage.Session.MakeRandomMove | src/pages/GamePage.tsx:60-74 | over, drawn or without legal moves: nothing is played and the game ends; otherwise the chosen legal move is played and the turn and move list follow it |
| GamePage.Session.ComputerReply | src/pages/GamePage.tsx:101 | a scheduled reply fires once (one fewer pending) and has exactly `makeRandomMove`'s effect: the game ends when no move can be made, and otherwise the chosen legal move is played |
| GamePage.Session.RestartGame | src/pages/GamePage.tsx:163-174 | not over, not started, no result, no opening, White to move, an empty move list with no line selected; the mode, the chat and scheduled replies are kept |
| GamePage.Session.HandleTimeUp | src/pages/GamePage.tsx:194-200 | the side not on turn wins on time and the game is over; board, move list, opening and chat are untouched |
| GamePage.Session.HandleSendMessage | src/pages/GamePage.tsx:202-220 | a blank message changes nothing; any other is appended as the player's with the corrected type, which is the code's type for every message but a lone emoji; only the chat changes |
| GamePage.Session.TogglePlayerMode | src/pages/GamePage.tsx:269-271 | the mode flips between vs Human and vs Computer and nothing else changes |
| GamePage.Session.SelectMove | src/pages/GamePage.tsx:436-440 | a click on a line of the move list selects it and nothing else changes |
| GamePage.ClockTick | src/pages/GamePage.tsx:302-307 | the clock runs only while the game is started and not over; a tick that does not run out the side to move changes nothing on the page; a time-up ends the game in the other side's favour and keeps the board, move list, opening, mode, chat and pending replies |

## Left out

- The rules of chess: legality, check, mate, stalemate and material are the engine's answers. The model takes them as given functions and does not compute them.
- React's scheduling: `setState` batching, stale closures and the shallow copy in `safeGameMutate`. Each handler is one atomic, sequential update, and the engine's state is the history the handler sees.
- Timers: `setTimeout` and `setInterval` are not modelled as time. A fired callback is a call to `ComputerReply` or `ClockTick`, and replies still pending are counted in `pendingReplies`.
- `Math.random`: the random move is the `choice` parameter. The random `evaluation` figure on each move-list line is not modelled.
- Message ids and timestamps: they are readings of the clock.
- Date parsing: dashboard dates are integer timestamps.
- The Resign and Offer Draw buttons: they only raise an alert and change no state.
- The contents of the openings catalog and of the stored games: they are parameters.
- Dashboard.SortByDate: stability, i.e. that equal dates keep their filtered order, is built into the definition but not stated as a contract.
- GameTimer.Clock.constructor: `initialTime` is a natural number; a negative starting time is not modelled (the page passes 600).
- Dashboard.SearchMatches: `toLowerCase` is the abstract parameter `lower`. Unicode case mapping is not modelled, and FilterEmptySearch assumes that the lower case of "" is "".
- GamePage.Session.HandleSendMessage: types the message with the corrected `MessageKindOf`, not the code's length test (`MessageKindAsWritten`); the two differ only on a message that is a single emoji, which the code types "message" and the model types "emoji".
- GamePage.MoveRecordsRoundTrip: it assumes that no SAN move is the empty string, which chess.js guarantees.

## Findings

| source | as written | input that shows it | evidently intended | confidence | as-written member | corrected member |
|---|---|---|---|---|---|---|
| src/pages/GamePage.tsx:210-216 | a message is typed "emoji" only when `message.length === 1` and it contains a character of the pattern's emoji ranges; `length` counts UTF-16 units, and every character of those ranges lies above U+FFFF and takes two | the emoji picker's "😊" (U+1F60A): its length is 2, so it is typed "message" | a message that is a single emoji is typed "emoji" and shown large | not executed | GamePage.AsWrittenNeverEmoji | GamePage.MessageKindOf |
