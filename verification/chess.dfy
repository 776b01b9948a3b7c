/**
 * The rules engine (chess.js) as the game page sees it. The rules
 * themselves are not modelled: the engine is a record of the queries the
 * page makes, each a function of the position. A position is identified
 * with the SAN history played from the standard starting position, which is
 * what `game.history()` returns.
 */
module Chess {
  import opened Wrappers

  datatype Color = White | Black

  /** The piece dropped on the board: origin square, target square, promotion piece. */
  datatype MoveRequest = MoveRequest(from: string, to: string, promotion: string)

  datatype Engine = Engine(
    /** `game.moves()`: the SAN of every legal move. */
    moves: seq<string> -> seq<string>,
    /** `game.move({from, to, promotion})`: the SAN it plays, or None (`null`) for an illegal move. */
    move: (seq<string>, MoveRequest) -> Option<string>,
    /** `game.game_over()` */
    gameOver: seq<string> -> bool,
    /** `game.in_draw()` */
    inDraw: seq<string> -> bool,
    /** `game.in_checkmate()` */
    inCheckmate: seq<string> -> bool,
    /** `game.in_stalemate()` */
    inStalemate: seq<string> -> bool,
    /** `game.insufficient_material()` */
    insufficientMaterial: seq<string> -> bool)

  /** `game.turn()`: White moves first from the standard start and the sides alternate. */
  function Turn(history: seq<string>): (side: Color)
    ensures history == [] ==> side == White
  {
    if |history| % 2 == 0 then White else Black
  }

  function Opponent(c: Color): Color
  {
    if c == White then Black else White
  }

  /** Every accepted move hands the turn to the other side. */
  lemma TurnAlternates(history: seq<string>, san: string)
    ensures Turn(history + [san]) == Opponent(Turn(history))
  {
  }
}
