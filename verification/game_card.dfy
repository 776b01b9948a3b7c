/**
 * The result badge of a match-history card: a label and a colour class,
 * both chosen from the PGN-style result string ("1-0", "0-1", anything
 * else counts as a draw).
 */
module GameCard {

  const GreenBadge: string := "text-green-600 bg-green-100"
  const RedBadge: string := "text-red-600 bg-red-100"
  const YellowBadge: string := "text-yellow-600 bg-yellow-100"

  /** `getResultColor`: green for a white win, red for a black win, yellow for everything else. */
  function ResultColor(result: string): (colour: string)
    ensures colour == GreenBadge <==> result == "1-0"
    ensures colour == RedBadge <==> result == "0-1"
    ensures colour == YellowBadge <==> result != "1-0" && result != "0-1"
  {
    if result == "1-0" then GreenBadge
    else if result == "0-1" then RedBadge
    else YellowBadge
  }

  /** `getResultText`: the words shown on the badge. */
  function ResultText(result: string): (text: string)
    ensures text == "White Won" <==> result == "1-0"
    ensures text == "Black Won" <==> result == "0-1"
    ensures text == "Draw" <==> result != "1-0" && result != "0-1"
  {
    if result == "1-0" then "White Won"
    else if result == "0-1" then "Black Won"
    else "Draw"
  }

  /** The colour that belongs with each label. */
  function LabelColor(text: string): string
  {
    if text == "White Won" then GreenBadge
    else if text == "Black Won" then RedBadge
    else YellowBadge
  }

  /** The two mappings never disagree: the colour is always the one that belongs with the label. */
  lemma ColorAgreesWithText(result: string)
    ensures ResultColor(result) == LabelColor(ResultText(result))
  {
  }
}
