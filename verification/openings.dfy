/**
 * Opening detection: the played SAN moves are compared, position by
 * position, with the move line of each catalog entry in catalog order, and
 * the first entry whose line is matched names the opening.
 */
module Openings {

  /** One catalog entry: ECO code, display name, and its moves separated by single spaces. */
  datatype Opening = Opening(eco: string, name: string, moves: string)

  /** What the detector answers when no catalog entry matches. */
  const NoOpening: string := "No Opening"

  /**
   * `s.split(' ')`: the pieces between single spaces, in order, keeping the
   * empty pieces produced by leading, trailing or doubled spaces.
   */
  function SplitOnSpace(s: string): (tokens: seq<string>)
    ensures |tokens| >= 1
    ensures forall i :: 0 <= i < |tokens| ==> ' ' !in tokens[i]
  {
    if s == [] then [[]]
    else
      var rest := SplitOnSpace(s[1..]);
      if s[0] == ' ' then [[]] + rest
      else [[s[0]] + rest[0]] + rest[1..]
  }

  /** The inverse of SplitOnSpace: the tokens glued back together with single spaces. */
  function JoinWithSpace(tokens: seq<string>): string
    requires |tokens| >= 1
  {
    if |tokens| == 1 then tokens[0] else tokens[0] + " " + JoinWithSpace(tokens[1..])
  }

  /** Gluing the pieces of a split string back together gives the string again. */
  lemma {:induction false} JoinSplit(s: string)
    ensures JoinWithSpace(SplitOnSpace(s)) == s
  {
    if s != [] {
      var rest := SplitOnSpace(s[1..]);
      JoinSplit(s[1..]);
      if s[0] == ' ' {
        assert SplitOnSpace(s)[1..] == rest;
      } else {
        var tokens := SplitOnSpace(s);
        assert tokens[0] == [s[0]] + rest[0];
        if |rest| == 1 {
          assert JoinWithSpace(tokens) == [s[0]] + rest[0];
        } else {
          assert tokens[1..] == rest[1..];
          assert JoinWithSpace(tokens) == [s[0]] + (rest[0] + " " + JoinWithSpace(rest[1..]));
        }
        assert s == [s[0]] + s[1..];
      }
    }
  }

  /** Splitting a join of space-free tokens gives the tokens back. */
  lemma {:induction false} SplitJoin(tokens: seq<string>)
    requires |tokens| >= 1
    requires forall i :: 0 <= i < |tokens| ==> ' ' !in tokens[i]
    ensures SplitOnSpace(JoinWithSpace(tokens)) == tokens
  {
    if |tokens| == 1 {
      NoSpaceSplit(tokens[0]);
    } else {
      var tail := JoinWithSpace(tokens[1..]);
      SplitJoin(tokens[1..]);
      SplitAfterWord(tokens[0], tail);
      assert JoinWithSpace(tokens) == tokens[0] + (" " + tail);
    }
  }

  /** A string without spaces splits into itself. */
  lemma {:induction false} NoSpaceSplit(w: string)
    requires ' ' !in w
    ensures SplitOnSpace(w) == [w]
  {
    if w != [] {
      assert ' ' !in w[1..] by { assert forall c :: c in w[1..] ==> c in w; }
      NoSpaceSplit(w[1..]);
      assert w == [w[0]] + w[1..];
    }
  }

  /** Splitting `w + " " + t` for a space-free word `w` puts `w` in front of the pieces of `t`. */
  lemma {:induction false} SplitAfterWord(w: string, t: string)
    requires ' ' !in w
    ensures SplitOnSpace(w + (" " + t)) == [w] + SplitOnSpace(t)
  {
    if w == [] {
      assert w + (" " + t) == " " + t;
      assert (" " + t)[1..] == t;
    } else {
      assert ' ' !in w[1..] by { assert forall c :: c in w[1..] ==> c in w; }
      SplitAfterWord(w[1..], t);
      var s := w + (" " + t);
      assert s[0] == w[0];
      assert s[1..] == w[1..] + (" " + t);
      assert [w[0]] + w[1..] == w;
    }
  }

  /**
   * `line.every((move, index) => move === played[index])`: each move of the
   * line equals the played move at the same index. An index past the end of
   * `played` reads `undefined`, which equals no move, so the line must also be
   * no longer than `played`.
   */
  predicate LineMatches(line: seq<string>, played: seq<string>)
  {
    |line| <= |played| && forall i :: 0 <= i < |line| ==> line[i] == played[i]
  }

  /** Whether a catalog entry's move line is matched by the played moves. */
  predicate OpeningMatches(o: Opening, played: seq<string>)
  {
    LineMatches(SplitOnSpace(o.moves), played)
  }

  /** The detector: the name of the first matching entry in catalog order, or NoOpening. */
  function DetectOpening(catalog: seq<Opening>, played: seq<string>): (name: string)
    ensures name == NoOpening || exists o :: o in catalog && OpeningMatches(o, played) && o.name == name
  {
    if catalog == [] then NoOpening
    else if OpeningMatches(catalog[0], played) then catalog[0].name
    else DetectOpening(catalog[1..], played)
  }

  /** Entry `k` is matched and no earlier entry is. */
  ghost predicate IsFirstMatch(catalog: seq<Opening>, played: seq<string>, k: nat)
  {
    k < |catalog| && OpeningMatches(catalog[k], played) &&
    forall j :: 0 <= j < k ==> !OpeningMatches(catalog[j], played)
  }

  /** The first matching entry wins, however many later (and longer) entries also match. */
  lemma {:induction false} DetectOpeningFirstMatch(catalog: seq<Opening>, played: seq<string>, k: nat)
    requires IsFirstMatch(catalog, played, k)
    ensures DetectOpening(catalog, played) == catalog[k].name
  {
    if k > 0 {
      assert !OpeningMatches(catalog[0], played);
      DetectOpeningFirstMatch(catalog[1..], played, k - 1);
    }
  }

  /** When no entry matches, the answer is exactly the sentinel. */
  lemma {:induction false} DetectOpeningNoMatch(catalog: seq<Opening>, played: seq<string>)
    requires forall k :: 0 <= k < |catalog| ==> !OpeningMatches(catalog[k], played)
    ensures DetectOpening(catalog, played) == NoOpening
  {
    if catalog != [] {
      assert !OpeningMatches(catalog[0], played);
      DetectOpeningNoMatch(catalog[1..], played);
    }
  }

  /**
   * Conversely: unless the answer is the sentinel (and no entry is itself
   * called "No Opening"), some entry is the first match and supplies it.
   */
  lemma {:induction false} DetectOpeningHasFirstMatch(catalog: seq<Opening>, played: seq<string>)
    requires forall k :: 0 <= k < |catalog| ==> catalog[k].name != NoOpening
    ensures DetectOpening(catalog, played) != NoOpening <==>
      exists k: nat :: IsFirstMatch(catalog, played, k) && catalog[k].name == DetectOpening(catalog, played)
  {
    if catalog != [] {
      if OpeningMatches(catalog[0], played) {
        assert IsFirstMatch(catalog, played, 0);
      } else {
        DetectOpeningHasFirstMatch(catalog[1..], played);
        if DetectOpening(catalog[1..], played) != NoOpening {
          var k: nat :| IsFirstMatch(catalog[1..], played, k) && catalog[1..][k].name == DetectOpening(catalog[1..], played);
          assert IsFirstMatch(catalog, played, k + 1);
        } else {
          forall k: nat | IsFirstMatch(catalog, played, k)
            ensures catalog[k].name != DetectOpening(catalog, played)
          {
          }
        }
      }
    }
  }

  /** A line is matched exactly when it is a prefix of the played moves. */
  lemma LineMatchesIsPrefix(line: seq<string>, played: seq<string>)
    ensures LineMatches(line, played) <==> |line| <= |played| && played[..|line|] == line
  {
    if LineMatches(line, played) {
      assert played[..|line|] == line;
    }
  }

  /** Moves played after a matched line do not undo the match. */
  lemma ExtendedPlayKeepsMatch(o: Opening, played: seq<string>, more: seq<string>)
    requires OpeningMatches(o, played)
    ensures OpeningMatches(o, played + more)
  {
  }

  /** An entry with more moves than have been played is never matched. */
  lemma LongerLineNeverMatches(o: Opening, played: seq<string>)
    requires |SplitOnSpace(o.moves)| > |played|
    ensures !OpeningMatches(o, played)
  {
  }

  /** Before any move is played, no opening is detected: every line has at least one token. */
  lemma {:induction false} DetectOpeningOfNoMoves(catalog: seq<Opening>)
    ensures DetectOpening(catalog, []) == NoOpening
  {
    forall k | 0 <= k < |catalog|
      ensures !OpeningMatches(catalog[k], [])
    {
      assert |SplitOnSpace(catalog[k].moves)| >= 1;
    }
    DetectOpeningNoMatch(catalog, []);
  }

  /** A generic line listed before a more specific one wins, even on the specific line's moves. */
  lemma CatalogOrderDecides()
    ensures DetectOpening([Opening("C20", "Open Game", "e4 e5"), Opening("C40", "King's Knight", "e4 e5 Nf3")],
                          ["e4", "e5", "Nf3"]) == "Open Game"
  {
    var catalog := [Opening("C20", "Open Game", "e4 e5"), Opening("C40", "King's Knight", "e4 e5 Nf3")];
    NoSpaceSplit("e5");
    NoSpaceSplit("e4");
    SplitAfterWord("e4", "e5");
    assert "e4 e5" == "e4" + (" " + "e5");
    assert SplitOnSpace("e4 e5") == ["e4", "e5"];
    assert IsFirstMatch(catalog, ["e4", "e5", "Nf3"], 0);
    DetectOpeningFirstMatch(catalog, ["e4", "e5", "Nf3"], 0);
  }
}
