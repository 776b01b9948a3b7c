/**
 * The match-history list of the dashboard: the stored games filtered by a
 * case-insensitive search, sorted by date, and cut into pages of six, with
 * the Previous / Next buttons that move between pages.
 */
module Dashboard {

  /** One stored game; the date is its timestamp. */
  datatype GameSummary = GameSummary(
    id: string, whitePlayer: string, blackPlayer: string,
    result: string, date: int, opening: string, duration: string)

  /** Pages are numbered from 1. */
  type Page = p: int | p >= 1 witness 1

  /** The list's inputs: the search text, the sort key and the page shown. */
  datatype Query = Query(search: string, sort: string, page: Page)

  /** `s.startsWith(sub)` */
  predicate StartsWith(s: string, sub: string)
  {
    |sub| <= |s| && s[..|sub|] == sub
  }

  /**
   * `s.includes(sub)`: `sub` occurs somewhere in `s`. Every string includes
   * the empty string, and no string includes a longer one.
   */
  predicate Includes(s: string, sub: string)
    ensures sub == [] ==> Includes(s, sub)
    ensures Includes(s, sub) ==> |sub| <= |s|
  {
    StartsWith(s, sub) || (s != [] && Includes(s[1..], sub))
  }

  /** `sub` is the slice of `s` that starts at position `i`. */
  predicate OccursAt(s: string, sub: string, i: nat)
  {
    i + |sub| <= |s| && s[i..i + |sub|] == sub
  }

  /** An occurrence found at position `i` is an occurrence. */
  lemma {:induction false} IncludesAt(s: string, sub: string, i: nat)
    requires OccursAt(s, sub, i)
    ensures Includes(s, sub)
  {
    if i > 0 {
      assert s[1..][i - 1..i - 1 + |sub|] == s[i..i + |sub|];
      IncludesAt(s[1..], sub, i - 1);
    }
  }

  /** `includes` holds exactly when `sub` occurs at some position of `s`. */
  lemma {:induction false} IncludesIffOccurs(s: string, sub: string)
    ensures Includes(s, sub) <==> exists i: nat :: OccursAt(s, sub, i)
  {
    if Includes(s, sub) {
      if StartsWith(s, sub) {
        assert OccursAt(s, sub, 0);
      } else {
        IncludesIffOccurs(s[1..], sub);
        var i: nat :| OccursAt(s[1..], sub, i);
        assert s[1..][i..i + |sub|] == s[i + 1..i + 1 + |sub|];
        assert OccursAt(s, sub, i + 1);
      }
    } else {
      forall i: nat | OccursAt(s, sub, i) ensures false {
        IncludesAt(s, sub, i);
      }
    }
  }

  /**
   * The search test: the lower-cased search text occurs in the lower-cased
   * white player, black player or opening. `lower` is `toLowerCase`.
   */
  predicate SearchMatches(g: GameSummary, search: string, lower: string -> string)
    ensures lower(search) == [] ==> SearchMatches(g, search, lower)
  {
    var needle := lower(search);
    Includes(lower(g.whitePlayer), needle) ||
    Includes(lower(g.blackPlayer), needle) ||
    Includes(lower(g.opening), needle)
  }

  /** The `filter` step: the games that match, in their stored order. */
  function Filter(games: seq<GameSummary>, search: string, lower: string -> string): (kept: seq<GameSummary>)
    ensures |kept| <= |games|
    ensures forall g :: g in kept <==> g in games && SearchMatches(g, search, lower)
    ensures forall g :: multiset(kept)[g] == if SearchMatches(g, search, lower) then multiset(games)[g] else 0
  {
    if games == [] then []
    else
      var rest := Filter(games[1..], search, lower);
      assert multiset(games) == multiset{games[0]} + multiset(games[1..]) by {
        assert games == [games[0]] + games[1..];
      }
      if SearchMatches(games[0], search, lower) then [games[0]] + rest else rest
  }

  /** An empty search keeps every game, in order (the lower case of "" is ""). */
  lemma {:induction false} FilterEmptySearch(games: seq<GameSummary>, lower: string -> string)
    requires lower([]) == []
    ensures Filter(games, [], lower) == games
  {
    if games != [] {
      FilterEmptySearch(games[1..], lower);
      assert games == [games[0]] + games[1..];
    }
  }

  /**
   * The comparator `sort === "recent" ? b.date - a.date : a.date - b.date`
   * puts `a` strictly before `b`.
   */
  predicate StrictlyBefore(a: GameSummary, b: GameSummary, sort: string)
  {
    if sort == "recent" then a.date > b.date else a.date < b.date
  }

  /** `a` may stand before `b`: newest first for "recent", oldest first for any other key. */
  predicate InOrder(a: GameSummary, b: GameSummary, sort: string)
  {
    if sort == "recent" then a.date >= b.date else a.date <= b.date
  }

  predicate Sorted(s: seq<GameSummary>, sort: string)
  {
    forall i, j :: 0 <= i < j < |s| ==> InOrder(s[i], s[j], sort)
  }

  /** Inserts `g` in front of the first game it does not come strictly after. */
  function Insert(g: GameSummary, sorted: seq<GameSummary>, sort: string): (r: seq<GameSummary>)
    requires Sorted(sorted, sort)
    ensures Sorted(r, sort)
    ensures multiset(r) == multiset(sorted) + multiset{g}
  {
    if sorted == [] then [g]
    else
      HeadInOrder(sorted, sort);
      assert sorted == [sorted[0]] + sorted[1..];
      if StrictlyBefore(sorted[0], g, sort) then
        var rest := Insert(g, sorted[1..], sort);
        assert forall x :: x in rest ==> InOrder(sorted[0], x, sort) by {
          forall x | x in rest ensures InOrder(sorted[0], x, sort) {
            assert x in multiset(rest);
          }
        }
        ConsSorted(sorted[0], rest, sort);
        [sorted[0]] + rest
      else
        ConsSorted(g, sorted, sort);
        [g] + sorted
  }

  /** The first game of a sorted list may stand before every later one. */
  lemma HeadInOrder(sorted: seq<GameSummary>, sort: string)
    requires Sorted(sorted, sort) && sorted != []
    ensures forall x :: x in sorted ==> InOrder(sorted[0], x, sort)
  {
    forall x | x in sorted ensures InOrder(sorted[0], x, sort) {
      var m :| 0 <= m < |sorted| && sorted[m] == x;
      if m > 0 {
        assert InOrder(sorted[0], sorted[m], sort);
      }
    }
  }

  /** A game that may stand before every game of a sorted list heads it sorted. */
  lemma ConsSorted(x: GameSummary, s: seq<GameSummary>, sort: string)
    requires Sorted(s, sort)
    requires forall y :: y in s ==> InOrder(x, y, sort)
    ensures Sorted([x] + s, sort)
  {
    var r := [x] + s;
    forall i, j | 0 <= i < j < |r| ensures InOrder(r[i], r[j], sort) {
      assert r[j] == s[j - 1];
      if i == 0 {
        assert s[j - 1] in s;
      } else {
        assert r[i] == s[i - 1];
      }
    }
  }

  /**
   * The `sort` step, a stable sort by date (JavaScript's `Array.prototype.sort`
   * is stable): each game is inserted ahead of the games of equal date that
   * follow it in the input.
   */
  function SortByDate(games: seq<GameSummary>, sort: string): (r: seq<GameSummary>)
    ensures Sorted(r, sort)
    ensures multiset(r) == multiset(games)
  {
    if games == [] then []
    else
      assert games == [games[0]] + games[1..];
      Insert(games[0], SortByDate(games[1..], sort), sort)
  }

  /** With "recent" the dates never increase; with any other key they never decrease. */
  lemma SortDirection(games: seq<GameSummary>, sort: string, i: nat, j: nat)
    requires i <= j < |SortByDate(games, sort)|
    ensures var r := SortByDate(games, sort);
      if sort == "recent" then r[i].date >= r[j].date else r[i].date <= r[j].date
  {
  }

  /** `slice((page - 1) * 6, page * 6)`, with slice's clamping to the length. */
  function PageOf(games: seq<GameSummary>, page: Page): (view: seq<GameSummary>)
    ensures |view| <= 6
    ensures |view| == if |games| <= (page - 1) * 6 then 0 else Min(6, |games| - (page - 1) * 6)
    ensures forall i :: 0 <= i < |view| ==> view[i] == games[(page - 1) * 6 + i]
  {
    var start := (page - 1) * 6;
    if start >= |games| then [] else games[start..Min(page * 6, |games|)]
  }

  function Min(a: int, b: int): int
  {
    if a <= b then a else b
  }

  /** A page of a sorted list is sorted and holds only games of the list. */
  lemma PageIsSortedRun(sorted: seq<GameSummary>, page: Page, sort: string)
    requires Sorted(sorted, sort)
    ensures Sorted(PageOf(sorted, page), sort)
    ensures forall i :: 0 <= i < |PageOf(sorted, page)| ==> PageOf(sorted, page)[i] in sorted
  {
    var view := PageOf(sorted, page);
    var start := (page - 1) * 6;
    forall i, j | 0 <= i < j < |view|
      ensures InOrder(view[i], view[j], sort)
    {
      assert view[i] == sorted[start + i] && view[j] == sorted[start + j];
    }
  }

  /**
   * `filteredGames`: filter, then sort, then the page slice. The list shows at
   * most six stored games, each matching the search, in date order for the
   * sort key.
   */
  function FilteredGames(games: seq<GameSummary>, q: Query, lower: string -> string): (view: seq<GameSummary>)
    ensures |view| <= 6 && Sorted(view, q.sort)
    ensures forall i :: 0 <= i < |view| ==> view[i] in games && SearchMatches(view[i], q.search, lower)
  {
    var kept := Filter(games, q.search, lower);
    var sorted := SortByDate(kept, q.sort);
    PageIsSortedRun(sorted, q.page, q.sort);
    ShownAreKept(kept, sorted, PageOf(sorted, q.page));
    PageOf(sorted, q.page)
  }

  /** Games of a page of a rearrangement of `kept` are games of `kept`. */
  lemma ShownAreKept(kept: seq<GameSummary>, sorted: seq<GameSummary>, view: seq<GameSummary>)
    requires multiset(sorted) == multiset(kept)
    requires forall i :: 0 <= i < |view| ==> view[i] in sorted
    ensures forall i :: 0 <= i < |view| ==> view[i] in kept
  {
    forall i | 0 <= i < |view| ensures view[i] in kept {
      assert view[i] in multiset(sorted);
    }
  }

  /** The Previous button is disabled on page 1. */
  predicate PreviousEnabled(q: Query)
    ensures PreviousEnabled(q) <==> q.page >= 2
  {
    q.page != 1
  }

  /** The Next button is disabled while the page shows fewer than six games. */
  predicate NextEnabled(games: seq<GameSummary>, q: Query, lower: string -> string)
    ensures NextEnabled(games, q, lower) <==> |FilteredGames(games, q, lower)| == 6
  {
    |FilteredGames(games, q, lower)| >= 6
  }

  /** A click on Previous: one page back, or nothing when the button is disabled. */
  function PressPrevious(q: Query): (q': Query)
    ensures q'.page >= 1
    ensures PreviousEnabled(q) ==> q' == q.(page := q.page - 1)
    ensures !PreviousEnabled(q) ==> q' == q
  {
    if PreviousEnabled(q) then q.(page := q.page - 1) else q
  }

  /** A click on Next: one page on, or nothing when the button is disabled. */
  function PressNext(games: seq<GameSummary>, q: Query, lower: string -> string): (q': Query)
    ensures NextEnabled(games, q, lower) ==> q' == q.(page := q.page + 1)
    ensures !NextEnabled(games, q, lower) ==> q' == q
  {
    if NextEnabled(games, q, lower) then q.(page := q.page + 1) else q
  }

  /** A full page followed by the next page is one run of the list, twelve games long at most. */
  lemma AdjacentPages(sorted: seq<GameSummary>, page: Page)
    requires |PageOf(sorted, page)| == 6
    ensures PageOf(sorted, page) + PageOf(sorted, page + 1) == sorted[(page - 1) * 6..Min((page + 1) * 6, |sorted|)]
  {
    var start := (page - 1) * 6;
    var a := PageOf(sorted, page);
    var b := PageOf(sorted, page + 1);
    var whole := sorted[start..Min((page + 1) * 6, |sorted|)];
    assert |a + b| == |whole|;
    forall i | 0 <= i < |whole|
      ensures (a + b)[i] == whole[i]
    {
      if i < 6 {
        assert (a + b)[i] == a[i] == sorted[start + i];
      } else {
        assert (a + b)[i] == b[i - 6] == sorted[start + i];
      }
    }
  }

  /**
   * Next only ever leaves a full page, and the page it opens continues the
   * sorted list right where the full page ended.
   */
  lemma NextContinues(games: seq<GameSummary>, q: Query, lower: string -> string)
    requires NextEnabled(games, q, lower)
    ensures |FilteredGames(games, q, lower)| == 6
    ensures var sorted := SortByDate(Filter(games, q.search, lower), q.sort);
      FilteredGames(games, q, lower) + FilteredGames(games, PressNext(games, q, lower), lower) ==
      sorted[(q.page - 1) * 6..Min((q.page + 1) * 6, |sorted|)]
  {
    var sorted := SortByDate(Filter(games, q.search, lower), q.sort);
    assert PressNext(games, q, lower).page == q.page + 1;
    AdjacentPages(sorted, q.page);
  }
}
