/**
 * The catalogue page: decoding the piece-placement field of a FEN into an
 * 8 x 8 grid, the favourites toggle, the ECO-tab and search filter over the
 * catalogue, and the per-tab counts.
 */
module App {
  import opened Wrappers
  import opened Text
  import opened Lists
  import opened Openings

  // ---------------------------------------------------------------------------
  // fenToBoard
  // ---------------------------------------------------------------------------

  /** A grid of squares, rank 8 first; a square is "" or a one-letter piece. */
  type Board = seq<seq<string>>

  /** A rank of 8 empty squares. */
  const EmptyRow: seq<string> := ["", "", "", "", "", "", "", ""]

  /** The grid shown for a missing FEN: 8 ranks of 8 empty squares. */
  const EmptyBoard: Board := [EmptyRow, EmptyRow, EmptyRow, EmptyRow, EmptyRow, EmptyRow, EmptyRow, EmptyRow]

  /** `isNaN(char)` for one character: neither a digit nor white space (which converts to 0). */
  predicate IsNotANumber(c: char) {
    !IsDigit(c) && !IsSpace(c)
  }

  /** `parseInt(char)` as a loop bound: the digit's value; NaN (no iterations) otherwise. */
  function EmptyRun(c: char): (n: nat)
    ensures n <= 9
    ensures !IsDigit(c) ==> n == 0
  {
    if IsDigit(c) then DigitValue(c) else 0
  }

  /** The squares one character of a rank contributes. */
  function Cells(c: char): (cells: seq<string>)
    ensures IsNotANumber(c) ==> cells == [[c]]
    ensures !IsNotANumber(c) ==> |cells| == EmptyRun(c) && forall k :: 0 <= k < |cells| ==> cells[k] == ""
  {
    if IsNotANumber(c) then [[c]] else seq(EmptyRun(c), _ => "")
  }

  /** The squares of a rank, character by character as the loop pushes them. */
  function ExpandRank(rank: string): (row: seq<string>)
    ensures forall k :: 0 <= k < |row| ==> row[k] == "" || (|row[k]| == 1 && IsNotANumber(row[k][0]))
    decreases |rank|
  {
    if rank == [] then [] else ExpandRank(rank[..|rank| - 1]) + Cells(rank[|rank| - 1])
  }

  /** The ranks of the placement field: the text before the first space, split on '/'. */
  function Ranks(fen: string): seq<string> {
    Split(Split(fen, ' ')[0], '/')
  }

  /** Each rank expanded to its squares. */
  function ExpandRanks(ranks: seq<string>): (rows: Board)
    ensures |rows| == |ranks|
    ensures forall i :: 0 <= i < |ranks| ==> rows[i] == ExpandRank(ranks[i])
  {
    seq(|ranks|, i requires 0 <= i < |ranks| => ExpandRank(ranks[i]))
  }

  /**
   * `fenToBoard`: the empty grid for a missing FEN; otherwise the first eight
   * ranks expanded. Fewer than eight ranks make the loop read `undefined` and
   * throw, which is None here.
   */
  function FenBoard(fen: string): (board: Option<Board>)
    ensures board.Some? ==> |board.value| == 8
  {
    if fen == "" then Some(EmptyBoard)
    else
      var ranks := Ranks(fen);
      if |ranks| < 8 then None else Some(ExpandRanks(ranks[..8]))
  }

  /** `fenToBoard`, with its loops: ranks 0 to 7, then each character of a rank. */
  method FenToBoard(fen: string) returns (board: Option<Board>)
    ensures board == FenBoard(fen)
  {
    if fen == "" {
      return Some(EmptyBoard);
    }
    var position := Split(fen, ' ')[0];
    var rows := Split(position, '/');
    var grid: Board := [];
    for i := 0 to 8
      invariant i <= |rows|
      invariant grid == ExpandRanks(rows[..i])
    {
      if i >= |rows| {
        return None;
      }
      var rowData := rows[i];
      var row: seq<string> := [];
      for k := 0 to |rowData|
        invariant row == ExpandRank(rowData[..k])
      {
        var c := rowData[k];
        ExpandRankStep(rowData, k);
        if IsNotANumber(c) {
          row := row + [[c]];
        } else {
          for j := 0 to EmptyRun(c)
            invariant row == ExpandRank(rowData[..k]) + seq(j, _ => "")
          {
            row := row + [""];
          }
        }
      }
      assert rowData[..|rowData|] == rowData;
      ExpandRanksStep(rows, i);
      grid := grid + [row];
    }
    return Some(grid);
  }

  /** A missing FEN shows 64 empty squares. */
  lemma MissingFenIsEmpty()
    ensures FenBoard("") == Some(EmptyBoard)
    ensures forall i, j :: 0 <= i < 8 && 0 <= j < 8 ==> |EmptyBoard[i]| == 8 && EmptyBoard[i][j] == ""
  {
  }

  /** Only the piece-placement field is read: whatever follows the first space is ignored. */
  lemma PlacementOnly(placement: string, rest: string)
    requires placement != [] && ' ' !in placement
    ensures FenBoard(placement + " " + rest) == FenBoard(placement)
  {
    SplitFirstPart(placement, ' ', rest);
    SplitNoSeparator(placement, ' ');
  }

  /** Reading one more character of a rank pushes that character's squares. */
  lemma ExpandRankStep(rank: string, k: nat)
    requires k < |rank|
    ensures ExpandRank(rank[..k + 1]) == ExpandRank(rank[..k]) + Cells(rank[k])
  {
    assert rank[..k + 1][..k] == rank[..k];
  }

  /** Expanding one more rank appends its row to the grid. */
  lemma ExpandRanksStep(ranks: seq<string>, i: nat)
    requires i < |ranks|
    ensures ExpandRanks(ranks[..i + 1]) == ExpandRanks(ranks[..i]) + [ExpandRank(ranks[i])]
  {
  }

  /** Squares are pushed in order: the expansion of a concatenation is the concatenation. */
  lemma {:induction false} ExpandRankAppend(a: string, b: string)
    ensures ExpandRank(a + b) == ExpandRank(a) + ExpandRank(b)
    decreases |b|
  {
    if b == [] {
      assert a + b == a;
    } else {
      var b' := b[..|b| - 1];
      var last := b[|b| - 1];
      calc {
        ExpandRank(a + b);
      == { assert (a + b)[..|a + b| - 1] == a + b'; assert (a + b)[|a + b| - 1] == last; }
        ExpandRank(a + b') + Cells(last);
      == { ExpandRankAppend(a, b'); }
        ExpandRank(a) + ExpandRank(b') + Cells(last);
      == { assert ExpandRank(b) == ExpandRank(b') + Cells(last); }
        ExpandRank(a) + ExpandRank(b);
      }
    }
  }

  /**
   * The number of squares a rank describes, read front to back: a digit d
   * stands for d empty squares, a piece letter for one square.
   */
  function SquareCount(rank: string): nat
    decreases |rank|
  {
    if rank == [] then 0
    else (if IsDigit(rank[0]) then DigitValue(rank[0]) else if IsSpace(rank[0]) then 0 else 1) + SquareCount(rank[1..])
  }

  /** A rank expands to exactly as many squares as it describes. */
  lemma {:induction false} ExpandRankWidth(rank: string)
    ensures |ExpandRank(rank)| == SquareCount(rank)
    decreases |rank|
  {
    if rank != [] {
      ExpandRankWidth(rank[1..]);
      assert rank == [rank[0]] + rank[1..];
      ExpandRankAppend([rank[0]], rank[1..]);
      assert [rank[0]][..0] == [];
    }
  }

  /** A rank as the FEN standard writes it: piece letters and digits 1-8 describing 8 squares. */
  predicate WellFormedRank(rank: string) {
    (forall i :: 0 <= i < |rank| ==> rank[i] in "pnbrqkPNBRQK12345678") && SquareCount(rank) == 8
  }

  /** A FEN whose first eight ranks are well formed decodes to an 8 x 8 grid. */
  lemma WellFormedFenIsEightByEight(fen: string)
    requires fen != "" && |Ranks(fen)| >= 8
    requires forall i :: 0 <= i < 8 ==> WellFormedRank(Ranks(fen)[i])
    ensures FenBoard(fen).Some?
    ensures forall i :: 0 <= i < 8 ==> |FenBoard(fen).value[i]| == 8
  {
    forall i | 0 <= i < 8
      ensures |ExpandRank(Ranks(fen)[i])| == 8
    {
      ExpandRankWidth(Ranks(fen)[i]);
    }
  }

  // ---------------------------------------------------------------------------
  // toggleFavorite
  // ---------------------------------------------------------------------------

  /** `toggleFavorite`: remove the ECO code if present, append it otherwise. */
  function ToggleFavorite(favorites: seq<string>, eco: string): (r: seq<string>)
    ensures eco in r <==> eco !in favorites
    ensures forall x :: x != eco ==> (x in r <==> x in favorites)
    ensures NoDuplicates(favorites) ==> NoDuplicates(r)
    ensures eco !in favorites ==> r == favorites + [eco]
    ensures eco in favorites ==>
      IsSubsequence(r, favorites) && forall x :: x != eco ==> multiset(r)[x] == multiset(favorites)[x]
  {
    if eco in favorites then
      var r := Remove(favorites, eco);
      RemoveCounts(favorites, eco);
      assert NoDuplicates(favorites) ==> NoDuplicates(r) by {
        if NoDuplicates(favorites) {
          SubsequenceNoDuplicates(r, favorites);
        }
      }
      r
    else
      favorites + [eco]
  }

  /**
   * Toggling twice restores membership of every code, and restores the list
   * itself when the code was not a favourite.
   */
  lemma ToggleTwice(favorites: seq<string>, eco: string)
    ensures forall x :: x in ToggleFavorite(ToggleFavorite(favorites, eco), eco) <==> x in favorites
    ensures eco !in favorites ==> ToggleFavorite(ToggleFavorite(favorites, eco), eco) == favorites
  {
    if eco !in favorites {
      RemoveAppended(favorites, eco);
    }
  }

  // ---------------------------------------------------------------------------
  // The filter effect and the counts
  // ---------------------------------------------------------------------------

  /** The ECO tab: "fav" keeps favourites, "all" keeps everything, any other tab is a code prefix. */
  predicate PassesTab(o: Opening, activeFilter: string, favorites: seq<string>) {
    if activeFilter == "fav" then o.eco in favorites
    else if activeFilter == "all" then true
    else StartsWith(o.eco, activeFilter)
  }

  /** The search box: the lower-cased query occurs in the lower-cased name, ECO code or moves. */
  predicate MatchesSearch(o: Opening, query: string) {
    var q := ToLower(query);
    Includes(ToLower(o.name), q) || Includes(ToLower(o.eco), q) || Includes(ToLower(o.pgn), q)
  }

  /** The ECO-tab step of the effect. */
  function TabFiltered(openings: seq<Opening>, activeFilter: string, favorites: seq<string>): (r: seq<Opening>)
    ensures IsSubsequence(r, openings)
    ensures forall i :: 0 <= i < |r| ==> PassesTab(r[i], activeFilter, favorites)
    ensures forall i :: 0 <= i < |openings| && PassesTab(openings[i], activeFilter, favorites) ==> openings[i] in r
  {
    if activeFilter == "fav" then Filter(openings, (o: Opening) => o.eco in favorites)
    else if activeFilter != "all" then Filter(openings, (o: Opening) => StartsWith(o.eco, activeFilter))
    else
      assert IsSubsequence(openings, openings) by { SubsequenceRefl(openings); }
      openings
  }

  /** An opening the effect keeps: it passes the tab and, for a non-empty query, the search. */
  predicate PassesFilters(o: Opening, activeFilter: string, searchQuery: string, favorites: seq<string>) {
    PassesTab(o, activeFilter, favorites) && (searchQuery == "" || MatchesSearch(o, searchQuery))
  }

  /** The search step's test, as the callback handed to `filter`. */
  function SearchTest(searchQuery: string): Opening -> bool {
    o => MatchesSearch(o, searchQuery)
  }

  /**
   * The filter effect: the tab filter, then, for a non-empty query, the
   * case-insensitive search. The result is an order-preserving sub-list of the
   * catalogue holding exactly the openings that pass both.
   */
  function FilteredOpenings(openings: seq<Opening>, activeFilter: string, searchQuery: string, favorites: seq<string>): (r: seq<Opening>)
    ensures IsSubsequence(r, openings)
    ensures forall i :: 0 <= i < |r| ==> PassesFilters(r[i], activeFilter, searchQuery, favorites)
    ensures forall i :: 0 <= i < |openings| && PassesFilters(openings[i], activeFilter, searchQuery, favorites) ==> openings[i] in r
  {
    var filtered := TabFiltered(openings, activeFilter, favorites);
    if searchQuery != "" then
      var r := Filter(filtered, SearchTest(searchQuery));
      SubsequenceTrans(r, filtered, openings);
      r
    else filtered
  }

  /** The tab step is the filter by `PassesTab`. */
  lemma TabIsFilter(openings: seq<Opening>, activeFilter: string, favorites: seq<string>)
    ensures TabFiltered(openings, activeFilter, favorites) == Filter(openings, (o: Opening) => PassesTab(o, activeFilter, favorites))
  {
    var tab := (o: Opening) => PassesTab(o, activeFilter, favorites);
    if activeFilter == "all" {
      FilterAll(openings, tab);
    } else if activeFilter == "fav" {
      FilterSame(openings, tab, (o: Opening) => o.eco in favorites);
    } else {
      FilterSame(openings, tab, (o: Opening) => StartsWith(o.eco, activeFilter));
    }
  }

  /** Filtering by tab and then by search is one filter by the conjunction of both tests. */
  lemma FilteredIsOneFilter(openings: seq<Opening>, activeFilter: string, searchQuery: string, favorites: seq<string>)
    ensures FilteredOpenings(openings, activeFilter, searchQuery, favorites)
         == Filter(openings, (o: Opening) => PassesFilters(o, activeFilter, searchQuery, favorites))
  {
    var tab := (o: Opening) => PassesTab(o, activeFilter, favorites);
    var both := (o: Opening) => PassesFilters(o, activeFilter, searchQuery, favorites);
    TabIsFilter(openings, activeFilter, favorites);
    if searchQuery == "" {
      FilterSame(openings, tab, both);
    } else {
      var search := SearchTest(searchQuery);
      var tabbed := TabFiltered(openings, activeFilter, favorites);
      assert FilteredOpenings(openings, activeFilter, searchQuery, favorites) == Filter(tabbed, search);
      FilterFilter(openings, tab, search, both);
    }
  }

  /** The filter keeps each opening that passes as many times as the catalogue lists it, and no other. */
  lemma FilteredCounts(openings: seq<Opening>, activeFilter: string, searchQuery: string, favorites: seq<string>)
    ensures forall o ::
      multiset(FilteredOpenings(openings, activeFilter, searchQuery, favorites))[o]
        == if PassesFilters(o, activeFilter, searchQuery, favorites) then multiset(openings)[o] else 0
  {
    FilteredIsOneFilter(openings, activeFilter, searchQuery, favorites);
    FilterCounts(openings, (o: Opening) => PassesFilters(o, activeFilter, searchQuery, favorites));
  }

  /** The "all" tab with an empty search box lists the whole catalogue. */
  lemma AllTabShowsEverything(openings: seq<Opening>, favorites: seq<string>)
    ensures FilteredOpenings(openings, "all", "", favorites) == openings
  {
  }

  /** The numbers on the filter tabs. */
  datatype Counts = Counts(all: nat, a: nat, b: nat, c: nat, d: nat, e: nat, fav: nat)

  /** The number of openings whose ECO code starts with `letter`. */
  function LetterCount(openings: seq<Opening>, letter: char): nat {
    |Filter(openings, (o: Opening) => StartsWith(o.eco, [letter]))|
  }

  /** `counts`. */
  function CountsOf(openings: seq<Opening>, favorites: seq<string>): (c: Counts)
    ensures c.all == |openings| && c.fav == |favorites|
    ensures c.a <= c.all && c.b <= c.all && c.c <= c.all && c.d <= c.all && c.e <= c.all
  {
    Counts(|openings|, LetterCount(openings, 'A'), LetterCount(openings, 'B'), LetterCount(openings, 'C'),
      LetterCount(openings, 'D'), LetterCount(openings, 'E'), |favorites|)
  }

  /** A letter tab's count is the length of the list that tab shows with an empty search box. */
  lemma LetterCountIsTabLength(openings: seq<Opening>, letter: char, favorites: seq<string>)
    ensures LetterCount(openings, letter) == |FilteredOpenings(openings, [letter], "", favorites)|
  {
    assert [letter] != "fav" && [letter] != "all";
  }

  /** No opening is counted under two letters, so the five letter counts add up to at most the total. */
  lemma {:induction false} LetterCountsBounded(openings: seq<Opening>)
    ensures var c := CountsOf(openings, []); c.a + c.b + c.c + c.d + c.e <= c.all
    decreases |openings|
  {
    if openings != [] {
      LetterCountsBounded(openings[1..]);
    }
  }
}
