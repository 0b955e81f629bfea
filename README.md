# Chess opening explorer — verified model of the core

This project models, in Dafny, the logic of a web application for browsing
chess openings. The application lets a user:

- browse a catalogue of openings, searched and filtered by ECO volume (the
  letter A to E of the Encyclopaedia of Chess Openings code) or by favourites;
- step through an opening's moves on a board;
- collect openings in named repertoires stored in the user's document.

One Dafny module stands for each core source file:

| module | file | what it covers |
|---|---|---|
| `ChessUtils` | `chess_utils.dfy` | parsing the PGN move text into half-move tokens; classifying an opening by White's first move and Black's reply; replaying the first plies through a rules engine |
| `DetailView` | `detail_view.dfy` | the ply index and its four navigation buttons; which FEN the board shows for an index; the caption under the board. The component's state is the class `Navigator`. |
| `App` | `app.dfy` | decoding the placement field of a FEN into an 8 x 8 grid; toggling favourites; the ECO-tab and search filter; the counts on the filter tabs |
| `AuthUtils` | `auth_utils.dfy` | repertoire management under the limits of 10 repertoires per user and 100 openings per repertoire. Each operation is a transform of the stored list. The class `UserDocument` holds the stored list between calls. |
| `PaginatedGrid` | `paginated_grid.dfy` | the page count; the slice a page shows; the window of page buttons; the Previous/Next guards; the "Showing a-b of n" line. The class `Pager` holds the current page. |
| `VirtualizedGrid` | `virtualized_grid.dfy` | columns, rows, the rendered row range with overscan, the rendered items (a loop, as in the source) and the padding |
| `SearchUtils` | `search_utils.dfy` | the fields searched; query normalisation, which rewrites "1.e4"-style first moves; the substring test |
| `OpeningCard` | `opening_card.dfy` | the truncated move text on a card; the "in current repertoire" test |
| `SplitOpenings` | `split_openings.dfy` | the build script that buckets the catalogue by ECO volume and records the bucket sizes (two loops, as in the source) |

Shared modules:

- `Text` holds JavaScript's white-space and digit classes, `toLowerCase`,
  `startsWith`, `includes`, `split`, `join`, `trim` and the white-space
  collapse of `/\s+/g`.
- `Lists` holds `filter` and the order-preserving sub-list relation.
- `Openings` holds the opening record.
- `Wrappers` holds `Option` and `Result`.
- `Arith` holds three multiplication facts.

The chess rules engine (chess.js) is a parameter, `Rules<B>`: a start
position, a move function that returns `None` for a rejected move, and a FEN
printer. Passing no engine stands for the library failing to load. The
clock-made repertoire id is also a parameter, and so are the window size and
scroll offset.

`getPositionAfterMoves` does not check its ply index. An index past the end
of the move list reads `undefined`, which the loop skips. A negative index
replays nothing. `GetPositionAfterMoves` therefore has no precondition on the
index.

## Model

| member | source | states |
|---|---|---|
| ChessUtils.StripMoveNumbers | src/utils/chessUtils.js:63 | deleting `\d+\.\s*` leaves no digit followed by a period, never lengthens the text, and keeps the first character when no move number starts there |
| ChessUtils.StripClean | src/utils/chessUtils.js:63 | text without move numbers is left unchanged |
| ChessUtils.StripIdempotent | src/utils/chessUtils.js:63 | deleting move numbers a second time deletes nothing more |
| ChessUtils.StripLeadingSpaces | src/utils/chessUtils.js:63 | the scan passes over leading white space unchanged |
| ChessUtils.StripLeadingNumber | src/utils/chessUtils.js:63 | a leading move number is deleted together with all the white space after it |
| ChessUtils.SplitOnSpaces | src/utils/chessUtils.js:64 | splitting on the plain space and dropping empty parts yields exactly the white-space separated words |
| ChessUtils.ParsePGN | src/utils/chessUtils.js:61-65 | the tokens are the words of the move text once the move numbers are deleted, so the spacing does not matter; each token is non-empty and holds no white space |
| ChessUtils.ParseFirstMovePair | src/utils/chessUtils.js:61-65 | every spelling of a first move pair (any white space around the text, after "1." and between the moves) parses to the same two tokens |
| ChessUtils.ParseOnlyNumbers | src/utils/chessUtils.js:61-65 | move text holding only a move number parses to no tokens |
| ChessUtils.CategoryAfterE4 | src/utils/chessUtils.js:34-43 | after 1.e4 the result is white-e4 or black-vs-e4, and white-e4 for a 1...e5 reply |
| ChessUtils.CategoryAfterD4 | src/utils/chessUtils.js:44-52 | after 1.d4 the result is white-d4 or black-vs-d4, and white-d4 for a 1...d5 reply |
| ChessUtils.CategorizeOpening | src/utils/chessUtils.js:28-58 | "unknown" exactly when there is no move text; 1.e4 (tested first) gives the e4 pair, 1.d4 the d4 pair, and any other first move "white-other" |
| ChessUtils.CategoryIgnoresCase | src/utils/chessUtils.js:30-32 | the letter case of the move text and of the name does not change the category |
| ChessUtils.PlyToken | src/utils/chessUtils.js:80 | a ply index past the list reads nothing, which the loop skips |
| ChessUtils.Step | src/utils/chessUtils.js:80-87 | an empty token or a halted replay changes nothing; any change is the engine's move or a halt |
| ChessUtils.PlayFromSnoc | src/utils/chessUtils.js:79-88 | playing one more token is one more loop step |
| ChessUtils.ReplayIsPlay | src/utils/chessUtils.js:76-88 | the loop's state after n plies equals playing the first n tokens in order from the engine's start position, stopping at the first rejected move |
| ChessUtils.HaltedStays | src/utils/chessUtils.js:82-86 | once a move is rejected, later plies change nothing |
| ChessUtils.GetPositionAfterMoves | src/utils/chessUtils.js:68-96 | the loop returns the position `PositionAt` defines: the trusted FEN for the last ply or without an engine, otherwise the replayed FEN |
| ChessUtils.PositionAddressing | src/utils/chessUtils.js:69-80 | for every non-empty move list, one-move lists included: the last ply is the trusted FEN whatever the engine; index -1 is the start position; without an engine every index gives the trusted FEN; an empty token shows the same position as the ply before it |
| ChessUtils.PositionIsPlayedPrefix | src/utils/chessUtils.js:76-90 | for every index below the last, the position is that of moves 0 .. index played in order |
| ChessUtils.PositionAt | src/utils/chessUtils.js:68-96 | the position the function returns; its meaning is stated by `PositionAddressing`, `PositionIsPlayedPrefix` and `RejectedMoveFreezes` |
| ChessUtils.RejectedMoveFreezes | src/utils/chessUtils.js:82-86 | when move k is the first rejected, every later index shows the position after moves 0 .. k-1 |
| DetailView.StepBackIndex | src/components/DetailView.js:72 | moves one ply back exactly when above -1, otherwise stays |
| DetailView.StepForwardIndex | src/components/DetailView.js:73 | moves one ply on exactly when below the last ply, otherwise stays |
| DetailView.NavigationKeepsRange | src/components/DetailView.js:71-74 | every button keeps the index in [-1, N-1] |
| DetailView.BackThenForward | src/components/DetailView.js:72-73 | back then forward returns to the same ply |
| DetailView.ForwardThenBack | src/components/DetailView.js:72-73 | forward then back returns to the same ply |
| DetailView.DisplayedIsReplayed | src/components/DetailView.js:51-63 | with an engine starting from the standard position, the FEN shown at every index is the one replay computes |
| DetailView.DisplayedPosition | src/components/DetailView.js:51-63 | index -1 shows the initial FEN; any other index shows what `getPositionAfterMoves` returns for it |
| DetailView.DisplayedEnds | src/components/DetailView.js:51-55 | index -1 shows the initial FEN, and the last ply of every non-empty move list shows the opening's FEN, whatever the engine |
| DetailView.NatToDecimal | src/components/DetailView.js:85 | a printed number is a non-empty run of digits |
| DetailView.DecimalRoundTrip | src/components/DetailView.js:85 | reading a printed number back gives the number |
| DetailView.MoveLabel | src/components/DetailView.js:81-85 | the caption of a ply; `LabelRoundTrip` states that it names the ply and its move |
| DetailView.ReadLabel | src/components/DetailView.js:81-85 | reads the ply index and the move back from a caption, refusing a move number with a leading zero; the inverse of `MoveLabel` by `LabelRoundTrip` |
| DetailView.LabelRoundTrip | src/components/DetailView.js:81-85 | a caption "n. m" or "n... m" gives back both its ply index and its move m |
| DetailView.MoveText | src/components/DetailView.js:76-86 | "Calculating position..." while a position is computed; otherwise "Starting position" at -1 and "Final position" at the last ply, and in between a caption that gives back the current index and the move at that index |
| DetailView.Navigator.constructor | src/components/DetailView.js:32-36 | the initial state: index -1, no moves, no position |
| DetailView.Navigator.SelectOpening | src/components/DetailView.js:38-43 | a new opening's moves are parsed, the index is set to the last ply and its FEN is shown |
| DetailView.Navigator.GoToStart | src/components/DetailView.js:71 | the index becomes -1 and nothing else changes |
| DetailView.Navigator.StepBack | src/components/DetailView.js:72 | the index steps back within range and nothing else changes |
| DetailView.Navigator.StepForward | src/components/DetailView.js:73 | the index steps forward within range and nothing else changes |
| DetailView.Navigator.GoToEnd | src/components/DetailView.js:74 | the index becomes the last ply and nothing else changes |
| DetailView.Navigator.CalculatePosition | src/components/DetailView.js:45-69 | with no moves nothing changes; otherwise the shown FEN is the one selected for the index |
| DetailView.Navigator.CurrentMoveText | src/components/DetailView.js:76-86 | the progress caption while computing, the two fixed end captions, and in between a caption that gives back the current index and its move |
| App.EmptyRun | src/App.js:26 | a digit stands for its value; any other character for no squares |
| App.Cells | src/App.js:22-30 | a piece letter becomes one square holding it; a digit becomes that many empty squares |
| App.ExpandRank | src/App.js:22-30 | every square is empty or holds one piece character |
| App.ExpandRankWidth | src/App.js:22-30 | a rank expands to exactly as many squares as it describes |
| App.ExpandRanks | src/App.js:18-32 | one row per rank, each the expansion of its rank |
| App.FenBoard | src/App.js:11-35 | a decoded board always has eight rows |
| App.FenToBoard | src/App.js:11-35 | the nested loops compute `FenBoard`: an empty grid for a missing FEN; otherwise the first eight ranks expanded; failure when fewer than eight ranks exist |
| App.MissingFenIsEmpty | src/App.js:12 | a missing FEN shows 8 x 8 empty squares |
| App.PlacementOnly | src/App.js:14 | only the text before the first space is read |
| App.WellFormedFenIsEightByEight | src/App.js:14-34 | a FEN whose first eight ranks are well formed decodes to an 8 x 8 grid |
| App.ToggleFavorite | src/App.js:265-271 | an absent code is appended at the end; a present code is removed and every other code keeps its place and its count; no duplicates are introduced |
| App.ToggleTwice | src/App.js:265-271 | toggling twice restores membership, and restores the list when the code was not a favourite |
| App.PassesTab | src/App.js:235-239 | the tab test; `TabIsFilter` states the tab step is a filter by it |
| App.MatchesSearch | src/App.js:243-248 | the search test; `FilteredIsOneFilter` states the search step is a filter by it |
| App.TabFiltered | src/App.js:234-239 | an order-preserving sub-list of the catalogue; every opening in it passes the tab, and every opening that passes is in it |
| App.TabIsFilter | src/App.js:234-239 | the tab step is one filter by the tab test, whichever tab is active |
| App.FilteredOpenings | src/App.js:231-252 | an order-preserving sub-list of the catalogue; every opening in it passes the tab and the search, and every opening that passes both is in it |
| App.FilteredIsOneFilter | src/App.js:231-252 | the tab filter followed by the search filter is a single filter by both tests |
| App.FilteredCounts | src/App.js:231-252 | each opening that passes appears as many times as in the catalogue, and no other opening appears |
| App.AllTabShowsEverything | src/App.js:232-242 | the "all" tab with an empty query shows the whole catalogue |
| App.CountsOf | src/App.js:255-263 | "all" is the catalogue size; "fav" the number of favourites; each letter count is at most the total |
| App.LetterCount | src/App.js:257-261 | the number of codes starting with the letter; `LetterCountIsTabLength` ties it to that tab's list |
| App.LetterCountIsTabLength | src/App.js:257-261 | a letter's count is the length of the list that letter's tab shows with an empty query |
| App.LetterCountsBounded | src/App.js:257-261 | no opening is counted under two letters, so the letter counts add up to at most the total |
| AuthUtils.FindRepertoire | src/utils/authUtils.js:93 | the index of the first repertoire with the id, or none when no repertoire has it |
| AuthUtils.FindUnique | src/utils/authUtils.js:93 | with unique ids the match is the only repertoire with that id |
| AuthUtils.CreateRepertoire | src/utils/authUtils.js:39-66 | fails for a missing user, and for one who already has 10 repertoires; otherwise appends an empty repertoire |
| AuthUtils.UpdateRepertoireName | src/utils/authUtils.js:68-84 | fails exactly when the user is missing and succeeds otherwise; renames every repertoire with the id and changes nothing else |
| AuthUtils.Appended | src/utils/authUtils.js:103-111 | the opening is appended to the repertoires with the id; the others are unchanged |
| AuthUtils.AddOpening | src/utils/authUtils.js:86-116 | errors in the source's order (user, repertoire not found, 100 openings reached, already present); otherwise the opening is appended |
| AuthUtils.RemoveOpening | src/utils/authUtils.js:118-138 | fails exactly when the user is missing and succeeds otherwise, even for an unknown id or opening; in the repertoires with the id the opening is gone, and every other opening keeps its order and its number of occurrences; nothing else changes |
| AuthUtils.DeleteRepertoire | src/utils/authUtils.js:140-152 | fails exactly when the user is missing and succeeds otherwise, even for an unknown id; no repertoire with the id remains, and every other one remains in order as many times as before |
| AuthUtils.CreateKeepsValid | src/utils/authUtils.js:46-59 | creating with a fresh id keeps the limits, unique ids and duplicate-free lists |
| AuthUtils.RenameKeepsValid | src/utils/authUtils.js:75-79 | renaming keeps the invariant |
| AuthUtils.AddKeepsValid | src/utils/authUtils.js:96-111 | a successful add keeps the 100-opening limit and duplicate-free lists |
| AuthUtils.RemoveKeepsValid | src/utils/authUtils.js:125-133 | removing keeps the invariant |
| AuthUtils.DeleteKeepsValid | src/utils/authUtils.js:147 | deleting keeps the invariant |
| AuthUtils.AddThenRemove | src/utils/authUtils.js:86-138 | a successful add followed by removing the same opening restores the list |
| AuthUtils.AddEach | src/utils/authUtils.js:166-172 | the migration loop's result: each favourite added in turn, a failing add skipped; `AddEachCollects` states what it collects |
| AuthUtils.AddEachCollects | src/utils/authUtils.js:166-172 | adding favourites one by one, skipping failures, leaves the target holding only favourites, each once, and every favourite unless the target is full; the others are unchanged |
| AuthUtils.AddEachKeepsName | src/utils/authUtils.js:166-172 | adding openings never renames a repertoire |
| AuthUtils.MigrationCollectsFavorites | src/utils/authUtils.js:155-175 | for a user within the limits, the migration appends "My Favorites" holding the favourites (up to the limit), leaves earlier repertoires unchanged and keeps the invariant |
| AuthUtils.UserDocument.Commit | src/utils/authUtils.js:61-63 | a successful transform is written back; a failed one leaves the document untouched and reports its error |
| AuthUtils.UserDocument.Create | src/utils/authUtils.js:39-66 | stores the created list and returns the new empty repertoire, or reports the error and changes nothing |
| AuthUtils.UserDocument.UpdateName | src/utils/authUtils.js:68-84 | stores the renamed list, or reports the error and changes nothing |
| AuthUtils.UserDocument.Add | src/utils/authUtils.js:86-116 | stores the extended list, or reports the error and changes nothing |
| AuthUtils.UserDocument.RemoveFrom | src/utils/authUtils.js:118-138 | stores the reduced list, or reports the error and changes nothing |
| AuthUtils.UserDocument.Delete | src/utils/authUtils.js:140-152 | stores the list without the repertoire, or reports the error and changes nothing |
| AuthUtils.UserDocument.MigrateFavorites | src/utils/authUtils.js:155-175 | no favourites change nothing; a failed creation is reported; otherwise the stored list is the new repertoire with each favourite added in turn |
| PaginatedGrid.TotalPages | src/components/PaginatedGrid.js:7 | the fewest pages that hold every item: zero exactly for an empty list |
| PaginatedGrid.SliceBound | src/components/PaginatedGrid.js:10 | a slice bound is clamped to the list and kept when inside it |
| PaginatedGrid.Page | src/components/PaginatedGrid.js:8-10 | the items of a page; `PageContents` states they are the window from (p-1)*n |
| PaginatedGrid.PageContents | src/components/PaginatedGrid.js:8-10 | page p shows the n items from (p-1)*n on, cut at the end of the list: at most n items |
| PaginatedGrid.SliceIsWindow | src/components/PaginatedGrid.js:10 | a slice from a non-negative start is the window there |
| PaginatedGrid.PagesUpToPrefix | src/components/PaginatedGrid.js:8-10 | pages 1 .. k together are the first k*n items, in order |
| PaginatedGrid.PagesStep | src/components/PaginatedGrid.js:8-10 | each page continues where the previous pages stop |
| PaginatedGrid.PagesCoverItems | src/components/PaginatedGrid.js:7-10 | pages 1 .. totalPages concatenated are exactly the list: every item is on exactly one page |
| PaginatedGrid.PageWindow | src/components/PaginatedGrid.js:34-44 | min(5, totalPages) consecutive buttons, all naming existing pages, whatever the current page |
| PaginatedGrid.WindowHasCurrent | src/components/PaginatedGrid.js:34-50 | the current page, when it exists, has a button |
| PaginatedGrid.NextGuardCounterexample | src/components/PaginatedGrid.js:58-61 | with the Next guard as written, page 3 of 2 leaves Next enabled and moves to page 4 |
| PaginatedGrid.AfterClickAsWritten | src/components/PaginatedGrid.js:23-61 | a click with the Next guard as written; `NextGuardCounterexample` and `GuardsAgreeInRange` state where it differs from `AfterClick` and where it agrees |
| PaginatedGrid.AfterClick | src/components/PaginatedGrid.js:23-61 | with the corrected Next guard a click keeps an existing page in range and never moves Next further past the last page; with at most one page the buttons are hidden |
| PaginatedGrid.GuardsAgreeInRange | src/components/PaginatedGrid.js:26-61 | on an existing page the corrected and the written guards agree |
| PaginatedGrid.ShownRange | src/components/PaginatedGrid.js:69 | the upper end of "Showing a-b" never exceeds the item count |
| PaginatedGrid.PageStartsInside | src/components/PaginatedGrid.js:7-8 | an existing page starts inside the list |
| PaginatedGrid.ShownRangeCountsPage | src/components/PaginatedGrid.js:69 | on an existing page, "Showing a-b" counts exactly the items the page shows |
| PaginatedGrid.Pager.constructor | src/components/PaginatedGrid.js:5 | the grid opens on page 1 |
| PaginatedGrid.Pager.GoToPage | src/components/PaginatedGrid.js:12-15 | the current page becomes the requested one |
| PaginatedGrid.Pager.Click | src/components/PaginatedGrid.js:23-61 | a click moves to the page `AfterClick` gives |
| VirtualizedGrid.UsableWidth | src/components/VirtualizedGrid.js:43 | the usable width is at least one column |
| VirtualizedGrid.Columns | src/components/VirtualizedGrid.js:43-45 | between 1 and maxColumns whole columns that fit the usable width; as many as fit unless capped |
| VirtualizedGrid.TotalRows | src/components/VirtualizedGrid.js:46 | the fewest rows that hold every item |
| VirtualizedGrid.FirstRow | src/components/VirtualizedGrid.js:50 | starts at or above the viewport top, at most `overscan` rows above the top row |
| VirtualizedGrid.LastRow | src/components/VirtualizedGrid.js:51-52 | never past the last row, and reaches the viewport bottom unless it stops at the last row |
| VirtualizedGrid.RowsWindow | src/components/VirtualizedGrid.js:54-63 | the items on the rendered rows; `Visible` computes it with the source's loops and `RowsWindowSize` bounds it |
| VirtualizedGrid.Visible | src/components/VirtualizedGrid.js:54-63 | the nested loops collect exactly the contiguous items on the rendered rows, in list order |
| VirtualizedGrid.RowsWindowSize | src/components/VirtualizedGrid.js:54-63 | at most `columns` items per rendered row |
| VirtualizedGrid.PadTop | src/components/VirtualizedGrid.js:65 | the height of the rows above the rendered ones; `HeightsAddUp` states the heights add up |
| VirtualizedGrid.PadBottom | src/components/VirtualizedGrid.js:66 | the bottom padding is never negative |
| VirtualizedGrid.GridLayout | src/components/VirtualizedGrid.js:42-66 | the columns respect the cap; the rows hold every item; the rendered rows end within the grid; the top padding stays above the scroll offset |
| VirtualizedGrid.HeightsAddUp | src/components/VirtualizedGrid.js:65-66 | whenever the first rendered row is not past the last one, top padding, rendered rows and bottom padding add up to the full grid height |
| VirtualizedGrid.ScrolledPastShortGrid | src/components/VirtualizedGrid.js:49-66 | scrolled far below a short grid, the rendered range is empty (rows 7 to 1) and the top padding exceeds the grid height |
| VirtualizedGrid.RenderedCoversViewport | src/components/VirtualizedGrid.js:50-52 | every row meeting the viewport is rendered |
| SearchUtils.LowerAll | src/utils/searchUtils.js:12 | each field is lower-cased, in order |
| SearchUtils.SearchFields | src/utils/searchUtils.js:5-12 | exactly the present fields (name, code, moves, parent, description, strategy), lower-cased and non-empty |
| SearchUtils.PatternsOk | src/utils/searchUtils.js:16-19 | the four rewritten moves are lower-case, contain no digit one and have distinct first letters |
| SearchUtils.ReplaceMove | src/utils/searchUtils.js:16 | the rewrite keeps the text empty or non-empty and keeps its first character |
| SearchUtils.ReplaceKeepsLower | src/utils/searchUtils.js:16-19 | rewriting lower-case text gives lower-case text |
| SearchUtils.Normalize | src/utils/searchUtils.js:15-19 | the normalised query is lower-case |
| SearchUtils.RewritesLooseMove | src/utils/searchUtils.js:16-19 | "1." followed by any white space and the move becomes "1. " and the move |
| SearchUtils.NormalSpellingKept | src/utils/searchUtils.js:16-19 | the catalogue's own spelling "1. e4" is rewritten to itself |
| SearchUtils.CopyPrefix | src/utils/searchUtils.js:16 | text free of the digit one is copied through |
| SearchUtils.ReplaceIdempotent | src/utils/searchUtils.js:16 | each rewrite is idempotent |
| SearchUtils.OtherRegionCopied | src/utils/searchUtils.js:16-19 | one rewrite copies the catalogue spelling of another move |
| SearchUtils.PreservesFixed | src/utils/searchUtils.js:16-19 | a rewrite for one move does not undo the normal form for another |
| SearchUtils.NormalizeIdempotent | src/utils/searchUtils.js:15-19 | normalising a normalised query changes nothing |
| SearchUtils.AnyIncludes | src/utils/searchUtils.js:21 | some field contains the query |
| SearchUtils.SearchInOpening | src/utils/searchUtils.js:4-22 | the search; `SearchMeaning` states when it holds |
| SearchUtils.SearchMeaning | src/utils/searchUtils.js:4-22 | the search holds exactly when some present field, lower-cased, contains the normalised query |
| SearchUtils.NoFieldsNoMatch | src/utils/searchUtils.js:5-12 | an opening with no present field never matches, not even the empty query |
| SearchUtils.EmptyQueryMatchesAnyField | src/utils/searchUtils.js:21 | the empty query matches every opening with a present field |
| SearchUtils.SearchIgnoresQueryCase | src/utils/searchUtils.js:15 | the query's letter case does not matter |
| OpeningCard.PgnParts | src/components/OpeningCard.js:43 | no parts exactly for missing move text; the parts hold no space and join back to the move text |
| OpeningCard.Notation | src/components/OpeningCard.js:44 | the first 15 parts joined by spaces; `TruncatedNotation` and `EllipsisIffTruncated` state what is shown |
| OpeningCard.TruncatedNotation | src/components/OpeningCard.js:43-45 | at most 15 parts show the move text itself; more show the text up to the 15th space, then " ..." |
| OpeningCard.EllipsisIffTruncated | src/components/OpeningCard.js:45 | " ..." is appended exactly when parts are left out |
| OpeningCard.IsInCurrentRepertoire | src/components/OpeningCard.js:38 | a repertoire is being viewed and holds the opening's id; `InRepertoireAfterAdd` and `NotInRepertoireAfterRemove` tie it to add and remove |
| OpeningCard.InRepertoireAfterAdd | src/components/OpeningCard.js:38 | after a successful add the opening's card shows it in that repertoire |
| OpeningCard.NotInRepertoireAfterRemove | src/components/OpeningCard.js:38 | after a remove the opening's card no longer shows it in that repertoire |
| SplitOpenings.BucketOf | scripts/split-openings.js:19 | "OTHER" exactly when the code does not start with A-E in either case; otherwise the upper-cased first letter |
| SplitOpenings.BucketsListed | scripts/split-openings.js:16 | the six buckets are distinct and every code's bucket is among them |
| SplitOpenings.ExactlyOneBucket | scripts/split-openings.js:19-20 | an opening is in its own bucket and in no other |
| SplitOpenings.BucketStep | scripts/split-openings.js:20 | a push changes only the bucket of the opening pushed |
| SplitOpenings.PushStep | scripts/split-openings.js:18-21 | after each push, every bucket holds exactly its openings of the catalogue read so far, in order |
| SplitOpenings.SplitByVolume | scripts/split-openings.js:16-34 | every bucket holds exactly its openings in catalogue order; exactly the non-empty buckets get a size, equal to their length |
| SplitOpenings.RecordSizes | scripts/split-openings.js:27-34 | exactly the non-empty buckets are recorded, each with its length |
| SplitOpenings.SizesAddUp | scripts/split-openings.js:16-21 | the bucket sizes add up to the catalogue's size |
| Text.ToLower | src/utils/chessUtils.js:30 | same length, lower-case, letter by letter |
| Text.CollapseSpaces | src/utils/chessUtils.js:33 | only plain spaces remain and no two white-space characters are adjacent |
| Text.WordsCollapse | src/utils/chessUtils.js:63 | collapsing white-space runs does not change the words |
| Text.WordsTrim | src/utils/chessUtils.js:63 | trimming does not change the words |
| Text.JoinSplit | src/components/OpeningCard.js:43-44 | splitting on a character and joining on it gives the text back |
| Lists.Filter | src/App.js:236-238 | an order-preserving sub-list; every element in it passes, and every element that passes is in it |
| Lists.FilterCounts | src/App.js:236-238 | each passing element keeps its number of occurrences, and failing elements are dropped |
| Lists.Remove | src/App.js:268 | the element is gone; every other element stays, in order |
| Lists.RemoveCounts | src/App.js:268 | every other element keeps its number of occurrences |
| Lists.RemoveAppended | src/App.js:266-270 | removing a just-appended element restores the list |

## Left out

- The chess rules engine is not modelled. Move legality, the parsing of move notation and the printing of FENs come from the `Rules<B>` parameter.
- Loading the rules library (src/utils/chessUtils.js:3-24) is not modelled. A failed load is the engine argument `None`, which yields the trusted FEN.
- Exceptions thrown by the engine's move function are not modelled. chess.js 0.10.3 reports a bad move by returning null. Only the load failure reaches the `catch` of `getPositionAfterMoves`, so the `catch` in the detail view (src/components/DetailView.js:59-62) has no counterpart.
- Console warnings and errors are not modelled.
- The `isCalculating` flag and the asynchronous ordering of React effects are not modelled. `MoveText` takes the flag as a parameter.
- Sign-in, sign-up, sign-out and `createUserDocument` (src/utils/authUtils.js:17-36) are not modelled: they are calls into Firebase.
- The `createdAt`/`updatedAt` timestamps are not modelled. The `Date.now()` repertoire id is a parameter.
- Concurrent writers to one user document are not modelled. Each operation is modelled as an atomic read-transform-write.
- Saving the favourites to local storage (src/App.js:226-228) is not modelled.
- `window.scrollTo` in `goToPage` is not modelled.
- Rendering (JSX, `renderItem`, styles) is not modelled.
- The split script's file reading and writing, its exit on a missing file, JSON parsing and console output are not modelled. The buckets and the sizes map are the script's results.
- `toLowerCase` is modelled on ASCII letters only.
- A missing field of an opening is the empty string. In the search and the classifier both are falsy, so they agree. In the split script an undefined code tests as the text "undefined", which also lands in "OTHER". In the App filter a missing `eco`, `name` or `pgn` would throw; the model does not capture that throw.
- Pixel quantities in the virtualised grid are whole numbers, not floating point.
- VirtualizedGrid.GridLayout: requires `columnWidth > 0`, `rowHeight > 0` and `maxColumns >= 1`. The defaults are 320, 540 and 3. Other values make the source divide by zero (Infinity/NaN), which the model does not represent.
- PaginatedGrid.TotalPages: requires `itemsPerPage > 0` (default 20). Zero makes the source compute Infinity/NaN.
- ChessUtils.CategoryAfterE4: the contract fixes the category only for a 1...e5 reply. Which other replies, names and codes give black-vs-e4 is stated only by the body, which follows the source branch by branch.
- ChessUtils.CategoryAfterD4: the contract fixes the category only for a 1...d5 reply. The other branches are stated only by the body.
- HeightsAddUp: the heights add up only while the first rendered row is not past the last. When the page is scrolled below a short grid, the source's top padding alone exceeds the grid height (`ScrolledPastShortGrid`), and the model keeps that behaviour.
- PaginatedGrid.Pager.Click uses the corrected Next guard (see Findings). The guard as written is `PaginatedGrid.AfterClickAsWritten`.

## Findings

| source | as written | input that shows it | evidently intended | confidence | as-written member | corrected member |
|---|---|---|---|---|---|---|
| src/components/PaginatedGrid.js:60 | Next is disabled only when the current page equals the page count | the list shrinks from 3 pages to 2 while page 3 is shown: Next stays enabled and goes to page 4, further past the end | Next is disabled whenever the current page is at or past the last page | not executed; it needs `items` to shrink while the grid stays mounted | PaginatedGrid.NextGuardCounterexample | PaginatedGrid.AfterClick |
