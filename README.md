# Territory tile game — a Dafny model of its core

The game is played on a square grid. Every player owns one starting cell.
By turns, each player draws a polyomino tile from a shared pile and may turn
and mirror it. The tile is laid on free cells that touch the player's own
territory and touch no other player's territory. Bonus squares are laid out
at random before play. At the end, each player scores the side of the largest
square they own, then the number of cells they own.

The model covers these parts:

- **Geometry and Tiles:** a tile's cell list, its normal form (moved to the
  origin, sorted, without repeats), the quarter turn, the mirror, the bounding
  box, shape equality and the footprint.
- **Catalogue:** the tile catalogue, with lookup by id and the removal of
  tiles whose shape repeats an earlier one.
- **TileQueues:** the draw pile, with its reference copy, its refill on
  exhaustion, the preview window and the exchange of the held tile with a
  window slot.
- **Boards:** the current board, with grid sizing, the cell owners, the bonus
  counts and bonus layout, and the claiming of cells.
- **LegacyBoards:** the earlier grid-only board.
- **GameText:** the text helpers, namely whitespace trimming, the spreadsheet
  column-letter codec and the strict integer parser.
- **GamePlacement:** the placement rule, laying a footprint and placing the
  starting cell.
- **Players:** players, with their shared id counter and their exchange
  coupons.
- **GameScoring:** final scoring, using the largest-square recurrence, and the
  ranking of the results.

The loops of the tiles, the catalogue, the pile, the boards, the placement
rule and the scoring are Dafny `method`s with loop invariants. Each one is
proved against a function that specifies it. The loops of the text helpers
in `src/Game/Game.cpp` are recursive functions whose contracts characterise
them instead: the two `trim_ws` loops (`GameText.TrimBegin`,
`GameText.TrimEnd`), the `colToLetters` loop (`GameText.ColToLetters`), the
`lettersToCol` loop (`GameText.Scan`) and the digit loop of `parseIntStrict`
(`GameText.AllDigitsFrom`). The properties the game relies on are lemmas
about those functions. Objects whose fields change are classes:
the catalogue, the pile, the boards and the players. Values are datatypes: the
tiles and the score records.

Nothing random is computed inside the model. The caller supplies it:

- A shuffle is a permutation that the caller passes in. The method requires
  that it is one.
- The bonus layout reads a sequence of numbers standing for the successive
  values of the C library `rand()`, two per candidate position.

## Model

| member | source | states |
|---|---|---|
| Geometry.Normalize | src/Tile/Tile.cpp:32-45 | The result is strictly ascending in (x, y) order, so sorted and free of repeats. It is empty exactly when the input is. It holds exactly the input cells moved by (-min x, -min y). |
| Geometry.SortUnique | src/Tile/Tile.cpp:43-44 | Sort followed by unique/erase gives a strictly ascending list with the same set of cells. |
| Geometry.NormalizeIsNormal | src/Tile/Tile.cpp:32-45 | The normal form is strictly ascending, and its minimum x and minimum y are both 0. |
| Geometry.NormalizeOfNormal | src/Tile/Tile.cpp:32-45 | A list already in normal form normalises to itself. |
| Geometry.NormalizeIdempotent | src/Tile/Tile.cpp:32-45 | Normalising twice is the same as normalising once. |
| Geometry.NormalizeShiftInvariant | src/Tile/Tile.cpp:32-45 | Two lists that are translates of each other have the same normal form. |
| Geometry.NormalizeLength | src/Tile/Tile.cpp:32-45 | A list without repeated cells keeps its number of cells when normalised. |
| Geometry.NormalizeTurnNormalize | src/Tile/Tile.cpp:61-69 | Normalising before a quarter turn does not change the normalised result of the turn. |
| Geometry.NormalizeMirrorNormalize | src/Tile/Tile.cpp:71-79 | Normalising before a mirror does not change the normalised result of the mirror. |
| Geometry.DistinctTurn | src/Tile/Tile.cpp:64-66 | The quarter turn maps distinct cells to distinct cells. |
| Geometry.DistinctMirror | src/Tile/Tile.cpp:74-76 | The mirror maps distinct cells to distinct cells. |
| Tiles.NewTile | src/Tile/Tile.cpp:7-11 | Gives the tile with that id and colour and the normal form of the given cells. The tile is valid: its shape is in normal form. |
| Tiles.NormalizeCells | src/Tile/Tile.cpp:32-45 | Finding the minima, translating, sorting and dropping repeats computes exactly Normalize. An empty list is returned as it is. |
| Tiles.LowestCorner | src/Tile/Tile.cpp:34-38 | The single scan returns the minimum x and the minimum y of a non-empty list. |
| Tiles.SortDedup | src/Tile/Tile.cpp:43-44 | The sort-then-unique step computes SortUnique. |
| Tiles.Translate | src/Tile/Tile.cpp:97-100 | Every cell is moved by (originX, originY) in place, and the order is kept. |
| Tiles.NegateX | src/Tile/Tile.cpp:84-86 | Every cell's x is negated in place, and the order is kept. |
| Tiles.TurnEach | src/Tile/Tile.cpp:91-94 | Every cell (x, y) becomes (y, -x) in place, and the order is kept. |
| Tiles.Tile.BoxLimit | src/Tile/Tile.cpp:51-59 | For no cells the result is (0, 0). Otherwise every cell lies strictly below the limits, and some cell attains each limit minus one. |
| Tiles.Tile.ShapeEquals | src/Tile/Tile.cpp:104-107 | True exactly when the two cell lists are equal: same length and the same cell at each position. |
| Tiles.Tile.Rotate | src/Tile/Tile.cpp:61-69 | The tile with its cells quarter-turned and renormalised; id and colour are unchanged. The result is in normal form. |
| Tiles.Tile.Flip | src/Tile/Tile.cpp:71-79 | The tile with its cells mirrored and renormalised; id and colour are unchanged. The result is in normal form. |
| Tiles.Tile.Footprint | src/Tile/Tile.cpp:81-102 | The cells first go through the optional flip, then ((r % 4) + 4) % 4 quarter turns with truncating %, each renormalised. They are then moved by the origin. The tile itself is not changed. |
| Tiles.CRem4 | src/Tile/Tile.cpp:89 | C++ `%` by 4: the remainder has the sign of the dividend and lies strictly between -4 and 4. |
| Tiles.QuarterTurnsIsFloorMod | src/Tile/Tile.cpp:89 | The normalised rotation count equals the floor remainder r mod 4 for every r, negative ones included. |
| Tiles.FootprintFloorMod | src/Tile/Tile.cpp:89-96 | Any rotation count lays the same shape as its remainder mod 4. |
| Tiles.FootprintMinusOne | src/Tile/Tile.cpp:89-96 | A rotation count of -1 lays the same shape as three quarter turns. |
| Tiles.FootprintPlain | src/Tile/Tile.cpp:81-102 | With no turn and no flip, the footprint is the stored shape moved by the origin. |
| Tiles.RotateTimesPlain | src/Tile/Tile.cpp:90-96 | Renormalising after every turn gives the same result as normalising once after k plain turns. |
| Tiles.RotateFourTimes | src/Tile/Tile.cpp:61-69 | Four rotations give back a shape in normal form. |
| Tiles.FlipTwice | src/Tile/Tile.cpp:71-79 | Two flips give back a shape in normal form. |
| Tiles.RotateKeepsCount | src/Tile/Tile.cpp:61-69 | A rotation keeps the number of cells of a normal shape. |
| Tiles.FlipKeepsCount | src/Tile/Tile.cpp:71-79 | A flip keeps the number of cells of a normal shape. |
| Tiles.ShapeEqualsUpToTranslation | src/Tile/Tile.cpp:104-107 | Two normalised tiles whose cells are translates of each other test shape-equal. Comparing positionally is therefore comparing up to translation. |
| Catalogue.FirstWithId | src/Tile/InitTiles.cpp:38-43 | None exactly when no tile has the id. Otherwise the result is the tile at the first index carrying the id. |
| Catalogue.InitTiles.constructor | include/Tile/InitTiles.hpp:16 | A default catalogue holds no tiles. |
| Catalogue.InitTiles.All | src/Tile/InitTiles.cpp:34-36 | The stored tiles, unchanged and in order. |
| Catalogue.InitTiles.ById | src/Tile/InitTiles.cpp:38-43 | The linear search returns FirstWithId of the stored tiles. |
| Catalogue.InitTiles.DeduplicateByShape | src/Tile/InitTiles.cpp:45-55 | The nested loops replace the stored tiles with Dedup of the old tiles. |
| Catalogue.DedupShapes | src/Tile/InitTiles.cpp:45-55 | Every kept tile is an input tile. A shape occurs among the kept tiles exactly when it occurs among the input tiles. |
| Catalogue.DedupDistinct | src/Tile/InitTiles.cpp:45-55 | No two kept tiles have equal shapes. |
| Catalogue.DedupCovers | src/Tile/InitTiles.cpp:45-55 | Every input tile has a kept tile of the same shape. |
| Catalogue.DedupIsFirstOccurrences | src/Tile/InitTiles.cpp:45-55 | The kept tiles are exactly the first tile of each shape, in input order (an independent definition). |
| Catalogue.DedupOfDistinct | src/Tile/InitTiles.cpp:45-55 | A list whose shapes are already distinct is left unchanged. |
| Catalogue.DedupIdempotent | src/Tile/InitTiles.cpp:45-55 | Cleaning up twice is the same as cleaning up once. |
| TileQueues.TileQueue.constructor | src/Tile/TileQueue.cpp:5-6 | Records the reshuffle flag, on by default, and starts with an empty catalogue copy and an empty pile. |
| TileQueues.TileQueue.Size | include/Tile/TileQueue.hpp:90 | Returns the number of tiles left in the pile. |
| TileQueues.TileQueue.Empty | include/Tile/TileQueue.hpp:95 | True exactly when Size is 0. |
| TileQueues.TileQueue.InitFrom | src/Tile/TileQueue.cpp:8-17 | Succeeds exactly when the catalogue is non-empty; on failure the copy and the pile are untouched. On success the copy is the catalogue, and the pile is the shuffled order (or the catalogue order when not shuffling; shuffling is on by default). The pile is then a permutation of the copy. |
| TileQueues.TileQueue.Reshuffle | src/Tile/TileQueue.cpp:38-42 | The pile becomes the given permutation of the catalogue copy, and the copy is unchanged. |
| TileQueues.TileQueue.Draw | src/Tile/TileQueue.cpp:19-28 | Outcome and new pile are DrawEffect of the old pile. An empty pile is refilled first if reshuffling is on. The front tile is returned and removed, and a pile emptied by the draw is refilled again. Without reshuffling, an empty pile is the error outcome. |
| TileQueues.DrawFailsOnlyWhenExhausted | src/Tile/TileQueue.cpp:19-28 | A draw fails exactly when the pile is empty and either reshuffling is off or the catalogue is empty. |
| TileQueues.DrawKeepsPileFull | src/Tile/TileQueue.cpp:26 | With reshuffling on and a non-empty catalogue, the pile is never empty after a draw. |
| TileQueues.TileQueue.Peek | src/Tile/TileQueue.cpp:30-36 | Returns the first min(count, size) pile tiles, front first; count is 5 by default (`include/Tile/TileQueue.hpp:52`). The pile is unchanged. |
| TileQueues.TileQueue.FindInAll | src/Tile/TileQueue.cpp:44-47 | Returns the first catalogue-copy tile with the id, or None. |
| TileQueues.TileQueue.NextTileIds | src/Tile/TileQueue.cpp:49-55 | Returns the ids of exactly the tiles Peek returns, in the same order; count is 5 by default. |
| TileQueues.TileQueue.ExchangeWithWindow | src/Tile/TileQueue.cpp:57-66 | Returns None and leaves the pile unchanged when the index is 5 or more, is past the pile, or the id is not in the copy. Otherwise it returns the old tile at the index, and that slot alone now holds the copy's tile with the id. |
| Boards.BonusKind.Symbol | include/Bonus/ExchangeBonus.hpp:19 | One letter per kind, different for each: E for exchange, R for stone, S for steal. |
| Boards.GridSide | src/Board/Board.cpp:18-28 | The side is 20 exactly for 2 to 4 players, 30 exactly for 5 to 9 players, and 0 for any other count. |
| Boards.FreshGrid | src/Board/Board.cpp:30 | A rows x cols grid with every cell '.'. |
| Boards.ExchangeCount | src/Board/Board.cpp:39 | Equals ceil(1.5 n) for n > 0, that is 3n <= 2c < 3n + 2. |
| Boards.StoneCount | src/Board/Board.cpp:40 | Equals ceil(0.5 n) for n > 0, that is n <= 2c < n + 2. |
| Boards.StealCount | src/Board/Board.cpp:41 | Equals n for n > 0. |
| Boards.ScheduleCounts | src/Board/Board.cpp:39-62 | The layout order holds exactly the computed number of bonuses of each kind, and nothing else. |
| Boards.Candidate | src/Board/Board.cpp:47-48 | A candidate drawn as rand() % (rows - 2) + 1 and rand() % (cols - 2) + 1 lies off the border. |
| Boards.SpacedInsert | src/Board/Board.cpp:49-57 | A bonus added where no bonus is within the 3x3 neighbourhood keeps every pair of bonuses apart. |
| Boards.NextFree | src/Board/Board.cpp:46-56 | The first candidate from a given one on that is free, or a number past the supplied candidates when none is; every candidate skipped is not free. |
| Boards.NextFreeStops | src/Board/Board.cpp:46-56 | When every candidate from a to f - 1 is taken and f is free, the first free candidate from a is f; when none is free, it is past the candidates. |
| Boards.Layout | src/Board/Board.cpp:43-62 | The reference layout lays the scheduled kinds one by one, each at the first free candidate after the previous one's. It lays at most one position per kind, and it is complete exactly when it lays one for every kind. |
| Boards.LayoutStep | src/Board/Board.cpp:43-58 | When candidate f is the first free one from a, the layout from a puts the next kind at candidate f and continues from f + 1 with that bonus recorded. |
| Boards.LayoutStuck | src/Board/Board.cpp:46-56 | When no candidate from a on is free, the layout from a lays nothing and is incomplete. |
| Boards.LayoutCandidates | src/Board/Board.cpp:47-48 | Every position of a layout from candidate a is the candidate of some attempt a or later: positions come from the random numbers only. |
| Boards.LaidOutStep | src/Board/Board.cpp:49-57 | Appending a position that is inside and free in the bonuses recorded so far extends a layout. |
| Boards.RecordLaidOut | src/Board/Board.cpp:57-62 | A layout's positions are distinct and none held a bonus before. Recording them adds exactly those keys, each with its own kind, and keeps every old bonus. |
| Boards.KindsAt | src/Board/Board.cpp:57 | The kinds found at the given positions, one per position, in order. |
| Boards.KindsAtRecord | src/Board/Board.cpp:57-62 | After recording a layout, the kinds at its positions are the kinds laid, in order. |
| Boards.BonusLayoutComplete | src/Board/Board.cpp:39-62 | A complete layout for n players adds one new position per scheduled bonus to the map, all distinct, holding exactly ceil(1.5 n) exchange, ceil(0.5 n) stone and n steal bonuses. |
| Boards.Board.constructor | src/Board/Board.cpp:12 | Gives a 0 x 0 board with no bonuses. |
| Boards.Board.ForPlayers | src/Board/Board.cpp:14-16 | Gives a board sized by GridSide, with every cell free, no owners and no bonuses. |
| Boards.Board.InitGrid | src/Board/Board.cpp:18-31 | The board is resized by GridSide and every cell and owner is cleared. The bonuses are untouched. With no bonuses beforehand the board is valid. |
| Boards.Board.GetRows | src/Board/Board.cpp:79 | The row count. |
| Boards.Board.GetCols | src/Board/Board.cpp:80 | The column count. |
| Boards.Board.GetGrid | src/Board/Board.cpp:81 | The grid. |
| Boards.Board.GetOwnerGrid | src/Game/Game.cpp:475 | The owner grid. |
| Boards.Board.GetBonus | src/Board/Board.cpp:65-67 | The bonus map. |
| Boards.Board.PlaceTile | src/Game/Game.cpp:200-204 | Only cell (x, y) changes: it becomes '#' with owner id. Size and bonuses are kept. |
| Boards.Board.CandidateFree | src/Board/Board.cpp:49-55 | True exactly when the cell is '.' and no bonus lies in its 3x3 neighbourhood, the cell itself included. |
| Boards.Board.Place | src/Board/Board.cpp:43-58 | Records the kind at the first free candidate from the given attempt on, and returns the attempt after it. Every candidate skipped was not free. When the numbers run out it fails and changes nothing. The board stays valid: bonuses lie inside and are spaced. |
| Boards.Board.PlaceBonus | src/Board/Board.cpp:34-63 | On a 0 x 0 board it does nothing. Otherwise its positions and its completeness are exactly the reference layout Layout of the supplied numbers from candidate 0: the exchanges, then the stones, then the steals, each at the first free candidate after the previous one. The new bonus map is the old one with each placed position recorded, each position was free when chosen, and the board stays valid. Bonus keys are (row, column), as `grid[x][y]` indexes the grid at `src/Board/Board.cpp:47-52`, whereas footprint and tile cells elsewhere are (x = column, y = row). |
| LegacyBoards.Board.constructor | include/Board.cpp:5 | Gives a 0 x 0 board. |
| LegacyBoards.Board.ForPlayers | include/Board.cpp:7-9 | Gives a board sized by the same GridSide rule, with every cell free. |
| LegacyBoards.Board.InitGrid | include/Board.cpp:11-24 | The board is resized by the GridSide rule and every cell is cleared. |
| LegacyBoards.Board.GetRows | include/Board.cpp:35 | The row count. |
| LegacyBoards.Board.GetCols | include/Board.cpp:36 | The column count. |
| LegacyBoards.Board.GetGrid | include/Board.cpp:37 | The grid. |
| GameText.TrimBegin | src/Game/Game.cpp:28 | Every character skipped is whitespace, and the one it stops at is not. |
| GameText.TrimEnd | src/Game/Game.cpp:29 | Every character dropped at the end is whitespace, and the last one kept is not. |
| GameText.TrimWs | src/Game/Game.cpp:26-31 | The result is a substring of the input, and everything before and after it is whitespace. It neither starts nor ends with whitespace. |
| GameText.TrimWsEmpty | src/Game/Game.cpp:26-31 | The result is empty exactly when the text is all whitespace. |
| GameText.TrimWsOfTrimmed | src/Game/Game.cpp:26-31 | A text without leading or trailing whitespace trims to itself. |
| GameText.TrimWsIdempotent | src/Game/Game.cpp:26-31 | Trimming twice is the same as trimming once. |
| GameText.Upper | src/Game/Game.cpp:48 | Maps a-z to A-Z and leaves every other character unchanged. |
| GameText.Letter | src/Game/Game.cpp:36 | Maps 0 to 25 onto 'A' to 'Z'. |
| GameText.Digit | src/Game/Game.cpp:50 | Every letter has a value between 1 and 26. |
| GameText.ColToLetters | src/Game/Game.cpp:33-41 | A column name uses only the letters A to Z. It is empty exactly for a negative index. What the name denotes is stated by FoldColToLetters and ColumnRoundTrip. |
| GameText.FoldColToLetters | src/Game/Game.cpp:33-41 | The bijective base-26 value of the name of i is i + 1. |
| GameText.ScanLetters | src/Game/Game.cpp:43-55 | On letters alone, the decoding loop computes the base-26 value minus one. |
| GameText.ColumnRoundTrip | src/Game/Game.cpp:33-55 | Decoding the name of any index i >= 0 gives back i. |
| GameText.ColumnNamesDistinct | src/Game/Game.cpp:33-41 | Different indices have different names. |
| GameText.LettersToColNormalizes | src/Game/Game.cpp:46-48 | The decoder ignores whitespace and letter case. |
| GameText.Scan | src/Game/Game.cpp:43-55 | Whatever the starting value, a character that is neither whitespace nor a letter anywhere in the rest of the text gives -1, and so does a rest with no letter when none was seen before. |
| GameText.LettersToCol | src/Game/Game.cpp:43-55 | The result is -1 exactly when the text contains a character that is neither whitespace nor a letter, or contains no letter. Otherwise it is at least 0. |
| GameText.DigitsStart | src/Game/Game.cpp:388-392 | The digits start at 0, or at 1 after a sign. |
| GameText.AllDigitsFrom | src/Game/Game.cpp:393-395 | True exactly when every character from the start index on is a decimal digit. |
| GameText.ParseIntStrict | src/Game/Game.cpp:385-404 | Succeeds exactly when the trimmed text is an optional sign and at least one digit, and its value fits in a 32-bit int. The value is then returned. On failure, `out` is left as it was. |
| GameText.ParseIntText | src/Game/Game.cpp:385-404 | Parsing the decimal text of any 32-bit int gives back that int. |
| GamePlacement.ScanNeighbours | src/Game/Game.cpp:490-501 | Reports whether any of the four on-board neighbours is owned by another player. If none is, it reports whether one is owned by the player. |
| GamePlacement.CanPlaceFootprint | src/Game/Game.cpp:473-505 | True exactly when every cell of the footprint is on the board and '.', no cell touches another player's cell, and some cell touches the player's own cell. An empty footprint is refused. |
| GamePlacement.PlaceableShape | src/Game/Game.cpp:473-505 | An accepted footprint is non-empty and on the board, and its player id is not 0. |
| GamePlacement.PlaceFootprint | src/Game/Game.cpp:507-511 | Exactly the footprint cells become '#' owned by the player; every other cell's value and owner are unchanged. |
| GamePlacement.PlaceSeed | src/Game/Game.cpp:190-204 | Accepted exactly when (col, row) is on the board and free. Then exactly that cell becomes '#' owned by the player; otherwise nothing changes. |
| Players.IdCounter.constructor | src/Player/Player.cpp:9 | The first id handed out is 1. |
| Players.Player.Unnamed | src/Player/Player.cpp:17 | Takes the next id and advances the counter. Name and colour are empty, the player holds 1 coupon, and neither bonus flag is set. |
| Players.Player.constructor | src/Player/Player.cpp:25-26 | Takes the next id, advances the counter, and sets the given name and colour. The player holds 1 coupon, and neither bonus flag is set. |
| Players.Player.GetID | src/Player/Player.cpp:50-52 | The id. |
| Players.Player.GetName | src/Player/Player.cpp:55-57 | The name. |
| Players.Player.GetColor | src/Player/Player.cpp:60-62 | The colour. |
| Players.Player.HasRockBonus | include/Player/Player.hpp:105 | The rock-bonus flag. |
| Players.Player.HasStealthBonus | include/Player/Player.hpp:108 | The steal-bonus flag. |
| Players.Player.GetExchangeCoupons | include/Player/Player.hpp:124 | The coupon count. |
| Players.Player.SetName | src/Player/Player.cpp:66-68 | Only the name changes. |
| Players.Player.SetColor | src/Player/Player.cpp:71-73 | Only the colour changes. |
| Players.Player.SetRockBonusAvailable | include/Player/Player.hpp:117 | Only the rock-bonus flag changes. |
| Players.Player.SetStealthBonusAvailable | include/Player/Player.hpp:120 | Only the steal-bonus flag changes. |
| Players.Player.AddExchangeCoupon | include/Player/Player.hpp:127 | One more coupon; nothing else changes. |
| Players.Player.UseExchangeCoupon | include/Player/Player.hpp:130 | One coupon fewer if there is one; at zero nothing changes. |
| Players.CouponsAfterUse | include/Player/Player.hpp:130 | A positive count drops by one; a count at or below zero stays. |
| Players.CouponsNeverNegative | include/Player/Player.hpp:124-130 | Starting from any count of 0 or more, no sequence of additions and uses makes the count negative. The count grows by at most one per operation. |
| Players.NewPlayers | src/Game/Game.cpp:99-129 | Gives one fresh player per (name, colour), in order. The ids are consecutive from the counter, so they are distinct and increasing. |
| GameScoring.CountRowsIsCard | src/Game/Game.cpp:530-538 | The cell count equals the number of grid positions the player owns. |
| GameScoring.Min3 | src/Game/Game.cpp:540 | Equals the smallest of the three values. |
| GameScoring.DpUnowned | src/Game/Game.cpp:537 | A cell the player does not own ends no square but the empty one. |
| GameScoring.DpBorder | src/Game/Game.cpp:541-542 | An owned cell on the top row or the left column ends a largest square of side 1. |
| GameScoring.DpStep | src/Game/Game.cpp:539-540 | An owned inner cell ends a largest square one larger than the smallest of its upper, left and upper-left values. |
| GameScoring.ScorePlayer | src/Game/Game.cpp:529-548 | The record carries the player's id and the number of owned cells. Its side is the largest side of an all-owned square anywhere on the grid, or 0 when the player owns nothing. |
| GameScoring.ComputeScores | src/Game/Game.cpp:520-552 | Gives one record per player, in the players' order, each as ScorePlayer states. |
| GameScoring.ScoreBefore | src/Game/Game.cpp:559-563 | a ranks before b exactly when its (square side, cell count) pair is lexicographically larger. |
| GameScoring.ScoreBeforeIsStrictWeakOrder | src/Game/Game.cpp:559-563 | The comparator is irreflexive and transitive. Two records are unordered exactly when they tie on both keys, which is what std::sort requires. |
| GameScoring.InsertScore | src/Game/Game.cpp:557-563 | Inserting into a ranked list keeps it ranked and adds exactly that record. |
| GameScoring.RankScores | src/Game/Game.cpp:557-563 | The output is ranked (larger square first, then more cells) and is a permutation of the input. |
| GameScoring.WinnerIsBest | src/Game/Game.cpp:572 | The first ranked record has the largest square. Among records with that square, it has the most cells. |
| GameScoring.Unshuffled | src/Game/Game.cpp:127 | In creation order, seat j holds the player with id j + 1, since ids count up from 1 (`src/Player/Player.cpp:9`). |
| GameScoring.SeatAsWritten | src/Game/Game.cpp:566 | For ids 1 to n, seat id - 1 is a seat of n players and holds that id as long as the players keep their creation order. This is the as-written half of the finding below; SeatAsWrittenMisses shows the lookup failing once the seats are shuffled. |
| GameScoring.SeatAsWrittenMisses | src/Game/Game.cpp:572 | With seats [2, 1], a permutation of the ids [1, 2], the seat computed as id - 1 for id 1 holds player 2. |
| GameScoring.SeatOf | src/Game/Game.cpp:566 | None exactly when no seated player has the id. Otherwise it gives the first seat holding that id. |
| GameScoring.WinnerSeat | src/Game/Game.cpp:572 | When the winner's id is seated, gives a seat that holds exactly that id. |

## Left out

- **Input and output.** Reading the tile catalogue from JSON, the console
  prompts and the rendering of the board and the pile are not modelled. This
  covers `InitTiles::loadFromFile`, `TileQueue::display`,
  `Board::displayGrid`, `Player::inputPlayerInfo` and `displayInfo`. The
  constructor `Catalogue.InitTiles.Loaded` stands for a successful load.
- **Randomness.** `std::shuffle`, `srand(time(nullptr))` and `rand()` are
  inputs: a permutation, and a sequence of numbers. The `seed` argument of
  `TileQueue::initFrom` (`include/Tile/TileQueue.hpp:45`) is replaced by the
  permutation it would produce, so `InitFrom` takes that permutation before
  its `shuffle` flag.
- **Boards.Board.PlaceBonus: the retry loop.** The source retries without
  limit until a free spot turns up. The model stops when the supplied numbers
  run out and reports `complete == false`; `placed` is an extra output. It
  does not model a layout that never finds a spot, which never ends in the
  source.
- **The owner grid.** `Board::placeTile` and `Board::getOwnerGrid` are called
  from `src/Game/Game.cpp` but are defined in none of the files of this model.
  The owner grid is modelled as allocated and cleared together with the
  character grid. `placeTile` is modelled as the same write the seed
  placement does (`src/Game/Game.cpp:200-204`).
- **Board header.** `src/Board/Board.cpp:1` includes
  `include/Board/Board.hpp`, but that header, as it stands, declares neither
  the bonus map nor `placeBonus`, `getBonus`, `placeTile` or `getOwnerGrid`.
  The model follows the `.cpp` file and the calls in `src/Game/Game.cpp`; the
  header is not part of this model.
- **Tile setters and getters.** `Tile::setId`, `setColor` and the trivial
  getters are fields of the `Tiles.Tile` value. C++ copy semantics become
  Dafny value semantics: `Rotate`, `Flip` and `Footprint` return the changed
  tile, or the cells, instead of swapping the member in place.
- **TileQueues.TileQueue.Draw: empty catalogue.** On an empty pile with
  reshuffling on and an empty catalogue, the source reads the front of an
  empty deque, which is undefined behaviour. The model returns the
  `EmptyDeck` outcome there, the same as the exception raised when
  reshuffling is off.
- **GamePlacement.PlaceFootprint: no revalidation.** Written as the code is:
  it does not re-check the placement rule and only needs the cells to be on
  the board. Its documentation (`include/Game/Game.hpp:307-314`) says only
  that it applies the footprint and triggers bonus-capture detection, with
  nothing about checking it again. The check happens in the caller, through
  `CanPlaceFootprint` (`src/Game/Game.cpp:473-505`).
- **GameText.LettersToCol: 32-bit overflow.** The accumulator is an unbounded
  integer. The C++ `int` accumulator (at most 2147483647) overflows on some
  seven-letter names (after "ZZZZZZZ" it would hold 8353082582, while after
  "AAAAAAA" it holds 321272407 and fits) and on every name of eight letters
  or more (after "AAAAAAAA" it would hold 8353082583). That is undefined
  behaviour. The round-trip lemma covers
  every index.
- **Tiles.Tile: 32-bit coordinates.** The negation, the quarter turn and the
  translation of cell coordinates (`src/Tile/Tile.cpp:84-100`) are on
  unbounded integers. The C++ `int` arithmetic there would overflow only for
  coordinates near 2^31, which the catalogue and the board never produce.
- **Players.Player.AddExchangeCoupon: int overflow.** The coupon count is
  unbounded, so the model does not wrap at 2^31 - 1.
- **GameScoring.RankScores: the sort algorithm.** The model sorts by
  insertion, with a ranked-and-permutation contract. `std::sort` is not
  stable, so the order of records that tie on both keys is not fixed by the
  source either. Only the properties every correct sort has are stated.
- **Bonus capture and the later phases.** Capturing a bonus, using the stone
  and steal bonuses (`useRockBonus`) and the final single-cell phase are
  declared in `include/Game/Game.hpp`. None of them has a definition in the
  modelled files, so none is modelled. The bonus classes become the three
  constructors of `Boards.BonusKind`. Their display names (`getName`) are not
  modelled.
- **Stale tile header.** `include/Tile/Tile.hpp` does not match
  `src/Tile/Tile.cpp`. The model follows the `.cpp` file.
- **The seed input loop.** The loop that splits the typed coordinate into
  letters and digits and calls `std::stoi` is not modelled. Only the checks
  and the write that follow it (`src/Game/Game.cpp:190-204`) are.

## Findings

| source | as written | input that shows it | evidently intended | confidence | as-written member | corrected member |
|---|---|---|---|---|---|---|
| src/Game/Game.cpp:572 | The winner, like every printed result (line 566), is looked up as `players[playerId - 1]`. This assumes seat i holds id i + 1, but the seating order is shuffled at lines 131-132 after the ids are given out. | Two players with ids 1 and 2, shuffled to seats [2, 1], where player 1 wins. Seat 0 holds player 2, so the wrong name is printed. | Find the seat whose player carries the winning id. | not executed | GameScoring.SeatAsWrittenMisses | GameScoring.WinnerSeat |
