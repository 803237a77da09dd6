# Denshi Mahjong rule engine, modelled in Dafny

This project models the rule engine of Denshi Mahjong. It covers two generations of that engine.

- The current engine (`MahjongLib`) has these parts:
  - the `Wall`: its 136 tiles, the Fisher-Yates shuffle, the kan, dora and live zones, draws, kan draws and dora reveals;
  - the `Player`: starting hand, drawn tile, discards, calls, and the call queries `CountOf`, `CanPon`, `CanKan`, `CanShouminkan`, `CanChii`, `ValidCalls` and `Sorted`;
  - the `Game`: `Setup`, the seat-wind assignment, `NextWind` and `PreviousWind`, `Start`, and the cascade of state changes driven by the `FSM`.
- The legacy engine (`Mahjong`, with `Utils/FSM.cs`) has the same shape:
  - a constructor in place of `Setup`;
  - a bare `Queue.Dequeue` for draws;
  - dora reveals with no bound;
  - a call window that never waits;
  - a `RotateWinds` operation.

## How the model is built

- **Pure logic becomes functions and lemmas.** This covers tiles (`Tiles`), hand queries (`Hands`) and seat logic (`Seats`).
- **Objects whose fields change become classes.** These are `Walls.Wall`, `LegacyWalls.Wall`, `Players.Player`, `LegacyPlayers.Player`, `StateMachine.Fsm`, `Games.Game` and `LegacyGames.Game`.
  - Each mutating method is proved equal to a pure step function of the old state. For example, `Walls.Wall.DrawKan` matches `Walls.DrawKanStep`.
  - The properties are then proved about those step functions.
- **One module holds both generations' state cascade.** In the source, every `FSM.Set` runs the game's `OnStateChanged` handler before it returns, and the handler sets further states. So a single public call (`Start`, a discard) runs a whole chain of transitions.
  - `Cascade` writes that chain as mutually recursive functions over a `Table`. A `Table` is a snapshot of the wall zones, hands, pending tiles, seat winds, current turn, last discard and state history.
  - Every `Game` method that runs the state cascade, in both generations, ensures `(r, View()) == Cascade.X(old(View()), …)`.
  - What the chain does is proved once, about `Cascade`.
- **Exceptions are modelled explicitly.** They become `Result`/`Outcome` failures carrying an `Errors.Error`. A failure ends the chain where it is raised, and changes made before it are kept, as in C#.
- **Nondeterminism and the clock become parameters.**
  - The shuffle's random choices are a parameter `choose`, with `choose[i] <= i`, the range of `Random.Next(0, index + 1)`.
  - The clock reading is a parameter `now`.
- **Tiles are values.** `PrepareTiles` repeats one `Tile` object four times, so the reference equality used by `CountOf` and `List.Remove` agrees with value equality on the tiles of one wall.
- **C# `%` is written out.** The legacy start wind `((int) wind + turn - 1) % 4` uses C#'s `%`, which truncates toward zero; Dafny's `%` is Euclidean. `LegacyGames.CsRem4` gives the C# remainder.

## Where the documented intent and the code differ

In each case below the model follows the code.

- `CanChii` offers the run below the tile (v-2, v-1) only for 8 and 9, because of an `else if`. So with 3 and 4 held, a discarded 5 cannot be called. See `Hands.ChiiVersusRuns` and `Hands.ChiiLowerRunMissed`.
- The current engine's call window asks every player, the discarder included, passing `CurrentTurn` as the source of the discard.
- `Player.DrawTile` overwrites a tile that is still pending.
- The legacy seat assignment starts at `(wind + turn - 1) mod 4`, which need not be a wind in play. With two players and a start of West or North, or three players and a start of North, the last wind in play has no seat. See `Seats.LegacySeating` and `LegacyGames.ConstructedSeating`.

## Model

| member | source | states |
|---|---|---|
| Tiles.CompareTo | Mahjong/Tile.cs:44-62 | zero exactly on equal tiles; negative exactly when the first tile comes first in the order (kind, then value); across kinds, the difference of the kinds' enum values |
| Tiles.CompareToAntisymmetric | Mahjong/Tile.cs:44-62 | swapping the operands negates the comparison |
| Tiles.AtMostTotalOrder | Mahjong/Tile.cs:44-62 | "compares at most zero" is reflexive, total, antisymmetric and transitive, so sorting by CompareTo is well defined |
| Tiles.KindOrderFirst | Mahjong/Tile.cs:7-14 | Character < Bamboo < Circle < Wind < Dragon, whatever the values |
| Tiles.SimpleTiles | Mahjong/Tile.cs:64-65 | a valid tile is neither honor nor terminal exactly when it is a suited 2..8 |
| Tiles.Next | Mahjong/Tile.cs:67-93 | the dora successor keeps the kind and maps valid tiles to valid tiles |
| Tiles.NextAdvances | Mahjong/Tile.cs:67-93 | Next adds one to the value modulo the kind's period (9 for suits, 4 for winds, 3 for dragons), counted from the kind's first value |
| Tiles.NextSuit | Mahjong/Tile.cs:67-93 | on a suit, 1..8 step up by one and 9 wraps to 1 |
| Tiles.NextHonor | Mahjong/Tile.cs:67-109 | winds go East→South→West→North→East and dragons White→Green→Red→White |
| Tiles.NextWraps | Mahjong/Tile.cs:67-93 | one step of Next is value + 1, except that the last value of the kind goes to its first |
| Tiles.NextNCycle | Mahjong/Tile.cs:67-93 | up to one period, n steps of Next add n to the value, wrapping once |
| Tiles.NextCyclic | Mahjong/Tile.cs:67-93 | Next has exact period 9, 4 or 3: that many steps return the tile and no fewer do |
| Tiles.TileString | Mahjong/Tile.cs:25-42 | the result is "UNK" exactly when the kind's code is outside the enum |
| Tiles.ToString | Mahjong/Tile.cs:25-42 | never "UNK" for a real kind; a valid suited tile prints as B, C or P, a slash and its digit, a wind or a dragon as W or D, a slash and the initial of its enum name |
| Tiles.ToStringInjective | Mahjong/Tile.cs:25-42 | two valid tiles print alike exactly when they are equal |
| Tiles.ToStringExamples | Mahjong/Tile.cs:25-42 | B/5, C/1, P/9, W/N and D/G for the matching tiles, and UNK for an undefined kind |
| Hands.IsOpen | MahjongLib/Player.cs:47 | a hand is open exactly when some call is not a concealed kan (Call.IsOpen, line 24) |
| Hands.CountOf | MahjongLib/Player.cs:128-131 | the count is the tile's multiplicity in the hand |
| Hands.CountQueries | MahjongLib/Player.cs:138-153 | CanPon means at least two copies and CanKan at least three; CanKan implies CanPon; neither holds for a tile not in hand |
| Hands.CanShouminkan | MahjongLib/Player.cs:160-164 | true exactly when some earlier call is a Pon on that tile |
| Hands.CanChii | MahjongLib/Player.cs:171-199 | nothing for honors; otherwise true exactly for the middle run (non-terminals), the run above (v < 8) or the run below (v >= 8) with both partner tiles of the same kind held |
| Hands.ChiiVersusRuns | MahjongLib/Player.cs:171-199 | every Chii CanChii allows completes a real run; the runs it misses are exactly the lower run of a 3..7 when the value above is not held |
| Hands.ChiiLowerRunMissed | MahjongLib/Player.cs:188-195 | holding C3 and C4, a discarded C5 completes a run but CanChii refuses it |
| Hands.ValidCalls | MahjongLib/Player.cs:207-230 | Daiminkan offered exactly on three copies; Pon exactly on two or three; Chii exactly when the source is the previous wind and CanChii holds |
| Hands.ValidCallsOrder | MahjongLib/Player.cs:207-230 | no call is offered twice, no Ankan or Chakan, Daiminkan comes right before Pon, and Chii comes last |
| Hands.ValidCallsExactCount | MahjongLib/Player.cs:213-221 | Pon is offered exactly when CanPon holds and fewer than four copies are held; with four copies neither Pon nor Daiminkan is offered |
| Hands.Sorted | MahjongLib/Player.cs:123-126 | the sorted hand is a permutation of the hand, ordered by CompareTo |
| Hands.SortedUnique | MahjongLib/Player.cs:123-126 | any two ordered permutations of a hand are equal, so sort stability cannot change the result |
| Hands.RemoveFirstCount | MahjongLib/Player.cs:99 | List.Remove of a held tile takes out exactly one copy |
| Hands.DiscardConservation | MahjongLib/Player.cs:96-107 | discarding a held tile conserves hand, pending tile and discards taken together; discarding a tile not in the hand adds one copy of it |
| Seats.PlayersForMode | MahjongLib/Game.cs:193-206 | fails with UnknownMode exactly outside the enum; otherwise two to four players |
| Seats.PlayersPerMode | MahjongLib/Game.cs:193-206 | Riichi seats 4, Sanma 3 and Minefield 2 |
| Seats.FirstWinds | MahjongLib/Game.cs:130-133 | the winds in play are the first n winds in enum order |
| Seats.FirstWindsDistinct | MahjongLib/Game.cs:130-133 | the winds in play have no repeats and start with East |
| Seats.SkipUntil | MahjongLib/Game.cs:178 | SkipWhile gives the suffix from the wind's first occurrence, or nothing |
| Seats.TakeUntil | MahjongLib/Game.cs:185 | TakeWhile gives the prefix before the wind's first occurrence, or everything |
| Seats.NextWindAt | MahjongLib/Game.cs:176-179 | the wind after the given one's first occurrence; East when it is the last or absent |
| Seats.PreviousWindAt | MahjongLib/Game.cs:181-191 | the wind before the given one's first occurrence; the last wind when it is the first or absent |
| Seats.NextWindCycle | MahjongLib/Game.cs:176-179 | on the winds in play NextWind is the cyclic successor |
| Seats.PreviousWindCycle | MahjongLib/Game.cs:181-191 | on distinct winds PreviousWind is the cyclic predecessor |
| Seats.NextPreviousInverse | MahjongLib/Game.cs:176-191 | NextWind and PreviousWind undo each other on the winds in play |
| Seats.NextWindStaysIn | MahjongLib/Game.cs:176-179 | NextWind never leaves the winds in play |
| Seats.Rotation | MahjongLib/Game.cs:142-147 | the first seat holds the start, and there are as many entries as seats |
| Seats.RotationStep | MahjongLib/Game.cs:143-147 | each later seat holds NextWind of its predecessor's wind |
| Seats.RotationAt | MahjongLib/Game.cs:142-147 | starting from the st-th wind in play, seat i holds wind st + i computed cyclically |
| Seats.RotationSeating | MahjongLib/Game.cs:142-147 | a rotation starting at a wind in play gives every wind in play to exactly one seat |
| Seats.FirstSeatOffset | MahjongLib/Game.cs:142 | for a valid turn, Setup's first seat wind is wind number SeatOffset(n, turn) of those in play |
| Seats.SeatWindsDealt | MahjongLib/Game.cs:142-147 | the seat winds are the winds in play rotated left by that offset |
| Seats.SetupSeating | MahjongLib/Game.cs:142-147 | for every mode and valid turn the dealer (East) sits at index turn - 1 and the winds in play are dealt once each |
| Seats.SeatingCovers | MahjongLib/Game.cs:36 | when every wind in play is held once, each wind in play has a seat, so ActivePlayer is found |
| Seats.LegacySeating | Mahjong/Game.cs:61-67 | the legacy rotation seats the winds in play once each exactly when its start is in play; otherwise the seats are the start followed by the first n - 1 winds in play, and the last wind in play is unheld |
| Seats.Rotated | Mahjong/Game.cs:134-138 | every seat gets NextWind of its old wind |
| Seats.RotatedSeating | Mahjong/Game.cs:134-138 | rotating a seating of the winds in play gives a seating again |
| Walls.PrepareTilesCounts | MahjongLib/Wall.cs:109-126 | the full set has four copies of each valid tile and nothing else |
| Walls.IdentitiesAreTheValidTiles | MahjongLib/Wall.cs:111-123 | the 34 listed tiles are exactly the valid tiles |
| Walls.IdentitiesDistinct | MahjongLib/Wall.cs:111-123 | no valid tile is listed twice |
| Walls.ShuffledPermutes | MahjongLib/Wall.cs:134-150 | whatever indices the random source picks, the shuffle is a permutation |
| Walls.ShuffleTiles | MahjongLib/Wall.cs:134-150 | the in-place loop on the array computes the shuffle function, swap by swap from the last index down to 1 |
| Walls.ShuffledSet | MahjongLib/Wall.cs:85 | the shuffled full set has 136 tiles, the same multiset as the prepared set |
| Walls.Dequeue | MahjongLib/Wall.cs:27-37 | a draw succeeds exactly when the live wall is non-empty, returns its head and moves exactly that tile out |
| Walls.DrawNTakesPrefix | MahjongLib/Player.cs:63 | n draws take the first n live tiles in order; with fewer left they empty the live wall and fail |
| Walls.DrawKanStep | MahjongLib/Wall.cs:64-80 | a kan draw succeeds exactly when CanKan holds; it takes the head of the kan wall, drops the last live tile, and moves exactly those two tiles out |
| Walls.RevealDoraStep | MahjongLib/Wall.cs:46-56 | a reveal succeeds exactly when CanRevealDora holds, and the notified tile is the newly revealed last dora |
| Walls.DealLayout | MahjongLib/Wall.cs:82-100 | a deal lays 136 tiles out as kan 4, dora 10 and live 122, in order and holding all of them, with no dora revealed |
| Walls.NewGameLayout | MahjongLib/Wall.cs:82-126 | after NewGame the wall holds four of each valid tile across kan 4, dora 10 and live 122 |
| Walls.KanDraws | MahjongLib/Wall.cs:64-80 | successive kan draws each take one kan tile and one live tile; they succeed while the kan wall lasts |
| Walls.FourKans | MahjongLib/Wall.cs:64-100 | after a new game exactly four kan draws succeed, taking the first four shuffled tiles, and the fifth fails |
| Walls.RevealsAdvance | MahjongLib/Wall.cs:46-56 | within the bound, each reveal only raises the count |
| Walls.IndicatorsAt | MahjongLib/Wall.cs:23-25 | while the count is within half the dora wall, Doras and UraDoras are equally long prefixes of the two halves |
| Walls.Reveals | MahjongLib/Wall.cs:23-56 | k reveals within the bound reveal the first k indicators of each half, and the next one succeeds exactly while the bound is not reached |
| Walls.FiveReveals | MahjongLib/Wall.cs:23-100 | after a new game exactly five reveals succeed and the sixth fails; Doras and UraDoras are shuffled tiles 4.. and 9.. |
| Walls.Wall.constructor | MahjongLib/Wall.cs:41-44 | a new wall holds no tiles |
| Walls.Wall.DrawTile | MahjongLib/Wall.cs:27-37 | the method computes the draw step, raising LiveWallExhausted on an empty live wall |
| Walls.Wall.RevealDora | MahjongLib/Wall.cs:46-56 | the method computes the reveal step |
| Walls.Wall.DrawKan | MahjongLib/Wall.cs:64-80 | the method computes the kan step |
| Walls.Wall.NewGame | MahjongLib/Wall.cs:82-100 | the zones become the deal of the shuffled full set |
| LegacyWalls.KanStep | Mahjong/Wall.cs:35-51 | the same as the current kan draw, but a refused one raises CannotDrawKan |
| LegacyWalls.RevealStep | Mahjong/Wall.cs:28-33 | the count always rises; the notified tile is the last revealed indicator; it fails only on an empty dora wall |
| LegacyWalls.RevealsCount | Mahjong/Wall.cs:28-33 | k reveals raise the count by k and change nothing else |
| LegacyWalls.UnboundedReveals | Mahjong/Wall.cs:23-33 | after a new game every reveal succeeds; Doras caps at 10 and UraDoras at 5, so they stop matching in length after five reveals |
| LegacyWalls.Wall.constructor | Mahjong/Wall.cs:13-20 | a wall before NewGame holds no tiles |
| LegacyWalls.Wall.DrawTile | Mahjong/Wall.cs:26 | Dequeue, raising InvalidOperation on an empty live wall |
| LegacyWalls.Wall.RevealDora | Mahjong/Wall.cs:28-33 | the method computes the legacy reveal step |
| LegacyWalls.Wall.DrawKan | Mahjong/Wall.cs:35-51 | the method computes the legacy kan step |
| LegacyWalls.Wall.NewGame | Mahjong/Wall.cs:53-71 | the same deal of a shuffled full set as the current wall |
| StateMachine.Recorded | MahjongLib/Utils/FSM.cs:29-38 | setting the current state records nothing; any other state is appended with its time; the history never repeats a state twice in a row |
| StateMachine.Fsm.constructor | MahjongLib/Utils/FSM.cs:21-27 | the history starts with the initial state and its time |
| StateMachine.Fsm.Set | MahjongLib/Utils/FSM.cs:29-38 | after Set the state is current and recorded once; the handler is notified exactly when the state changed |
| Players.DrawTiles | MahjongLib/Player.cs:63 | the draw loop computes n successive draws, stopping at the first failure |
| Players.Player.constructor | MahjongLib/Player.cs:52-56 | a player starts on the wall at its index with no tiles, calls, pending tile or discards |
| Players.Player.DrawStartingHand | MahjongLib/Player.cs:61-65 | the hand becomes the first 13 live tiles; with fewer left the live wall is emptied, LiveWallExhausted is raised and the hand is kept |
| Players.Player.DrawTile | MahjongLib/Player.cs:70-74 | the head of the live wall becomes the pending tile, replacing any pending one; on failure the pending tile is kept |
| Players.Player.MakeCall | MahjongLib/Player.cs:83-89 | exactly one call is appended, and the hand is untouched |
| Players.Player.DiscardForTurn | MahjongLib/Player.cs:96-107 | the tile is appended to the discards and leaves the hand once; a pending tile joins the hand |
| Players.Player.DiscardDrawnTile | MahjongLib/Player.cs:112-118 | the pending tile moves to the discards and the hand is untouched |
| LegacyPlayers.DrawTiles | Mahjong/Player.cs:50 | the draw loop computes n successive legacy draws |
| LegacyPlayers.Player.constructor | Mahjong/Player.cs:42-46 | a player starts with the wall and wind given, no tiles and a null calls list |
| LegacyPlayers.Player.IsOpen | Mahjong/Player.cs:40 | with the calls list null it raises NullReference; otherwise true exactly when some call is not a concealed kan |
| LegacyPlayers.Player.DrawStartingHand | Mahjong/Player.cs:48-51 | the hand becomes the first 13 live tiles; with fewer it raises InvalidOperation and keeps the hand |
| LegacyPlayers.Player.DrawTile | Mahjong/Player.cs:53-56 | the legacy draw step's tile becomes the pending tile |
| LegacyPlayers.Player.MakeCall | Mahjong/Player.cs:58-61 | with the calls list null it raises NullReference and records nothing; otherwise exactly one call is appended |
| LegacyPlayers.Player.DiscardForTurn | Mahjong/Player.cs:63-71 | the tile leaves the hand once and a pending tile joins it; no discard is recorded |
| Cascade.ActiveIndex | MahjongLib/Game.cs:36 | no seat is found exactly when no seat holds the wind; otherwise the seat found holds it |
| Cascade.ActiveUnique | MahjongLib/Game.cs:36 | in a seating each wind in play is held by exactly one seat |
| Cascade.DrawHandIsDrawN | MahjongLib/Player.cs:61-65 | the closed form of a starting hand equals thirteen single draws |
| Cascade.DealFromDeals | MahjongLib/Game.cs:163 | with enough tiles, dealing gives seat j the j-th block of thirteen live tiles, in draw order |
| Cascade.DealFromExhausts | MahjongLib/Game.cs:163 | without enough tiles, the seats that can be served get their blocks, the deal stops with the draw error, and the rest keep their hands |
| Cascade.StartPlayerTurnOutcome | MahjongLib/Game.cs:170-174 | the turn's seat draws the live head and WaitingForDiscard is recorded; no such seat raises NullReference and an empty wall raises the draw error |
| Cascade.SetupBoardDeals | MahjongLib/Game.cs:160-168 | with a tile to spare, every seat's hand is dealt, East has the turn and PlayerTurnBegin is recorded |
| Cascade.SetupBoardExhausts | MahjongLib/Game.cs:160-168 | when the live wall cannot fill every hand, the deal fails and no turn begins |
| Cascade.FreshZones | MahjongLib/Wall.cs:82-100 | a new game's zones hold ten dora indicators and 122 live tiles, with none revealed |
| Cascade.FirstReveal | MahjongLib/Game.cs:155-156 | the first reveal on a new wall succeeds in both generations and shows the first indicator |
| Cascade.StartReachesDiscard | MahjongLib/Game.cs:153-158 | Start deals every hand, reveals one dora, gives East the turn and its draw, leaves 122 - 13n - 1 live tiles, and records GameStart, PlayerTurnBegin and WaitingForDiscard |
| Cascade.DiscardCascade | MahjongLib/Game.cs:52-102 | a discard records WaitingForCall; it stops there when some seat can call, otherwise the next wind's turn starts; the legacy engine never waits |
| Cascade.DiscardDuringCallWindow | MahjongLib/Game.cs:52-57 | a discard during the call window changes only the remembered tile |
| Games.NewPlayers | MahjongLib/Game.cs:135 | n fresh players on the wall at indexes 0..n-1, all empty-handed |
| Games.AssignWinds | MahjongLib/Game.cs:142-147 | the seat-wind loop gives the players the rotation from the start wind |
| Games.NewSeats | MahjongLib/Game.cs:135-147 | Setup's players hold the winds in play once each, with the dealer at index turn - 1 |
| Games.Game.constructor | MahjongLib/Game.cs:45-50 | a game owns a freshly allocated, empty wall and has no seats or state machine |
| Games.Game.ActivePlayer | MahjongLib/Game.cs:36 | null exactly when no seat holds the current turn's wind; otherwise the first seat holding it |
| Games.Game.Setup | MahjongLib/Game.cs:112-151 | the checks run in the source's order (turn < 1, unknown mode, turn too large, negative repeat), and a failed check changes nothing; on success the game is seated for the mode and turn, in WaitingToStart |
| Games.Game.InstallSeats | MahjongLib/Game.cs:129-150 | the winds in play, the seated players and the state machine that Setup creates |
| Games.Game.SetState | MahjongLib/Utils/FSM.cs:29-38 | FSM.Set with its handler computes the cascade's state change, keeping the seating valid |
| Games.Game.OnStateChanged | MahjongLib/Game.cs:59-96 | the handler computes the cascade's handler for every state |
| Games.Game.CallsWaiting | MahjongLib/Game.cs:73-88 | true exactly when some player's ValidCalls on the last discard is non-empty |
| Games.Game.DealTo | MahjongLib/Game.cs:163 | one seat's starting-hand draw, as on the table |
| Games.Game.DealHands | MahjongLib/Game.cs:163 | the ForEach deal computes the cascade's deal |
| Games.Game.SetupBoard | MahjongLib/Game.cs:160-168 | the method computes the cascade's SetupBoard |
| Games.Game.DrawFor | MahjongLib/Game.cs:172 | one seat's draw, as on the table |
| Games.Game.StartPlayerTurn | MahjongLib/Game.cs:170-174 | the method computes the cascade's StartPlayerTurn, including the null player |
| Games.Game.NextTurn | MahjongLib/Game.cs:98-102 | the method computes the cascade's NextTurn |
| Games.Game.Start | MahjongLib/Game.cs:153-158 | the method computes the cascade's Start |
| Games.Game.DiscardFromHand | MahjongLib/Player.cs:96-107 | the table changes only in that seat's hand and pending tile and in the remembered discard; the tile is appended to that player's discards and every other seat's discards are unchanged |
| Games.Game.DiscardForTurn | MahjongLib/Game.cs:52-57 | a discard from hand computes the cascade's discard, the tile is appended to that player's discards, and every other seat's discards are unchanged |
| Games.Game.DiscardPending | MahjongLib/Player.cs:112-118 | the pending tile is discarded and remembered, or NullReference is raised and neither the table nor that seat's discards change; every other seat's discards are unchanged |
| Games.Game.DiscardDrawnTile | MahjongLib/Game.cs:52-57 | a discard of the drawn tile computes the cascade's discard; the tile is appended to that player's discards, a refusal leaves them as they were, and every other seat's discards are unchanged |
| LegacyGames.CsRem4 | Mahjong/Game.cs:62 | C#'s remainder on division by 4 takes the sign of the dividend and differs from it by a multiple of 4 |
| LegacyGames.CsRem4Negative | Mahjong/Game.cs:62 | the remainder is negative exactly for a negative non-multiple of 4; otherwise it is the Euclidean remainder |
| LegacyGames.StartWind | Mahjong/Game.cs:61-62 | the start wind is defined exactly when the remainder is non-negative, and then its value is the remainder |
| LegacyGames.StartWindFirstTurn | Mahjong/Game.cs:61-62 | turn 1 starts at the prevalent wind |
| LegacyGames.StartWindTurns | Mahjong/Game.cs:61-62 | from turn 1 on, each turn starts the rotation one wind later, cyclically |
| LegacyGames.NewPlayers | Mahjong/Game.cs:54 | n distinct fresh players on the wall; player j starts with the j-th wind |
| LegacyGames.AssignWinds | Mahjong/Game.cs:63-67 | the seat-wind loop gives the rotation from the start wind |
| LegacyGames.NewSeats | Mahjong/Game.cs:54-67 | the constructor's players, seated by the rotation from the start wind |
| LegacyGames.Game.constructor | Mahjong/Game.cs:41-71 | the mode's winds in play and one player per wind on an empty wall, seated from StartWind; the state machine is in WaitingToStart |
| LegacyGames.Game.ActivePlayer | Mahjong/Game.cs:36 | null exactly when no seat holds the current turn's wind |
| LegacyGames.Game.SetState | Utils/FSM.cs:26-36 | FSM.Set with its handler computes the legacy cascade's state change |
| LegacyGames.Game.OnStateChanged | Mahjong/Game.cs:79-113 | the handler computes the legacy cascade's handler |
| LegacyGames.Game.CheckValidCalls | Mahjong/Game.cs:115-119 | the legacy call window never waits |
| LegacyGames.Game.DealTo | Mahjong/Game.cs:143 | one seat's legacy starting-hand draw, as on the table |
| LegacyGames.Game.DealHands | Mahjong/Game.cs:143 | the ForEach deal computes the legacy cascade's deal |
| LegacyGames.Game.SetupBoard | Mahjong/Game.cs:140-148 | the method computes the legacy cascade's SetupBoard |
| LegacyGames.Game.DrawFor | Mahjong/Game.cs:152 | one seat's legacy draw, as on the table |
| LegacyGames.Game.StartPlayerTurn | Mahjong/Game.cs:150-154 | the method computes the legacy cascade's StartPlayerTurn, including the null player |
| LegacyGames.Game.NextTurn | Mahjong/Game.cs:121-125 | the method computes the legacy cascade's NextTurn |
| LegacyGames.Game.Start | Mahjong/Game.cs:127-132 | the method computes the legacy cascade's Start, with the unbounded reveal |
| LegacyGames.Game.RotateWinds | Mahjong/Game.cs:134-138 | every seat's wind advances to the next wind in play, and nothing else changes |
| LegacyGames.Game.DiscardFromHand | Mahjong/Player.cs:63-71 | the table changes only in that seat's hand and pending tile |
| LegacyGames.Game.DiscardForTurn | Mahjong/Game.cs:73-77 | a discard computes the legacy cascade's discard, which always passes the turn on |
| LegacyGames.ConstructedSeating | Mahjong/Game.cs:49-67 | a constructed legacy game seats the winds in play once each exactly when StartWind is in play; otherwise the last wind in play has no seat |
| LegacyGames.RiichiSeating | Mahjong/Game.cs:61-67 | the four-player legacy game always seats each wind once |

## Left out

- I/O is not modelled: `Logger`, `GameLog` and the log lines they write.
- Only two events are modelled: the discard event and `FSM.OnStateChanged`.
  - `OnNewHand`, `OnTileDrawn` and `OnCallMade` have no observable effect on the engine's state.
  - The tile `OnDoraRevealed` carries is the return value of `RevealDora`.
- The clock (`ITimestamp`, Godot's tick counter) is the parameter `now`, read once per public call. The source reads it at each transition.
- The `ulong` timestamps are unbounded naturals.
- The random source is the parameter `choose`.
- 32-bit `int` overflow is not modelled. It affects `turn + wind`, `CompareTo`'s value difference and the legacy reveal count.
- `CompareTo`'s `ArgumentException` for an argument that is not a `Tile` cannot arise for typed tiles.
- `MahjongLib/Tile.cs` is not part of this model. The current engine's tiles follow `Mahjong/Tile.cs`.
- The legacy files do not build as written: `Tile.WindDirection`, `new Player(Wall, index)` and an `OnTileDiscarded` event the legacy Player does not declare. The model gives each player the wind with the index's value and calls the discard handler directly.
- The legacy Player has no `DiscardDrawnTile`, and the model gives it none.
- `PlayerWon` and `ExhaustiveDraw` only do nothing, as in the source.
- `MakeCall` removes no tiles from the hand, as in the source.
- The `Actors`, `GameState.cs` and test files are outside the engine and are not part of this model.
- Games.Game: every method other than the constructor and Setup requires Setup to have run (`Valid()`). Before Setup, `Players` and `State` are null, and any use raises a null dereference.
- Walls.Wall.constructor: the lists start empty where the source leaves them null until NewGame.
- LegacyWalls.Wall.constructor: the lists start empty where the source leaves them null until NewGame.
- Players.Player.constructor: the hand starts empty where the source leaves it null until the first deal.
- LegacyPlayers.Player.constructor: the hand starts empty where the source leaves it null until the first deal.
- Players.Player.DiscardDrawnTile: with nothing pending the call is refused with NullReference and nothing changes. The source would append a null discard, record WaitingForCall and then fail on the null tile in the call window.
- Games.Game.DiscardDrawnTile: with nothing pending, the same refusal as above.
- Games.Game.CallsWaiting: with no remembered discard the answer is false. The source would dereference null, but the call window only opens after a discard.
- LegacyGames.Game.constructor: requires `StartWind` to be defined. For a turn below 1 (for example turn 0 with East) the C# remainder can be negative, which names no wind; that seating is not modelled.
- LegacyGames.Game.constructor: the mode is the enum itself, so no undefined mode value reaches `PlayersForMode` there.
