# Pocket Imperium rules engine, in Dafny

A model of the rules engine of Pocket Imperium, a three-player strategy game
played on a hex map, with proofs of the rules it keeps. The Java sources it
follows live under `src/main/java/model/`.

- **Ships** (`ships.dfy`). Each ship has a fixed owner and three flags:
  deployed, moved and invaded. All ships of the game sit in one table, and
  a ship is named by its position in that table.
- **Hexes** (`hexes.dfy`). A hex holds an ordered list of ships. Its
  controller is the owner of the first ship added to it while it was
  empty, and the hex loses its controller when its last ship leaves. At
  the end of a round the oldest ships beyond level + 1 are removed.
- **Board** (`grid.dfy`, `layout.dfy`, `board.dfy`, `world.dfy`).
  - The grid has 9 columns: even columns hold 6 cells and odd columns hold 5.
  - Neighbours depend on the parity of the column.
  - Four central cells merge into the level-3 Tri-Prime.
  - Eight three-system sector cards are placed using a top/bottom draw,
    a side draw and mirror transforms.
  - The shuffles are parameters.
  - `world.dfy` states what makes the board and the ship table agree:
    every deployed ship is on exactly one hex, and every hex is sound.
- **Sectors** (`sectors.dfy`). Scoring, either per round or at the end of
  the game (doubled), and the exploit score.
- **Players and the game record** (`players.dfy`, `game.dfy`).
  - Each player has a pool of 15 ships and a score.
  - Players join in colour order: Blue, then Green, then Red.
  - The game record tracks the rotating player order, the round counter
    and the phase the game is in.
- **The three commands**:
  - Expand (`expand.dfy`): quota-bounded deployment.
  - Explore (`explore.dfy`): fleet walks of up to two hexes, picking up and
    dropping off ships.
  - Exterminate (`exterminate.dfy`): invasions with simultaneous losses of
    `min(defenders, attackers)` on each side.
  - Their records are in `commanddata.dfy`.
- **The phase machine**:
  - Deploy (`deploy.dfy`), in snake order.
  - Plan (`plan.dfy`).
  - Perform (`perform.dfy`, `sorting.dfy`, `decisions.dfy`,
    `perform_invariant.dfy`): an efficiency table, and a per-phase order
    sorted stably by command.
  - End of round (`end_round.dfy`).
  - End of game (`end_game.dfy`).

How the model differs from the Java code:

- **Decisions are inputs.** The Java code goes through strategies that call
  back into the engine. In the model, each decision a player makes is an
  explicit input to a step function, and each step returns the new game
  together with the question the engine asks next.
- **Failures are values.** Failures of the Java code (a null reference, an
  index out of bounds, an illegal argument) become `Err` values.
- **What is proved.** The central invariant is `PerformInvariant.Sane`:
  board layout, ship placement, roster, and a well-formed command under way.
  The proofs show that every decision of the perform phase keeps it.

## Model

| member | source | states |
|---|---|---|
| Ships.NewShip | src/main/java/model/ship/Ship.java:46-51 | a new ship belongs to its builder and is in the reserve, not moved, not invaded |
| Ships.SetDeployed | src/main/java/model/ship/Ship.java:73-75 | the deployed flag takes the value given; owner and the other flags are kept |
| Ships.SetHasMoved | src/main/java/model/ship/Ship.java:97-99 | the moved flag takes the value given; owner and the other flags are kept |
| Ships.SetHasInvaded | src/main/java/model/ship/Ship.java:105-107 | the invaded flag takes the value given; owner and the other flags are kept |
| Ships.ResetForNewTurn | src/main/java/model/ship/Ship.java:112-115 | the ship may move and invade again; owner and deployment are kept |
| Ships.ResetForNewTurnProperties | src/main/java/model/ship/Ship.java:97-115 | a reset is clearing both round flags with the setters; it is idempotent; a new ship is already reset |
| Ships.OwnerIsFixed | src/main/java/model/ship/Ship.java:46-115 | no setter and no reset changes a ship's owner |
| Ships.SetDeployedAll | src/main/java/model/ship/Ship.java:73-75 | exactly the listed ships get the deployed flag; every other entry of the table is unchanged |
| Ships.SetMovedAll | src/main/java/model/ship/Ship.java:97-99 | exactly the listed ships are marked as moved; every other entry is unchanged |
| Ships.SetInvadedAll | src/main/java/model/ship/Ship.java:105-107 | exactly the listed ships are marked as having invaded; every other entry is unchanged |
| Ships.SetDeployedAllSnoc | src/main/java/model/ship/Ship.java:73-75 | setting the flag on one more ship is one more table update |
| Ships.SetFlagsKeepOwners | src/main/java/model/ship/Ship.java:57-107 | setting any flag on any ships keeps every owner |
| Players.NewPlayer | src/main/java/model/players/Player.java:76-84 | a joining player has its name, colour and strategy, a score of 0 and no plan |
| Players.ColorIndex | src/main/java/model/Partie.java:257-259 | the colour handed out to the player who joins in position `i` is the `i`-th colour, and that position is below 3 |
| Players.Pool | src/main/java/model/players/Player.java:80-83 | a colour's ships are 15 consecutive ids, after the pools of the colours that joined before |
| Players.BuildPool | src/main/java/model/players/Player.java:80-83 | a joining player brings 15 new ships of its colour |
| Players.BuildPoolAppend | src/main/java/model/Partie.java:257-274 | appending the next colour's ships keeps the table in pool order, and the new ids are exactly that player's ships |
| Players.PoolIsOwnedShips | src/main/java/model/players/Player.java:166-168 | a colour's pool holds exactly the ships of the table it owns |
| Players.UnusedShips | src/main/java/model/players/Player.java:175-179 | the reserve holds exactly the pool's ships that are not deployed, at most 15 |
| Players.DeployFromReserve | src/main/java/model/players/Player.java:175-179 | deploying the first `n` reserve ships leaves exactly the rest of the reserve, in order; other colours' reserves are unchanged |
| Players.EliminatedIffNoneDeployed | src/main/java/model/players/Player.java:195-197 | a player is eliminated exactly when none of its 15 ships is deployed |
| Players.AddToScore | src/main/java/model/players/Player.java:147-150 | the score grows by the points given, and nothing else about the player changes |
| Players.AddToScoreOf | src/main/java/model/players/Player.java:147-150 | only the player of the given colour gains the points |
| Players.AddToScoreOfTotal | src/main/java/model/players/Player.java:147-150 | with distinct colours, the total of the scores grows by exactly the points given, or by nothing when the colour is absent |
| Players.ResetShipsForNewTurn | src/main/java/model/players/Player.java:184-188 | exactly the player's ships are reset; the others are unchanged |
| Players.CommandForPhase | src/main/java/model/players/Player.java:120-122 | no plan is a null reference, a phase outside the plan is out of bounds, and otherwise the result is one of the planned commands |
| Players.SetChosenCommands | src/main/java/model/players/Player.java:129-131 | the plan is recorded; name, colour, score and strategy are kept |
| Players.PlanReadBack | src/main/java/model/players/Player.java:120-131 | what was planned for a phase is what that phase reads back |
| Common.ColorAtInjective | src/main/java/model/Partie.java:257-259 | each colour is handed out for exactly one joining position |
| Common.RemoveAll | src/main/java/model/board/Hex.java:281 | `removeAll` keeps exactly the elements not listed, and never lengthens the list |
| Common.RemoveFirst | src/main/java/model/board/Hex.java:263 | `remove(Object)` takes out one occurrence of a present element, as a multiset difference, and leaves a list without it unchanged |
| Common.FirstIndex | src/main/java/model/board/Hex.java:263 | the position found is an occurrence of the element with none before it |
| Common.RemoveFirstAt | src/main/java/model/board/Hex.java:263 | `remove(Object)` cuts out exactly the first occurrence and keeps everything before and after it in order |
| Common.RemoveAllPrefix | src/main/java/model/board/Hex.java:277-286 | removing the first `k` ships of a list without repeats leaves exactly the rest, in order |
| Common.FilterComplementMultiset | src/main/java/model/board/Hex.java:302-317 | a stream filter and its negation share out the elements of the list |
| Hexes.NewHex | src/main/java/model/board/Hex.java:56-59 | a new hex is at its position, of level 0, empty, uncontrolled and without neighbours |
| Hexes.SetSystem | src/main/java/model/board/Hex.java:150-154 | the level is set; the hex is the Tri-Prime exactly when the level is 3 and a system exactly when it is positive; nothing else changes |
| Hexes.UnmovedShips | src/main/java/model/board/Hex.java:302-306 | exactly the hex's ships that have not moved |
| Hexes.UninvadedShips | src/main/java/model/board/Hex.java:313-317 | exactly the hex's ships that have not invaded |
| Hexes.AddShip | src/main/java/model/board/Hex.java:230-236 | the ship goes at the end of the list; an unoccupied hex is taken by its owner, an occupied one keeps its controller |
| Hexes.AddShips | src/main/java/model/board/Hex.java:245-254 | the ships go at the end; an empty batch changes nothing; an unoccupied hex is taken by the owner of the first ship |
| Hexes.RemoveShip | src/main/java/model/board/Hex.java:262-268 | the first occurrence of the ship leaves; a hex left empty has no controller, otherwise the controller stays |
| Hexes.RemoveShips | src/main/java/model/board/Hex.java:277-286 | every listed ship leaves; an empty batch changes nothing; a hex left empty has no controller |
| Hexes.AddShipsOneByOne | src/main/java/model/board/Hex.java:230-254 | adding a batch is the same as adding its ships one at a time |
| Hexes.AddThenRemove | src/main/java/model/board/Hex.java:230-268 | removing a ship just added gives the hex back |
| Hexes.AddShipsSound | src/main/java/model/board/Hex.java:245-254 | arrivals onto a free hex, or one already held by their owner, keep the hex sound: controlled exactly when occupied, only the controller's ships, none twice |
| Hexes.RemoveShipsSound | src/main/java/model/board/Hex.java:277-286 | departures keep the hex sound |
| Hexes.RemoveUnsustainableShips | src/main/java/model/board/Hex.java:205-221 | the longest-present ships beyond `level + 1` go back to the reserve, the rest stay in order, and the controller is kept |
| Hexes.RemoveUnsustainableShipsSound | src/main/java/model/board/Hex.java:205-221 | trimming a sound hex leaves it sound under the new table |
| Hexes.NeighborDirection | src/main/java/model/board/Hex.java:390-437 | the direction found leads from the first hex to the second; -1 exactly when no direction does |
| Hexes.NeighborsDistinct | src/main/java/model/board/Hex.java:408-426 | the six offsets reach six different hexes, none of them the hex itself |
| Hexes.NeighborOpposite | src/main/java/model/board/Hex.java:408-426 | stepping in a direction and then in the opposite one comes back, whatever the columns' parity |
| Sectors.NewSector | src/main/java/model/board/Sector.java:44-46 | a new sector has its id, no systems, and is neither scored nor central |
| Sectors.AddSystemHex | src/main/java/model/board/Sector.java:53-55 | the system is appended; nothing else changes |
| Sectors.SetIsCentralSector | src/main/java/model/board/Sector.java:80-82 | the central flag takes the value given; nothing else changes |
| Sectors.SetScored | src/main/java/model/board/Sector.java:129-132 | the sector is marked scored; nothing else changes |
| Sectors.ResetScored | src/main/java/model/board/Sector.java:137-140 | the sector is no longer scored; nothing else changes |
| Sectors.ScoreHexes | src/main/java/model/board/Sector.java:102-107 | every player gains the multiplier times the levels of the listed systems it controls, and nothing else changes about it |
| Sectors.ScoreHexesStep | src/main/java/model/board/Sector.java:102-107 | scoring the first system and then the rest adds up to scoring them all |
| Sectors.ScoreSector | src/main/java/model/board/Sector.java:105-115 | every player gains the multiplier (2 at the end of the game, 1 otherwise) times what `getScorePlayerExploit` gives it; only a scoring during the game marks the sector |
| Sectors.PointsPartition | src/main/java/model/board/Sector.java:157-165 | the three colours' points add up to the levels of all the occupied systems |
| Sectors.PointsWithoutControl | src/main/java/model/board/Sector.java:157-165 | a colour controlling none of the systems gets nothing |
| Sectors.UnoccupiedSectorScoresNothing | src/main/java/model/board/Sector.java:105-115 | scoring a sector with no occupied system changes no score |
| Sectors.EndOfGameDoubles | src/main/java/model/board/Sector.java:105-115 | the end-of-game scoring gives every player exactly twice what a scoring during the game gives |
| Grid.Offsets | src/main/java/model/board/Board.java:92-101 | each column parity has six neighbour offsets |
| Grid.GridNeighbors | src/main/java/model/board/Board.java:113-140 | a hex is linked only to offsets that fall inside the grid |
| Grid.OffsetsAreDirections | src/main/java/model/board/Board.java:92-101 | the offsets that build the grid reach the same six hexes as the directions `getNeighborDirection` knows |
| Grid.ShiftOpposite | src/main/java/model/board/Board.java:92-101 | every offset has an opposite one that leads back, whatever the parity of the column |
| Grid.GridNeighborsSymmetric | src/main/java/model/board/Board.java:113-140 | the grid's neighbour relation never links a hex to itself and always holds both ways |
| Grid.TriPrimeNeighbors | src/main/java/model/board/Board.java:144-184 | after the merge the Tri-Prime's neighbours are exactly the hexes around the four merged hexes |
| Grid.TouchingIsOuter | src/main/java/model/board/Board.java:157-173 | a live hex next to a merged hex is one of the hexes around the block |
| Grid.MergedNeighborsLive | src/main/java/model/board/Board.java:163-184 | after the merge no hex lists a removed hex or itself |
| Grid.MergedNeighborsSymmetric | src/main/java/model/board/Board.java:163-184 | adjacency stays symmetric after the merge |
| Grid.GridOrder | src/main/java/model/board/Board.java:104-111 | the walk of the grid's row arrays visits every live hex once, column by column |
| Grid.PositionsCover | src/main/java/model/board/Board.java:104-111 | every live position is visited |
| Grid.PositionsOrdered | src/main/java/model/board/Board.java:104-111 | the walk is in column-major order |
| Layout.TopBottomCard | src/main/java/model/board/Board.java:198-205 | each top/bottom card lists three systems |
| Layout.SideCard | src/main/java/model/board/Board.java:209-212 | each side card lists three systems |
| Layout.PlaceTopBottom | src/main/java/model/board/Board.java:229-240 | each offset of the card is turned over for the right column and moved down two rows per slot |
| Layout.PlaceSide | src/main/java/model/board/Board.java:269-282 | each offset of a side card is mirrored or not, then moved to the middle column |
| Layout.CardsUseTheirOffsets | src/main/java/model/board/Board.java:198-212 | every card offset lies in the three-column, two-row band a card covers |
| Layout.CardsDistinct | src/main/java/model/board/Board.java:198-212 | no card names the same offset twice |
| Layout.PlaceTopBottomCoordLive | src/main/java/model/board/Board.java:229-245 | a top/bottom system lands in its slot's band on a live hex other than the Tri-Prime |
| Layout.PlaceSideCoordLive | src/main/java/model/board/Board.java:269-287 | a side system lands in its sector's band on a live hex other than the Tri-Prime, mirrored or not |
| Layout.PlaceInjective | src/main/java/model/board/Board.java:229-282 | placing a card never merges two of its systems |
| Layout.SlotsDisjoint | src/main/java/model/board/Board.java:237-282 | two different slots' bands do not meet and none holds a merged hex |
| Boards.SlotOf | src/main/java/model/board/Board.java:216-266 | every card goes to an outer sector slot, never the central sector 4 |
| Boards.SystemsList | src/main/java/model/board/Board.java:150-296 | the systems are created Tri-Prime first, then three per card in card order |
| Boards.LevelsList | src/main/java/model/board/Board.java:149-287 | the Tri-Prime gets level 3 and every card gives levels 1, 1, 2 |
| Boards.SlotsOfDistinct | src/main/java/model/board/Board.java:216-266 | the eight cards go to eight different outer slots |
| Boards.PlacementInSlot | src/main/java/model/board/Board.java:225-298 | every placed system is a live hex in its card's band and not the Tri-Prime |
| Boards.SystemsListDistinct | src/main/java/model/board/Board.java:150-296 | no hex is made a system twice |
| Boards.InitialCells | src/main/java/model/board/Board.java:104-184 | the board holds exactly the live hexes, empty, of level 0, with their merged neighbours |
| Boards.ApplyLevels | src/main/java/model/board/Board.java:245 | `setSystem` changes only the level of the hexes listed |
| Boards.ApplyLevelsDistinct | src/main/java/model/board/Board.java:245 | with no hex listed twice, each listed hex ends with its own level |
| Boards.PutSectors | src/main/java/model/board/Board.java:253 | the sector map gains exactly the listed systems and keeps the rest |
| Boards.PutSectorsDistinct | src/main/java/model/board/Board.java:253 | with no system listed twice, each maps to its own sector |
| Boards.AssignSectors | src/main/java/model/board/Board.java:249-291 | each card's sector lands in its slot and the other slots are kept |
| Boards.AssignedSectors | src/main/java/model/board/Board.java:186-291 | cards fill the outer slots only; sector 4 is kept |
| Boards.CentralSector | src/main/java/model/board/Board.java:187-189 | sector 4 holds the Tri-Prime alone and is central |
| Boards.InitialSectors | src/main/java/model/board/Board.java:186-189 | nine sectors, the central one holding the Tri-Prime |
| Boards.Generate | src/main/java/model/board/Board.java:90-300 | the generated board's Tri-Prime and systems list are those of the draw, with nine sectors |
| Boards.GenerateShaped | src/main/java/model/board/Board.java:104-184 | every draw yields the live hexes with their merged neighbours, all empty |
| Boards.GeneratedLevels | src/main/java/model/board/Board.java:149-287 | each created system ends with the level it was created with |
| Boards.GenerateSystemsListed | src/main/java/model/board/Board.java:150-296 | the systems list names exactly the hexes that are systems |
| Boards.ApplyLevelsSystems | src/main/java/model/board/Board.java:245-287 | giving distinct level-0 hexes positive levels makes exactly those hexes systems |
| Boards.GeneratedSectorMap | src/main/java/model/board/Board.java:253-295 | the sector map sends each card system to its card's slot and does not know the Tri-Prime |
| Boards.GeneratedSectors | src/main/java/model/board/Board.java:186-291 | each slot holds the sector of the card drawn for it |
| Boards.GenerateTriPrime | src/main/java/model/board/Board.java:144-189 | the Tri-Prime is the level-3 system alone in the central sector and in no sector of the map |
| Boards.GenerateSectorsPlaced | src/main/java/model/board/Board.java:225-298 | every outer sector holds three different live hexes of levels 1, 1, 2 that the map sends back to it |
| Boards.GenerateSectorsDisjoint | src/main/java/model/board/Board.java:186-298 | no hex belongs to two sectors |
| Boards.GenerateSectorsIndexed | src/main/java/model/board/Board.java:249-295 | the sector map and the sectors' own lists agree |
| Boards.AsWrittenSideSectorFixed | src/main/java/model/board/Board.java:259-266 | as written the side order is never drawn: sector 3 always gets side card 0, whose level-2 system is never in column 4 |
| Boards.SideDrawReachesBothOrders | src/main/java/model/board/Board.java:259-266 | with the side order drawn, the swapped draw puts side card 1 in sector 3 with its level-2 system in column 4 |
| Boards.GetHex | src/main/java/model/board/Board.java:328-334 | a hex is found exactly at live positions, and it is the board's hex there |
| Boards.SectorContainingHex | src/main/java/model/board/Board.java:317-319 | the sector is found exactly for hexes the sector map knows; on a board whose map and sector lists agree, it is the one outer sector listing the hex |
| Boards.SystemsControlledBy | src/main/java/model/board/Board.java:357-361 | exactly the systems the player controls |
| Boards.SystemsNotControlledBy | src/main/java/model/board/Board.java:383-387 | exactly the systems the player does not control |
| Boards.SystemsPartition | src/main/java/model/board/Board.java:357-387 | the two lists together are the systems list, each system in one of them |
| Boards.HexesPlayerOn | src/main/java/model/board/Board.java:369-375 | exactly the hexes the player controls, each once |
| Boards.TrimHexes | src/main/java/model/board/Board.java:341-349 | each listed hex loses its excess ships from the front; exactly the ships in some listed hex's excess go back to the reserve, every other ship record and every unlisted hex is unchanged |
| Boards.TrimStep | src/main/java/model/board/Board.java:341-349 | trimming the first hex and then the rest trims them all |
| Boards.InExcessSkip | src/main/java/model/board/Board.java:341-349 | a listed coordinate that is off the board or listed again later selects no further ships |
| Boards.TrimmedReturns | src/main/java/model/board/Board.java:341-349 | every ship trimmed from a listed hex is back in the reserve |
| Boards.RemoveUnsustainableShips | src/main/java/model/board/Board.java:341-349 | afterwards every hex holds at most `level + 1` ships and lost exactly the oldest ones; the ships that left are back in the reserve and every other ship record is unchanged (a hex within capacity changes nothing) |
| World.RemoveUnsustainableShipsConsistent | src/main/java/model/board/Board.java:341-349 | trimming the whole board keeps the layout and the placement rule: hexes stay sound, the ships left stay deployed, the ships that left stand nowhere |
| World.TrimPlacement | src/main/java/model/board/Hex.java:205-221 | dropping every hex's excess and sending exactly those ships to the reserve keeps the placement rule |
| World.StaysNotInExcess | src/main/java/model/board/Hex.java:205-221 | a ship kept on its hex is in no hex's excess, since no ship stands twice |
| World.LayoutKept | src/main/java/model/board/Board.java:90-300 | a board that only changed ships and controllers keeps the generated shape and systems list |
| World.SameLayoutTrans | src/main/java/model/board/Hex.java:230-286 | boards that differ only in ships and controllers, twice over, still differ only in those |
| World.SameLayoutUpdate | src/main/java/model/board/Hex.java:230-286 | replacing a hex by one with the same position, level and neighbours keeps the layout |
| World.GenerateConsistent | src/main/java/model/board/Board.java:90-300 | a freshly generated board is consistent with any ship table |
| World.EmptyBoardPlacement | src/main/java/model/board/Hex.java:56-59 | a board with no ships satisfies the placement rule |
| World.SoundSameOwners | src/main/java/model/ship/Ship.java:73-115 | changing ship flags keeps a hex sound |
| World.TableChangePlacement | src/main/java/model/ship/Ship.java:73-115 | flag changes keep the placement rule while every ship on a hex stays deployed |
| World.TableGrowPlacement | src/main/java/model/Partie.java:249-275 | ships of a new player, all in the reserve, keep the placement rule |
| World.ReserveIsOffBoard | src/main/java/model/players/Player.java:175-179 | a ship of the reserve stands on no hex |
| World.OffBoardFlagsPlacement | src/main/java/model/ship/Ship.java:73-115 | flags of ships standing nowhere can change freely |
| World.LeaveHexPlacement | src/main/java/model/board/Hex.java:277-286 | ships leaving a hex keep the placement rule and stand nowhere afterwards |
| World.ReturnToReservePlacement | src/main/java/model/board/Hex.java:205-212 | ships taken off a hex and sent back to the reserve keep the placement rule |
| World.LandOnHexPlacement | src/main/java/model/board/Hex.java:245-254 | ships of one owner landing on a free hex or one of theirs keep the placement rule |
| World.MoveShipsPlacement | src/main/java/model/board/Hex.java:245-286 | ships of one owner moving together from one hex to another, free or theirs, keep the placement rule |
| World.DeployOntoHexPlacement | src/main/java/model/commands/Expand.java:93-112 | reserve ships deployed onto a free hex or one of their owner's keep the placement rule |
| World.NeighborsOnBoard | src/main/java/model/board/Board.java:163-184 | the neighbours a hex lists are hexes of the board |
| CommandData.NewExpandData | src/main/java/model/commands/commands_data/ExpandData.java:45-48 | a new Expand has its player and quota and nothing added |
| CommandData.AddShipsAdded | src/main/java/model/commands/commands_data/ExpandData.java:70-72 | the count of ships added grows by `n`; player and quota are kept |
| CommandData.NewExploreData | src/main/java/model/commands/commands_data/ExploreData.java:66-70 | a new Explore has its player and allowance, no movement made, no path, no fleet |
| CommandData.IncrementMovementsMade | src/main/java/model/commands/commands_data/ExploreData.java:77-79 | one more movement is counted and nothing else changes |
| CommandData.CurHex | src/main/java/model/commands/commands_data/ExploreData.java:119-124 | no current hex exactly when the path is empty, otherwise a hex of the path |
| CommandData.AddHexToPath | src/main/java/model/commands/commands_data/ExploreData.java:131-133 | the hex is appended to the path and nothing else changes |
| CommandData.NewMovementPath | src/main/java/model/commands/commands_data/ExploreData.java:140-143 | the path becomes the hex alone and nothing else changes |
| CommandData.ClearMovementPath | src/main/java/model/commands/commands_data/ExploreData.java:149-151 | the path is emptied and nothing else changes |
| CommandData.ClearFleet | src/main/java/model/commands/commands_data/ExploreData.java:156-158 | the fleet is emptied and nothing else changes |
| CommandData.CurHexFollowsPath | src/main/java/model/commands/commands_data/ExploreData.java:119-151 | a new path is at its start, an added hex becomes current, and a cleared path has no current hex |
| CommandData.NewExterminateData | src/main/java/model/commands/commands_data/ExterminateData.java:70-75 | a new Exterminate has its player and allowance and no invasion under way |
| CommandData.IncrementInvasionsMade | src/main/java/model/commands/commands_data/ExterminateData.java:136-138 | one more invasion is counted and nothing else changes |
| CommandData.RemoveInvadingHex | src/main/java/model/commands/commands_data/ExterminateData.java:160-162 | the first occurrence of the hex leaves the invading list and nothing else changes |
| CommandData.ClearInvasion | src/main/java/model/commands/commands_data/ExterminateData.java:168-171 | no target and no invading hexes remain; nothing else changes |
| CommandData.RemoveInvadingHexOnly | src/main/java/model/commands/commands_data/ExterminateData.java:160-180 | in a list without repeats exactly the removed hex stops invading |
| ExpandCommand.Quota | src/main/java/model/commands/Expand.java:49-50 | the quota is `4 - efficiency` capped by the size of the reserve |
| ExpandCommand.Start | src/main/java/model/commands/Expand.java:45-52 | a new Expand has its player, the quota, nothing added, and within an efficiency of at most 4 the reserve covers the quota |
| ExpandCommand.HexesCanExpand | src/main/java/model/commands/Expand.java:142-144 | exactly the systems the player controls |
| ExpandCommand.CanExpandFleetIffOffered | src/main/java/model/commands/Expand.java:128-144 | a decision is accepted exactly for an offered hex and between one ship and the room left |
| ExpandCommand.AddShips | src/main/java/model/commands/Expand.java:93-112 | a refused decision changes nothing; an accepted one fails exactly when the reserve is too short, and otherwise appends the first `n` reserve ships to the hex, takes them out of the reserve, counts them and changes no other hex or reserve |
| ExpandCommand.QuotaKept | src/main/java/model/commands/Expand.java:49-112 | within the quota an accepted decision never runs past the reserve, and the quota bound still holds afterwards |
| ExpandCommand.AddShipsConsistent | src/main/java/model/commands/Expand.java:93-112 | an accepted decision keeps the board consistent with the ship table |
| ExploreCommand.Start | src/main/java/model/commands/Explore.java:57-60 | a new Explore allows `4 - efficiency` movements, none made, with no path and no fleet |
| ExploreCommand.HexesCanStartExplore | src/main/java/model/commands/Explore.java:168-175 | every hex offered passes the start test, and on a board of the right shape every hex passing it is offered |
| ExploreCommand.StartAcceptedIffOffered | src/main/java/model/commands/Explore.java:168-175 | a start hex is accepted exactly when it is offered |
| ExploreCommand.AsWrittenStartStricter | src/main/java/model/commands/Explore.java:281-293 | the written start test accepts no hex the corrected test refuses |
| ExploreCommand.AsWrittenRefusesOfferedHex | src/main/java/model/commands/Explore.java:281-293 | a hex offered as start hex, whose only neighbour is the player's own, is refused by the written test |
| ExploreCommand.HexesCanExploreNext | src/main/java/model/commands/Explore.java:181-191 | nothing before a movement starts; otherwise neighbours of the current hex the fleet may enter, all of them on a board of the right shape |
| ExploreCommand.NextOfferedAccepted | src/main/java/model/commands/Explore.java:200-243 | an offered next hex is accepted without adjustment exactly when the fleet holds a ship |
| ExploreCommand.AdjustFleet | src/main/java/model/commands/Explore.java:309-359 | a pick-up takes the first ships of the current hex that have not moved; a drop lands the first ships of the fleet on the current hex; no adjustment changes nothing; no other hex changes |
| ExploreCommand.AdjustFleetConserves | src/main/java/model/commands/Explore.java:309-359 | the current hex and the fleet hold the same ships together before and after |
| ExploreCommand.ExploreNext | src/main/java/model/commands/Explore.java:250-258 | before a movement starts the step is a null dereference; a refused step changes nothing; an accepted one extends the path and makes `next` current |
| ExploreCommand.AcceptedStepCarriesFleet | src/main/java/model/commands/Explore.java:228-258 | after an accepted step the fleet holds a ship and the path is one hex longer |
| ExploreCommand.FinalizeMovement | src/main/java/model/commands/Explore.java:155-159 | the fleet lands on the current hex, the movement is counted and the path is cleared; before a movement starts only the count moves |
| ExploreCommand.Execute | src/main/java/model/commands/Explore.java:68-140 | the command stops only when finished, asks for a start hex only when some are offered, asks for a next hex only within range with some offered, and never changes the table or the layout |
| ExploreCommand.StartExplore | src/main/java/model/commands/Explore.java:264-271 | accepted exactly when the start test passes; then the path restarts at the hex and the command runs on |
| ExploreCommand.ExploreNextDecision | src/main/java/model/commands/Explore.java:250-258 | an error before a movement starts; accepted exactly when the step test passes, keeping owners and layout |
| ExploreCommand.FinishCurrentMovement | src/main/java/model/commands/Explore.java:146-149 | a movement is counted and the command runs on, keeping table and layout |
| ExploreCommand.FinishCommand | src/main/java/model/commands/Explore.java:89-92 | the fleet lands, the movement is counted and the command is over |
| ExploreCommand.StartInTransit | src/main/java/model/commands/Explore.java:57-60 | a new command starts in the between-decisions invariant |
| ExploreCommand.StartKeepsTransit | src/main/java/model/commands/Explore.java:264-271 | starting from an accepted hex keeps the invariant |
| ExploreCommand.TakeResult | src/main/java/model/commands/Explore.java:320-359 | a pick-up removes the ships taken from the current hex, marks them moved and adds them to the fleet |
| ExploreCommand.TakeTransit | src/main/java/model/commands/Explore.java:320-359 | picking up ships keeps the invariant |
| ExploreCommand.TakenFleetSound | src/main/java/model/commands/Explore.java:344-359 | ships taken from the player's hex keep the fleet sound and change only the moved flag |
| ExploreCommand.DropResult | src/main/java/model/commands/Explore.java:330-335 | a drop lands the first ships of the fleet on the current hex and the rest travel on |
| ExploreCommand.FleetSplit | src/main/java/model/commands/Explore.java:330-335 | the ships dropped and the ships travelling on are disjoint, and both stay the player's deployed ships |
| ExploreCommand.DropTransit | src/main/java/model/commands/Explore.java:330-335 | dropping ships keeps the invariant |
| ExploreCommand.StepKeepsTransit | src/main/java/model/commands/Explore.java:250-258 | every accepted step keeps the invariant |
| ExploreCommand.FinalizeKeepsTransit | src/main/java/model/commands/Explore.java:155-159 | ending a movement keeps the invariant and leaves no fleet |
| ExploreCommand.ExecuteKeepsTransit | src/main/java/model/commands/Explore.java:68-140 | running the command keeps the invariant |
| ExploreCommand.DecisionsKeepTransit | src/main/java/model/commands/Explore.java:89-271 | every decision keeps the invariant and the layout; once the command is over no fleet is left |
| ExploreCommand.DoneConsistent | src/main/java/model/commands/Explore.java:89-92 | a finished command leaves a consistent board |
| ExterminateCommand.Start | src/main/java/model/commands/Exterminate.java:54-57 | a new Exterminate allows `4 - efficiency` invasions, none made, with no target and no invading hex |
| ExterminateCommand.HexesCanInvade | src/main/java/model/commands/Exterminate.java:139-170 | the targets offered are exactly the systems that can be invaded: held by someone else, next to a hex of the player with a ship that has not invaded |
| ExterminateCommand.Participants | src/main/java/model/commands/Exterminate.java:177-187 | every hex offered to invade from is a neighbour of the target held by the player with a ship that has not invaded, and on a board of the right shape every such neighbour is offered |
| ExterminateCommand.UninvadedTotalBound | src/main/java/model/commands/Exterminate.java:195-214 | the ships available for an invasion are at least as many as the hexes taking part |
| ExterminateCommand.FinalizeInvasion | src/main/java/model/commands/Exterminate.java:307-310 | the invasion under way is dropped and counted, and nothing else changes |
| ExterminateCommand.Execute | src/main/java/model/commands/Exterminate.java:65-88 | the command ends after counting an invasion; asks for a target only while invasions are left, offering the invadable hexes; asks for ships only with a target and invading hexes left; never touches board or ships |
| ExterminateCommand.Clash | src/main/java/model/commands/Exterminate.java:241-255 | against defenders the smaller of the two numbers falls on each side, without defenders nobody falls; only the target and the attacking hex change |
| ExterminateCommand.ClashOwners | src/main/java/model/commands/Exterminate.java:241-255 | no ship changes owner in a clash |
| ExterminateCommand.Land | src/main/java/model/commands/Exterminate.java:258-277 | the survivors change no owner, and only the target and the attacking hex change |
| ExterminateCommand.Resolve | src/main/java/model/commands/Exterminate.java:238-277 | a batch changes no owner and touches only the target and the attacking hex |
| ExterminateCommand.Attackers | src/main/java/model/commands/Exterminate.java:226-236 | the batch is the first ships of the hex that have not invaded, cut to the number available |
| ExterminateCommand.Commit | src/main/java/model/commands/Exterminate.java:221-283 | a batch keeps the layout and the owners, touches only the target and the attacking hex, counts the ships used and removes at most the attacking hex from the invading hexes |
| ExterminateCommand.StartInvadingHex | src/main/java/model/commands/Exterminate.java:195-214 | accepted exactly when the hex can be invaded; then board and ships are unchanged and the invasion is on the board |
| ExterminateCommand.AddShipsInvadingHex | src/main/java/model/commands/Exterminate.java:221-305 | a batch the acceptance test lets through with a negative size fails; otherwise it is accepted exactly when the test passes, keeping layout and owners |
| ExterminateCommand.FinishCurrentInvasion | src/main/java/model/commands/Exterminate.java:316-319 | the invasion is counted and the command runs on without asking for ships |
| ExterminateCommand.FinishCommand | src/main/java/model/commands/Exterminate.java:95-98 | the invasion under way is counted and the command is over |
| ExterminateCommand.ClashOutcome | src/main/java/model/commands/Exterminate.java:241-255 | against defenders: the first `m` defenders and attackers leave the board and go back to the reserve; the target loses its controller when emptied |
| ExterminateCommand.LandOutcome | src/main/java/model/commands/Exterminate.java:258-277 | the survivors leave their hex, follow the target's ships, are marked as having invaded, and the target is the player's |
| ExterminateCommand.ResolveRepelled | src/main/java/model/commands/Exterminate.java:238-277 | a batch no larger than the defence falls entirely, with as many defenders |
| ExterminateCommand.ResolveConquers | src/main/java/model/commands/Exterminate.java:238-277 | a batch larger than the defence destroys it and the survivors hold the target |
| ExterminateCommand.ResolveUndefended | src/main/java/model/commands/Exterminate.java:258-277 | without defenders every attacker lands and nobody falls |
| ExterminateCommand.CommitOutcome | src/main/java/model/commands/Exterminate.java:221-283 | the full outcome of a batch of `n` against `D` defenders: `min(D, n)` fall on each side; more attackers win the target, as many leave it free, fewer leave it to the defender |
| ExterminateCommand.AttackersOwned | src/main/java/model/commands/Exterminate.java:226-236 | the attackers are distinct ships of the player on the attacking hex |
| ExterminateCommand.ClashPlacement | src/main/java/model/commands/Exterminate.java:241-255 | the clash keeps every ship on at most one hex, and only deployed ships on hexes |
| ExterminateCommand.ClashLeavesSurvivors | src/main/java/model/commands/Exterminate.java:241-255 | after the clash the survivors still stand on the player's hex and the target is free or the player's |
| ExterminateCommand.LandPlacement | src/main/java/model/commands/Exterminate.java:258-277 | the landing keeps the placement rule |
| ExterminateCommand.ResolvePlacement | src/main/java/model/commands/Exterminate.java:238-277 | a batch keeps the placement rule and the attacking hex stays the player's while it holds ships |
| ExterminateCommand.CommitKeepsInvasion | src/main/java/model/commands/Exterminate.java:221-283 | a batch keeps the between-decisions invariant |
| ExterminateCommand.StartKeepsInvasion | src/main/java/model/commands/Exterminate.java:195-214 | choosing a target keeps the invariant |
| ExterminateCommand.ExecuteKeepsInvasion | src/main/java/model/commands/Exterminate.java:65-88 | running the command keeps the invariant |
| ExterminateCommand.TargetDecisionsKeepInvasion | src/main/java/model/commands/Exterminate.java:95-98 | choosing a target, ending the invasion or ending the command keeps the invariant and the layout |
| ExterminateCommand.ShipsDecisionKeepsInvasion | src/main/java/model/commands/Exterminate.java:221-283 | an accepted batch keeps the invariant and the layout |
| ExterminateCommand.InvasionConsistent | src/main/java/model/commands/Exterminate.java:221-283 | the whole command leaves a consistent board |
| Game.NewGame | src/main/java/model/Partie.java:68-72 | a new game is at round 1 in the deployment phase, on the given board, with nobody joined and no ship |
| Game.NewGameValid | src/main/java/model/Partie.java:68-72 | the board of a new game, generated from any valid draw, is consistent |
| Game.StrategyNamed | src/main/java/model/Partie.java:262-267 | exactly the names "Aggressive", "Amical" and "Human" select a strategy, and "Human" the human one |
| Game.AddPlayer | src/main/java/model/Partie.java:249-275 | a fourth joiner is ignored; otherwise an unknown robot strategy is an error, and a joiner is appended with the next colour, 15 new ships and, when not a robot, the human strategy |
| Game.AddPlayerKeepsRoster | src/main/java/model/Partie.java:249-275 | joining keeps the roster and the placement rule: the new ships are all in the reserve |
| Game.ThreeJoinersStartTheGame | src/main/java/model/Partie.java:249-311 | three joiners make the game playable, coloured in join order, and a fourth changes nothing |
| Game.Rotate | src/main/java/model/Partie.java:200-203 | the last player becomes the first and the others follow in their order |
| Game.RotatePermutes | src/main/java/model/Partie.java:200-203 | rotation only reorders the players |
| Game.RotateTimesSplit | src/main/java/model/Partie.java:200-203 | rotating `k` times brings the last `k` players to the front |
| Game.RotateFullCircle | src/main/java/model/Partie.java:200-203 | as many rotations as players restore the order |
| Game.RotateKeepsRoster | src/main/java/model/Partie.java:200-203 | rotating the players keeps the roster |
| Game.SetCurrentPlayer | src/main/java/model/Partie.java:210-213 | a position inside the list makes that player current; any other position is an index error and nothing changes |
| Perform.FirstLookupError | src/main/java/model/states/PerformState.java:113-129 | no error exactly when every player's command for the phase can be read; an error reported is one of those lookups' |
| Perform.EfficiencyRow | src/main/java/model/states/PerformState.java:115-123 | the efficiency of command `k` is the number of players who planned it for the phase |
| Perform.ComputeTables | src/main/java/model/states/PerformState.java:113-129 | the tables exist exactly when every plan can be read; then each phase has its efficiencies and its players sorted by planned command |
| Perform.OrderIsGroups | src/main/java/model/states/PerformState.java:156-160 | with commands 1 to 3 the order is the Expand group, then Explore, then Exterminate, each in player order; every player acts once and the efficiencies add up to the number of players |
| Perform.EfficiencyOf | src/main/java/model/states/PerformState.java:114-140 | a lookup within the phases and commands 1 to 3 reads the table; slot 0 of the array is never filled and unboxes a null |
| Perform.Initiate | src/main/java/model/states/PerformState.java:135-148 | the player at the position becomes current and gets the command it planned for the phase, with that command's efficiency; without tables the lookup is a null dereference |
| Perform.StartCommand | src/main/java/model/states/PerformState.java:142-146 | command 1 is an Expand, 2 an Explore, 3 an Exterminate, all for the acting player |
| Perform.ExecuteCommand | src/main/java/model/commands/Command.java:49-53 | running a command keeps its player and the layout; a decision it asks for is one it may ask; an Expand runs without changes and stops exactly when finished |
| Perform.Normalize | src/main/java/model/states/PerformState.java:77-80 | after the last player of a phase comes the first player of the next phase |
| Perform.Prepare | src/main/java/model/states/PerformState.java:91-93 | only the very first run computes the tables, and it fails exactly when some plan cannot be read |
| Perform.Run | src/main/java/model/states/PerformState.java:75-106 | the phase ends in the exploit phase or waits, at the same or a later position, for the current player's decision, with players, turn and layout kept; it fails only on a missing plan or table |
| Perform.Resume | src/main/java/model/states/PerformState.java:101-105 | running the command under way settles the phase the same way |
| Perform.Proceed | src/main/java/model/states/PerformState.java:101-105 | a decision asked for is waited for as is; a command that is over hands over |
| Perform.NextCommand | src/main/java/model/states/PerformState.java:166-170 | handing over always moves on: the next decision is at a position strictly after the command dropped, or the phase is over |
| Sorting.SortBy | src/main/java/model/states/PerformState.java:156-160 | the sorted players are a permutation of the players |
| Sorting.SortedSortBy | src/main/java/model/states/PerformState.java:156-160 | the players come out ordered by planned command |
| Sorting.SortByStable | src/main/java/model/states/PerformState.java:156-160 | players who planned the same command keep their relative order, as a stable stream sort does |
| Sorting.SortByIsBuckets | src/main/java/model/states/PerformState.java:156-160 | with commands 1 to 3 the sort equals the reference definition: the command-1 players, then command 2, then command 3, each in player order |
| Sorting.InsertSorted | src/main/java/model/states/PerformState.java:156-160 | inserting into an ordered list keeps it ordered |
| Sorting.InsertKeyClass | src/main/java/model/states/PerformState.java:156-160 | an inserted element goes behind every element of its own key |
| Sorting.SortedIsBuckets | src/main/java/model/states/PerformState.java:156-160 | an ordered list with keys 1 to 3 is its key-1, key-2 and key-3 elements in that order |
| PerformDecisions.ExpandAddShips | src/main/java/model/commands/Expand.java:93-112 | refused exactly when the Expand cannot grow there; a batch larger than the reserve fails on its sub-list; an accepted batch settles the phase |
| PerformDecisions.ExpandFinish | src/main/java/model/commands/Expand.java:84-86 | the next player acts and the phase settles |
| PerformDecisions.ExploreStart | src/main/java/model/commands/Explore.java:264-271 | refused exactly when the start test fails; an accepted start settles the phase |
| PerformDecisions.ExploreNext | src/main/java/model/commands/Explore.java:250-258 | a step before any movement is a null dereference; otherwise refused exactly when the step test fails; an accepted step settles the phase |
| PerformDecisions.ExploreFinishMovement | src/main/java/model/commands/Explore.java:146-149 | the fleet lands and the phase settles |
| PerformDecisions.ExploreFinish | src/main/java/model/commands/Explore.java:89-92 | the fleet lands, the next player acts and the phase settles |
| PerformDecisions.ExterminateStart | src/main/java/model/commands/Exterminate.java:195-213 | refused exactly when the hex cannot be invaded; an accepted target settles the phase |
| PerformDecisions.ExterminateAddShips | src/main/java/model/commands/Exterminate.java:221-301 | refused exactly when the acceptance test fails; a negative batch it lets through is an illegal argument; an accepted batch settles the phase |
| PerformDecisions.ExterminateFinishInvasion | src/main/java/model/commands/Exterminate.java:316-319 | the invasion is counted and the phase settles |
| PerformDecisions.ExterminateFinish | src/main/java/model/commands/Exterminate.java:95-98 | the next player acts and the phase settles |
| PerformInvariant.ActorFacts | src/main/java/model/states/PerformState.java:135-140 | the acting player is a player of the game and no efficiency exceeds the number of players |
| PerformInvariant.StartCommandSound | src/main/java/model/states/PerformState.java:142-146 | a command started with an efficiency that counts players is sound: an Expand's quota never exceeds the reserve |
| PerformInvariant.ExecuteSound | src/main/java/model/commands/Command.java:49-53 | running a sound command keeps the board consistent and the command sound, and leaves the table as it is |
| PerformInvariant.RunSane | src/main/java/model/states/PerformState.java:75-106 | running the phase keeps the invariant: consistent board, roster, sound tables and command |
| PerformInvariant.ResumeSane | src/main/java/model/states/PerformState.java:101-105 | running the command under way keeps the invariant |
| PerformInvariant.NextCommandSane | src/main/java/model/states/PerformState.java:166-170 | handing over keeps the invariant |
| PerformInvariant.ExpandAddShipsSane | src/main/java/model/commands/Expand.java:93-112 | adding ships keeps the invariant: the ships deployed come from the player's own reserve |
| PerformInvariant.ExpandFinishSane | src/main/java/model/commands/Expand.java:84-86 | ending an Expand keeps the invariant |
| PerformInvariant.ExploreStartSane | src/main/java/model/commands/Explore.java:264-271 | starting a movement keeps the invariant |
| PerformInvariant.ExploreNextSane | src/main/java/model/commands/Explore.java:250-258 | stepping on keeps the invariant |
| PerformInvariant.ExploreEndsSane | src/main/java/model/commands/Explore.java:89-92 | ending the movement or the command keeps the invariant |
| PerformInvariant.ExterminateMovesSane | src/main/java/model/commands/Exterminate.java:195-285 | choosing a target and committing ships keep the invariant |
| PerformInvariant.ExterminateEndsSane | src/main/java/model/commands/Exterminate.java:95-98 | ending the invasion or the command keeps the invariant |
| ExpandHandOver.EmptyReserveExpandAsWritten | src/main/java/model/commands/Expand.java:45-58 | as written, an Expand with an empty reserve hands over from its constructor and again when run; the phase still settles |
| ExpandHandOver.AsWrittenSkipsAskedPlayer | src/main/java/model/commands/Expand.java:45-58 | when the first hand-over asks a player for a decision, the second moves past that player |
| ExpandHandOver.EmptyReserveHandsOverOnce | src/main/java/model/commands/Expand.java:67-78 | corrected: an Expand with an empty reserve has quota 0 and running it hands over exactly once |
| Plan.Run | src/main/java/model/states/PlanState.java:42-51 | the player at the counter is asked for a plan; a negative counter is an index error; once everyone has planned the perform phase starts from its beginning |
| Plan.PlanCommands | src/main/java/model/states/PlanState.java:57-62 | without a current player the plan cannot be recorded |
| Plan.PlanStep | src/main/java/model/states/PlanState.java:57-62 | one answer records the planner's plan only, and planning goes on, with the next player asked, exactly while someone is left |
| Plan.PlanRoundRecords | src/main/java/model/states/PlanState.java:42-62 | a full round records each player's plan at that player's position and keeps the order of the players |
| EndGame.ScoreAll | src/main/java/model/states/EndGameState.java:53-57 | every player gains twice the levels of the systems it controls, over all the sectors, and nothing else changes |
| EndGame.HighestScorer | src/main/java/model/states/EndGameState.java:64-68 | with no player there is no winner; otherwise the winner's score is the highest and every player before it has a lower one |
| EndGame.Run | src/main/java/model/states/EndGameState.java:41-47 | the game ends with the highest scorer announced, and only players and state change |
| EndGame.WinnerHasHighestScore | src/main/java/model/states/EndGameState.java:41-68 | each final score is the score plus the doubled points; the winner has the highest, ties going to the earlier player |
| EndGame.RunAgainAnnouncesSameWinner | src/main/java/model/states/EndGameState.java:41-47 | announcing again changes nothing |
| EndGame.TotalPointsPartition | src/main/java/model/states/EndGameState.java:53-57 | the three colours' points add up to the levels of all occupied systems |
| EndRound.ResetAllScored | src/main/java/model/states/EndRoundState.java:61-65 | every sector is unmarked and nothing else about it changes |
| EndRound.ResetAllShips | src/main/java/model/states/EndRoundState.java:80-82 | every ship of a player is reset for the new round and no other ship changes |
| EndRound.NextRound | src/main/java/model/states/EndRoundState.java:50-55 | the round counter moves on, the players rotate, their ships are reset and planning starts at the first player |
| EndRound.EndsIffLastRoundOrEliminated | src/main/java/model/states/EndRoundState.java:44-56 | the game ends exactly when the ninth round is over or some player has no ship on the board |
| EndRound.RotatePlays | src/main/java/model/Partie.java:200-203 | rotating the players keeps who plays |
| EndRound.NextRoundStarts | src/main/java/model/states/EndRoundState.java:44-56 | a round that does not end the game starts the next with the last player asked first, sectors unmarked and every ship free again |
| EndRound.ResetShipsKeepsPlacement | src/main/java/model/states/EndRoundState.java:80-82 | resetting ships keeps the placement rule and the roster |
| EndRound.NextRoundConsistent | src/main/java/model/states/EndRoundState.java:44-56 | the next round starts on a consistent board with the roster and the sector lookups kept |
| EndRound.TurnStaysInRange | src/main/java/model/states/EndRoundState.java:44-56 | from round 1 the round counter never passes 9 |
| Deploy.SnakeOrder | src/main/java/model/states/DeployState.java:60-63 | every deployment is made by a player, and player `i` makes exactly deployments `i` and `2n-1-i` |
| Deploy.SnakeMirror | src/main/java/model/states/DeployState.java:62 | deployments `k` and `2n-1-k` are made by the same player |
| Deploy.OfferedFrom | src/main/java/model/states/DeployState.java:113-118 | a system is offered exactly when it is of level 1 in a sector that is not central and has no occupied system |
| Deploy.ValidInitialDeploymentHexes | src/main/java/model/states/DeployState.java:112-119 | every system offered is a free level-1 system of the board |
| Deploy.CanInitDeployIffOffered | src/main/java/model/states/DeployState.java:112-133 | a system is accepted for deployment exactly when it is offered |
| Deploy.Run | src/main/java/model/states/DeployState.java:58-72 | while deployments are left the deployer in snake order becomes current and is offered the valid systems; a negative counter is an index error; afterwards planning starts |
| Deploy.DeployTwo | src/main/java/model/states/DeployState.java:89-95 | the first two ships of the reserve land on the system, which becomes occupied; that reserve loses exactly those two, and no other hex or reserve changes |
| Deploy.Place | src/main/java/model/states/DeployState.java:84-96 | a reserve of fewer than two ships fails; otherwise the sector is recorded, the counter moves on and the two ships are placed |
| Deploy.DeployShips | src/main/java/model/states/DeployState.java:79-103 | a system that cannot be deployed on is refused exactly then; without a current player the deployment is a null dereference; a short reserve fails on the missing ship |
| Deploy.DeployTwoConsistent | src/main/java/model/states/DeployState.java:89-95 | a deployment keeps the board consistent and the deployer controls the system |
| Deploy.PlaceConsistent | src/main/java/model/states/DeployState.java:79-103 | a deployment keeps the board consistent and the roster |
| Deploy.PlaceClosesSector | src/main/java/model/states/DeployState.java:84-96 | after a deployment its sector is occupied, none of its systems can be deployed on and it is recorded once |
| PerformInvariant.ActorCounted | src/main/java/model/states/PerformState.java:135-145 | the efficiency a command starts with counts its own player, so it lies between 1 and the number of players |

## Left out

- ExploitState is not part of this model. The perform phase ends in an `Exploiting` state, and the step after it is not modelled.
- The user interface, the strategies' heuristics and the property-change notifications are left out. They do not affect the state: each decision of a strategy is an input to the model.
- Saving and loading games, and the game singleton, are left out. They are serialization and file I/O.
- Random numbers are left out. The board draws (the top/bottom permutation, the side order and the mirror bits) are parameters of `Boards.Generate`.
- Game.NewGame takes the generated board as a parameter rather than drawing it.
- Partial updates made before a Java exception are not modelled. The model returns an `Err` and keeps no intermediate state.
- The engine's steps read Java `HashSet`s: the hexes a fleet may enter next, and the hexes taking part in an invasion. The model lists these in column-major grid order, because the order of a Java `HashSet` is unspecified.
- PerformState.java:146 throws an `IllegalStateException` for an unknown command number. That line cannot be reached: the efficiency lookup fails first. For command 0 it fails with a null `Integer`, giving `Err(NullReference)`. For other numbers it fails with an index out of bounds, giving `Err(IndexOutOfBounds)`.
- Perform.Run requires a perform state whose phase and position are in range. The decisions of `decisions.dfy`, and the lemmas about them, require a perform state that is waiting for the current player's decision. The Java code only reaches them in those situations: the phase machine keeps the position in range, and the user interface offers a decision only when it is asked for.
- EndRound.Run and EndGame.Run require that every sector's systems be hexes of the board. Every generated board satisfies this (`Boards.GenerateSectorsPlaced`). Otherwise the Java code would fail on a null hex.
- EndRound.Run has no contract of its own. What it does is stated by `EndRound.EndsIffLastRoundOrEliminated`, `EndRound.NextRoundStarts`, `EndRound.NextRoundConsistent` and `EndRound.TurnStaysInRange`.
- Deploy.DeployShips: the contract covers only the refusals and the errors. What an accepted deployment does is stated by `Deploy.Place`, `Deploy.PlaceConsistent` and `Deploy.PlaceClosesSector`, and the question asked next by `Deploy.Run`.
- Plan.PlanRound has no contract of its own. What it does is stated by `Plan.PlanRoundRecords`.
- EndGame.Run treats any state that is not `Ended` as a fresh end-of-game state whose winner is not yet known.
- ExploreCommand.HexesCanStartExplore: the list is complete, meaning every hex that passes the start test is offered, only on boards of the right shape. Generated boards are of that shape.
- ExploreCommand.HexesCanExploreNext: completeness likewise holds only on boards of the right shape.
- ExterminateCommand.StartInvadingHex: if an invasion is already under way, the Java code overwrites it with no check, and the model does the same. The model proves nothing about the invasion that is lost.
- The three defects listed under Findings are modelled both as written and corrected. The rest of the model uses the corrected definitions:
  - the side draw is taken as one swap bit;
  - an Explore starts from any hex offered;
  - an Expand with an empty reserve hands over once.

## Findings

| source | as written | input that shows it | evidently intended | confidence | as-written member | corrected member |
|---|---|---|---|---|---|---|
| src/main/java/model/board/Board.java:259-266 | the second shuffle shuffles the top/bottom cards again, not the side cards, so the side cards are always placed in the same order | any draw: sector 3 always gets side card 0, whose level-2 system never lands in column 4 | the side cards are shuffled, so either order can occur | high, not executed | Boards.AsWrittenSideSectorFixed | Boards.SideDrawReachesBothOrders |
| src/main/java/model/commands/Explore.java:281-293 | the start test requires a neighbour with no controller | a two-hex board where both hexes belong to the player: the hex is offered as a start hex (Explore.java:168-175) but the start test refuses it | the start test accepts a hex exactly when it is offered, so the player's own neighbours count too | medium, not executed | ExploreCommand.AsWrittenRefusesOfferedHex | ExploreCommand.StartAcceptedIffOffered |
| src/main/java/model/commands/Expand.java:55-57 | the constructor calls `finishExpand` when the reserve is empty; PerformState.java:143 then stores the Expand and PerformState.java:105 runs it, so the engine hands over a second time | an Expand for a player with no ship left in reserve, while the next player's command asks for a decision: that player is skipped | the Expand is over at once and the engine hands over exactly once | high, not executed | ExpandHandOver.AsWrittenSkipsAskedPlayer | ExpandHandOver.EmptyReserveHandsOverOnce |
