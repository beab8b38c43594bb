# gofusion engine in Dafny

A model of the game engine of gofusion, a 2048-style tile-merging game written in Go
(`gofusion.go`), with proofs about it. The board is a fixed array of 16 tile slots, not a grid.
Each tile carries its own cell, its exponent (a tile of value v shows 2^v; 11 is 2048) and a
`NextValue` merge marker. So two tiles can share a cell between a move and the merge that follows.

The files:

- `geometry.dfy` (module `Geometry`): the 4x4 grid, cells, the four directions and ray arithmetic.
- `scan_order.dfy` (module `ScanOrder`): the four `enumFrom*` strategies as pure functions. They
  are checked against a reference order (`Nth`/`Rank`).
- `board_spec.dfy` (module `BoardSpec`): the board as values. This is `Slots`, a sequence of
  optional `TileState`. It defines the meaning of every board operation:
  - `FirstAt` for `tileAt`, and `Insert` for `insertTile`;
  - `MoveTarget` for the ray scan of `getMoveTarget`;
  - `MoveAll`/`AfterMove` for `doMove`'s loop;
  - `Merged`/`MergeGain` for `doMerge`;
  - `GameOverState` for `gameOverCheck`.
- `steady.dfy` (module `SteadyState`): the invariant a turn keeps. Every tile is inside the grid,
  has an exponent in [1, 11], carries no marker, and has a cell to itself. A move that uses the
  scan order its key pairs with leaves tiles sharing a cell only as marked merge pairs. The merge
  then restores the invariant.
- `packing.dfy` (module `Packing`): what a move achieves. Under its paired scan order, doMove
  collapses chains in one pass: every tile ends pressed against the edge or against a tile it may
  not merge with. A move that changed anything leaves a free cell and an empty slot for the spawn
  that follows.
- `fixtures.dfy` (module `Fixtures`): the two hand-made boards of `createMergeTest` and
  `createGameOverTest`, and example lemmas about them.
- `engine.dfy` (module `Engine`): the program itself, imperative.
  - `Tile` is a class whose fields change in place.
  - `Game` holds the board (`tiles: array<Tile?>` and `moved`) and the controller's fields
    (`score`, `hiscore`, `enableMerge`, `fallIndex`, `running`, and the message as a tag).
  - A ghost `cells` mirrors the slot array as values.
  - Every method is proved against the `BoardSpec` function it implements.
- `startup.dfy` (module `Startup`): `createMergeTest`, `createGameOverTest` and the board part of
  `run`, as methods on a `Game`.
  - The program starts on the game-over test board, not on a new game. `run` calls
    `createGameOverTest` where the call to `newGame` is commented out. `Startup.Launch` models this,
    so the first board a player sees is `Fixtures.GameOverTestBoard`.

Where the documentation and the code disagree, the model follows the code:

- `gameOverCheck` (gofusion.go:173-216). The doc comment says a 2048 tile makes the game "done".
  The code returns `won = true` with `done = false` as soon as it sees a tile of value 11, and
  never looks for free cells or blocked tiles in that case. `GameOverState` and
  `Engine.Game.GameOverCheck` model the code.
- `createGameOverTest` (gofusion.go:148-171). The comment promises "Game Over" after the next
  move, but the board already holds a value-11 tile at (1, 3). `Fixtures.FixturesAreWon` shows
  that `gameOverCheck` answers won, not done, on it.
- `freeSpaces` takes a `*Tile` parameter that its loop variable shadows and that it never uses.
  `FreeSpaces` has no parameter.

## Model

| member | source | states |
|---|---|---|
| ScanOrder.EnumFromLeft | gofusion.go:788-799 | enumFromLeft as written: from (-1, -1) it answers (0, 0); otherwise the next y in the column, then the top of the next column, done once x leaves the grid (WalkFollowsOrder proves the order) |
| ScanOrder.EnumFromRight | gofusion.go:801-812 | enumFromRight as written: columns from x = 3 down to 0, each top to bottom, done once x drops below 0 |
| ScanOrder.EnumFromTop | gofusion.go:814-825 | enumFromTop as written: rows from y = 0 down, each left to right, done once y leaves the grid |
| ScanOrder.EnumFromBottom | gofusion.go:827-838 | enumFromBottom as written: rows from y = 3 up, each left to right, done once y drops below 0 |
| ScanOrder.WalkFollowsOrder | gofusion.go:789-838 | driven from the sentinel (-1, -1) and then from its own answers, each strategy yields the 16 cells of its reference order one by one, never done before them, and reports done right after the 16th |
| ScanOrder.StartIsFirst | gofusion.go:840-844 | called with (-1, -1), each strategy answers the first cell of its order and not done |
| ScanOrder.NextFollowsOrder | gofusion.go:789-838 | called on the k-th cell of its order, a strategy answers the (k+1)-th cell and not done, or done after the last cell |
| ScanOrder.OrderIsPermutationOfCells | gofusion.go:786-844 | each reference order lists every in-bounds cell exactly once and nothing else: a permutation of the 16 cells |
| ScanOrder.AheadIsScannedFirst | gofusion.go:398-410 | with the strategy HandleKey pairs with a direction, every cell further along that direction is visited earlier |
| BoardSpec.FirstAt | gofusion.go:88-97 | tileAt's answer is the lowest slot whose tile stands on the cell; there is none exactly when the cell is free |
| BoardSpec.FirstNil | gofusion.go:61-73 | the slot insertTile fills is the lowest empty one; there is none exactly when all 16 slots are full |
| BoardSpec.Insert | gofusion.go:61-73 | insertTile on values: the tile goes into the lowest empty slot, or the board is unchanged and the answer false (InsertFacts states the properties) |
| BoardSpec.InsertFacts | gofusion.go:61-73 | insertTile succeeds exactly when some slot is empty; it then fills the lowest empty slot with the tile and changes nothing else, and clearing that slot gives back the old board; when it fails the board is unchanged |
| BoardSpec.CountNils | gofusion.go:50-59 | freeSpaces' count, never more than the number of slots (CountNilsIsEmptySlots says which slots it counts) |
| BoardSpec.CountNilsIsEmptySlots | gofusion.go:50-59 | freeSpaces counts exactly the empty slots, and is zero exactly when the board is full |
| BoardSpec.Probe | gofusion.go:221-240 | the slot the ray scan merges into holds a tile that lies strictly ahead of the scan cell along the direction |
| BoardSpec.MoveTarget | gofusion.go:221-240 | the merge partner getMoveTarget reports holds a tile on another cell than the moving one |
| BoardSpec.ProbeFacts | gofusion.go:224-238 | from any in-bounds scan cell, the ray scan's result satisfies TargetFacts (as for MoveTargetFacts) |
| BoardSpec.MoveTargetFacts | gofusion.go:221-240 | the target is in bounds and on the ray from the tile (possibly its own cell); every cell strictly between is free; with no partner, the target is free or the tile's own cell, and the next cell is off the board or holds a tile it cannot merge with; with a partner, the partner is the first tile on the target cell, strictly ahead, with the same value, below 11 and with NextValue 0 |
| BoardSpec.TargetFactsBack | gofusion.go:225-233 | a target found from a free neighbour cell is a valid target from the cell before it (the scan passing over an empty cell) |
| BoardSpec.ProcessCell | gofusion.go:268-284 | one iteration of doMove's loop: a free cell is skipped, the tile tileAt finds is visited with its getMoveTarget answer (ProcessCellKeepsTiles states the properties) |
| BoardSpec.Visit | gofusion.go:270-283 | the visit of one tile: it goes to the target cell, moved is raised when that cell differs, and with a partner the mover is marked value + 1, the partner -1 and enableMerge raised (VisitKeepsTiles, VisitReportsMove state the properties) |
| BoardSpec.MoveAll | gofusion.go:264-286 | doMove's loop over a visiting order, first cell first (MoveAllKeepsTiles, MovesCompose state the properties) |
| BoardSpec.AfterMove | gofusion.go:264-286 | doMove with a strategy: the loop over that strategy's full order, starting with moved false (MoveEndsInWindow, MoveEndsPacked state what it achieves) |
| BoardSpec.MoveAllStep | gofusion.go:266-285 | one more cell in the visiting order is one more iteration of doMove's loop |
| BoardSpec.VisitKeepsTiles | gofusion.go:270-283 | visiting one tile keeps every tile in its slot with its value, puts that tile on the target cell, forward along the direction and inside the grid, leaves every other tile on its cell, and never lowers enableMerge |
| BoardSpec.VisitReportsMove | gofusion.go:271-276 | a visit raises moved exactly when its tile lands on another cell |
| BoardSpec.ProcessCellKeepsTiles | gofusion.go:269-284 | one iteration of doMove's loop moves tiles only forward, inside the grid, keeps slots and values, and reports moved exactly when a tile changed cell |
| BoardSpec.MovesCompose | gofusion.go:266-285 | two successive stretches of doMove's loop together move tiles only forward along the direction, and moved reports exactly whether a tile changed cell overall |
| BoardSpec.MoveAllKeepsTiles | gofusion.go:264-286 | whatever the visiting order, doMove keeps every tile in its slot with its value, slides tiles only forward along the direction and only inside the grid, sets moved exactly when some tile ended on another cell, and never lowers enableMerge |
| BoardSpec.RayTransitive | gofusion.go:271-276 | two forward slides along a direction make one, and a tile that left its cell cannot come back to it |
| BoardSpec.MergeSlot | gofusion.go:293-306 | doMerge on one slot: a tile marked v > 0 takes value v and loses its marker, one marked -1 is removed, any other slot is unchanged (MergeOutcome states the properties) |
| BoardSpec.Merged | gofusion.go:291-309 | doMerge on the whole board, slot by slot; the board keeps its 16 slots |
| BoardSpec.MergeGain | gofusion.go:291-309 | the score doMerge adds: 1 << v for every tile marked v > 0 (MergeGainStep, NoPromotionNoGain state the properties) |
| BoardSpec.AfterMerge | gofusion.go:418-421 | HandleMoveAnimationDone runs doMerge only when enableMerge is raised (MergeFlagIsShortcut shows that skipping it is safe) |
| BoardSpec.MergeOutcome | gofusion.go:291-309 | after doMerge, a slot holds a tile exactly when it held one not marked -1; a tile marked v > 0 now has value v and no marker; if all markers were 0, -1 or positive, no marker is left |
| BoardSpec.MergeGainStep | gofusion.go:292-299 | the score doMerge adds over one more slot is the gain of that slot, 1 << NextValue for a promoted tile |
| BoardSpec.NoPromotionNoGain | gofusion.go:293-306 | a board with no promoted tile adds nothing to the score |
| BoardSpec.GameOverState | gofusion.go:177-216 | gameOverCheck as the code computes it: never both done and won, and done only on a full board (GameOverMeansBlocked gives both answers exactly) |
| BoardSpec.GameOverMeansBlocked | gofusion.go:177-216 | on a board inside the grid, gameOverCheck reports done exactly when the board is full, holds no 2048 tile and every tile's neighbour in every direction is off the board or holds a tile it cannot merge with; it reports won exactly when a 2048 tile is present |
| SteadyState.TileAtFindsItsTile | gofusion.go:88-97 | with one tile per cell, tileAt on a tile's cell finds that tile's slot |
| SteadyState.AloneWhenUnclaimed | gofusion.go:277-282 | between move and merge, a tile without marker is the only one on its cell |
| SteadyState.VisitedTileIsOriginal | gofusion.go:268-270 | the tile doMove finds on the k-th cell of the paired scan is the one that started there, untouched |
| SteadyState.ScanStepUnchanged | gofusion.go:268-284 | visiting a cell that leaves the board unchanged lets the scan bookkeeping advance |
| SteadyState.ScanStepSlide | gofusion.go:272-276 | a slide without a merge into a free cell already scanned keeps the board a window and advances the scan |
| SteadyState.MergeKeepsWindow | gofusion.go:277-282 | marking a mover and its unclaimed, equal partner on the partner's cell leaves tiles sharing a cell only as merge pairs |
| SteadyState.MergeKeepsScanned | gofusion.go:277-282 | the marked merge moves the tile onto a cell already scanned, keeping the scan bookkeeping |
| SteadyState.SlideKeepsScanned | gofusion.go:272-276 | moving the visited tile onto an already scanned cell keeps the scan bookkeeping |
| SteadyState.MarkKeepsScanned | gofusion.go:280 | marking a tile on a scanned cell keeps the scan bookkeeping |
| SteadyState.VisitStays | gofusion.go:272-276 | a visit whose target is the tile's own cell leaves the board exactly as it was |
| SteadyState.VisitSlides | gofusion.go:272-276 | a visit sliding onto a free cell ahead keeps the window and advances the scan |
| SteadyState.VisitMergesInWindow | gofusion.go:277-282 | a visit that finds a partner keeps the window and raises enableMerge |
| SteadyState.VisitMergesScanned | gofusion.go:277-282 | a visit that finds a partner advances the scan bookkeeping |
| SteadyState.ScanStepFound | gofusion.go:269-284 | visiting an occupied cell of the paired scan keeps the window, advances the scan, and leaves no marker unless enableMerge is raised |
| SteadyState.ScanStep | gofusion.go:268-285 | any iteration of doMove's loop under the paired scan keeps the same three facts |
| SteadyState.ScanPrefix | gofusion.go:264-286 | after the first k cells of the paired scan, tiles share a cell only as marked merge pairs, tiles on unvisited cells are untouched, and markers exist only if enableMerge is raised |
| SteadyState.PartneredMeansPaired | gofusion.go:277-282 | between move and merge, a marked tile that shares its cell shares it with its merge partner: the mover marked value + 1 and the partner marked -1, with equal values |
| SteadyState.PartnersAfterSlide | gofusion.go:272-276 | an unmarked tile sliding away takes no marked tile's cell mate with it |
| SteadyState.PartnersAfterMerge | gofusion.go:277-282 | marking a pair gives each of the two the other as cell mate and leaves every earlier marked tile with its own |
| SteadyState.PartnersStep | gofusion.go:268-285 | any iteration of doMove's loop under the paired scan keeps every marked tile sharing its cell with another tile |
| SteadyState.PartnersPrefix | gofusion.go:264-286 | after the first k cells of the paired scan, every marked tile shares its cell with another tile |
| SteadyState.MoveEndsInWindow | gofusion.go:264-286 | from a steady board, doMove with the scan HandleKey pairs with the direction leaves tiles sharing cells only as marked merge pairs, every marked tile with its partner in the slots, and no marker unless it raised enableMerge |
| SteadyState.MergeRestoresSteady | gofusion.go:291-309 | doMerge on such a board gives back one tile per cell, no marker, values in [1, 11] |
| SteadyState.UnmarkedWindowIsSteady | gofusion.go:418-421 | when no merge was flagged the board is already steady and doMerge would change nothing |
| SteadyState.NewBoardIsSteady | gofusion.go:254-259 | newGame's two tiles of value 1 or 2 on distinct cells form a steady board |
| SteadyState.SpawnKeepsSteady | gofusion.go:99-120 | addRandomTile on a free in-grid cell with a value in range keeps the board steady |
| SteadyState.SettleKeepsSteady | gofusion.go:417-445 | the merge step of HandleMoveAnimationDone, then the spawn on a free cell, bring a window board back to steady |
| SteadyState.TurnKeepsSteady | gofusion.go:395-445 | a whole turn (HandleKey's move with its paired scan, then HandleMoveAnimationDone's merge and spawn) keeps the board steady |
| SteadyState.MergeFlagIsShortcut | gofusion.go:418-421 | after a move from a steady board, skipping doMerge when enableMerge is down gives the same board as running it, and running it would add no score |
| Packing.FirstAtByOccupancy | gofusion.go:88-97 | tileAt's answer depends only on which slots stand on the cell |
| Packing.StepRanksEarlier | gofusion.go:398-410 | the cell one step ahead along a direction is visited earlier by the scan HandleKey pairs with it |
| Packing.PackEmpty | gofusion.go:268-269 | visiting a free cell keeps every tile on a visited cell held: its next cell ahead is off the board or taken, by no tile it could merge with when it is unclaimed |
| Packing.PackStay | gofusion.go:269-276 | a visited tile whose target is its own cell is already held there |
| Packing.EarlierTile | gofusion.go:268-284 | a tile other than the visited one, on a cell counted as visited, is on an earlier cell, is held, and is not held by the visited cell |
| Packing.PackSlide | gofusion.go:272-276 | a tile sliding to a free cell without a partner is held there afterwards, and no other visited tile loses its hold |
| Packing.PackSlideTile | gofusion.go:272-276 | the same, for one tile |
| Packing.PackMerge | gofusion.go:277-282 | after a merge visit every tile on a visited cell is still held |
| Packing.PackMergePair | gofusion.go:277-282 | both tiles of the new merge pair are held by the tile that held the partner |
| Packing.PackMergeOther | gofusion.go:277-282 | any other tile keeps its hold; one that the partner's cell held is now held by the claimed pair, which it cannot merge with |
| Packing.PackStepFound | gofusion.go:269-284 | visiting an occupied cell of the paired scan keeps every tile on a visited cell held |
| Packing.PackStep | gofusion.go:268-285 | any iteration of doMove's loop under the paired scan keeps every tile on a visited cell held |
| Packing.PackPrefix | gofusion.go:264-286 | after the first k cells of the paired scan, every tile on those cells is held |
| Packing.MoveEndsPacked | gofusion.go:261-286 | from a steady board, after doMove with its paired scan no tile could slide one more cell, and no unclaimed tile has a tile it could merge with right ahead of it: chains collapse in one pass |
| Packing.VacatedDescent | gofusion.go:264-309 | if a board holds only tiles of a board with distinct cells, each slid forward, and some in-grid cell lost the tile that started there, some in-grid cell is free |
| Packing.FullCoversGrid | gofusion.go:50-73 | sixteen tiles on distinct in-grid cells cover every cell of the grid |
| Packing.FreeCellMeansFreeSlot | gofusion.go:61-73 | on a board of distinct in-grid tiles, a free cell means insertTile finds an empty slot |
| Packing.MoveLeavesRoom | gofusion.go:101-114 | after a move from a steady board that moved something, and the merge that follows, some grid cell is free and some slot is empty, so addRandomTile's retry loop ends and insertTile succeeds |
| SteadyState.NothingMovedNothingChanged | gofusion.go:264-286 | when doMove reports nothing moved, no tile and no marker changed |
| Fixtures.EmptyBoard | gofusion.go:243-251 | clear leaves 16 empty slots |
| Fixtures.AddAllFillsInOrder | gofusion.go:116-120 | addTileAt calls on a board whose first m slots are full and the rest empty fill slots m, m + 1, ... in order and change nothing else |
| Fixtures.FilledBoard | gofusion.go:116-120 | a cleared board filled by addTileAt holds the k-th tile in slot k and nothing after |
| Fixtures.MergeTestBoard | gofusion.go:124-146 | the merge test board fills all 16 slots |
| Fixtures.GameOverTestBoard | gofusion.go:150-171 | the game-over test board leaves a slot free |
| Fixtures.GameOverTestSlots | gofusion.go:150-171 | the game-over test board fills slots 0 to 14 and leaves slot 15 empty |
| Fixtures.MergeTestLayout | gofusion.go:124-146 | slot k of the merge test board holds the tile on (k mod 4, k div 4) with value 4 + 2 (k div 4) + (k mod 4) div 2: two pairs of equal tiles per row |
| Fixtures.GameOverTestLayout | gofusion.go:150-171 | the game-over test board holds 15 tiles row by row, with value 3 + 2 (k div 4) + k mod 2 except 11 at (1, 3), and slot 15 free |
| Fixtures.FixturesAreSteady | gofusion.go:122-171 | both test boards are steady |
| Fixtures.MergeTestPairAt | gofusion.go:122-146 | on the merge test board, moving left, the right tile of every pair targets its partner's cell and merges with that slot, except the pair of 2048 tiles, which cannot merge, so the right one stays |
| Fixtures.FixturesAreWon | gofusion.go:177-190 | gameOverCheck on both test boards answers won and not done; the game-over board is not even full |
| Engine.Tile.constructor | gofusion.go:464-480 | createTile makes a tile at (x, y) with the given value and no merge pending |
| Engine.Game.constructor | gofusion.go:722-733 | the globals as run creates them: an empty board, score 0, the saved high score, no flag raised, not running |
| Startup.AddTiles | gofusion.go:116-120 | addTileAt for each placement in turn gives AddAll of the placements |
| Startup.CreateMergeTest | gofusion.go:122-146 | the board becomes the merge test board |
| Startup.CreateGameOverTest | gofusion.go:148-171 | the board becomes the game-over test board |
| Startup.Launch | gofusion.go:736-738 | run sets up the game-over test board, not a new game, and starts the fall at slot 0, which holds a tile |
| Engine.Game.FreeSpaces | gofusion.go:51-59 | the count is CountNils of the slots, the number of empty slots |
| Engine.Game.InsertTile | gofusion.go:63-73 | the board and the answer are Insert's: the first empty slot gets the tile, only that slot changes |
| Engine.Game.RemoveTile | gofusion.go:77-86 | the answer is whether the tile was on the board; exactly the slot holding it is cleared |
| Engine.Game.Clear | gofusion.go:243-251 | every slot is empty afterwards; the controller's fields are unchanged |
| Engine.Game.TileAt | gofusion.go:90-97 | the answer is the tile in slot FirstAt, or null when the cell is free |
| Engine.Game.AddTileAt | gofusion.go:117-120 | a fresh tile with no marker is inserted as insertTile does |
| Engine.Game.AddRandomTile | gofusion.go:101-114 | given the drawn free cell and value, the board is Insert of that tile |
| Engine.Game.NewGame | gofusion.go:254-259 | the board holds exactly the two drawn tiles, in slots 0 and 1 |
| Engine.Game.GetMoveTarget | gofusion.go:221-240 | the answer is MoveTarget's: the target cell, and the partner's tile object or null |
| Engine.Game.SetTilePos | gofusion.go:499-505 | the tile's cell becomes (x, y); nothing else about it changes |
| Engine.Game.MarkMergePair | gofusion.go:277-282 | the mover gets NextValue = value + 1 and the partner -1 |
| Engine.Game.PlaceTile | gofusion.go:272-282 | the state after one visit is Visit's |
| Engine.Game.MoveTile | gofusion.go:270-283 | the state after handling the tile on the scan cell is Visit of its MoveTarget |
| Engine.Game.MoveTileAt | gofusion.go:269-283 | one loop iteration extends the processed prefix of the scan by one cell |
| Engine.Game.DoMove | gofusion.go:264-286 | the board, moved and enableMerge end as AfterMove with the scan's order; slot objects, score and hiscore are unchanged |
| Engine.Game.PromoteTile | gofusion.go:294-299 | the tile takes its NextValue as value, loses the marker, and the score grows by 1 << NextValue |
| Engine.Game.MergeTile | gofusion.go:293-306 | the slot becomes MergeSlot of itself and the score grows by its gain |
| Engine.Game.DoMerge | gofusion.go:291-309 | the board becomes Merged, the score grows by MergeGain, absorbed tiles leave their slots |
| Engine.Game.GameOverCheck | gofusion.go:177-216 | (done, won) is GameOverState of the board |
| Engine.Game.SetScore | gofusion.go:343-346 | score is set |
| Engine.Game.SetHiScore | gofusion.go:349-355 | hiscore is set |
| Engine.Game.SetRunning | gofusion.go:358-363 | running is set, and starting clears the message |
| Engine.Game.HandleKey | gofusion.go:395-411 | the game is running afterwards; an arrow key runs doMove in its direction with its paired scan, so the board is AfterMove; any other key changes no tile; the slot array's tile objects, score and hiscore are unchanged |
| Engine.KeyDir | gofusion.go:399-408 | the switch of HandleKey: each arrow key's direction, paired by the handler with the strategy ScanFor gives |
| Engine.Game.ReactToOutcome | gofusion.go:424-442 | message, hiscore and fallIndex follow gameOverCheck: done gives a new high score or Game Over with the fall from slot 0, won gives Congratulations; hiscore only rises, to score |
| Engine.Game.FinishMerge | gofusion.go:418-421 | doMerge runs exactly when enableMerge is raised, which ends lowered |
| Engine.Game.FinishMove | gofusion.go:422-444 | after a move, a tile is spawned and the outcome handled; moved ends false and hiscore never decreases |
| Engine.Game.HandleMoveAnimationDone | gofusion.go:417-445 | enableMerge and moved end false; the score grows by exactly the merge gain; the board is merged and, after a move, gains the spawned tile; the message and hiscore follow gameOverCheck; hiscore never decreases |
| Engine.Game.HandleFallAnimationDone | gofusion.go:449-454 | fallIndex advances by one |
| Engine.Game.HandleRestartButton | gofusion.go:457-461 | score is 0, the message is cleared, and the board holds exactly two tiles of value 1 or 2 on distinct cells |

## Left out

- Presentation is not modelled. This covers QML objects and property writes, animations
  (`SetBounce`, `SetFall`, `setBounceAnim`), particle effects (`Emit`, `Done`), `showScore`, the
  message strings (kept as a `Message` tag), `Tile.Paint`, `initTiles`, `main`, and the window
  and QML set-up in `run`. None of these influences the board or the scores. What `run` does to the
  game is modelled: `Engine.Game.constructor` and `Startup.Launch`.
- The settings file (`settings.go`) is not modelled. The high-score write in `SetHiScore` is a
  no-op; the saved high score is a constructor parameter.
- Randomness is not modelled. `randGen`'s draws are parameters: the spawn cell and value of
  `AddRandomTile`, `HandleMoveAnimationDone` and `HandleRestartButton`.
- Engine.Game.AddRandomTile requires the drawn cell to be in the grid and free. The program
  redraws until it hits a free cell and loops forever on a full board.
- Engine.Game.HandleMoveAnimationDone requires a free spawn cell after a move. It inherits this
  from AddRandomTile. `Packing.MoveLeavesRoom` shows such a cell, and an empty slot, exist after
  every move from a steady board that moved something.
- Engine.Game.HandleFallAnimationDone requires the next slot to hold a tile, because the program
  dereferences it. The fall animation itself is not modelled. This requires is not met at start-up.
  `run` (gofusion.go:736-738) starts the fall on the game-over test board, and
  `Fixtures.GameOverTestSlots` shows that its slot 15 is empty. The fifteenth call of
  HandleFallAnimationDone would then call `SetFall` on a nil tile. The model leaves that call out.
- The key codes of `HandleKey` are modelled as the five-way `Key` datatype.
- Integers are unbounded. The program's `int` cannot overflow here: scores stay far below 2^63.
- BoardSpec.Visit writes the moving tile's cell back even when the target is its own cell. The
  source only calls `SetPos` when the cell differs, and the resulting board is the same.
  `Engine.Game.PlaceTile` follows the source.
- The pixel positions and the z-order of `SetPos` are not modelled; only `x` and `y` are updated.
