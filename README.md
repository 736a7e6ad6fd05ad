# Idle mining game core in Dafny

This project models the game logic of a Unity idle-mining game. Pickaxes sit in an inventory grid. The player drops them all at once onto a wall of blocks. A falling pickaxe strikes the block it lands on until the block is depleted or the pickaxe breaks. Each strike pays its damage into the wallet, and depleting a block also pays the block's reward. Once every block of the level is depleted, the next level is scheduled. The price of the next pickaxe is the sum of 2^level over the seated pickaxes: the first pickaxe is free, each purchase of a level-0 pickaxe raises the price by one, and a merge leaves it unchanged. Dragging one pickaxe onto another of the same level merges them. The level, the money, the health of each block and the level held in each cell are persisted in the engine's key/value store (PlayerPrefs) by a save manager that calls each registered save system.

Modules, following the source files. Collections and Prefs model the library behaviour the core relies on, and Progression holds GameManager's level flow, which needs the spawner:

- **Collections**: `List.Remove` as `RemoveFirst`, and duplicate-freedom.
- **Prefs**: PlayerPrefs as a mutable `map<string, int>`. The key names `"LVL"`, `"Money"`, `"block{i}"` and `"cell{i}"` are proved pairwise distinct, and indexed writes are folded into the pure `WriteIndexed`.
- **Economy**: GameManager's wallet and level counter, with their save and load.
- **Blocks**: Block.
- **Spawner** and **Progression**: BlockSpawner, and the level flow of GameManager.
- **Pickaxes**: Pickaxe. Each coroutine resumption becomes one method, and the coroutine's position is explicit state: which strike of HitBlockRoutine comes next, or whether the bounce loop's test comes next. Like the code, a strike digs its target without looking at its health again. `State()` is a datatype snapshot, and every method is tied to a pure transition on it.
- **Cells**: Cell and the static drag state it shares.
- **Inventories**: Inventory.
- **Saving**: SaveManager. The save-system interface becomes the datatype `SaveSystem`, and what a system writes is the value `SystemData`. Saving all systems is the pure fold `SaveAll`, and the lemmas prove what a later load of that store restores.

Engine services and nondeterminism become parameters:

- The random generator is the parameter `next`. `System.Random(seed).Next(lo, hi)` is only required to land in `[lo, hi)`.
- The raycast hits under the pointer are a sequence of cells.
- The blocks found in the scene, with their rectangles, are a sequence of candidates.
- `Random.Range` over the empty cells is a nondeterministic choice.
- Whether a merge upgrade succeeds, and by how much it raises the stats, are parameters.

## Model

| member | source | states |
|---|---|---|
| Collections.RemoveFirst | Assets/Scripts/Inventory.cs:193 | List.Remove leaves the list unchanged when the element is absent, and otherwise shortens it by one |
| Collections.RemoveFirstNoDuplicates | Assets/Scripts/SaveManager.cs:56-59 | on a duplicate-free list, the removal keeps it duplicate-free, removes exactly that element and keeps every other one |
| Collections.RemoveFirstAppended | Assets/Scripts/SaveManager.cs:48-59 | registering an absent system and then unregistering it gives back the original list |
| Prefs.NatToString | Assets/Scripts/Inventory.cs:111 | the decimal rendering inside `$"cell{i}"` is non-empty, all digits, and a single digit exactly below ten |
| Prefs.NatToStringInjective | Assets/Scripts/Inventory.cs:111 | different indices render differently |
| Prefs.IndexedKeyInjective | Assets/Scripts/BlockSpawner.cs:108 | two keys with the same prefix are equal only for the same index |
| Prefs.KeyNamespacesDisjoint | Assets/Scripts/GameManager.cs:108-109 | the keys `block{i}`, `cell{j}`, `LVL` and `Money` are pairwise distinct, so no system overwrites another's data |
| Prefs.WriteIndexed | Assets/Scripts/Inventory.cs:105-117 | the indexed writes only add or overwrite keys: every key of the old store is still present |
| Prefs.WriteIndexedAt | Assets/Scripts/Inventory.cs:105-117 | after the indexed writes, key `prefix{i}` holds the i-th value |
| Prefs.WriteIndexedOther | Assets/Scripts/BlockSpawner.cs:106-109 | a key that is not one of the indexed keys keeps its entry, or stays absent |
| Prefs.WriteIndexedKeys | Assets/Scripts/Inventory.cs:105-117 | the indexed writes add exactly the keys `prefix0` to `prefix{n-1}` |
| Prefs.PlayerPrefs.GetInt | Assets/Scripts/GameManager.cs:114-115 | returns the stored value when the key is present, and the default otherwise |
| Prefs.PlayerPrefs.SetInt | Assets/Scripts/GameManager.cs:108-109 | the store afterwards maps the key to the value, and nothing else changes |
| Prefs.PlayerPrefs.Save | Assets/Scripts/SaveManager.cs:80 | one flush more; the entries are untouched |
| Economy.ApplyOp | Assets/Scripts/GameManager.cs:89-104 | from non-negative funds the wallet stays non-negative; a spend subtracts the amount exactly when the funds cover it and otherwise changes nothing; a non-negative add never lowers the money |
| Economy.MoneyNeverNegative | Assets/Scripts/GameManager.cs:89-104 | from non-negative funds, any sequence of non-negative adds and spends keeps the wallet non-negative |
| Economy.RefusedSpendIsNoOp | Assets/Scripts/GameManager.cs:95-104 | a spend beyond the funds is absorbed: what follows it ends the same as if it had not happened |
| Economy.LoadEconomy | Assets/Scripts/GameManager.cs:112-116 | with neither key stored, the load gives level 1 and money 0 |
| Economy.EconomyRoundTrip | Assets/Scripts/GameManager.cs:106-116 | loading what SaveData wrote restores level and money, whatever the store held before |
| Economy.GameManager.constructor | Assets/Scripts/GameManager.cs:7-8 | the static level starts at 1 and the money at 0 |
| Economy.GameManager.AddMoney | Assets/Scripts/GameManager.cs:89-93 | the money grows by the amount |
| Economy.GameManager.SpendMoney | Assets/Scripts/GameManager.cs:95-104 | succeeds exactly when the funds cover the amount, deducting it then and leaving the money untouched otherwise |
| Economy.GameManager.OnLevelCompleted | Assets/Scripts/GameManager.cs:84-87 | schedules one more delayed NextLevel |
| Economy.GameManager.SaveData | Assets/Scripts/GameManager.cs:106-110 | the store afterwards is the old store with `LVL` and `Money` set to the current level and money |
| Economy.GameManager.LoadData | Assets/Scripts/GameManager.cs:112-119 | level and money are what the store holds, with defaults 1 and 0 |
| Blocks.DiggedHealth | Assets/Scripts/Block.cs:40 | the new health is zero or health minus damage, never negative, and never above the old health for non-negative inputs |
| Blocks.Block.constructor | Assets/Scripts/Block.cs:33-36 | a new block has full health and is visible |
| Blocks.Block.Dig | Assets/Scripts/Block.cs:38-48 | health drops to DiggedHealth; the damage is always paid, the reward is paid too exactly when the health reaches zero, and then the block is hidden and reports onDigged |
| Blocks.Block.Digged | Assets/Scripts/Block.cs:68-73 | pays the reward and hides the block |
| Blocks.Block.Deactive | Assets/Scripts/Block.cs:75-80 | the block is hidden |
| Blocks.Block.SetCurHealth | Assets/Scripts/Block.cs:25-29 | the setter stores the value |
| Blocks.DigTwiceScenario | Assets/Scripts/Block.cs:38-48 | a 5-health, 5-reward block dug twice with damage 3 ends at health 0, having paid 11 |
| Blocks.DigDepletedScenario | Assets/Scripts/Block.cs:38-48 | a dig on a block already at zero health pays the damage and the reward again and reports onDigged again |
| Spawner.Seed | Assets/Scripts/BlockSpawner.cs:38 | block i of a level gets a seed inside that level's own window of `_blocksCount` seeds |
| Spawner.SeedsDistinct | Assets/Scripts/BlockSpawner.cs:38 | within one lineup size, distinct (level, block index) pairs get distinct seeds |
| Spawner.LaterLevelSeedsAbove | Assets/Scripts/BlockSpawner.cs:38 | every seed of a later level exceeds every seed of an earlier one |
| Spawner.LevelThird | Assets/Scripts/BlockSpawner.cs:39 | C#'s `level / 3` truncates toward zero, for negative levels too |
| Spawner.Draw | Assets/Scripts/BlockSpawner.cs:39 | with a proper generator the unclamped draw lies between `level/3 - 2` and `level/3` |
| Spawner.Clamp | Assets/Scripts/BlockSpawner.cs:39 | Mathf.Clamp lands in the range, and leaves values already inside it unchanged |
| Spawner.BlockIndex | Assets/Scripts/BlockSpawner.cs:38-39 | the chosen prefab index is always valid; with a proper generator it lies between the clamped `level/3 - 2` and `level/3` |
| Spawner.BlockHealthRoundTrip | Assets/Scripts/BlockSpawner.cs:100-126 | loading a saved health gives back that block's health, whatever the store held |
| Spawner.BlockSpawner.constructor | Assets/Scripts/BlockSpawner.cs:7-10 | no lineup yet |
| Spawner.BlockSpawner.GenerateBlocks | Assets/Scripts/BlockSpawner.cs:30-44 | exactly `_blocksCount` new, distinct blocks; block i is a fresh copy of the prefab that its own seeded draw picks |
| Spawner.BlockSpawner.ClearBlocks | Assets/Scripts/BlockSpawner.cs:46-60 | the lineup is dropped |
| Spawner.BlockSpawner.CheckBlocks | Assets/Scripts/BlockSpawner.cs:64-74 | reports onDiggedAll exactly when no block of the lineup has health left |
| Spawner.BlockSpawner.SaveData | Assets/Scripts/BlockSpawner.cs:100-110 | writes `block{i}` as the health of block i; writes nothing before the first generation |
| Spawner.RestoredLineup | Assets/Scripts/BlockSpawner.cs:112-126 | the restored lineup has one block per lineup slot |
| Spawner.BlockSpawner.LoadData | Assets/Scripts/BlockSpawner.cs:112-126 | regenerates the level with fresh blocks; the lineup is RestoredLineup of that level and the store: block i is its drawn prefab with the stored `block{i}` as health when present, else the prefab maximum, and a stored health at or below zero hides it |
| Progression.GenerateLevel | Assets/Scripts/GameManager.cs:72-77 | sets the level, then the spawner builds that level's lineup |
| Progression.NextLevel | Assets/Scripts/GameManager.cs:79-82 | the level goes up by one and the lineup of the new level is built |
| Progression.OnBlockDigged | Assets/Scripts/BlockSpawner.cs:64-74 | every call that finds the lineup depleted schedules one more NextLevel |
| Progression.RunScheduledNextLevel | Assets/Scripts/GameManager.cs:84-87 | a due scheduled call consumes one pending advance, moves up one level and builds the new level's lineup: block i is a fresh copy of the prefab its seeded draw picks for that level |
| Progression.LevelSkipScenario | Assets/Scripts/GameManager.cs:84-87 | a level whose single block is dug again after depletion pays twice and advances two levels |
| Pickaxes.Reset | Assets/Scripts/Pickaxe.cs:233-247 | back at rest at full durability with nothing running; stats and level kept |
| Pickaxes.Started | Assets/Scripts/Pickaxe.cs:42-53 | afterwards the pickaxe falls exactly when it was falling already or has durability left |
| Pickaxes.BeginReturn | Assets/Scripts/Pickaxe.cs:209-212 | neither falling nor bouncing, with a return under way; durability and target kept |
| Pickaxes.Stopped | Assets/Scripts/Pickaxe.cs:225-231 | only a falling pickaxe starts its return; anything else is left as it was |
| Pickaxes.StartStopKeepInv | Assets/Scripts/Pickaxe.cs:42-53 | starting and stopping an attack both keep the coroutine invariant |
| Pickaxes.StartedIdempotent | Assets/Scripts/Pickaxe.cs:44-47 | a second StartAttack changes nothing |
| Pickaxes.Upgraded | Assets/Scripts/Pickaxe.cs:249-254 | maximum durability and damage grow by the increments, then the pickaxe is reset |
| Pickaxes.Merged | Assets/Scripts/Cell.cs:163-171 | a successful merge upgrade raises the level by one and resets; a failed one changes nothing |
| Pickaxes.Overlaps | Assets/Scripts/Pickaxe.cs:167-178 | an overlap puts the pickaxe's bottom within the block's height of the block's top, and the spans overlap horizontally |
| Pickaxes.Distance | Assets/Scripts/Pickaxe.cs:182 | non-negative, and equal to the gap between the pickaxe's bottom and the block's top |
| Pickaxes.Qualifies | Assets/Scripts/Pickaxe.cs:156-180 | only a live block with a rectangle qualifies, and then the pickaxe is within the block's height of it |
| Pickaxes.IsClosest | Assets/Scripts/Pickaxe.cs:145-193 | a collision result reports none exactly when no candidate qualifies |
| Pickaxes.ClosestUnique | Assets/Scripts/Pickaxe.cs:145-193 | the reported collision is determined by the scene and the pickaxe's box |
| Pickaxes.CheckBlockCollision | Assets/Scripts/Pickaxe.cs:145-193 | none when no live, active, rectangled block overlaps; otherwise the overlapping block nearest the pickaxe's bottom edge, the first found on a tie |
| Pickaxes.Pickaxe.constructor | Assets/Scripts/Pickaxe.cs:33-39 | a new pickaxe has full durability and is at rest |
| Pickaxes.Pickaxe.StartAttack | Assets/Scripts/Pickaxe.cs:42-53 | the state becomes `Started` of the old state |
| Pickaxes.Pickaxe.FallStep | Assets/Scripts/Pickaxe.cs:55-73 | the loop ends once the pickaxe no longer falls; otherwise the collision is the closest one, and a live block other than the current target becomes the target of a new strike sequence |
| Pickaxes.Pickaxe.Strike | Assets/Scripts/Pickaxe.cs:94-133 | after the wait a strike digs the target whatever its health has become, pays the damage and the reward if the target is depleted, and costs one durability; at zero the pickaxe breaks and returns; a depleted target is released and falling resumes; otherwise the loop test comes next |
| Pickaxes.Pickaxe.LoopHead | Assets/Scripts/Pickaxe.cs:114-141 | the bounce loop continues exactly when the target still has health; otherwise bouncing ends |
| Pickaxes.Pickaxe.ReachBottom | Assets/Scripts/Pickaxe.cs:75-79 | the fall ends in a return |
| Pickaxes.Pickaxe.StopAttack | Assets/Scripts/Pickaxe.cs:225-231 | the state becomes `Stopped` of the old state |
| Pickaxes.Pickaxe.ReturnComplete | Assets/Scripts/Pickaxe.cs:219-222 | the end of a return resets the pickaxe and keeps the invariant |
| Pickaxes.Pickaxe.ResetPickaxe | Assets/Scripts/Pickaxe.cs:233-247 | the state becomes `Reset` of the old state |
| Pickaxes.Pickaxe.UpgradePickaxe | Assets/Scripts/Pickaxe.cs:249-254 | the state becomes `Upgraded` of the old state |
| Pickaxes.Pickaxe.TryUpgrade | Assets/Scripts/Cell.cs:165 | reports the upgrade's outcome; the state becomes `Merged` of the old state |
| Pickaxes.LandOn | Assets/Scripts/Pickaxe.cs:55-73 | a new pickaxe dropped above a live block makes it its target and waits to strike it |
| Pickaxes.SharedTargetScenario | Assets/Scripts/Pickaxe.cs:94-119 | two pickaxes on one block of health 2 and reward 5: the second depletes it, and the first one's next strike digs it again, paying twice and raising onDigged twice |
| Cells.DragSession.constructor | Assets/Scripts/Cell.cs:14-15 | no drag in progress |
| Cells.Cell.SetPickaxe | Assets/Scripts/Cell.cs:225-249 | the cell holds the given pickaxe, which is stopped if it was falling |
| Cells.Cell.HasPickaxe | Assets/Scripts/Cell.cs:251-254 | true exactly when the cell is occupied |
| Cells.Cell.OnPointerDown | Assets/Scripts/Cell.cs:28-39 | a left press on an occupied cell, while no drag is under way, lifts its pickaxe into the drag; anything else changes nothing |
| Cells.Cell.StartDrag | Assets/Scripts/Cell.cs:54-71 | the drag holds this cell's pickaxe and starts here; the cell is empty meanwhile |
| Cells.FirstDropCell | Assets/Scripts/Cell.cs:203-223 | none exactly when every hit is no cell or the start cell; otherwise a cell other than the start cell that comes before every other such hit |
| Cells.Cell.OnPointerUp | Assets/Scripts/Cell.cs:41-52 | a left release during a drag ends it and clears the drag state, with the outcome and the frame EndDrag states; otherwise nothing changes |
| Cells.Cell.EndDrag | Assets/Scripts/Cell.cs:122-151 | the drag state is cleared; with no cell under the pointer the pickaxe goes back to its start cell, or is destroyed when there is none; on an empty cell it moves there; on a same-level pickaxe whose upgrade succeeds it is destroyed and the target merged; otherwise the target keeps its pickaxe unchanged and the dragged one goes back; every other hit cell keeps its pickaxe, and every pickaxe but the dragged one and the target's keeps its state; only the dragged pickaxe can be reported destroyed |
| Cells.Cell.HandleDropOnCell | Assets/Scripts/Cell.cs:153-182 | an empty target receives the pickaxe; a same-level target whose upgrade succeeds is merged and the dragged pickaxe destroyed; otherwise the target pickaxe is left as it was and the dragged pickaxe returns to its start cell, or is destroyed without one; the start cell is untouched by a move or a merge |
| Cells.Cell.ReturnPickaxeToStartCell | Assets/Scripts/Cell.cs:184-195 | the start cell gets the pickaxe back; without a start cell the pickaxe is destroyed |
| Cells.Cell.ResetDragState | Assets/Scripts/Cell.cs:197-201 | no drag in progress |
| Cells.Cell.GetCellUnderCursor | Assets/Scripts/Cell.cs:203-223 | the loop's result is `FirstDropCell` of the hits |
| Cells.Gesture | Assets/Scripts/Cell.cs:28-52 | a press on one cell and a release over another alone: the pickaxe moves into an empty cell, merges into a same-level pickaxe whose upgrade succeeds, or otherwise returns to its start cell |
| Inventories.Weight | Assets/Scripts/Inventory.cs:97 | a cell adds nothing to the price exactly when it is empty |
| Inventories.Cost | Assets/Scripts/Inventory.cs:89-101 | the price is at least the number of seated pickaxes |
| Inventories.CostUpdate | Assets/Scripts/Inventory.cs:89-101 | changing one cell's level changes the price by the difference of the two weights |
| Inventories.CostZeroIffEmpty | Assets/Scripts/Inventory.cs:168-171 | the price is zero exactly when every cell is empty, so the first pickaxe is free |
| Inventories.AddRaisesCost | Assets/Scripts/Inventory.cs:173-189 | a purchase that seats a level-0 pickaxe raises the next price by one |
| Inventories.MergeKeepsCost | Assets/Scripts/Cell.cs:163-171 | merging two pickaxes of level l into one of level l + 1 leaves the price unchanged |
| Inventories.OccupiedUpdate | Assets/Scripts/Inventory.cs:74-87 | changing one cell's level changes the pickaxe count only when the cell is emptied or filled |
| Inventories.MergeDropsCount | Assets/Scripts/Cell.cs:163-171 | a successful merge leaves one pickaxe fewer in the grid |
| Inventories.DropLevels | Assets/Scripts/Cell.cs:153-182 | after a drop from cell i on cell j only those two cells change: i is emptied exactly by a move or a merge, and j gets the dragged level, one level more, or keeps its own |
| Inventories.DropCounts | Assets/Scripts/Cell.cs:153-182 | a move or a merge leaves the price unchanged; a merge leaves one pickaxe fewer and every other drop the same number |
| Inventories.SlotLevel | Assets/Scripts/Inventory.cs:107-116 | -1 exactly for an empty cell, otherwise the pickaxe's level |
| Inventories.SeatedListOf | Assets/Scripts/Inventory.cs:125-135 | the pickaxes seated in the cells, in grid order, are the non-null part of what was placed |
| Inventories.SeatedListHas | Assets/Scripts/Inventory.cs:162-165 | every occupied cell's pickaxe is in the seated list |
| Inventories.SeatedListIn | Assets/Scripts/Inventory.cs:162-165 | every pickaxe in the seated list sits in one of the cells |
| Inventories.StartEach | Assets/Scripts/Inventory.cs:162-165 | every listed pickaxe is started once, even when listed twice |
| Inventories.CellsWhereMembers | Assets/Scripts/Inventory.cs:59-87 | the filtered cells are exactly the cells in the asked state |
| Inventories.CellsPartition | Assets/Scripts/Inventory.cs:59-87 | every cell is either empty or occupied |
| Inventories.LoadedLevels | Assets/Scripts/Inventory.cs:125-135 | one entry per cell, each -1 or a level |
| Inventories.CellsRoundTrip | Assets/Scripts/Inventory.cs:103-136 | loading what SaveData wrote gives back every cell's level |
| Inventories.Inventory.constructor | Assets/Scripts/Inventory.cs:6-9 | an empty grid and an empty pickaxe list |
| Inventories.Inventory.GetEmptyCells | Assets/Scripts/Inventory.cs:59-72 | the empty cells, in grid order |
| Inventories.Inventory.GetOccupiedCells | Assets/Scripts/Inventory.cs:74-87 | the occupied cells, in grid order |
| Inventories.Inventory.GetPickaxeCount | Assets/Scripts/Inventory.cs:89-101 | the sum of 2^level over the seated pickaxes |
| Inventories.Inventory.GetNextCostOfPickaxe | Assets/Scripts/Inventory.cs:168-171 | the price is that sum |
| Inventories.Inventory.SeatNewPickaxe | Assets/Scripts/Inventory.cs:49-53 | a fresh prefab copy at the given level sits in the cell and is appended to the list |
| Inventories.Inventory.AddPickaxe | Assets/Scripts/Inventory.cs:39-57 | succeeds exactly when some cell is empty; then exactly one empty cell gets a fresh pickaxe of the level, which is appended to the list; otherwise nothing changes |
| Inventories.Inventory.SeatSaved | Assets/Scripts/Inventory.cs:125-135 | over an empty grid, each cell gets a fresh pickaxe of its stored level exactly when that level is not -1, and the list is the seated pickaxes in grid order |
| Inventories.Inventory.SaveData | Assets/Scripts/Inventory.cs:103-119 | writes `cell{i}` as the level in cell i, or -1 for an empty cell, then flushes once |
| Inventories.Inventory.SaveCell | Assets/Scripts/Inventory.cs:107-116 | one pass of the save loop writes `cell{i}` as cell i's level, extending the indexed writes by one |
| Inventories.Inventory.LoadData | Assets/Scripts/Inventory.cs:121-136 | the grid's levels become those the store holds, or empty where it holds none or a negative level; the cells are filled with fresh prefab copies listed in grid order |
| Inventories.Inventory.ClearInventory | Assets/Scripts/Inventory.cs:138-150 | every cell is empty and the list is empty |
| Inventories.Inventory.SomePickaxeFalling | Assets/Scripts/Inventory.cs:154-161 | true exactly when some seated pickaxe is falling |
| Inventories.Inventory.DropAll | Assets/Scripts/Inventory.cs:152-166 | when a pickaxe is still falling nothing changes; otherwise every seated pickaxe is started |
| Inventories.Inventory.StartSeated | Assets/Scripts/Inventory.cs:162-165 | the start loop starts the pickaxe of every occupied cell |
| Inventories.Inventory.BuyPickaxe | Assets/Scripts/Inventory.cs:173-189 | refused, with nothing changed, while a pickaxe falls or when the money does not cover the price; otherwise the price is paid; with an empty cell, one empty cell gets a fresh level-0 prefab copy, which is appended to the list, every other cell keeps its pickaxe and the next price rises by one; with a full grid the money is spent and every cell keeps its pickaxe |
| Inventories.Inventory.AddBought | Assets/Scripts/Inventory.cs:186 | once paid for, a fresh level-0 prefab copy is seated in an empty cell and appended to the list, every other cell keeps its pickaxe and the price rises by one; with a full grid nothing changes |
| Inventories.Inventory.DragAndDrop | Assets/Scripts/Cell.cs:28-182 | a whole drag from cell i to cell j of the grid turns its levels into `DropLevels` of the old ones, and reports the dragged pickaxe destroyed exactly when it merged |
| Inventories.Inventory.UpdatePickaxes | Assets/Scripts/Inventory.cs:191-193 | the destroyed pickaxe leaves the list, and every other pickaxe stays |
| Saving.SaveOne | Assets/Scripts/SaveManager.cs:76-79 | a system's save keeps every key already stored |
| Saving.SaveAll | Assets/Scripts/SaveManager.cs:74-81 | saving all systems keeps every key already stored |
| Saving.SaveOneOther | Assets/Scripts/SaveManager.cs:76-79 | a system's save leaves every key it does not write as it was |
| Saving.SaveAllOther | Assets/Scripts/SaveManager.cs:74-81 | a key no system writes keeps its entry |
| Saving.SaveAllAppend | Assets/Scripts/SaveManager.cs:74-81 | saving a concatenation is saving one part, then the other |
| Saving.SaveAllFrom | Assets/Scripts/SaveManager.cs:74-81 | the value a system writes survives every later save that does not write its key |
| Saving.EconomyRestored | Assets/Scripts/SaveManager.cs:74-89 | after saving all systems, the economy's load gives the level and money of the last economy saved |
| Saving.CellsRestored | Assets/Scripts/SaveManager.cs:74-89 | after saving all systems, an inventory's load gives back the cell levels the last inventory saved |
| Saving.BlocksRestored | Assets/Scripts/SaveManager.cs:74-89 | after saving all systems, each block key holds the health the last spawner saved, when it had a lineup |
| Saving.OutsideLoadFrame | Assets/Scripts/SaveManager.cs:83-89 | loading touches neither the save manager nor the store |
| Saving.SaveManager.constructor | Assets/Scripts/SaveManager.cs:14 | no system registered |
| Saving.SaveManager.RegisterSaveSystem | Assets/Scripts/SaveManager.cs:48-54 | appends a system not yet registered; registering it again changes nothing; the registry stays duplicate-free |
| Saving.SaveManager.UnregisterSaveSystem | Assets/Scripts/SaveManager.cs:56-59 | removes the first occurrence; in a duplicate-free registry, the system is gone afterwards |
| Saving.SaveManager.SaveSystemData | Assets/Scripts/SaveManager.cs:78 | the store after one system's SaveData is `SaveOne` of what it held; what every other system would save is untouched |
| Saving.SaveManager.LoadSystemData | Assets/Scripts/SaveManager.cs:87 | the economy loads level and money, a spawner restores the lineup of the current level from the store, an inventory loads its levels; each leaves the other kinds' state alone |
| Saving.SaveManager.LoadAllData | Assets/Scripts/SaveManager.cs:83-89 | after loading every system in order: level and money come from the store, every spawner holds a lineup, each spawner's last load restored the lineup of the level current then (the stored level once the economy has loaded, else the old one), and the last inventory's levels are those the store holds |
| Saving.SaveManager.LoadEntry | Assets/Scripts/SaveManager.cs:85-88 | one pass of the load loop keeps what holds of the systems loaded so far, with this one included |
| Saving.SaveManager.SaveAllData | Assets/Scripts/SaveManager.cs:74-81 | the store becomes `SaveAll` of what each registered system held, in registry order, then it is flushed once more |
| Saving.SaveManager.OnApplicationQuit | Assets/Scripts/SaveManager.cs:61-64 | saves everything |
| Saving.SaveManager.OnApplicationPause | Assets/Scripts/SaveManager.cs:66-72 | going to the background saves everything; coming back changes nothing |

## Behaviour of the code worth knowing

- A dig does not check the block's health (Block.cs:38-48). A dig on a depleted block pays the damage and the reward again and raises onDigged again.
- No strike re-checks the target after its wait. The first strike (Pickaxe.cs:97) and every strike of the bounce loop (Pickaxe.cs:119) dig the target even when another pickaxe depleted it during the wait; the loop test (Pickaxe.cs:114) comes before the wait. `Pickaxes.SharedTargetScenario` shows a block paid for twice this way.
- Each onDigged on a depleted lineup schedules one more NextLevel.
- The scenarios `Blocks.DigDepletedScenario` and `Progression.LevelSkipScenario` show the consequence: the wallet and the level counter both advance by more than one level's worth.
- `BuyPickaxe` spends the money before it checks for an empty cell. With a full grid, `AddPickaxe` is refused and the money is gone (Inventory.cs:184-186). `Inventories.Inventory.BuyPickaxe` states this case.

## Left out

- Rendering, tweens, timing and waits are not modelled: sprites, colours, DOTween moves, rotation, `WaitForSeconds`, and the two-second delay of `Invoke`. Coroutine resumptions are separate methods, called in the order the engine would resume them, and the delayed `NextLevel` is the counter `pendingNextLevel`.
- Block.UpdateDestroyState (Block.cs:50-66) and BlockSpawner.GetBlockAtPosition (BlockSpawner.cs:76-98) are left out. The first only picks a crack sprite, when the block has at least one (see below). The second only computes floating-point distances and has no caller in the core.
- Float geometry is left out. The fall, the screen-bottom test and the world-size computation are not modelled. Rectangles are `real`, so there is no float rounding. `float.MaxValue` as the initial distance becomes "no candidate yet".
- Engine object lookup is left out. `FindObjectsOfType`, `GetComponent`, `GetComponentsInChildren`, raycasts and the pointer position become parameters. Cell.UpdatePickaxeState (Cell.cs:273-283) reads the scene hierarchy, so it is not modelled.
- Cell.InitializeWithPickaxe (Cell.cs:261-269) has no caller in the core. Its effect, seating a new prefab copy at a level, is what `Inventories.Inventory.SeatNewPickaxe` models.
- `System.Random` and `Random.Range` are left out as algorithms. The generator is a parameter, and the empty cell is chosen nondeterministically.
- Pickaxe.cs defines no level: it has no `GetLvl()` and no `SetPickaxe(int)`, and its only upgrade is `UpgradePickaxe(int, int)` (Pickaxe.cs:249-254). The core still calls `GetLvl()` (Cell.cs:163, Inventory.cs:97, Inventory.cs:111), `SetPickaxe(int)` on a new pickaxe (Inventory.cs:51, Inventory.cs:130, Cell.cs:266) and a parameterless `UpgradePickaxe()` returning bool (Cell.cs:165). The model reads `GetLvl()` as the field `level` and `SetPickaxe(int)` as the constructor's `level` argument. The upgrade's outcome and its stat increments are parameters of `TryUpgrade`.
- Integer width is left out: `int` is unbounded. `Mathf.Pow` is computed over floats and cast back to `int`, which could lose precision or overflow at very high levels; `Cost` is exact.
- The UI is left out: the OnMoneyChanged, OnLevelChanged, OnDurabilityChanged, OnPickaxeBreak and UpdateBuyButtonText callbacks.
- Singletons, `Awake`/`Start`/`OnDestroy` wiring and `DontDestroyOnLoad` are not modelled. Registration and unregistration are modelled as the operations they call.
- PlayerPrefs.Save writing to disk is modelled as a flush counter.
- Inventories.Inventory.ClearInventory: Destroy is modelled as emptying the cell immediately. In the engine the cell keeps a reference that reads as null once the object is destroyed.
- Inventories.Inventory.UpdatePickaxes: does not model the refresh of every cell from the scene hierarchy that follows the removal, for the reason given for UpdatePickaxeState.
- Pickaxes.Pickaxe.StartAttack: a StartAttack during the return's wait, after StopAttack has cleared the falling flag, starts a second FallingRoutine in the engine while the first is still suspended. The model keeps a single routine (the `fallRoutine` flag and one hit stage), so two routines of one pickaxe running at once are not described.
- Saving.SaveManager.LoadAllData: states the economy, the spawners and the last registered inventory. An earlier-registered inventory whose cells a later one shares is not described.
- Blocks.Block.Dig and Blocks.Block.SetCurHealth: assume the block's prefab has at least one crack sprite. With none, UpdateDestroyState (Block.cs:50-66) clamps the sprite index to -1 and reads `_destroyStates[-2]` while the block still has health. That throws inside `Dig` after the damage is paid (Block.cs:42) and inside the health setter that the spawner's load uses (BlockSpawner.cs:119). The model lets both complete.
- Inventories.Inventory.constructor and Pickaxes.Pickaxe.constructor: assume the prefab's durability is not negative, as the serialized default of 10 is.
