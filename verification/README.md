# Quests, inventory and guarded systems of a text RPG, in Dafny

This project models the in-memory core of a small Kotlin text-adventure
exercise, together with two smaller pieces next to it:

- **Items and inventory** (`src/main/kotlin/10slesor.kt`). An item has an id,
  a name, a description, a value and an effect on the player. The inventory is
  an ordered list of items in acquisition order, with append, indexed
  remove/use and queries by id.
- **Quests and the quest manager** (`10slesor.kt`). A quest has `isActive`
  and `isCompleted` flags. Completion is gated on the player holding the
  required item, and completing hands over the reward item. The manager is an
  insertion-ordered map from quest id to quest, with start and check-all
  operations.
- **The player** (`10slesor.kt`). Combat stats plus the inventory and
  quest manager it owns, with `pickUpItem` and `usePotion`. The quest part of
  `main` (herb quest, amulet reward) is proved step by step: the journal it
  builds, the check after the herb is found, and, as a contrast `main` does
  not itself run, a check before it.
- **Guarded game systems** (`src/main/kotlin/13slessor.kt`). `executeSafely`
  turns a thrown exception into `null`. `InventorySystem` and `CombatSystem`
  check their initialisation flag and validate their arguments.
- **Save-file text** (`src/main/kotlin/12slesor.kt`). The four-line layout
  written by `savePlayerData`, and the `key: value` line parser of
  `loadPlayerData`.

Everything is immutable data and pure functions. A Kotlin method that mutates
its object and returns a `Boolean` becomes a function returning a
`(bool, new state)` tuple. An item's effect, a Kotlin closure
`(Player) -> Unit`, becomes a pure function `Stats -> Stats` on the player's
combat stats (name, health, attack). A thrown exception becomes the value
`Threw(message)` of the `Outcome` datatype.

Files and modules:

| file | module | models |
|---|---|---|
| `wrappers.dfy` | `Wrappers` | `Option`, standing for Kotlin's nullable types |
| `text.dfy` | `Text` | Kotlin's `Char.isWhitespace`, `isBlank`, `trim`, `lines`, `joinToString`, `Int.toString` |
| `items.dfy` | `Items` | `Item`, `Inventory` |
| `quests.dfy` | `Quests` | `Quest`, `QuestManager` |
| `players.dfy` | `Players` | `Player`, the demonstration in `main` |
| `systems.dfy` | `GameSystems` | `GameSystem.executeSafely`, `CombatSystem`, `InventorySystem` |
| `savefiles.dfy` | `SaveFiles` | the text side of `RobustSaveSystem` |

Behaviour of the code that the model keeps, although a reader might expect otherwise:

- `removeItem` returns `false` on every path, including after a successful
  removal. The "invalid index" message is not in an `else`, so the call never
  reports an out-of-range index differently. `Items.RemoveItem` keeps this
  behaviour. The version that reports success is proved next to it (see Findings).
- `completeQuest` sets `isActive = true`, so a completed quest remains in
  `getActiveQuests()` and is visited again by later `checkAllQuests` passes.
  Those later checks return false and change nothing.
- `usePotion` applies the first health potion's effect but does not remove
  the potion from the inventory.
- `rewardGold` is announced but never credited, since the player has no gold
  field. The model carries the field and credits nothing.
- The quest map is a `LinkedHashMap`, so `addQuest` with an id already
  present replaces the quest but keeps that id's original position in the
  iteration order.

## Model

| member | source | states |
|---|---|---|
| `Items.UsePlainItemIsNoOp` | src/main/kotlin/10slesor.kt:3-13 | `Item.use` applies the item's effect; an item built with the default effect `{}` leaves the player unchanged |
| `Items.AddItem` | src/main/kotlin/10slesor.kt:25-29 | `addItem` appends: the length grows by one, every earlier position is unchanged, and the new item is last |
| `Items.AddItemCount` | src/main/kotlin/10slesor.kt:25-29 | after `addItem` the added id's count rises by one, every other id's count is unchanged, and `hasItem` holds for the added id |
| `Items.RemoveItem` | src/main/kotlin/10slesor.kt:31-40 | `removeItem` always returns false; on a valid index it removes exactly that position and shifts later items forward; on an invalid index the list is unchanged |
| `Items.RemoveItemReportsFailureOnSuccess` | src/main/kotlin/10slesor.kt:31-40 | as written, removing the only item empties the inventory and still reports false; the intended version reports true |
| `Items.RemoveItemIntended` | src/main/kotlin/10slesor.kt:31-40 | corrected `removeItem`: true exactly on a valid index, with the same resulting list as written |
| `Items.RemoveAtCount` | src/main/kotlin/10slesor.kt:34 | removing a position lowers the count of exactly that item's id by one |
| `Items.UseItem` | src/main/kotlin/10slesor.kt:42-51 | `useItem` succeeds iff the index is valid; it then applies that item's effect to the player once and removes exactly that position; otherwise inventory and player are unchanged |
| `Items.FindItemById` | src/main/kotlin/10slesor.kt:66-71 | `findItemById` returns the first item in order with that id, or null iff no item has it |
| `Items.CountItems` | src/main/kotlin/10slesor.kt:77-79 | `countItems` is at most the inventory size, and is zero iff no item has the id |
| `Items.QueriesAgree` | src/main/kotlin/10slesor.kt:66-79 | `hasItem` iff `countItems > 0` iff `findItemById != null` |
| `Items.CountConcat` | src/main/kotlin/10slesor.kt:77-79 | the count of an id over two lists put together is the sum of the two counts |
| `Items.HasItemExtends` | src/main/kotlin/10slesor.kt:72-75 | an id present stays present when items are only appended |
| `Quests.NewQuest` | src/main/kotlin/10slesor.kt:100-110 | a new quest is neither active nor completed and keeps every field it was given: id, name, description, required item, gold and reward item |
| `Quests.CheckCompletion` | src/main/kotlin/10slesor.kt:112-139 | `checkCompletion` returns true iff the quest is active, not completed, has a required id and the inventory holds it; then only `isCompleted` changes, `isActive` stays true, and the reward item (if any) is appended; otherwise nothing changes |
| `Quests.CompletionIdempotent` | src/main/kotlin/10slesor.kt:113-125 | a completed quest is never checked again: a second check returns false, keeps the quest active and grants no second reward |
| `Quests.TransitionsKeepConsistent` | src/main/kotlin/10slesor.kt:112-174 | starting and checking preserve "completed implies active" |
| `Quests.EmptyManager` | src/main/kotlin/10slesor.kt:155 | a new manager is empty and satisfies the manager invariant |
| `Quests.AddQuest` | src/main/kotlin/10slesor.kt:157-160 | `addQuest` files the quest under its id and overwrites any earlier quest there; other ids are unchanged; a new id goes last in iteration order, while an existing id keeps its place; the invariant is preserved |
| `Quests.GetQuest` | src/main/kotlin/10slesor.kt:162-164 | `getQuest` is null iff the id is not registered, and otherwise returns the registered quest |
| `Quests.GetAfterAdd` | src/main/kotlin/10slesor.kt:157-164 | after `addQuest(q)`, `getQuest(q.id)` returns `q` and every other lookup is unchanged |
| `Quests.StartQuest` | src/main/kotlin/10slesor.kt:166-174 | `startQuest` succeeds iff the id is registered and its quest is not completed; it then sets only that quest's `isActive`; on failure nothing changes |
| `Quests.ActiveAmong` | src/main/kotlin/10slesor.kt:180 | filtering keeps exactly the registered active ids, no duplicates, and their relative order in the map's iteration order |
| `Quests.GetActiveQuests` | src/main/kotlin/10slesor.kt:197-200 | `getActiveQuests` lists only active quests, each the registered quest under its id, each at most once, every active quest, in insertion order |
| `Quests.CheckCompletionGrants` | src/main/kotlin/10slesor.kt:112-139 | `checkCompletion` appends exactly the reward item of the change it makes, and nothing when it changes nothing |
| `Quests.RewardsHasItem` | src/main/kotlin/10slesor.kt:135-137 | an item id is among the rewards of a pass iff some quest in it went from open to completed with a reward item of that id |
| `Quests.CheckEachSpec` | src/main/kotlin/10slesor.kt:180-182 | visiting quests in order with `checkCompletion`: the inventory only grows at the end, each quest is either unchanged or completed with its item in the final inventory, and a visited quest whose item was already present ends completed |
| `Quests.CheckEachExact` | src/main/kotlin/10slesor.kt:180-182 | visiting distinct quests in order: the inventory gains exactly the reward items of the quests completed, in that order, and each quest ends as `checkCompletion` leaves it against the inventory as it stands at its own turn |
| `Quests.CheckAllQuests` | src/main/kotlin/10slesor.kt:177-183 | `checkAllQuests` visits the active quests in insertion order, judging each against the inventory at its turn (the rewards of earlier completions included); the inventory gains exactly those rewards in order; inactive quests are untouched, every active quest whose item was present at the start is completed, and the invariant is kept |
| `Quests.RewardFeedsLaterCheck` | src/main/kotlin/10slesor.kt:177-183 | a reward granted earlier in a pass is visible to later checks: a ready quest filed anywhere before an open active quest needing its reward makes the pass complete both |
| `Quests.RewardArrivesTooLate` | src/main/kotlin/10slesor.kt:177-183 | a quest whose item is neither in the inventory nor the reward of any quest filed before it is left as it was by the pass |
| `Quests.CompletedQuestStillListedActive` | src/main/kotlin/10slesor.kt:123-125 | every quest a `checkAllQuests` pass completes, including one made ready mid-pass by an earlier reward, still appears in `getActiveQuests()`, completed |
| `Players.NewPlayer` | src/main/kotlin/10slesor.kt:244-251 | a new player has the given stats, an empty inventory and an empty quest journal |
| `Players.PickUpItem` | src/main/kotlin/10slesor.kt:263-265 | `pickUpItem` appends the item and changes nothing else |
| `Players.UsePotion` | src/main/kotlin/10slesor.kt:253-261 | `usePotion` applies the first `health_potions` item's effect and leaves the inventory and quests unchanged; without a potion nothing changes |
| `Players.CheckQuests` | src/main/kotlin/10slesor.kt:393 | `player.questManager.checkAllQuests(player)` keeps the stats and the quest order, leaves inactive quests alone, judges each active quest against the player's inventory as it stands at its turn, keeps the invariant, and the inventory gains exactly the rewards of the quests completed |
| `Players.DemoPlayer` | src/main/kotlin/10slesor.kt:336-380 | the player of `main` after the setup has its stats, no items, and a journal holding `find_herbs` then `kill_monsters`, with only the herb quest active |
| `Players.DemoJournalShape` | src/main/kotlin/10slesor.kt:355-380 | in `main`, both quests are registered in order and only the herb quest is started |
| `Players.DemoCheckBeforeHerb` | src/main/kotlin/10slesor.kt:377-393 | `main` checks only after adding the herb; a check on the same player before that would change nothing |
| `Players.JournalCheckAfterHerb` | src/main/kotlin/10slesor.kt:389-393 | on `main`'s journal with the herb in the inventory, the pass completes the herb quest, appends the amulet and leaves the monster quest alone |
| `Players.DemoCheckAfterHerb` | src/main/kotlin/10slesor.kt:389-393 | after the herb is added to the player's inventory, the player's check completes the herb quest, which stays active, and adds the amulet; the monster quest and the stats are untouched |
| `GameSystems.ExecuteSafely` | src/main/kotlin/13slessor.kt:39-54 | `executeSafely` returns the block's result when it returns and null when it throws |
| `GameSystems.ExecuteSafelyOrFalse` | src/main/kotlin/13slessor.kt:39-54 | `executeSafely { … } ?: false` is true exactly when the block returned true |
| `GameSystems.NewCombatSystem` | src/main/kotlin/13slessor.kt:73-74 | a new combat system starts not initialised |
| `GameSystems.InitializeCombat` | src/main/kotlin/13slessor.kt:76-85 | combat `initialize` always succeeds and sets the flag |
| `GameSystems.PerformAttack` | src/main/kotlin/13slessor.kt:87-105 | `performAttack` is true iff the system is initialised, the damage is non-negative and neither name is blank |
| `GameSystems.ShutdownCombat` | src/main/kotlin/13slessor.kt:107-111 | combat `emergencyShutdown` clears the flag |
| `GameSystems.AttackRefusedAfterShutdown` | src/main/kotlin/13slessor.kt:87-111 | after shutdown every attack is refused; after re-initialising only the argument checks remain |
| `GameSystems.NewInventorySystem` | src/main/kotlin/13slessor.kt:114-116 | a new inventory system starts empty and not initialised |
| `GameSystems.InitializeInventory` | src/main/kotlin/13slessor.kt:118-127 | inventory `initialize` appends the two default items to whatever is there, with no capacity check, and sets the flag |
| `GameSystems.AddNamedItem` | src/main/kotlin/13slessor.kt:128-147 | `addItem` succeeds iff the system is initialised, the name is not blank and fewer than 20 items are held; it then appends the name; otherwise nothing changes |
| `GameSystems.AddNeverOverfills` | src/main/kotlin/13slessor.kt:138-140 | `addItem` alone never takes the list past 20 items |
| `GameSystems.GetItems` | src/main/kotlin/13slessor.kt:149-158 | `getItems` is empty when not initialised and otherwise equals the held list |
| `GameSystems.GetItemsAfterInitialize` | src/main/kotlin/13slessor.kt:118-158 | right after `initialize`, `getItems` lists the earlier items and then the two defaults |
| `GameSystems.ShutdownInventory` | src/main/kotlin/13slessor.kt:160-170 | inventory `emergencyShutdown` writes the items joined by `" \n "`; it throws exactly when that write throws, with its message, before the flag is cleared; otherwise it clears the flag and keeps the items |
| `GameSystems.InventoryRefusedAfterShutdown` | src/main/kotlin/13slessor.kt:128-170 | after shutdown `addItem` is refused without change and `getItems` is empty |
| `Text.TrimCutsOnlyWhitespace` | src/main/kotlin/12slesor.kt:110-111 | `trim` removes whitespace, in Kotlin's sense, from both ends only, and the text in between is kept |
| `Text.TrimSkipsPrefix` | src/main/kotlin/12slesor.kt:110-111 | whitespace in front of a text does not change its trimmed form |
| `Text.BlankIffTrimsEmpty` | src/main/kotlin/13slessor.kt:135 | `isBlank` holds exactly when trimming leaves nothing |
| `Text.LinesOfJoin` | src/main/kotlin/12slesor.kt:106 | `lines()` on line-break-free lines joined by `"\n"` gives those lines back |
| `SaveFiles.ParseLine` | src/main/kotlin/12slesor.kt:107-112 | a line gives no entry iff it has no `':'`; otherwise it is cut at its first `':'` only and both halves are trimmed |
| `SaveFiles.ParsedKeys` | src/main/kotlin/12slesor.kt:105-116 | the parsed map's keys are exactly the keys that some line produced |
| `SaveFiles.LaterLineWins` | src/main/kotlin/12slesor.kt:105-116 | when several lines share a key, the last one's value is kept |
| `SaveFiles.LineWithoutColonIgnored` | src/main/kotlin/12slesor.kt:107 | a line without `':'` adds nothing to the map |
| `SaveFiles.SaveThenParse` | src/main/kotlin/12slesor.kt:83-88 | when no field holds a line break, parsing the saved text gives exactly the four keys, each mapped to its field trimmed, the inventory joined by `", "` |

## Left out

- Console output (`println`), `Item.displayInfo`, `Inventory.display`,
  `Quest.displayInfo`, `QuestManager.displayQuests`, `Player.showInventory`:
  they only print.
- `NPC` and `Shop` in `10slesor.kt`: they are interactive `readln` loops,
  and the shop's buy-back price uses floating point (`* 0.6`).
- `Character.attack` and `Character.takeDamage`: damage is drawn with
  `Random.nextInt`; the combat part of the player is not part of this model.
- `Items.UseItem`: an effect acts on the player's stats only. A Kotlin
  closure could also touch the player's inventory or quests before the item
  is removed; such effects are not modelled. Effects are also assumed never
  to throw: in Kotlin an exception from the closure leaves `useItem` before
  the item is removed (and leaves `usePotion` too), and no result is
  returned.
- `Quests.GetActiveQuests`: quests are values here. In Kotlin a `Quest` is a
  shared object with public `var isActive` and `var isCompleted`, and
  `getQuest` and `getActiveQuests` hand out references to it: a list from
  `getActiveQuests()` shows completions made later by `checkAllQuests`, and
  any caller may set the flags directly. Those writes from outside the
  manager are not modelled; the model's quests change only through
  `startQuest` and `checkAllQuests`.
- `GameLogger` and every logging call: they work from timestamps and a file.
  Logging is assumed never to throw. In the source, a failing log write inside
  a block would be caught by `executeSafely` after the state had changed.
- `Thread.sleep` in `CombatSystem.initialize`: it is dropped, so the model's
  initialise cannot be interrupted.
- The constant demonstration fields `result`, `resultInt`, `resultBool` of
  `GameSystem`: they are instances of `GameSystems.ExecuteSafely` on blocks
  that return.
- `SafeFileManager` and the file reads and writes of `RobustSaveSystem` and
  `InventorySystem.emergencyShutdown`: they are file I/O. The backup write's
  outcome is a parameter (a function from the text written to its outcome),
  and the parser works on text it is given.
- `loadPlayerData` as a whole: it does not compile as written. It calls
  `content.lines()` on a `String?`, and its `return try { … }` has neither
  `catch` nor `finally`. The model takes the evident behaviour of the parsing
  loop (`12slesor.kt` lines 105-116) on the text read. The save file name,
  built from `System.currentTimeMillis()`, is also left out.
- `SaveFiles.SaveContent`: it is the text after `trimIndent`, taken for
  fields without line breaks. When a field does hold a line break,
  `trimIndent` works on the interpolated text and can cut indentation
  differently; that case is not modelled.
- `src/main/kotlin/11slesor.kt` (console drills and a `Double` division),
  `src/main/kotlin/9slesor.kt` and `src/main/kotlin/Time.kt`: the last two
  are entirely commented out.
- Kotlin's 32-bit `Int`: health, attack, damage, value and level are
  unbounded integers. No operation here does arithmetic on them that could
  wrap around.

## Findings

| source | as written | input that shows it | evidently intended | confidence | as-written member | corrected member |
|---|---|---|---|---|---|---|
| src/main/kotlin/10slesor.kt:33-38 | the "invalid index" message and `return false` follow the `if` on every path, so a successful removal also reports failure | `removeItem(0)` on a one-item inventory: the item is removed, and the call returns false | return true after a removal; report an invalid index only when it is invalid | high (not executed) | `Items.RemoveItemReportsFailureOnSuccess` | `Items.RemoveItemIntended` |
