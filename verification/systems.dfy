/**
 * The guarded game systems of src/main/kotlin/13slessor.kt.
 *
 * Exceptions are values here: a block of code either returns a value or
 * throws, and `executeSafely` turns a throw into `null`. Logging is left
 * out; every block in the Kotlin code throws before it changes any state, so a
 * thrown block leaves the system as it was.
 */
module GameSystems {
  import opened Wrappers
  import opened Text

  /** How a block of code ended: it returned `value`, or it threw an exception carrying `message`. */
  datatype Outcome<+T> = Returned(value: T) | Threw(message: string)

  /** `GameSystem.executeSafely`: the block's result when it returns, `null` when it throws. */
  function ExecuteSafely<T>(block: Outcome<T>): (r: Option<T>)
    ensures block.Returned? ==> r == Some(block.value)
    ensures block.Threw? ==> r == None
  {
    match block
    case Returned(v) => Some(v)
    case Threw(_) => None
  }

  /** The caller's side of `executeSafely { …; true } ?: false`: true exactly when the block returned true. */
  lemma ExecuteSafelyOrFalse(block: Outcome<bool>)
    ensures ExecuteSafely(block).GetOr(false) <==> block == Returned(true)
  {
  }

  // ---------------------------------------------------------------------------
  // CombatSystem

  datatype CombatSystem = CombatSystem(isInitialized: bool)

  function NewCombatSystem(): (c: CombatSystem)
    ensures !c.isInitialized
  {
    CombatSystem(false)
  }

  /** `CombatSystem.initialize`: the block cannot throw, so it always succeeds. */
  function InitializeCombat(c: CombatSystem): (res: (bool, CombatSystem))
    ensures res.0 && res.1.isInitialized
  {
    match ExecuteSafely(Returned(CombatSystem(true)))
    case Some(c') => (true, c')
    case None => (false, c)
  }

  /** The block inside `performAttack`: rejects negative damage, then blank names. */
  function AttackBlock(attacker: string, target: string, damage: int): Outcome<bool> {
    if damage < 0 then Threw("Урон не может быть отрицательным: " + IntToString(damage))
    else if IsBlank(attacker) || IsBlank(target) then Threw("Имена персонажей не могут быть пустыми")
    else Returned(true)
  }

  /** `CombatSystem.performAttack`. It changes no state, so only its verdict is returned. */
  function PerformAttack(c: CombatSystem, attacker: string, target: string, damage: int): (ok: bool)
    ensures ok <==> c.isInitialized && damage >= 0 && !IsBlank(attacker) && !IsBlank(target)
  {
    if !c.isInitialized then false
    else ExecuteSafely(AttackBlock(attacker, target, damage)).GetOr(false)
  }

  /** `CombatSystem.emergencyShutdown`. */
  function ShutdownCombat(c: CombatSystem): (r: CombatSystem)
    ensures !r.isInitialized
  {
    c.(isInitialized := false)
  }

  /** After an emergency shutdown every attack is refused until the system is initialised again. */
  lemma AttackRefusedAfterShutdown(c: CombatSystem, attacker: string, target: string, damage: int)
    ensures !PerformAttack(ShutdownCombat(c), attacker, target, damage)
    ensures PerformAttack(InitializeCombat(ShutdownCombat(c)).1, attacker, target, damage)
      <==> damage >= 0 && !IsBlank(attacker) && !IsBlank(target)
  {
  }

  // ---------------------------------------------------------------------------
  // InventorySystem

  /** Item names held by the inventory system, and whether it is initialised. */
  datatype InventorySystem = InventorySystem(items: seq<string>, isInitialized: bool)

  const MaxItems: nat := 20
  const DefaultItems: seq<string> := ["Старый меч", "Поношенный доспех"]

  function NewInventorySystem(): (s: InventorySystem)
    ensures !s.isInitialized && |s.items| == 0
  {
    InventorySystem([], false)
  }

  /**
   * `InventorySystem.initialize`: appends the two default items and marks the
   * system initialised. There is no capacity check and no guard against
   * initialising twice, so every call appends the defaults again.
   */
  function InitializeInventory(s: InventorySystem): (res: (bool, InventorySystem))
    ensures res.0 && res.1.isInitialized
    ensures |res.1.items| == |s.items| + 2
    ensures res.1.items[..|s.items|] == s.items
    ensures res.1.items[|s.items|] == "Старый меч" && res.1.items[|s.items| + 1] == "Поношенный доспех"
  {
    match ExecuteSafely(Returned(InventorySystem(s.items + DefaultItems, true)))
    case Some(s') => (true, s')
    case None => (false, s)
  }

  /** The block inside `InventorySystem.addItem`: rejects a blank name, then a full list. */
  function AddItemBlock(s: InventorySystem, item: string): Outcome<InventorySystem> {
    if IsBlank(item) then Threw("Название предмета не может быть пустым")
    else if |s.items| >= MaxItems then Threw("Инвентарь переполнен(макс - 20 предметов)")
    else Returned(s.(items := s.items + [item]))
  }

  /** `InventorySystem.addItem`. */
  function AddNamedItem(s: InventorySystem, item: string): (res: (bool, InventorySystem))
    ensures res.0 <==> s.isInitialized && !IsBlank(item) && |s.items| < MaxItems
    ensures res.0 ==> res.1.isInitialized && res.1.items == s.items + [item]
    ensures !res.0 ==> res.1 == s
  {
    if !s.isInitialized then (false, s)
    else
      match ExecuteSafely(AddItemBlock(s, item))
      case Some(s') => (true, s')
      case None => (false, s)
  }

  /** `addItem` alone never takes the list past 20 items: it only adds to a list of fewer than 20. */
  lemma AddNeverOverfills(s: InventorySystem, item: string)
    ensures |AddNamedItem(s, item).1.items| <= if |s.items| <= MaxItems then MaxItems else |s.items|
  {
  }

  /** `InventorySystem.getItems`: the empty list before initialisation, otherwise a copy of the items. */
  function GetItems(s: InventorySystem): (r: seq<string>)
    ensures !s.isInitialized ==> r == []
    ensures s.isInitialized ==> r == s.items
  {
    if !s.isInitialized then []
    else ExecuteSafely(Returned(s.items)).GetOr([])
  }

  /** Right after `initialize`, `getItems` lists the earlier items followed by the two defaults. */
  lemma GetItemsAfterInitialize(s: InventorySystem)
    ensures GetItems(InitializeInventory(s).1) == s.items + DefaultItems
  {
  }

  /** The backup text `emergencyShutdown` writes: the items joined by `" \n "`. */
  function BackupText(s: InventorySystem): string {
    Join(s.items, " \n ")
  }

  /**
   * `InventorySystem.emergencyShutdown`. Writing the backup file is the
   * parameter `writeText`, given the backup text: when it throws, the
   * exception leaves the method before the flag is cleared. Otherwise the
   * system is no longer initialised and the items stay as they were.
   */
  function ShutdownInventory(s: InventorySystem, writeText: string -> Outcome<()>): (r: Outcome<InventorySystem>)
    ensures r.Threw? <==> writeText(BackupText(s)).Threw?
    ensures r.Threw? ==> r.message == writeText(BackupText(s)).message
    ensures r.Returned? ==> !r.value.isInitialized && r.value.items == s.items
  {
    match writeText(BackupText(s))
    case Returned(_) => Returned(s.(isInitialized := false))
    case Threw(m) => Threw(m)
  }

  /** After a shutdown whose backup was written, adds are refused and `getItems` answers empty. */
  lemma InventoryRefusedAfterShutdown(s: InventorySystem, item: string)
    ensures var r := ShutdownInventory(s, _ => Returned(()));
      && r.Returned?
      && AddNamedItem(r.value, item) == (false, r.value)
      && GetItems(r.value) == []
  {
  }
}
