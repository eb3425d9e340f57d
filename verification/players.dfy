/**
 * The player (the `Player` class of src/main/kotlin/10slesor.kt): combat
 * stats together with the inventory and quest manager it owns.
 */
module Players {
  import opened Wrappers
  import opened Items
  import opened Quests

  datatype Player = Player(stats: Stats, inventory: Inventory, questManager: QuestManager)

  /** The id `usePotion` looks for. */
  const HealthPotionId: string := "health_potions"

  /** A fresh player: an empty inventory and an empty quest journal. */
  function NewPlayer(name: string, health: int, attack: int): (p: Player)
    ensures p.stats.name == name && p.stats.health == health && p.stats.attack == attack
    ensures |p.inventory| == 0
    ensures Valid(p.questManager) && |p.questManager.quests| == 0
  {
    Player(Stats(name, health, attack), [], EmptyManager())
  }

  /** `Player.pickUpItem`: the item goes to the end of the inventory; nothing else changes. */
  function PickUpItem(p: Player, item: Item): (r: Player)
    ensures r.stats == p.stats && r.questManager == p.questManager
    ensures |r.inventory| == |p.inventory| + 1
    ensures r.inventory[..|p.inventory|] == p.inventory && r.inventory[|p.inventory|] == item
  {
    p.(inventory := AddItem(p.inventory, item))
  }

  /**
   * `Player.usePotion`: applies the effect of the first `"health_potions"`
   * item. The potion is used but not removed from the inventory; without
   * one nothing happens.
   */
  function UsePotion(p: Player): (r: Player)
    ensures r.inventory == p.inventory && r.questManager == p.questManager
    ensures !HasItem(p.inventory, HealthPotionId) ==> r == p
    ensures HasItem(p.inventory, HealthPotionId) ==>
      exists k :: FirstWithId(p.inventory, HealthPotionId, k) && r.stats == p.inventory[k].effect(p.stats)
  {
    match FindItemById(p.inventory, HealthPotionId)
    case Some(potion) => p.(stats := Use(potion, p.stats))
    case None => p
  }

  /**
   * `player.questManager.checkAllQuests(player)`: the player's own quests
   * against the player's own inventory, which gains exactly the rewards of
   * the quests completed, in insertion order.
   */
  function CheckQuests(p: Player): (r: Player)
    ensures r.stats == p.stats && r.questManager.order == p.questManager.order
    ensures r.questManager.quests.Keys == p.questManager.quests.Keys
    ensures forall id :: id in p.questManager.quests && !p.questManager.quests[id].isActive ==>
      r.questManager.quests[id] == p.questManager.quests[id]
    ensures Valid(p.questManager) ==>
      JudgedInTurn(ActiveIds(p.questManager), p.questManager.quests, r.questManager.quests, p.inventory)
    ensures |p.inventory| <= |r.inventory| && r.inventory[..|p.inventory|] == p.inventory
    ensures Valid(p.questManager) ==> Valid(r.questManager)
    ensures Valid(p.questManager) ==>
      r.inventory == p.inventory + Rewards(ActiveIds(p.questManager), p.questManager.quests, r.questManager.quests)
  {
    var (qm, inv) := CheckAllQuests(p.questManager, p.inventory);
    p.(questManager := qm, inventory := inv)
  }

  // ---------------------------------------------------------------------------
  // The demonstration in `main`

  const Herb: Item := PlainItem("mistery_herb", "Таинственная трава", "Редкое растение с целебными свойствами", 15)
  const Amulet: Item := PlainItem("ancient_amulet", "Старинный амулет", "Древний амулет с магическими свойствами", 100)
  const HerbQuest: Quest :=
    NewQuest("find_herbs", "Сбор целебных трав", "Найдите таинственную траву в лесу", Some("mistery_herb"), 50, Some(Amulet))
  const MonsterQuest: Quest := NewQuest("kill_monsters", "Очистка леса", "Убейте 3 врагов", rewardGold := 100)

  /** The quest journal of `main` once both quests are added and the herb quest is started. */
  function DemoJournal(): QuestManager {
    StartQuest(AddQuest(AddQuest(EmptyManager(), HerbQuest), MonsterQuest), "find_herbs").1
  }

  /**
   * The player of `main` after the quests are set up: any stats, no items,
   * and the demonstration journal, which `main` builds on the player's own
   * manager, empty at construction.
   */
  function DemoPlayer(name: string, health: int, attack: int): (p: Player)
    ensures p.stats == Stats(name, health, attack) && p.inventory == [] && p.questManager == DemoJournal()
    ensures p.questManager.order == ["find_herbs", "kill_monsters"]
    ensures p.questManager.quests == map["find_herbs" := HerbQuest.(isActive := true), "kill_monsters" := MonsterQuest]
    ensures ActiveIds(p.questManager) == ["find_herbs"]
  {
    DemoJournalShape();
    NewPlayer(name, health, attack).(questManager := DemoJournal())
  }

  lemma DemoJournalShape()
    ensures StartQuest(AddQuest(AddQuest(EmptyManager(), HerbQuest), MonsterQuest), "find_herbs").0
    ensures DemoJournal().order == ["find_herbs", "kill_monsters"]
    ensures DemoJournal().quests.Keys == {"find_herbs", "kill_monsters"}
    ensures DemoJournal().quests["find_herbs"] == HerbQuest.(isActive := true)
    ensures DemoJournal().quests["kill_monsters"] == MonsterQuest
    ensures ActiveIds(DemoJournal()) == ["find_herbs"]
  {
    var qm0 := AddQuest(AddQuest(EmptyManager(), HerbQuest), MonsterQuest);
    assert qm0.order == ["find_herbs", "kill_monsters"];
    assert qm0.quests == map["find_herbs" := HerbQuest, "kill_monsters" := MonsterQuest];
    var qm := DemoJournal();
    assert qm.quests == map["find_herbs" := HerbQuest.(isActive := true), "kill_monsters" := MonsterQuest];
    assert qm.order[1..] == ["kill_monsters"] && qm.order[1..][1..] == [];
    assert ActiveAmong(["kill_monsters"], qm.quests) == [];
    assert ActiveAmong(qm.order, qm.quests) == ["find_herbs"] + [];
  }

  /**
   * `main` does not check its quests before the herb is picked up; had it
   * done so, the check would change nothing.
   */
  lemma DemoCheckBeforeHerb(name: string, health: int, attack: int)
    ensures CheckQuests(DemoPlayer(name, health, attack)) == DemoPlayer(name, health, attack)
  {
    DemoJournalShape();
    var qm := DemoJournal();
    assert CheckCompletion(qm.quests["find_herbs"], []).0 == false;
    assert qm.(quests := qm.quests["find_herbs" := qm.quests["find_herbs"]]) == qm;
    assert CheckAllQuests(qm, []) == (qm, []);
  }

  /** The pass of `main` on its journal once the herb is in the inventory. */
  lemma JournalCheckAfterHerb()
    ensures var (qm, inv) := CheckAllQuests(DemoJournal(), [Herb]);
      && qm.quests["find_herbs"] == HerbQuest.(isActive := true, isCompleted := true)
      && qm.quests["kill_monsters"] == MonsterQuest
      && inv == [Herb, Amulet]
  {
    DemoJournalShape();
    var qm := DemoJournal();
    assert HasItem([Herb], "mistery_herb") by {
      assert [Herb][0].id == "mistery_herb";
    }
    var q := qm.quests["find_herbs"];
    var (ok, q', inv') := CheckCompletion(q, [Herb]);
    assert ok && q' == q.(isCompleted := true);
    assert inv' == [Herb, Amulet];
    var qm' := qm.(quests := qm.quests["find_herbs" := q']);
    assert CheckEach(["find_herbs"], qm, [Herb]) == CheckEach([], qm', inv');
    assert CheckAllQuests(qm, [Herb]) == (qm', inv');
  }

  /**
   * In `main`, once the herb is in the player's inventory (`main` calls
   * `player.inventory.addItem`, which is all `pickUpItem` does) the check
   * completes the herb quest, which stays active, and hands over the amulet;
   * the item-less monster quest is untouched and the stats do not change.
   */
  lemma DemoCheckAfterHerb(name: string, health: int, attack: int)
    ensures var p := CheckQuests(PickUpItem(DemoPlayer(name, health, attack), Herb));
      && p.questManager.quests["find_herbs"].isCompleted
      && p.questManager.quests["find_herbs"].isActive
      && p.questManager.quests["kill_monsters"] == MonsterQuest
      && p.inventory == [Herb, Amulet]
      && p.stats == Stats(name, health, attack)
  {
    var p0 := DemoPlayer(name, health, attack);
    var p1 := PickUpItem(p0, Herb);
    assert p1.inventory == [Herb] && p1.questManager == DemoJournal();
    JournalCheckAfterHerb();
  }
}
