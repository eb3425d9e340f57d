/**
 * Quests and the quest manager (the `Quest` and `QuestManager` classes of
 * src/main/kotlin/10slesor.kt).
 *
 * A quest is a small state machine over two flags. Completion is gated on the
 * player's inventory holding the quest's required item, and completing hands
 * over the reward item. The manager is Kotlin's `mutableMapOf`, a
 * `LinkedHashMap`: a map together with the order in which keys were first
 * inserted.
 */
module Quests {
  import opened Wrappers
  import opened Items

  datatype Quest = Quest(
    id: string,
    name: string,
    description: string,
    requiredItemId: Option<string>,
    rewardGold: int,
    rewardItem: Option<Item>,
    isCompleted: bool,
    isActive: bool)

  /** The `Quest` constructor: every new quest starts inactive and not completed. */
  function NewQuest(
    id: string, name: string, description: string,
    requiredItemId: Option<string> := None, rewardGold: int := 0, rewardItem: Option<Item> := None): (q: Quest)
    ensures !q.isActive && !q.isCompleted
    ensures q.id == id && q.requiredItemId == requiredItemId && q.rewardItem == rewardItem
    ensures q.name == name && q.description == description && q.rewardGold == rewardGold
  {
    Quest(id, name, description, requiredItemId, rewardGold, rewardItem, false, false)
  }

  /** The inventory after a reward is handed over: the reward item, if any, at the end. */
  function GrantReward(inv: Inventory, reward: Option<Item>): Inventory {
    match reward
    case Some(item) => AddItem(inv, item)
    case None => inv
  }

  /**
   * The private `completeQuest`: marks the quest completed, sets `isActive`
   * again, and appends the reward item. The gold reward is only announced;
   * no player balance exists to credit it to.
   */
  function CompleteQuest(q: Quest, inv: Inventory): (Quest, Inventory) {
    (q.(isCompleted := true, isActive := true), GrantReward(inv, q.rewardItem))
  }

  /** The quest's completion condition holds against this inventory. */
  predicate Ready(q: Quest, inv: Inventory) {
    && q.isActive
    && !q.isCompleted
    && q.requiredItemId.Some?
    && HasItem(inv, q.requiredItemId.value)
  }

  /** `Quest.checkCompletion`. */
  function CheckCompletion(q: Quest, inv: Inventory): (res: (bool, Quest, Inventory))
    ensures res.0 <==> Ready(q, inv)
    ensures res.0 ==> (
      && res.1 == q.(isCompleted := true)
      && res.1.isActive
      && |res.2| == |inv| + (if q.rewardItem.Some? then 1 else 0)
      && res.2[..|inv|] == inv
      && (q.rewardItem.Some? ==> res.2[|inv|] == q.rewardItem.value))
    ensures !res.0 ==> res.1 == q && res.2 == inv
  {
    if !q.isCompleted && q.isActive then
      match q.requiredItemId
      case Some(req) =>
        if HasItem(inv, req) then
          var (q', inv') := CompleteQuest(q, inv);
          (true, q', inv')
        else (false, q, inv)
      case None => (false, q, inv)
    else (false, q, inv)
  }

  /**
   * Completion is terminal and idempotent: after a successful check, a second
   * check reports false, keeps the quest active and does not grant the reward again.
   */
  lemma CompletionIdempotent(q: Quest, inv: Inventory)
    ensures var (_, q1, inv1) := CheckCompletion(q, inv);
      && (q.isCompleted ==> q1 == q && inv1 == inv)
      && CheckCompletion(q1, inv1) == (false, q1, inv1)
      && (q.isActive ==> q1.isActive)
      && (q.isCompleted ==> q1.isCompleted)
  {
  }

  /**
   * The quest states the model's operations reach: a quest is only completed
   * while active, and no operation here clears `isActive` again.
   */
  predicate Consistent(q: Quest) {
    q.isCompleted ==> q.isActive
  }

  // ---------------------------------------------------------------------------
  // QuestManager

  /** `order` lists the keys of `quests` in first-insertion order. */
  datatype QuestManager = QuestManager(order: seq<string>, quests: map<string, Quest>)

  function EmptyManager(): (qm: QuestManager)
    ensures Valid(qm)
    ensures |qm.quests| == 0
  {
    QuestManager([], map[])
  }

  predicate NoDuplicates(ids: seq<string>) {
    forall i, j :: 0 <= i < j < |ids| ==> ids[i] != ids[j]
  }

  /** The manager invariant: `order` enumerates the keys once each, and every quest is filed under its own id. */
  predicate Valid(qm: QuestManager) {
    && NoDuplicates(qm.order)
    && (forall id :: id in qm.quests ==> id in qm.order)
    && (forall i :: 0 <= i < |qm.order| ==> qm.order[i] in qm.quests)
    && (forall id :: id in qm.quests ==> qm.quests[id].id == id)
  }

  /**
   * `QuestManager.addQuest`: files the quest under its id, overwriting any
   * quest already there. A `LinkedHashMap` keeps an overwritten key at its
   * original position; a new key goes last.
   */
  function AddQuest(qm: QuestManager, q: Quest): (r: QuestManager)
    ensures q.id in r.quests && r.quests[q.id] == q
    ensures forall id :: id != q.id ==> (id in r.quests <==> id in qm.quests)
    ensures forall id :: id != q.id && id in qm.quests ==> r.quests[id] == qm.quests[id]
    ensures q.id in qm.quests ==> r.order == qm.order
    ensures q.id !in qm.quests ==> r.order == qm.order + [q.id]
    ensures Valid(qm) ==> Valid(r)
  {
    var order := if q.id in qm.quests then qm.order else qm.order + [q.id];
    QuestManager(order, qm.quests[q.id := q])
  }

  /** `QuestManager.getQuest`. */
  function GetQuest(qm: QuestManager, id: string): (r: Option<Quest>)
    ensures r.Some? <==> id in qm.quests
    ensures r.Some? ==> r.value == qm.quests[id]
  {
    if id in qm.quests then Some(qm.quests[id]) else None
  }

  /** After `addQuest(q)`, `getQuest(q.id)` finds `q` and every other lookup answers as before. */
  lemma GetAfterAdd(qm: QuestManager, q: Quest, id: string)
    ensures GetQuest(AddQuest(qm, q), q.id) == Some(q)
    ensures id != q.id ==> GetQuest(AddQuest(qm, q), id) == GetQuest(qm, id)
  {
  }

  /**
   * `QuestManager.startQuest`: fails on an unknown id and on a completed
   * quest; otherwise sets that quest's `isActive` and nothing else.
   */
  function StartQuest(qm: QuestManager, id: string): (res: (bool, QuestManager))
    ensures res.0 <==> id in qm.quests && !qm.quests[id].isCompleted
    ensures res.0 ==> (
      && res.1.order == qm.order
      && res.1.quests.Keys == qm.quests.Keys
      && res.1.quests[id] == qm.quests[id].(isActive := true)
      && forall other :: other in qm.quests && other != id ==> res.1.quests[other] == qm.quests[other])
    ensures !res.0 ==> res.1 == qm
    ensures Valid(qm) ==> Valid(res.1)
  {
    match GetQuest(qm, id)
    case Some(q) =>
      if !q.isCompleted then
        (true, qm.(quests := qm.quests[id := q.(isActive := true)]))
      else (false, qm)
    case None => (false, qm)
  }

  /** Starting keeps a quest consistent, and so does checking its completion. */
  lemma TransitionsKeepConsistent(qm: QuestManager, id: string, q: Quest, inv: Inventory)
    requires id in qm.quests && Consistent(qm.quests[id])
    requires Consistent(q)
    ensures Consistent(StartQuest(qm, id).1.quests[id])
    ensures Consistent(CheckCompletion(q, inv).1)
  {
  }

  /** `a` occurs in `ids` at some position before one where `b` occurs. */
  predicate Before(ids: seq<string>, a: string, b: string) {
    exists p, q :: 0 <= p < q < |ids| && ids[p] == a && ids[q] == b
  }

  /** Every two entries of `r` occur in `ids` in the same relative order. */
  predicate KeepsOrder(r: seq<string>, ids: seq<string>) {
    forall i, j :: 0 <= i < j < |r| ==> Before(ids, r[i], r[j])
  }

  lemma KeepsOrderSkip(r: seq<string>, ids: seq<string>)
    requires |ids| > 0 && KeepsOrder(r, ids[1..])
    ensures KeepsOrder(r, ids)
  {
    forall i, j | 0 <= i < j < |r|
      ensures Before(ids, r[i], r[j])
    {
      var p, q :| 0 <= p < q < |ids[1..]| && ids[1..][p] == r[i] && ids[1..][q] == r[j];
      assert ids[p + 1] == r[i] && ids[q + 1] == r[j];
    }
  }

  lemma KeepsOrderCons(rest: seq<string>, ids: seq<string>)
    requires |ids| > 0 && KeepsOrder(rest, ids[1..])
    requires forall id :: id in rest ==> id in ids[1..]
    ensures KeepsOrder([ids[0]] + rest, ids)
  {
    var r := [ids[0]] + rest;
    KeepsOrderSkip(rest, ids);
    forall i, j | 0 <= i < j < |r|
      ensures Before(ids, r[i], r[j])
    {
      if i == 0 {
        assert r[j] == rest[j - 1] && rest[j - 1] in rest;
        var q :| 0 <= q < |ids[1..]| && ids[1..][q] == r[j];
        assert ids[0] == r[0] && ids[q + 1] == r[j];
      } else {
        assert r[i] == rest[i - 1] && r[j] == rest[j - 1];
        assert Before(ids, rest[i - 1], rest[j - 1]);
      }
    }
  }

  /**
   * The ids among `ids` whose quest is active, in the order of `ids`: the
   * `filter { it.isActive }` over the map's values.
   */
  function ActiveAmong(ids: seq<string>, quests: map<string, Quest>): (r: seq<string>)
    ensures |r| <= |ids|
    ensures forall id :: id in r <==> id in ids && id in quests && quests[id].isActive
    ensures forall i :: 0 <= i < |r| ==> r[i] in quests
    ensures KeepsOrder(r, ids)
    ensures NoDuplicates(ids) ==> NoDuplicates(r)
  {
    if |ids| == 0 then []
    else
      var rest := ActiveAmong(ids[1..], quests);
      assert forall id :: id in ids[1..] ==> id in ids;
      if ids[0] in quests && quests[ids[0]].isActive then
        assert NoDuplicates(ids) ==> ids[0] !in ids[1..];
        KeepsOrderCons(rest, ids);
        [ids[0]] + rest
      else
        KeepsOrderSkip(rest, ids);
        rest
  }

  /** The ids of the active quests, in insertion order. */
  function ActiveIds(qm: QuestManager): seq<string> {
    ActiveAmong(qm.order, qm.quests)
  }

  /** The quests filed under `ids`, in the order of `ids`. */
  function QuestsAt(ids: seq<string>, quests: map<string, Quest>): (r: seq<Quest>)
    requires forall i :: 0 <= i < |ids| ==> ids[i] in quests
    ensures |r| == |ids|
    ensures forall i :: 0 <= i < |ids| ==> r[i] == quests[ids[i]]
  {
    if |ids| == 0 then [] else [quests[ids[0]]] + QuestsAt(ids[1..], quests)
  }

  /**
   * `QuestManager.getActiveQuests`: exactly the active quests, one entry per
   * quest, in insertion order. The Kotlin list holds references to the live
   * quest objects; here the quests are values (see Left out in the README).
   */
  function GetActiveQuests(qm: QuestManager): (r: seq<Quest>)
    ensures forall i :: 0 <= i < |r| ==> r[i].isActive
    ensures Valid(qm) ==> forall i :: 0 <= i < |r| ==> r[i].id in qm.quests && qm.quests[r[i].id] == r[i]
    ensures Valid(qm) ==> forall id :: id in qm.quests && qm.quests[id].isActive ==> exists i :: 0 <= i < |r| && r[i].id == id
    ensures Valid(qm) ==> forall i, j :: 0 <= i < j < |r| ==> r[i].id != r[j].id
    ensures Valid(qm) ==> forall i, j :: 0 <= i < j < |r| ==> Before(qm.order, r[i].id, r[j].id)
  {
    var ids := ActiveIds(qm);
    assert forall i :: 0 <= i < |ids| ==> ids[i] in qm.quests;
    var r := QuestsAt(ids, qm.quests);
    ActiveQuestsFacts(qm, ids, r);
    r
  }

  lemma ActiveQuestsFacts(qm: QuestManager, ids: seq<string>, r: seq<Quest>)
    requires ids == ActiveIds(qm)
    requires |r| == |ids| && forall i :: 0 <= i < |ids| ==> ids[i] in qm.quests && r[i] == qm.quests[ids[i]]
    ensures forall i :: 0 <= i < |r| ==> r[i].isActive
    ensures Valid(qm) ==> forall i :: 0 <= i < |r| ==> r[i].id in qm.quests && qm.quests[r[i].id] == r[i]
    ensures Valid(qm) ==> forall id :: id in qm.quests && qm.quests[id].isActive ==> exists i :: 0 <= i < |r| && r[i].id == id
    ensures Valid(qm) ==> forall i, j :: 0 <= i < j < |r| ==> r[i].id != r[j].id
    ensures Valid(qm) ==> forall i, j :: 0 <= i < j < |r| ==> Before(qm.order, r[i].id, r[j].id)
  {
    forall i | 0 <= i < |r| ensures r[i].isActive {
      assert ids[i] in ids;
    }
    if Valid(qm) {
      forall id | id in qm.quests && qm.quests[id].isActive
        ensures exists i :: 0 <= i < |r| && r[i].id == id
      {
        var i :| 0 <= i < |ids| && ids[i] == id;
        assert r[i].id == id;
      }
      forall i, j | 0 <= i < j < |r| ensures r[i].id != r[j].id && Before(qm.order, r[i].id, r[j].id) {
        assert r[i].id == ids[i] && r[j].id == ids[j];
        assert Before(qm.order, ids[i], ids[j]);
      }
    }
  }

  /** A quest that `check` did not touch, or one it completed because its required item was in `inv`. */
  ghost predicate Advanced(before: Quest, after: Quest, inv: Inventory) {
    || after == before
    || (&& before.isActive
        && !before.isCompleted
        && before.requiredItemId.Some?
        && HasItem(inv, before.requiredItemId.value)
        && after == before.(isCompleted := true))
  }

  ghost predicate Extends(inv: Inventory, inv': Inventory) {
    |inv| <= |inv'| && inv'[..|inv|] == inv
  }

  /** Runs `checkCompletion` on the quests filed under `ids`, in that order, threading the inventory through. */
  function CheckEach(ids: seq<string>, qm: QuestManager, inv: Inventory): (res: (QuestManager, Inventory))
    requires forall i :: 0 <= i < |ids| ==> ids[i] in qm.quests
    ensures res.0.order == qm.order && res.0.quests.Keys == qm.quests.Keys
  {
    if |ids| == 0 then (qm, inv)
    else
      var id := ids[0];
      var (_, q', inv') := CheckCompletion(qm.quests[id], inv);
      CheckEach(ids[1..], qm.(quests := qm.quests[id := q']), inv')
  }

  lemma ExtendsTrans(a: Inventory, b: Inventory, c: Inventory)
    requires Extends(a, b) && Extends(b, c)
    ensures Extends(a, c)
  {
    assert c[..|a|] == c[..|b|][..|a|];
  }

  lemma AdvancedTrans(q0: Quest, q1: Quest, q2: Quest, inv1: Inventory, inv2: Inventory)
    requires Advanced(q0, q1, inv1) && Advanced(q1, q2, inv2) && Extends(inv1, inv2)
    ensures Advanced(q0, q2, inv2)
  {
    if q1 != q0 {
      HasItemExtends(inv1, inv2, q0.requiredItemId.value);
    }
  }

  /** What a pass of `CheckEach` does to each quest and to the inventory. */
  lemma {:induction false} CheckEachSpec(ids: seq<string>, qm: QuestManager, inv: Inventory)
    requires forall i :: 0 <= i < |ids| ==> ids[i] in qm.quests
    ensures var (qm', inv') := CheckEach(ids, qm, inv);
      && Extends(inv, inv')
      && |inv'| <= |inv| + |ids|
      && (forall id :: id in qm.quests ==> Advanced(qm.quests[id], qm'.quests[id], inv'))
      && (forall id :: id in qm.quests && id !in ids ==> qm'.quests[id] == qm.quests[id])
      && (forall id :: id in ids && Ready(qm.quests[id], inv) ==> qm'.quests[id].isCompleted)
    decreases |ids|
  {
    var (qm', inv') := CheckEach(ids, qm, inv);
    if |ids| == 0 {
      assert inv'[..|inv|] == inv;
    } else {
      var id := ids[0];
      var q := qm.quests[id];
      var (ok, q1, inv1) := CheckCompletion(q, inv);
      var qm1 := qm.(quests := qm.quests[id := q1]);
      CheckEachSpec(ids[1..], qm1, inv1);
      assert (qm', inv') == CheckEach(ids[1..], qm1, inv1);
      assert Extends(inv, inv1) by {
        if !ok { assert inv1[..|inv|] == inv; }
      }
      ExtendsTrans(inv, inv1, inv');
      assert Advanced(q, q1, inv1) by {
        if ok { HasItemExtends(inv, inv1, q.requiredItemId.value); }
      }
      forall other | other in qm.quests
        ensures Advanced(qm.quests[other], qm'.quests[other], inv')
      {
        if other == id {
          AdvancedTrans(q, q1, qm'.quests[id], inv1, inv');
        } else {
          assert qm1.quests[other] == qm.quests[other];
          assert Advanced(qm.quests[other], qm.quests[other], inv1);
          AdvancedTrans(qm.quests[other], qm1.quests[other], qm'.quests[other], inv1, inv');
        }
      }
      forall other | other in ids && Ready(qm.quests[other], inv)
        ensures qm'.quests[other].isCompleted
      {
        if other == id {
          assert q1.isCompleted;
          assert Advanced(q1, qm'.quests[id], inv');
        } else {
          assert other in ids[1..];
          HasItemExtends(inv, inv1, qm.quests[other].requiredItemId.value);
          assert Ready(qm1.quests[other], inv1);
        }
      }
    }
  }

  /** The reward handed over when a quest goes from `before` to `after`: its item if it went from open to completed. */
  function RewardOf(before: Quest, after: Quest): seq<Item> {
    if !before.isCompleted && after.isCompleted && before.rewardItem.Some? then [before.rewardItem.value] else []
  }

  /** `checkCompletion` appends exactly the reward of the change it makes. */
  lemma CheckCompletionGrants(q: Quest, inv: Inventory)
    ensures var (_, q', inv') := CheckCompletion(q, inv);
      inv' == inv + RewardOf(q, q')
  {
    var (ok, q', inv') := CheckCompletion(q, inv);
    if !ok { assert inv == inv + []; }
  }

  lemma AppendTwice(inv: Inventory, a: seq<Item>, b: seq<Item>)
    ensures (inv + a) + b == inv + (a + b)
  {
  }

  /** The rewards handed over to the quests under `ids`, in the order of `ids`. */
  function Rewards(ids: seq<string>, before: map<string, Quest>, after: map<string, Quest>): seq<Item>
    requires forall i :: 0 <= i < |ids| ==> ids[i] in before && ids[i] in after
  {
    if |ids| == 0 then []
    else RewardOf(before[ids[0]], after[ids[0]]) + Rewards(ids[1..], before, after)
  }

  /** The rewards depend on `before` only through the quests under `ids`. */
  lemma {:induction false} RewardsSameBefore(ids: seq<string>, b1: map<string, Quest>, b2: map<string, Quest>, after: map<string, Quest>)
    requires forall i :: 0 <= i < |ids| ==> ids[i] in b1 && ids[i] in b2 && ids[i] in after && b1[ids[i]] == b2[ids[i]]
    ensures Rewards(ids, b1, after) == Rewards(ids, b2, after)
    decreases |ids|
  {
    if |ids| > 0 {
      RewardsSameBefore(ids[1..], b1, b2, after);
    }
  }

  /** The quest went from open to completed and its reward item has id `itemId`. */
  predicate GaveReward(before: Quest, after: Quest, itemId: string) {
    && !before.isCompleted
    && after.isCompleted
    && before.rewardItem.Some?
    && before.rewardItem.value.id == itemId
  }

  /** An item among the rewards was handed over by some quest under `ids`. */
  lemma {:induction false} RewardCameFrom(ids: seq<string>, before: map<string, Quest>, after: map<string, Quest>, itemId: string)
    requires forall i :: 0 <= i < |ids| ==> ids[i] in before && ids[i] in after
    requires HasItem(Rewards(ids, before, after), itemId)
    ensures exists m :: 0 <= m < |ids| && GaveReward(before[ids[m]], after[ids[m]], itemId)
    decreases |ids|
  {
    var head := RewardOf(before[ids[0]], after[ids[0]]);
    var tail := Rewards(ids[1..], before, after);
    var rs := head + tail;
    var k :| 0 <= k < |rs| && rs[k].id == itemId;
    if k < |head| {
      assert GaveReward(before[ids[0]], after[ids[0]], itemId);
    } else {
      assert tail[k - |head|].id == itemId;
      RewardCameFrom(ids[1..], before, after, itemId);
      var m :| 0 <= m < |ids[1..]| && GaveReward(before[ids[1..][m]], after[ids[1..][m]], itemId);
      assert ids[1..][m] == ids[m + 1];
    }
  }

  /** The reward of a quest under `ids` that went from open to completed is among the rewards. */
  lemma {:induction false} RewardReachesList(ids: seq<string>, before: map<string, Quest>, after: map<string, Quest>, itemId: string, m: nat)
    requires forall i :: 0 <= i < |ids| ==> ids[i] in before && ids[i] in after
    requires m < |ids| && GaveReward(before[ids[m]], after[ids[m]], itemId)
    ensures HasItem(Rewards(ids, before, after), itemId)
    decreases m
  {
    var head := RewardOf(before[ids[0]], after[ids[0]]);
    var tail := Rewards(ids[1..], before, after);
    var rs := head + tail;
    if m == 0 {
      assert rs[0].id == itemId;
    } else {
      assert ids[1..][m - 1] == ids[m];
      RewardReachesList(ids[1..], before, after, itemId, m - 1);
      var k :| 0 <= k < |tail| && tail[k].id == itemId;
      assert rs[|head| + k] == tail[k];
    }
  }

  /**
   * An item id is among the rewards exactly when some quest under `ids` went
   * from open to completed and carries a reward item with that id.
   */
  lemma RewardsHasItem(ids: seq<string>, before: map<string, Quest>, after: map<string, Quest>, itemId: string)
    requires forall i :: 0 <= i < |ids| ==> ids[i] in before && ids[i] in after
    ensures HasItem(Rewards(ids, before, after), itemId) <==>
      exists m :: 0 <= m < |ids| && GaveReward(before[ids[m]], after[ids[m]], itemId)
  {
    if HasItem(Rewards(ids, before, after), itemId) {
      RewardCameFrom(ids, before, after, itemId);
    }
    if exists m :: 0 <= m < |ids| && GaveReward(before[ids[m]], after[ids[m]], itemId) {
      var m :| 0 <= m < |ids| && GaveReward(before[ids[m]], after[ids[m]], itemId);
      RewardReachesList(ids, before, after, itemId, m);
    }
  }

  /**
   * Each quest under `ids[k]` ends up as `checkCompletion` leaves it when run
   * against `inv` plus the rewards handed out to the quests before it.
   */
  ghost predicate JudgedInTurn(ids: seq<string>, before: map<string, Quest>, after: map<string, Quest>, inv: Inventory)
    requires forall i :: 0 <= i < |ids| ==> ids[i] in before && ids[i] in after
  {
    forall k :: 0 <= k < |ids| ==>
      after[ids[k]] == CheckCompletion(before[ids[k]], inv + Rewards(ids[..k], before, after)).1
  }

  /** The tail of a list of distinct ids is distinct and does not hold the head. */
  lemma TailDistinct(ids: seq<string>)
    requires |ids| > 0 && NoDuplicates(ids)
    ensures ids[0] !in ids[1..] && NoDuplicates(ids[1..])
  {
    forall m | 0 <= m < |ids| - 1 ensures ids[1..][m] != ids[0] {
      assert ids[1..][m] == ids[m + 1];
    }
  }

  /**
   * One step of a pass, on the quest maps alone: the first quest is judged
   * against `inv`, which becomes `inv1` with its reward, and the rest were
   * judged in turn from `inv1` on a map `mid` that agrees with `before`
   * on the rest. Then the whole list was judged in turn from `inv`.
   */
  lemma JudgedStep(ids: seq<string>, before: map<string, Quest>, mid: map<string, Quest>, after: map<string, Quest>, inv: Inventory, inv1: Inventory)
    requires |ids| > 0
    requires forall i :: 0 <= i < |ids| ==> ids[i] in before && ids[i] in mid && ids[i] in after
    requires forall i :: 1 <= i < |ids| ==> mid[ids[i]] == before[ids[i]]
    requires after[ids[0]] == CheckCompletion(before[ids[0]], inv).1
    requires inv1 == inv + RewardOf(before[ids[0]], after[ids[0]])
    requires JudgedInTurn(ids[1..], mid, after, inv1)
    ensures JudgedInTurn(ids, before, after, inv)
  {
    forall k | 0 <= k < |ids|
      ensures after[ids[k]] == CheckCompletion(before[ids[k]], inv + Rewards(ids[..k], before, after)).1
    {
      if k == 0 {
        assert ids[..0] == [];
        assert inv + [] == inv;
      } else {
        var tail := ids[1..][..k - 1];
        assert ids[1..][k - 1] == ids[k];
        RewardsPrefixStep(ids, before, mid, after, k);
        AppendTwice(inv, RewardOf(before[ids[0]], after[ids[0]]), Rewards(tail, mid, after));
      }
    }
  }

  /** The rewards of a non-empty prefix: those of its first quest, then those of the rest, read from a map that agrees on the rest. */
  lemma RewardsPrefixStep(ids: seq<string>, before: map<string, Quest>, mid: map<string, Quest>, after: map<string, Quest>, k: nat)
    requires 0 < k <= |ids|
    requires forall i :: 0 <= i < |ids| ==> ids[i] in before && ids[i] in mid && ids[i] in after
    requires forall i :: 1 <= i < |ids| ==> mid[ids[i]] == before[ids[i]]
    ensures Rewards(ids[..k], before, after) ==
      RewardOf(before[ids[0]], after[ids[0]]) + Rewards(ids[1..][..k - 1], mid, after)
  {
    var pre, tail := ids[..k], ids[1..][..k - 1];
    assert pre[0] == ids[0] && pre[1..] == tail;
    forall i | 0 <= i < |tail| ensures mid[tail[i]] == before[tail[i]] {
      assert tail[i] == ids[i + 1];
    }
    RewardsSameBefore(tail, mid, before, after);
  }


  /** A quest not under `ids` is not touched by a pass over `ids`. */
  lemma {:induction false} CheckEachUntouched(ids: seq<string>, qm: QuestManager, inv: Inventory, id: string)
    requires forall i :: 0 <= i < |ids| ==> ids[i] in qm.quests
    requires id in qm.quests && id !in ids
    ensures CheckEach(ids, qm, inv).0.quests[id] == qm.quests[id]
    decreases |ids|
  {
    if |ids| > 0 {
      var (_, q1, inv1) := CheckCompletion(qm.quests[ids[0]], inv);
      var qm1 := qm.(quests := qm.quests[ids[0] := q1]);
      assert id !in ids[1..];
      CheckEachUntouched(ids[1..], qm1, inv1, id);
    }
  }

  /** A pass over distinct ids appends exactly the rewards of the quests it completed, in order. */
  lemma {:induction false} CheckEachRewards(ids: seq<string>, qm: QuestManager, inv: Inventory)
    requires forall i :: 0 <= i < |ids| ==> ids[i] in qm.quests
    requires NoDuplicates(ids)
    ensures var (qm', inv') := CheckEach(ids, qm, inv);
      inv' == inv + Rewards(ids, qm.quests, qm'.quests)
    decreases |ids|
  {
    if |ids| == 0 {
      assert inv == inv + [];
    } else {
      var id, rest := ids[0], ids[1..];
      var q := qm.quests[id];
      var (_, q1, inv1) := CheckCompletion(q, inv);
      var qm1 := qm.(quests := qm.quests[id := q1]);
      var (qm', inv') := CheckEach(rest, qm1, inv1);
      assert CheckEach(ids, qm, inv) == (qm', inv');
      TailDistinct(ids);
      CheckEachRewards(rest, qm1, inv1);
      CheckEachUntouched(rest, qm1, inv1, id);
      CheckCompletionGrants(q, inv);
      forall i | 0 <= i < |rest| ensures qm1.quests[rest[i]] == qm.quests[rest[i]] {
        assert rest[i] in rest;
      }
      RewardsSameBefore(rest, qm1.quests, qm.quests, qm'.quests);
      var tail := Rewards(rest, qm.quests, qm'.quests);
      assert Rewards(ids, qm.quests, qm'.quests) == RewardOf(q, q1) + tail;
      AppendTwice(inv, RewardOf(q, q1), tail);
    }
  }

  /** In a pass over distinct ids, each quest is judged against the inventory as it stands at its turn. */
  lemma {:induction false} CheckEachJudged(ids: seq<string>, qm: QuestManager, inv: Inventory)
    requires forall i :: 0 <= i < |ids| ==> ids[i] in qm.quests
    requires NoDuplicates(ids)
    ensures var (qm', inv') := CheckEach(ids, qm, inv);
      JudgedInTurn(ids, qm.quests, qm'.quests, inv)
    decreases |ids|
  {
    if |ids| > 0 {
      var id, rest := ids[0], ids[1..];
      var q := qm.quests[id];
      var (_, q1, inv1) := CheckCompletion(q, inv);
      var qm1 := qm.(quests := qm.quests[id := q1]);
      var (qm', inv') := CheckEach(rest, qm1, inv1);
      assert CheckEach(ids, qm, inv) == (qm', inv');
      TailDistinct(ids);
      CheckEachJudged(rest, qm1, inv1);
      CheckEachUntouched(rest, qm1, inv1, id);
      CheckCompletionGrants(q, inv);
      forall i | 1 <= i < |ids| ensures qm1.quests[ids[i]] == qm.quests[ids[i]] {
        assert ids[i] == rest[i - 1];
      }
      JudgedStep(ids, qm.quests, qm1.quests, qm'.quests, inv, inv1);
    }
  }

  /**
   * A pass of `CheckEach` over distinct ids, exactly: the inventory gains
   * the rewards of the quests it completed, in order, and each quest is
   * judged against the inventory as it stands at its turn.
   */
  lemma CheckEachExact(ids: seq<string>, qm: QuestManager, inv: Inventory)
    requires forall i :: 0 <= i < |ids| ==> ids[i] in qm.quests
    requires NoDuplicates(ids)
    ensures var (qm', inv') := CheckEach(ids, qm, inv);
      && inv' == inv + Rewards(ids, qm.quests, qm'.quests)
      && JudgedInTurn(ids, qm.quests, qm'.quests, inv)
  {
    CheckEachRewards(ids, qm, inv);
    CheckEachJudged(ids, qm, inv);
  }

  /**
   * `QuestManager.checkAllQuests`: runs `checkCompletion` on the quests
   * active at call time, in insertion order, against the player's inventory
   * as it stands at each turn. The inventory gains exactly the reward items
   * of the quests the pass completes, in that order. Inactive quests are
   * left alone, each active quest is left alone or completed, and every
   * active quest whose item was already there is completed.
   */
  function CheckAllQuests(qm: QuestManager, inv: Inventory): (res: (QuestManager, Inventory))
    ensures res.0.order == qm.order && res.0.quests.Keys == qm.quests.Keys
    ensures |inv| <= |res.1| <= |inv| + |qm.order| && res.1[..|inv|] == inv
    ensures forall id :: id in qm.quests ==> Advanced(qm.quests[id], res.0.quests[id], res.1)
    ensures forall id :: id in qm.quests && !qm.quests[id].isActive ==> res.0.quests[id] == qm.quests[id]
    ensures Valid(qm) ==> forall id :: id in qm.quests && Ready(qm.quests[id], inv) ==> res.0.quests[id].isCompleted
    ensures Valid(qm) ==> res.1 == inv + Rewards(ActiveIds(qm), qm.quests, res.0.quests)
    ensures Valid(qm) ==> JudgedInTurn(ActiveIds(qm), qm.quests, res.0.quests, inv)
    ensures Valid(qm) ==> Valid(res.0)
  {
    var ids := ActiveIds(qm);
    assert forall i :: 0 <= i < |ids| ==> ids[i] in qm.quests;
    CheckEachSpec(ids, qm, inv);
    var res := CheckEach(ids, qm, inv);
    assert Valid(qm) ==> (
      && res.1 == inv + Rewards(ids, qm.quests, res.0.quests)
      && JudgedInTurn(ids, qm.quests, res.0.quests, inv)
      && Valid(res.0)) by {
      if Valid(qm) {
        CheckEachExact(ids, qm, inv);
        forall id | id in res.0.quests ensures res.0.quests[id].id == id {
          assert Advanced(qm.quests[id], res.0.quests[id], res.1);
        }
      }
    }
    res
  }

  lemma HasItemInTail(inv: Inventory, rs: seq<Item>, itemId: string)
    ensures HasItem(inv + rs, itemId) <==> HasItem(inv, itemId) || HasItem(rs, itemId)
  {
    var all := inv + rs;
    if HasItem(all, itemId) {
      var k :| 0 <= k < |all| && all[k].id == itemId;
      if k < |inv| { assert inv[k] == all[k]; } else { assert rs[k - |inv|] == all[k]; }
    }
    if HasItem(rs, itemId) {
      var k :| 0 <= k < |rs| && rs[k].id == itemId;
      assert all[|inv| + k] == rs[k];
    }
    if HasItem(inv, itemId) {
      var k :| 0 <= k < |inv| && inv[k].id == itemId;
      assert all[k] == inv[k];
    }
  }

  /**
   * In a pass judged in turn, a ready quest at position `p` is completed,
   * and its reward reaches the quest at a later position `r` that needs it.
   */
  lemma TurnSeesEarlierReward(ids: seq<string>, before: map<string, Quest>, after: map<string, Quest>, inv: Inventory, p: nat, r: nat)
    requires forall i :: 0 <= i < |ids| ==> ids[i] in before && ids[i] in after
    requires JudgedInTurn(ids, before, after, inv)
    requires p < r < |ids|
    requires Ready(before[ids[p]], inv) && before[ids[p]].rewardItem.Some?
    requires before[ids[r]].isActive && !before[ids[r]].isCompleted
    requires before[ids[r]].requiredItemId == Some(before[ids[p]].rewardItem.value.id)
    ensures after[ids[p]].isCompleted && after[ids[r]].isCompleted
  {
    var qa := before[ids[p]];
    var itemId := qa.rewardItem.value.id;
    HasItemInTail(inv, Rewards(ids[..p], before, after), qa.requiredItemId.value);
    assert after[ids[p]].isCompleted;
    assert ids[..r][p] == ids[p];
    assert GaveReward(before[ids[..r][p]], after[ids[..r][p]], itemId);
    RewardsHasItem(ids[..r], before, after, itemId);
    HasItemInTail(inv, Rewards(ids[..r], before, after), itemId);
  }

  /**
   * In a pass judged in turn, a quest whose item is neither in `inv` nor the
   * reward of any quest before it is left open.
   */
  lemma TurnMissesLateReward(ids: seq<string>, before: map<string, Quest>, after: map<string, Quest>, inv: Inventory, r: nat, itemId: string)
    requires forall i :: 0 <= i < |ids| ==> ids[i] in before && ids[i] in after
    requires JudgedInTurn(ids, before, after, inv)
    requires r < |ids| && before[ids[r]].requiredItemId == Some(itemId) && !HasItem(inv, itemId)
    requires forall m :: 0 <= m < r ==> before[ids[m]].rewardItem.None? || before[ids[m]].rewardItem.value.id != itemId
    ensures after[ids[r]] == before[ids[r]]
  {
    RewardsHasItem(ids[..r], before, after, itemId);
    forall m | 0 <= m < r ensures !GaveReward(before[ids[..r][m]], after[ids[..r][m]], itemId) {
      assert ids[..r][m] == ids[m];
    }
    HasItemInTail(inv, Rewards(ids[..r], before, after), itemId);
  }

  /** Both quests are filed in `qm.order`, at positions `i < j`: then they are checked in that order. */
  lemma ActivePositions(qm: QuestManager, i: nat, j: nat) returns (p: nat, r: nat)
    requires Valid(qm) && i < j < |qm.order|
    requires qm.quests[qm.order[i]].isActive && qm.quests[qm.order[j]].isActive
    ensures p < r < |ActiveIds(qm)|
    ensures ActiveIds(qm)[p] == qm.order[i] && ActiveIds(qm)[r] == qm.order[j]
  {
    var ids := ActiveIds(qm);
    assert qm.order[i] in ids && qm.order[j] in ids;
    p :| 0 <= p < |ids| && ids[p] == qm.order[i];
    r :| 0 <= r < |ids| && ids[r] == qm.order[j];
    if r <= p {
      assert false;
    }
  }

  /** An active quest checked before the one filed at position `j` is filed before `j`. */
  lemma FiledEarlier(qm: QuestManager, j: nat, r: nat, m: nat) returns (x: nat)
    requires Valid(qm) && j < |qm.order|
    requires m < r < |ActiveIds(qm)| && ActiveIds(qm)[r] == qm.order[j]
    ensures x < j && qm.order[x] == ActiveIds(qm)[m]
  {
    var ids := ActiveIds(qm);
    assert Before(qm.order, ids[m], ids[r]);
    var y: nat;
    x, y :| 0 <= x < y < |qm.order| && qm.order[x] == ids[m] && qm.order[y] == ids[r];
    assert y == j;
  }

  /**
   * A reward granted earlier in a `checkAllQuests` pass is visible to later
   * checks: when the quest at position `i` is ready and its reward item is
   * what the open, active quest at a later position `j` needs, the pass
   * completes both.
   */
  lemma RewardFeedsLaterCheck(qm: QuestManager, inv: Inventory, i: nat, j: nat)
    requires Valid(qm) && i < j < |qm.order|
    requires Ready(qm.quests[qm.order[i]], inv) && qm.quests[qm.order[i]].rewardItem.Some?
    requires qm.quests[qm.order[j]].isActive && !qm.quests[qm.order[j]].isCompleted
    requires qm.quests[qm.order[j]].requiredItemId == Some(qm.quests[qm.order[i]].rewardItem.value.id)
    ensures CheckAllQuests(qm, inv).0.quests[qm.order[i]].isCompleted
    ensures CheckAllQuests(qm, inv).0.quests[qm.order[j]].isCompleted
  {
    var after := CheckAllQuests(qm, inv).0.quests;
    var ids := ActiveIds(qm);
    assert forall m :: 0 <= m < |ids| ==> ids[m] in qm.quests;
    assert after.Keys == qm.quests.Keys;
    assert JudgedInTurn(ids, qm.quests, after, inv);
    var p, r := ActivePositions(qm, i, j);
    TurnSeesEarlierReward(ids, qm.quests, after, inv, p, r);
  }

  /**
   * The other side of the same ordering: when no quest filed before position
   * `j` carries a reward with the item the quest there needs, and the
   * inventory does not hold it, the pass leaves that quest as it was.
   */
  lemma RewardArrivesTooLate(qm: QuestManager, inv: Inventory, j: nat)
    requires Valid(qm) && j < |qm.order|
    requires qm.quests[qm.order[j]].requiredItemId.Some?
    requires !HasItem(inv, qm.quests[qm.order[j]].requiredItemId.value)
    requires forall p :: 0 <= p < j ==>
      qm.quests[qm.order[p]].rewardItem.None? ||
      qm.quests[qm.order[p]].rewardItem.value.id != qm.quests[qm.order[j]].requiredItemId.value
    ensures CheckAllQuests(qm, inv).0.quests[qm.order[j]] == qm.quests[qm.order[j]]
  {
    var b := qm.order[j];
    var itemId := qm.quests[b].requiredItemId.value;
    var after := CheckAllQuests(qm, inv).0.quests;
    if qm.quests[b].isActive {
      var ids := ActiveIds(qm);
      assert forall m :: 0 <= m < |ids| ==> ids[m] in qm.quests && ids[m] in after;
      assert b in ids;
      var r :| 0 <= r < |ids| && ids[r] == b;
      forall m | 0 <= m < r
        ensures qm.quests[ids[m]].rewardItem.None? || qm.quests[ids[m]].rewardItem.value.id != itemId
      {
        var x := FiledEarlier(qm, j, r, m);
      }
      TurnMissesLateReward(ids, qm.quests, after, inv, r, itemId);
    }
  }

  /**
   * Because completing a quest sets `isActive` again, every quest completed
   * by `checkAllQuests`, whether it was ready at the start or became ready by
   * an earlier reward in the same pass, is still among `getActiveQuests()`
   * afterwards.
   */
  lemma CompletedQuestStillListedActive(qm: QuestManager, inv: Inventory, id: string)
    requires Valid(qm) && id in qm.quests && !qm.quests[id].isCompleted
    requires CheckAllQuests(qm, inv).0.quests[id].isCompleted
    ensures var qm' := CheckAllQuests(qm, inv).0;
      exists i :: 0 <= i < |GetActiveQuests(qm')| && GetActiveQuests(qm')[i].id == id && GetActiveQuests(qm')[i].isCompleted
  {
    var qm' := CheckAllQuests(qm, inv).0;
    assert Advanced(qm.quests[id], qm'.quests[id], CheckAllQuests(qm, inv).1);
    assert qm'.quests[id].isActive;
    var r := GetActiveQuests(qm');
    var i :| 0 <= i < |r| && r[i].id == id;
    assert r[i] == qm'.quests[id];
  }
}
