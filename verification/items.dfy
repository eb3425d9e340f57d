/**
 * Items and the player's inventory (the `Item` and `Inventory` classes of
 * src/main/kotlin/10slesor.kt).
 *
 * An item's effect is a Kotlin closure over the whole player; here it is a
 * total, pure function on the player's combat stats, so an effect that
 * throws is not modelled (in Kotlin the exception would leave `useItem`
 * before the item is removed, and leave `usePotion` as well). The inventory is an ordered
 * sequence of items in acquisition order; duplicates are allowed.
 */
module Items {
  import opened Wrappers

  /** The `Character` part of a player: name, current health and attack. */
  datatype Stats = Stats(name: string, health: int, attack: int)

  datatype Item = Item(
    id: string,
    name: string,
    description: string,
    value: int,
    effect: Stats -> Stats)

  type Inventory = seq<Item>

  /** The default effect `{}`: nothing happens. */
  function NoEffect(s: Stats): Stats {
    s
  }

  /** `Item(id, name, description, value)` built with the default value 0 and the default effect. */
  function PlainItem(id: string, name: string, description: string, value: int := 0): Item {
    Item(id, name, description, value, NoEffect)
  }

  /** `Item.use`: applies the item's effect to the player. */
  function Use(item: Item, s: Stats): Stats {
    item.effect(s)
  }

  /** Using an item built without an effect leaves the player as it was. */
  lemma UsePlainItemIsNoOp(id: string, name: string, description: string, value: int, s: Stats)
    ensures Use(PlainItem(id, name, description, value), s) == s
  {
  }

  /** `Inventory.addItem`: appends to the end. */
  function AddItem(inv: Inventory, item: Item): (r: Inventory)
    ensures |r| == |inv| + 1
    ensures forall j :: 0 <= j < |inv| ==> r[j] == inv[j]
    ensures r[|inv|] == item
  {
    inv + [item]
  }

  /** Drops position `i`; the items after it move one place forward. */
  function RemoveAt(inv: Inventory, i: nat): (r: Inventory)
    requires i < |inv|
    ensures |r| == |inv| - 1
    ensures forall j :: 0 <= j < i ==> r[j] == inv[j]
    ensures forall j :: i <= j < |r| ==> r[j] == inv[j + 1]
  {
    inv[..i] + inv[i + 1..]
  }

  predicate ValidIndex(inv: Inventory, index: int) {
    0 <= index < |inv|
  }

  /**
   * `Inventory.removeItem`: removes position `index` when it is valid and
   * otherwise leaves the list alone. The Kotlin method reports failure on both
   * paths: the "invalid index" branch is not in an `else`, so the result is
   * always false.
   */
  function RemoveItem(inv: Inventory, index: int): (res: (bool, Inventory))
    ensures !res.0
    ensures ValidIndex(inv, index) ==> (
      && |res.1| == |inv| - 1
      && (forall j :: 0 <= j < index ==> res.1[j] == inv[j])
      && (forall j :: index <= j < |res.1| ==> res.1[j] == inv[j + 1]))
    ensures !ValidIndex(inv, index) ==> res.1 == inv
  {
    if ValidIndex(inv, index) then (false, RemoveAt(inv, index)) else (false, inv)
  }

  /**
   * `removeItem` as its messages suggest it was meant to work: true exactly
   * when an item was removed.
   */
  function RemoveItemIntended(inv: Inventory, index: int): (res: (bool, Inventory))
    ensures res.0 <==> ValidIndex(inv, index)
    ensures res.0 ==> |res.1| == |inv| - 1 && res.1 == RemoveItem(inv, index).1
    ensures !res.0 ==> res.1 == inv
  {
    if ValidIndex(inv, index) then (true, RemoveAt(inv, index)) else (false, inv)
  }

  /** As written, `removeItem(0)` on a one-item inventory empties it and still reports failure. */
  lemma RemoveItemReportsFailureOnSuccess(item: Item)
    ensures RemoveItem([item], 0) == (false, [])
    ensures RemoveItemIntended([item], 0) == (true, [])
  {
  }

  /**
   * `Inventory.useItem`: on a valid index, applies that item's effect to the
   * player once and then removes it; otherwise nothing changes.
   */
  function UseItem(inv: Inventory, index: int, s: Stats): (res: (bool, Inventory, Stats))
    ensures res.0 <==> ValidIndex(inv, index)
    ensures res.0 ==> (
      && res.2 == inv[index].effect(s)
      && |res.1| == |inv| - 1
      && (forall j :: 0 <= j < index ==> res.1[j] == inv[j])
      && (forall j :: index <= j < |res.1| ==> res.1[j] == inv[j + 1]))
    ensures !res.0 ==> res.1 == inv && res.2 == s
  {
    if ValidIndex(inv, index) then
      var s' := Use(inv[index], s);
      (true, RemoveAt(inv, index), s')
    else
      (false, inv, s)
  }

  /** Kotlin's `items.any { it.id == id }`. */
  predicate HasItem(inv: Inventory, id: string) {
    exists j :: 0 <= j < |inv| && inv[j].id == id
  }

  /** Position `k` holds the first item, in order, whose id is `id`. */
  predicate FirstWithId(inv: Inventory, id: string, k: int) {
    && 0 <= k < |inv|
    && inv[k].id == id
    && forall j :: 0 <= j < k ==> inv[j].id != id
  }

  /** `Inventory.findItemById`: the first item, in order, with this id. */
  function FindItemById(inv: Inventory, id: string): (r: Option<Item>)
    ensures r.None? <==> forall j :: 0 <= j < |inv| ==> inv[j].id != id
    ensures r.Some? ==> exists k :: FirstWithId(inv, id, k) && inv[k] == r.value
  {
    if |inv| == 0 then None
    else if inv[0].id == id then
      assert FirstWithId(inv, id, 0);
      Some(inv[0])
    else
      var r := FindItemById(inv[1..], id);
      assert r.Some? ==> exists k :: FirstWithId(inv, id, k) && inv[k] == r.value by {
        if r.Some? {
          var k :| FirstWithId(inv[1..], id, k) && inv[1..][k] == r.value;
          assert FirstWithId(inv, id, k + 1);
        }
      }
      r
  }

  /** `Inventory.countItems`: how many entries carry this id. */
  function CountItems(inv: Inventory, id: string): (n: nat)
    ensures n <= |inv|
    ensures n == 0 <==> forall j :: 0 <= j < |inv| ==> inv[j].id != id
  {
    if |inv| == 0 then 0
    else
      var rest := CountItems(inv[1..], id);
      assert (forall j :: 0 <= j < |inv[1..]| ==> inv[1..][j].id != id)
        <==> (forall j :: 1 <= j < |inv| ==> inv[j].id != id);
      (if inv[0].id == id then 1 else 0) + rest
  }

  /** The three id queries agree: `hasItem` iff `countItems > 0` iff `findItemById != null`. */
  lemma QueriesAgree(inv: Inventory, id: string)
    ensures HasItem(inv, id) <==> CountItems(inv, id) > 0
    ensures CountItems(inv, id) > 0 <==> FindItemById(inv, id).Some?
  {
  }

  /** Counting distributes over concatenation. */
  lemma {:induction false} CountConcat(a: Inventory, b: Inventory, id: string)
    ensures CountItems(a + b, id) == CountItems(a, id) + CountItems(b, id)
  {
    if |a| > 0 {
      assert (a + b)[1..] == a[1..] + b;
      CountConcat(a[1..], b, id);
    } else {
      assert a + b == b;
    }
  }

  /** Adding an item raises its id's count by one and leaves every other id's count alone. */
  lemma AddItemCount(inv: Inventory, item: Item, id: string)
    ensures CountItems(AddItem(inv, item), id) == CountItems(inv, id) + (if item.id == id then 1 else 0)
    ensures HasItem(AddItem(inv, item), item.id)
  {
    CountConcat(inv, [item], id);
    assert AddItem(inv, item)[|inv|] == item;
  }

  /** Removing position `i` lowers the count of exactly that item's id by one. */
  lemma RemoveAtCount(inv: Inventory, i: nat, id: string)
    requires i < |inv|
    ensures CountItems(RemoveAt(inv, i), id) == CountItems(inv, id) - (if inv[i].id == id then 1 else 0)
  {
    assert inv == inv[..i] + ([inv[i]] + inv[i + 1..]);
    CountConcat(inv[..i], [inv[i]] + inv[i + 1..], id);
    CountConcat([inv[i]], inv[i + 1..], id);
    CountConcat(inv[..i], inv[i + 1..], id);
  }

  /** Items that were present stay present when the inventory only grows at the end. */
  lemma HasItemExtends(inv: Inventory, inv': Inventory, id: string)
    requires |inv| <= |inv'| && inv'[..|inv|] == inv
    requires HasItem(inv, id)
    ensures HasItem(inv', id)
  {
    var j :| 0 <= j < |inv| && inv[j].id == id;
    assert inv'[j] == inv'[..|inv|][j];
  }
}
