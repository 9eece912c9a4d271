/** Buying a package is buying its leaves, and what that leaves unchanged. */
module InventoryBuying {
  import opened Bytes
  import opened AccountRecords
  import opened Inventory

  // ---------------------------------------------------------------- a package is its leaves

  /** The items a package comes to when every package in it is opened. */
  ghost function Leaves(c: Catalog, id: u32): seq<u32>
    requires Acyclic(c)
    decreases Rank(c)(id), 1
  {
    if Contents(c, id) == [] then [id] else LeavesOf(c, id, |Contents(c, id)|)
  }

  ghost function LeavesOf(c: Catalog, id: u32, n: nat): seq<u32>
    requires Acyclic(c) && n <= |Contents(c, id)|
    decreases Rank(c)(id), 0, n
  {
    if n == 0 then [] else LeavesOf(c, id, n - 1) + Leaves(c, Contents(c, id)[n - 1])
  }

  /** Items bought one after the other, none of them opened. */
  ghost function LeafAll(c: Catalog, inv: AccountInventory, ids: seq<u32>): Change {
    if ids == [] then Change(inv, false)
    else
      var before := LeafAll(c, inv, ids[..|ids| - 1]);
      var last := BoughtLeaf(c, before.inventory, ids[|ids| - 1], 1);
      Change(last.inventory, before.changed || last.changed)
  }

  ghost function Times(ids: seq<u32>, n: nat): seq<u32> { if n == 0 then [] else Times(ids, n - 1) + ids }

  lemma {:induction false} LeafAllAppend(c: Catalog, inv: AccountInventory, a: seq<u32>, b: seq<u32>)
    ensures var first := LeafAll(c, inv, a);
            var second := LeafAll(c, first.inventory, b);
            LeafAll(c, inv, a + b) == Change(second.inventory, first.changed || second.changed)
  {
    if b == [] {
      assert a + b == a;
    } else {
      var n := |b| - 1;
      LeafAllAppend(c, inv, a, b[..n]);
      assert (a + b)[..|a + b| - 1] == a + b[..n] && (a + b)[|a + b| - 1] == b[n];
    }
  }

  /** Buying one item, package or not, is buying its leaves one by one. */
  lemma {:induction false} BoughtOnce(c: Catalog, inv: AccountInventory, id: u32)
    requires Acyclic(c)
    ensures Bought(c, inv, id, 1) == LeafAll(c, inv, Leaves(c, id))
    decreases Rank(c)(id), 1
  {
    if Contents(c, id) == [] {
      assert [id][..0] == [] && LeafAll(c, inv, []) == Change(inv, false);
    } else {
      BoughtItemsAreLeaves(c, inv, id, |Contents(c, id)|);
      assert BoughtContents(c, inv, id, 0) == Change(inv, false);
    }
  }

  lemma {:induction false} BoughtItemsAreLeaves(c: Catalog, inv: AccountInventory, id: u32, n: nat)
    requires Acyclic(c) && n <= |Contents(c, id)|
    ensures BoughtItems(c, inv, id, n) == LeafAll(c, inv, LeavesOf(c, id, n))
    decreases Rank(c)(id), 0, n
  {
    if n > 0 {
      var before, item := ItemBefore(c, inv, id, n);
      BoughtItemsAreLeaves(c, inv, id, n - 1);
      BoughtOnce(c, before.inventory, item);
      ItemsInTurn(c, inv, id, n, before, item);
    }
  }

  lemma ItemBefore(c: Catalog, inv: AccountInventory, id: u32, n: nat) returns (before: Change, item: u32)
    requires Acyclic(c) && 0 < n <= |Contents(c, id)|
    ensures before == BoughtItems(c, inv, id, n - 1) && item == Contents(c, id)[n - 1]
    ensures Rank(c)(item) < Rank(c)(id)
  {
    before, item := BoughtItems(c, inv, id, n - 1), Contents(c, id)[n - 1];
  }

  lemma ItemsInTurn(c: Catalog, inv: AccountInventory, id: u32, n: nat, before: Change, item: u32)
    requires Acyclic(c) && 0 < n <= |Contents(c, id)| && item == Contents(c, id)[n - 1]
    requires before == BoughtItems(c, inv, id, n - 1) == LeafAll(c, inv, LeavesOf(c, id, n - 1))
    requires Bought(c, before.inventory, item, 1) == LeafAll(c, before.inventory, Leaves(c, item))
    ensures BoughtItems(c, inv, id, n) == LeafAll(c, inv, LeavesOf(c, id, n))
  {
    LeafAllAppend(c, inv, LeavesOf(c, id, n - 1), Leaves(c, item));
  }

  lemma {:induction false} ContentsAreLeaves(c: Catalog, inv: AccountInventory, id: u32, times: nat)
    requires Acyclic(c) && Contents(c, id) != []
    ensures BoughtContents(c, inv, id, times) == LeafAll(c, inv, Times(Leaves(c, id), times))
  {
    if times > 0 {
      ContentsAreLeaves(c, inv, id, times - 1);
      var before := LeafAll(c, inv, Times(Leaves(c, id), times - 1));
      BoughtItemsAreLeaves(c, before.inventory, id, |Contents(c, id)|);
      LeafAllAppend(c, inv, Times(Leaves(c, id), times - 1), Leaves(c, id));
    }
  }

  /** Buying a package is buying its flattened leaves max(count, 1) times. */
  lemma PackageIsItsLeaves(c: Catalog, inv: AccountInventory, id: u32, count: u16)
    requires Acyclic(c) && Contents(c, id) != []
    ensures Bought(c, inv, id, count) == LeafAll(c, inv, Times(Leaves(c, id), Max(count, 1)))
  {
    ContentsAreLeaves(c, inv, id, Max(count, 1));
  }

  // ---------------------------------------------------------------- equipment is owned once

  lemma {:induction false} InsertMembers<T>(xs: seq<T>, x: T, key: T -> int)
    ensures forall y :: y in InsertBy(xs, x, key) <==> y in xs || y == x
  {
    var n := |xs| - 1;
    if xs != [] && key(xs[n]) > key(x) {
      InsertMembers(xs[..n], x, key);
      assert xs == xs[..n] + [xs[n]];
    }
  }

  lemma {:induction false} SortMembers<T>(xs: seq<T>, key: T -> int)
    ensures forall y :: y in SortBy(xs, key) <==> y in xs
  {
    if xs != [] {
      var n := |xs| - 1;
      SortMembers(xs[..n], key);
      InsertMembers(SortBy(xs[..n], key), xs[n], key);
      assert xs == xs[..n] + [xs[n]];
    }
  }

  lemma WithItemMembers(owned: seq<u32>, id: u32)
    ensures forall x :: x in WithItem(owned, id) <==> x in owned || x == id
  {
    SortMembers(owned + [id], IdKey);
  }

  ghost predicate SameIds(a: seq<CharacterInventory>, b: seq<CharacterInventory>) {
    |a| == |b| && forall i :: 0 <= i < |a| ==> a[i].characterId == b[i].characterId
  }

  lemma {:induction false} SameIdsSameIndex(c: Catalog, a: seq<CharacterInventory>, b: seq<CharacterInventory>,
                                            key: string)
    requires SameIds(a, b)
    ensures CharacterIndex(c, a, key) == CharacterIndex(c, b, key)
  {
    if a != [] { SameIdsSameIndex(c, a[1..], b[1..], key); }
  }

  /** Whose item it is depends on the characters' ids alone. */
  lemma SameIdsSameTarget(c: Catalog, a: seq<CharacterInventory>, b: seq<CharacterInventory>, id: u32)
    requires SameIds(a, b)
    ensures Target(c, a, id) == Target(c, b, id)
  {
    if id in c.items { SameIdsSameIndex(c, a, b, CharacterKey(c.items[id].characterName)); }
  }

  /** What one purchase of a leaf may do to the characters: nothing but add to what they own. */
  ghost predicate Grows(a: AccountInventory, b: AccountInventory) {
    SameIds(a.characters, b.characters) &&
    forall i, slot, x :: 0 <= i < |a.characters| && x in Owned(a.characters[i], slot) ==>
        x in Owned(b.characters[i], slot)
  }

  lemma OwnedOf(c: CharacterInventory, slot: EquipSlot, ids: seq<u32>, s: EquipSlot)
    ensures Owned(WithOwned(c, slot, ids), s) == if s == slot then ids else Owned(c, s)
    ensures Equipped(WithOwned(c, slot, ids), s) == Equipped(c, s)
  {
  }

  lemma WithEquipmentGrows(inv: AccountInventory, i: nat, slot: Option<EquipSlot>, id: u32)
    requires i < |inv.characters|
    ensures Grows(inv, WithEquipment(inv, i, slot, id).inventory)
  {
    if slot.Some? {
      var owned := Owned(inv.characters[i], slot.value);
      WithItemMembers(owned, id);
      var after := WithEquipment(inv, i, slot, id).inventory;
      forall j, s, x | 0 <= j < |inv.characters| && x in Owned(inv.characters[j], s)
        ensures x in Owned(after.characters[j], s)
      {
        OwnedOf(inv.characters[i], slot.value, WithItem(owned, id), s);
      }
    }
  }

  lemma BoughtLeafGrows(c: Catalog, inv: AccountInventory, id: u32, count: u16)
    ensures Grows(inv, BoughtLeaf(c, inv, id, count).inventory)
  {
    var target := Target(c, inv.characters, id);
    if target.Some? { WithEquipmentGrows(inv, target.value, SlotOf(c.items[id].typeName), id); }
  }

  /** Equipment that goes to a character. */
  predicate Resolves(c: Catalog, inv: AccountInventory, id: u32) { Target(c, inv.characters, id).Some? }

  /** Buying the item now would change nothing. */
  predicate Settled(c: Catalog, inv: AccountInventory, id: u32) {
    Resolves(c, inv, id) &&
    var slot := SlotOf(c.items[id].typeName);
    slot == None || id in Owned(inv.characters[Target(c, inv.characters, id).value], slot.value)
  }

  lemma BoughtLeafSettles(c: Catalog, inv: AccountInventory, id: u32)
    requires Resolves(c, inv, id)
    ensures Settled(c, BoughtLeaf(c, inv, id, 1).inventory, id)
    ensures BoughtLeaf(c, inv, id, 1).inventory.sharedItemStacks == inv.sharedItemStacks
  {
    var i, slot := Target(c, inv.characters, id).value, SlotOf(c.items[id].typeName);
    BoughtLeafGrows(c, inv, id, 1);
    SameIdsSameTarget(c, inv.characters, BoughtLeaf(c, inv, id, 1).inventory.characters, id);
    if slot.Some? { WithItemMembers(Owned(inv.characters[i], slot.value), id); }
  }

  lemma SettledStays(c: Catalog, a: AccountInventory, b: AccountInventory, id: u32)
    requires Grows(a, b)
    ensures Resolves(c, a, id) ==> Resolves(c, b, id)
    ensures Settled(c, a, id) ==> Settled(c, b, id)
  {
    SameIdsSameTarget(c, a.characters, b.characters, id);
  }

  ghost predicate AllResolve(c: Catalog, inv: AccountInventory, ids: seq<u32>) {
    forall i :: 0 <= i < |ids| ==> Resolves(c, inv, ids[i])
  }

  ghost predicate AllSettled(c: Catalog, inv: AccountInventory, ids: seq<u32>) {
    forall i :: 0 <= i < |ids| ==> Settled(c, inv, ids[i])
  }

  /** Items that all resolve are all settled once bought; the shared stacks are not touched. */
  lemma {:induction false} LeafAllSettles(c: Catalog, inv: AccountInventory, ids: seq<u32>)
    requires AllResolve(c, inv, ids)
    ensures var r := LeafAll(c, inv, ids).inventory;
            AllSettled(c, r, ids) && Grows(inv, r) && r.sharedItemStacks == inv.sharedItemStacks
  {
    if ids != [] {
      var n := |ids| - 1;
      LeafAllSettles(c, inv, ids[..n]);
      var before := LeafAll(c, inv, ids[..n]).inventory;
      var after := BoughtLeaf(c, before, ids[n], 1).inventory;
      SettledStays(c, inv, before, ids[n]);
      BoughtLeafSettles(c, before, ids[n]);
      BoughtLeafGrows(c, before, ids[n], 1);
      SettledOneMore(c, before, after, ids);
    }
  }

  lemma SettledOneMore(c: Catalog, before: AccountInventory, after: AccountInventory, ids: seq<u32>)
    requires ids != [] && AllSettled(c, before, ids[..|ids| - 1]) && Settled(c, after, ids[|ids| - 1]) &&
             Grows(before, after)
    ensures AllSettled(c, after, ids)
  {
    forall i | 0 <= i < |ids| ensures Settled(c, after, ids[i]) {
      if i < |ids| - 1 {
        assert ids[..|ids| - 1][i] == ids[i];
        SettledStays(c, before, after, ids[i]);
      }
    }
  }

  lemma {:induction false} SettledIsNoChange(c: Catalog, inv: AccountInventory, ids: seq<u32>)
    requires AllSettled(c, inv, ids)
    ensures LeafAll(c, inv, ids) == Change(inv, false)
  {
    if ids != [] {
      SettledIsNoChange(c, inv, ids[..|ids| - 1]);
      assert Settled(c, inv, ids[|ids| - 1]);
    }
  }

  lemma {:induction false} TimesIsOnce(c: Catalog, inv: AccountInventory, ids: seq<u32>, n: nat)
    requires AllResolve(c, inv, ids) && n > 0
    ensures LeafAll(c, inv, Times(ids, n)) == LeafAll(c, inv, ids)
  {
    if n == 1 {
      assert Times(ids, 0) + ids == ids;
    } else {
      TimesIsOnce(c, inv, ids, n - 1);
      LeafAllSettles(c, inv, ids);
      SettledIsNoChange(c, LeafAll(c, inv, ids).inventory, ids);
      LeafAllAppend(c, inv, Times(ids, n - 1), ids);
    }
  }

  /** If everything in a package is equipment of some character, it does not matter how many are bought. */
  lemma EquipmentPackageIgnoresCount(c: Catalog, inv: AccountInventory, id: u32, count: u16)
    requires Acyclic(c) && Contents(c, id) != [] && AllResolve(c, inv, Leaves(c, id))
    ensures Bought(c, inv, id, count) == Bought(c, inv, id, 1)
    ensures Bought(c, inv, id, count).inventory.sharedItemStacks == inv.sharedItemStacks
  {
    PackageIsItsLeaves(c, inv, id, count);
    BoughtOnce(c, inv, id);
    TimesIsOnce(c, inv, Leaves(c, id), Max(count, 1));
    LeafAllSettles(c, inv, Leaves(c, id));
  }
}
