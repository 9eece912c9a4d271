/** What arrives: for every item how many units the shared stacks count afterwards, and what every character owns. */
module InventoryDelivery {
  import opened Bytes
  import opened AccountRecords
  import opened Inventory
  import opened InventoryBuying
  import opened InventoryOrder
  import opened InventoryExpansion

  // ---------------------------------------------------------------- the elements with one key

  /** The elements of a list with a key, in their order. What is so for every key is so for the whole list but for the
      order of elements with different keys. */
  function Of<T>(xs: seq<T>, key: T -> int, k: int): seq<T> {
    if xs == [] then []
    else
      var n := |xs| - 1;
      Of(xs[..n], key, k) + (if key(xs[n]) == k then [xs[n]] else [])
  }

  lemma {:induction false} OfAppend<T>(a: seq<T>, b: seq<T>, key: T -> int, k: int)
    ensures Of(a + b, key, k) == Of(a, key, k) + Of(b, key, k)
  {
    if b == [] {
      assert a + b == a && Of(a, key, k) + [] == Of(a, key, k);
    } else {
      var n := |b| - 1;
      OfAppend(a, b[..n], key, k);
      assert (a + b)[..|a + b| - 1] == a + b[..n];
      Regroup(Of(a, key, k), Of(b[..n], key, k), if key(b[n]) == k then [b[n]] else []);
    }
  }

  /** Sorting keeps the elements with one key in their order. */
  lemma {:induction false} OfInserted<T>(xs: seq<T>, x: T, key: T -> int, k: int)
    ensures Of(InsertBy(xs, x, key), key, k) == Of(xs + [x], key, k)
  {
    assert (xs + [x])[..|xs|] == xs;
    var n := |xs| - 1;
    if xs != [] && key(xs[n]) > key(x) {
      OfInserted(xs[..n], x, key, k);
      var r := InsertBy(xs[..n], x, key);
      assert (xs[..n] + [x])[..n] == xs[..n];
      assert (r + [xs[n]])[..|r|] == r;
    }
  }

  lemma {:induction false} OfSorted<T>(xs: seq<T>, key: T -> int, k: int)
    ensures Of(SortBy(xs, key), key, k) == Of(xs, key, k)
  {
    if xs != [] {
      var n := |xs| - 1;
      var sorted := SortBy(xs[..n], key);
      OfSorted(xs[..n], key, k);
      OfInserted(sorted, xs[n], key, k);
      assert (sorted + [xs[n]])[..n] == sorted;
    }
  }

  lemma {:induction false} OfNone<T>(xs: seq<T>, key: T -> int, k: int)
    requires forall j :: 0 <= j < |xs| ==> key(xs[j]) != k
    ensures Of(xs, key, k) == []
  {
    if xs != [] { OfNone(xs[..|xs| - 1], key, k); }
  }

  lemma OfOne<T>(x: T, key: T -> int, k: int)
    ensures Of([x], key, k) == if key(x) == k then [x] else []
  {
    assert [x][..0] == [];
  }

  lemma OfSplit<T>(xs: seq<T>, i: nat, key: T -> int, k: int) returns (before: seq<T>, behind: seq<T>)
    requires i < |xs|
    ensures before == Of(xs[..i], key, k) && behind == Of(xs[i + 1..], key, k)
    ensures Of(xs, key, k) == before + (if key(xs[i]) == k then [xs[i]] else []) + behind
  {
    before, behind := Of(xs[..i], key, k), Of(xs[i + 1..], key, k);
    assert xs == xs[..i] + [xs[i]] + xs[i + 1..];
    OfAppend(xs[..i] + [xs[i]], xs[i + 1..], key, k);
    OfAppend(xs[..i], [xs[i]], key, k);
    OfOne(xs[i], key, k);
  }

  /** An element with another key does not count. */
  lemma OfSkips<T>(xs: seq<T>, i: nat, key: T -> int, k: int)
    requires i < |xs| && key(xs[i]) != k
    ensures Of(xs, key, k) == Of(xs[..i] + xs[i + 1..], key, k)
  {
    var before, behind := OfSplit(xs, i, key, k);
    assert before + [] == before;
    OfAppend(xs[..i], xs[i + 1..], key, k);
  }

  ghost predicate IsFirst<T>(xs: seq<T>, i: nat, key: T -> int) {
    i < |xs| && forall j :: 0 <= j < i ==> key(xs[j]) != key(xs[i])
  }

  /** The first element with a key comes first. */
  lemma OfHead<T>(xs: seq<T>, i: nat, key: T -> int)
    requires IsFirst(xs, i, key)
    ensures Of(xs, key, key(xs[i])) == [xs[i]] + Of(xs[i + 1..], key, key(xs[i]))
  {
    var before, behind := OfSplit(xs, i, key, key(xs[i]));
    OfNone(xs[..i], key, key(xs[i]));
    assert [] + [xs[i]] == [xs[i]];
  }

  lemma OfBehind<T>(a: seq<T>, b: seq<T>, key: T -> int, k: int)
    requires forall j :: 0 <= j < |a| ==> key(a[j]) != k
    ensures Of(a + b, key, k) == Of(b, key, k)
  {
    OfNone(a, key, k);
    OfAppend(a, b, key, k);
    assert [] + Of(b, key, k) == Of(b, key, k);
  }

  /** Replacing the first element with a key by another one with it. */
  lemma OfReplaced<T>(xs: seq<T>, i: nat, x: T, key: T -> int, k: int)
    requires IsFirst(xs, i, key) && key(x) == key(xs[i])
    ensures var was, now := Of(xs, key, k), Of(xs[i := x], key, k);
            if key(x) == k then was != [] && was[0] == xs[i] && now == [x] + was[1..] else now == was
  {
    var after := xs[i := x];
    assert after[..i] == xs[..i] && after[i + 1..] == xs[i + 1..];
    if key(x) == k {
      OfHead(xs, i, key);
      OfHead(after, i, key);
      assert Of(xs, key, k)[1..] == Of(xs[i + 1..], key, k);
    } else {
      OfSkips(xs, i, key, k);
      OfSkips(after, i, key, k);
    }
  }

  /** Removing it. */
  lemma OfRemoved<T>(xs: seq<T>, i: nat, key: T -> int, k: int)
    requires IsFirst(xs, i, key)
    ensures var was, now := Of(xs, key, k), Of(xs[..i] + xs[i + 1..], key, k);
            if key(xs[i]) == k then was == [xs[i]] + now else now == was
  {
    if key(xs[i]) == k {
      OfHead(xs, i, key);
      OfBehind(xs[..i], xs[i + 1..], key, k);
    } else {
      OfSkips(xs, i, key, k);
    }
  }

  /** Adding one with a new key and sorting. */
  lemma OfAdded<T>(xs: seq<T>, x: T, key: T -> int, k: int)
    requires forall j :: 0 <= j < |xs| ==> key(xs[j]) != key(x)
    ensures Of(SortBy(xs + [x], key), key, k) == if key(x) == k then [x] else Of(xs, key, k)
  {
    OfSorted(xs + [x], key, k);
    OfAppend(xs, [x], key, k);
    OfOne(x, key, k);
    if key(x) == k { OfNone(xs, key, k); }
  }

  // ---------------------------------------------------------------- stacks and skills

  /** All stacks of an item, in their order. */
  function Held(stacks: seq<ItemStack>, id: u32): seq<ItemStack> { Of(stacks, StackKey, id) }

  /** Units added to the first stack of an item, which is made if there is none; it never counts beyond 16 bits. */
  function Poured(held: seq<ItemStack>, id: u32, units: nat): seq<ItemStack> {
    if held == [] then [ItemStack(id, Min(units, 0xFFFF))]
    else [ItemStack(id, Min(held[0].ownedCount as int + units, 0xFFFF))] + held[1..]
  }

  /** One unit out of the first stack, which goes when it was the last. */
  function Drawn(held: seq<ItemStack>): seq<ItemStack> {
    if held == [] then []
    else if held[0].ownedCount > 1 then [held[0].(ownedCount := held[0].ownedCount - 1)] + held[1..]
    else held[1..]
  }

  /** Adding units to the stacks changes the first stack of that item and nothing else. */
  lemma WithStackHolds(stacks: seq<ItemStack>, id: u32, count: u16, other: u32)
    ensures Held(WithStack(stacks, id, count), other) ==
            if other == id then Poured(Held(stacks, id), id, count) else Held(stacks, other)
  {
    var i := StackIndex(stacks, id);
    if i < |stacks| {
      OfReplaced(stacks, i, ItemStack(id, Min(stacks[i].ownedCount as int + count as int, 0xFFFF)), StackKey, other);
    } else {
      OfNone(stacks, StackKey, id);
      OfAdded(stacks, ItemStack(id, count), StackKey, other);
    }
  }

  /** Removing a unit takes it from the first stack of that item and changes nothing else. */
  lemma WithoutStackHolds(stacks: seq<ItemStack>, id: u32, other: u32)
    ensures Held(WithoutStack(stacks, id), other) ==
            if other == id then Drawn(Held(stacks, id)) else Held(stacks, other)
  {
    var i := StackIndex(stacks, id);
    if i == |stacks| {
      OfNone(stacks, StackKey, id);
    } else if stacks[i].ownedCount > 1 {
      OfReplaced(stacks, i, stacks[i].(ownedCount := stacks[i].ownedCount - 1), StackKey, other);
    } else {
      LastUnitGoes(stacks, i, other);
    }
  }

  lemma LastUnitGoes(stacks: seq<ItemStack>, i: nat, other: u32)
    requires IsFirst(stacks, i, StackKey) && stacks[i].ownedCount <= 1
    ensures Held(stacks[..i] + stacks[i + 1..], other) ==
            if other == stacks[i].itemId then Drawn(Held(stacks, other)) else Held(stacks, other)
  {
    OfRemoved(stacks, i, StackKey, other);
    if other == stacks[i].itemId {
      var now := Held(stacks[..i] + stacks[i + 1..], other);
      assert ([stacks[i]] + now)[1..] == now;
    }
  }

  /** Learning a skill sets the minutes of its first entry, which is made if there is none, and changes nothing else; it
      is reported unless the minutes are the old ones. */
  lemma WithSkillHolds(inv: AccountInventory, id: u32, minutes: u32, other: u32)
    requires id != 0
    ensures var b := WithSkill(inv, id, minutes);
            var was, now := Of(inv.ownedSkills, SkillKey, other), Of(b.inventory.ownedSkills, SkillKey, other);
            && b.inventory == inv.(ownedSkills := b.inventory.ownedSkills)
            && (other != id ==> now == was)
            && (other == id ==> now == [OwnedSkill(id, minutes)] + (if was == [] then [] else was[1..]))
            && (other == id ==> (b.changed <==> was == [] || was[0].durationMinutes != minutes))
  {
    var i := SkillIndex(inv.ownedSkills, id);
    if i < |inv.ownedSkills| {
      OfReplaced(inv.ownedSkills, i, OwnedSkill(id, minutes), SkillKey, other);
    } else {
      OfNone(inv.ownedSkills, SkillKey, id);
      OfAdded(inv.ownedSkills, OwnedSkill(id, minutes), SkillKey, other);
    }
  }

  /** Removing an item takes it off every character that wears it and out of every list; if nobody has it, one unit of
      it goes from the shared stacks. Nothing else changes, and a removal is reported exactly if there was one. */
  lemma RemovedIs(inv: AccountInventory, id: u32)
    ensures var b := Removed(inv, id); var after := b.inventory;
            var had, stacked := exists c <- inv.characters, s: EquipSlot :: Holds(c, s, id),
                                Held(inv.sharedItemStacks, id) != [];
            && (b.changed <==> had || stacked) && after.ownedSkills == inv.ownedSkills
            && (forall other: u32 :: Held(after.sharedItemStacks, other) ==
                  if other == id && !had then Drawn(Held(inv.sharedItemStacks, id))
                      else Held(inv.sharedItemStacks, other))
            && |after.characters| == |inv.characters|
            && forall i, s :: 0 <= i < |inv.characters| ==> LosesOnly(inv.characters[i], after.characters[i], s, id)
  {
    StackedIs(inv.sharedItemStacks, id);
    forall other: u32
      ensures Held(WithoutStack(inv.sharedItemStacks, id), other) ==
              if other == id then Drawn(Held(inv.sharedItemStacks, id)) else Held(inv.sharedItemStacks, other)
    {
      WithoutStackHolds(inv.sharedItemStacks, id, other);
    }
    forall c | c in inv.characters ensures HoldsAnywhere(c, id) <==> exists s: EquipSlot :: Holds(c, s, id) {
      HoldsAnywhereIs(c, id);
    }
    forall i, s | 0 <= i < |inv.characters|
      ensures LosesOnly(inv.characters[i], Removed(inv, id).inventory.characters[i], s, id)
    {
      RemovedLoses(inv, id, i, s);
    }
  }

  lemma StackedIs(stacks: seq<ItemStack>, id: u32)
    ensures StackIndex(stacks, id) < |stacks| <==> Held(stacks, id) != []
  {
    var i := StackIndex(stacks, id);
    if i < |stacks| { OfHead(stacks, i, StackKey); } else { OfNone(stacks, StackKey, id); }
  }

  lemma HoldsAnywhereIs(c: CharacterInventory, id: u32)
    ensures HoldsAnywhere(c, id) <==> exists s: EquipSlot :: Holds(c, s, id)
  {
    if HoldsAnywhere(c, id) {
      assert Holds(c, Weapon, id) || Holds(c, Clothes, id) || Holds(c, Accessory1, id) || Holds(c, Accessory2, id) ||
             Holds(c, Accessory3, id);
    }
  }

  lemma WithoutLoses(c: CharacterInventory, id: u32, slot: EquipSlot) returns (d: CharacterInventory)
    ensures d == CharacterWithout(c, id) && LosesOnly(c, d, slot, id)
  {
    d := CharacterWithout(c, id);
    CharacterWithoutIs(c, id, slot);
    WithoutMembers(Owned(c, slot), id);
  }

  lemma RemovedLoses(inv: AccountInventory, id: u32, i: nat, slot: EquipSlot)
    requires i < |inv.characters|
    ensures |Removed(inv, id).inventory.characters| == |inv.characters|
    ensures LosesOnly(inv.characters[i], Removed(inv, id).inventory.characters[i], slot, id)
  {
    var c := inv.characters[i];
    var d := WithoutLoses(c, id, slot);
    if !exists c <- inv.characters :: HoldsAnywhere(c, id) {
      assert c in inv.characters;
      HoldsAnywhereIs(c, id);
      assert !Holds(c, slot, id);
    }
  }

  /** A slot of a character without an item: all else stays. */
  ghost predicate LosesOnly(c: CharacterInventory, d: CharacterInventory, slot: EquipSlot, id: u32) {
    && d.characterId == c.characterId
    && Equipped(d, slot) == (if Equipped(c, slot) == id then 0 else Equipped(c, slot))
    && forall x: u32 :: x in Owned(d, slot) <==> x in Owned(c, slot) && x != id
  }

  // ---------------------------------------------------------------- deliveries

  /** The units of a list of deliveries: each of them adds one unit to the first stack of its item, or makes it owned
      by its character; and nothing else changes. */
  ghost predicate Delivers(c: Catalog, a: AccountInventory, b: AccountInventory, ids: seq<u32>) {
    && b.ownedSkills == a.ownedSkills
    && (forall id: u32 :: Stacked(c, a, b, id, multiset(ids)[id]))
    && |b.characters| == |a.characters|
    && (forall i, slot :: 0 <= i < |a.characters| ==> Gains(c, a, b, i, slot, ids))
  }

  predicate Stacked(c: Catalog, a: AccountInventory, b: AccountInventory, id: u32, units: nat) {
    Held(b.sharedItemStacks, id) ==
    if Target(c, a.characters, id) == None && units > 0 then Poured(Held(a.sharedItemStacks, id), id, units)
    else Held(a.sharedItemStacks, id)
  }

  /** The item belongs in this slot of this character. */
  predicate BelongsTo(c: Catalog, characters: seq<CharacterInventory>, id: u32, i: nat, slot: EquipSlot) {
    Target(c, characters, id) == Some(i) && SlotOf(c.items[id].typeName) == Some(slot)
  }

  /** One list of a character gains exactly what belongs there, and the character is otherwise the same. */
  ghost predicate Gains(c: Catalog, a: AccountInventory, b: AccountInventory, i: nat, slot: EquipSlot, ids: seq<u32>)
    requires i < |a.characters| == |b.characters|
  {
    var was, now := a.characters[i], b.characters[i];
    && now.characterId == was.characterId && Equipped(now, slot) == Equipped(was, slot)
    && forall x: u32 :: x in Owned(now, slot) <==>
         x in Owned(was, slot) || (x in ids && BelongsTo(c, a.characters, x, i, slot))
  }

  lemma DeliversSameIds(c: Catalog, a: AccountInventory, b: AccountInventory, ids: seq<u32>)
    requires Delivers(c, a, b, ids)
    ensures SameIds(a.characters, b.characters)
  {
    forall i | 0 <= i < |a.characters| ensures b.characters[i].characterId == a.characters[i].characterId {
      assert Gains(c, a, b, i, Weapon, ids);
    }
  }

  lemma NothingDelivered(c: Catalog, a: AccountInventory)
    ensures Delivers(c, a, a, [])
  {
  }

  lemma MinTwice(x: nat, m: nat, n: nat)
    ensures Min(Min(x + m, 0xFFFF) + n, 0xFFFF) == Min(x + (m + n), 0xFFFF)
  {
  }

  lemma PouredTwice(held: seq<ItemStack>, id: u32, m: nat, n: nat)
    ensures Poured(Poured(held, id, m), id, n) == Poured(held, id, m + n)
  {
    if held == [] {
      MinTwice(0, m, n);
    } else {
      MinTwice(held[0].ownedCount, m, n);
      assert Poured(held, id, m)[1..] == held[1..];
    }
  }

  lemma HeldTwice(a: seq<ItemStack>, b: seq<ItemStack>, d: seq<ItemStack>, id: u32, m: nat, n: nat)
    requires b == (if m > 0 then Poured(a, id, m) else a) && d == (if n > 0 then Poured(b, id, n) else b)
    ensures d == if m + n > 0 then Poured(a, id, m + n) else a
  {
    PouredTwice(a, id, m, n);
  }

  lemma StackedTwice(c: Catalog, a: AccountInventory, b: AccountInventory, d: AccountInventory, id: u32, m: nat, n: nat)
    requires SameIds(a.characters, b.characters) && Stacked(c, a, b, id, m) && Stacked(c, b, d, id, n)
    ensures Stacked(c, a, d, id, m + n)
  {
    SameIdsSameTarget(c, a.characters, b.characters, id);
    if Target(c, a.characters, id) == None {
      HeldTwice(Held(a.sharedItemStacks, id), Held(b.sharedItemStacks, id), Held(d.sharedItemStacks, id), id, m, n);
    }
  }

  lemma GainsTwice(c: Catalog, a: AccountInventory, b: AccountInventory, d: AccountInventory, i: nat, slot: EquipSlot,
                   xs: seq<u32>, ys: seq<u32>)
    requires i < |a.characters| == |b.characters| == |d.characters| && SameIds(a.characters, b.characters)
    requires Gains(c, a, b, i, slot, xs) && Gains(c, b, d, i, slot, ys)
    ensures Gains(c, a, d, i, slot, xs + ys)
  {
    forall x: u32 ensures BelongsTo(c, a.characters, x, i, slot) == BelongsTo(c, b.characters, x, i, slot) {
      SameIdsSameTarget(c, a.characters, b.characters, x);
    }
  }

  lemma DeliversTwice(c: Catalog, a: AccountInventory, b: AccountInventory, d: AccountInventory, xs: seq<u32>,
                      ys: seq<u32>)
    requires Delivers(c, a, b, xs) && Delivers(c, b, d, ys)
    ensures Delivers(c, a, d, xs + ys)
  {
    DeliversSameIds(c, a, b, xs);
    assert multiset(xs + ys) == multiset(xs) + multiset(ys);
    forall id: u32 ensures Stacked(c, a, d, id, multiset(xs + ys)[id]) {
      assert Stacked(c, a, b, id, multiset(xs)[id]) && Stacked(c, b, d, id, multiset(ys)[id]);
      StackedTwice(c, a, b, d, id, multiset(xs)[id], multiset(ys)[id]);
    }
    forall i, slot | 0 <= i < |a.characters| ensures Gains(c, a, d, i, slot, xs + ys) {
      assert Gains(c, a, b, i, slot, xs) && Gains(c, b, d, i, slot, ys);
      GainsTwice(c, a, b, d, i, slot, xs, ys);
    }
  }

  /** Buying one unit of something that is no package delivers it. */
  lemma LeafDelivers(c: Catalog, inv: AccountInventory, id: u32)
    ensures Delivers(c, inv, BoughtLeaf(c, inv, id, 1).inventory, [id])
  {
    var after := BoughtLeaf(c, inv, id, 1).inventory;
    assert multiset([id]) == multiset{id};
    if Target(c, inv.characters, id) == None {
      forall other: u32 ensures Stacked(c, inv, after, other, multiset([id])[other]) {
        WithStackHolds(inv.sharedItemStacks, id, 1, other);
      }
    } else {
      EquipmentDelivered(c, inv, id);
    }
  }

  lemma EquipmentDelivered(c: Catalog, inv: AccountInventory, id: u32)
    requires Target(c, inv.characters, id).Some?
    ensures var k, slot := Target(c, inv.characters, id).value, SlotOf(c.items[id].typeName);
            var after := WithEquipment(inv, k, slot, id).inventory;
            && after.ownedSkills == inv.ownedSkills && after.sharedItemStacks == inv.sharedItemStacks
            && |after.characters| == |inv.characters|
            && forall i, s :: 0 <= i < |inv.characters| ==> Gains(c, inv, after, i, s, [id])
  {
    var k, slot := Target(c, inv.characters, id).value, SlotOf(c.items[id].typeName);
    var after := WithEquipment(inv, k, slot, id).inventory;
    forall i, s | 0 <= i < |inv.characters| ensures Gains(c, inv, after, i, s, [id]) {
      assert BelongsTo(c, inv.characters, id, i, s) <==> i == k && slot == Some(s);
      if slot.Some? && i == k {
        var owned := Owned(inv.characters[k], slot.value);
        WithItemMembers(owned, id);
        OwnedOf(inv.characters[k], slot.value, WithItem(owned, id), s);
      }
    }
  }

  lemma {:induction false} LeafAllDelivers(c: Catalog, inv: AccountInventory, ids: seq<u32>)
    ensures Delivers(c, inv, LeafAll(c, inv, ids).inventory, ids)
  {
    if ids == [] {
      NothingDelivered(c, inv);
    } else {
      var n := |ids| - 1;
      var before := LeafAll(c, inv, ids[..n]).inventory;
      LeafAllDelivers(c, inv, ids[..n]);
      LeafDelivers(c, before, ids[n]);
      DeliversTwice(c, inv, before, BoughtLeaf(c, before, ids[n], 1).inventory, ids[..n], [ids[n]]);
      assert ids == ids[..n] + [ids[n]];
    }
  }

  // ---------------------------------------------------------------- what a purchase delivers

  /** What buying n units of an item comes to. An item of the shared stacks gets n units, and even with none its stack
      is there afterwards; equipment and packages are delivered max(n, 1) times, packages as their leaves. */
  ghost predicate Delivered(c: Catalog, a: AccountInventory, b: AccountInventory, id: u32, n: u16)
    requires Acyclic(c)
  {
    if Contents(c, id) == [] && Target(c, a.characters, id) == None then
      && b == a.(sharedItemStacks := b.sharedItemStacks)
      && forall x: u32 :: Held(b.sharedItemStacks, x) ==
           if x == id then Poured(Held(a.sharedItemStacks, id), id, n) else Held(a.sharedItemStacks, x)
    else Delivers(c, a, b, Times(Leaves(c, id), Max(n, 1)))
  }

  lemma {:induction false} TimesMembers(ids: seq<u32>, n: nat)
    ensures forall x :: x in Times(ids, n) <==> n > 0 && x in ids
  {
    if n > 0 { TimesMembers(ids, n - 1); }
  }

  lemma BoughtDelivers(c: Catalog, inv: AccountInventory, id: u32, n: u16)
    requires Acyclic(c)
    ensures Delivered(c, inv, Bought(c, inv, id, n).inventory, id, n)
  {
    var after := Bought(c, inv, id, n).inventory;
    if Contents(c, id) != [] {
      PackageIsItsLeaves(c, inv, id, n);
      LeafAllDelivers(c, inv, Times(Leaves(c, id), Max(n, 1)));
    } else if Target(c, inv.characters, id) == None {
      forall x: u32
        ensures Held(after.sharedItemStacks, x) ==
                if x == id then Poured(Held(inv.sharedItemStacks, id), id, n) else Held(inv.sharedItemStacks, x)
      {
        WithStackHolds(inv.sharedItemStacks, id, n, x);
      }
    } else {
      EquipmentDelivers(c, inv, id, Max(n, 1));
    }
  }

  /** Equipment may be delivered more than once: it is owned all the same. */
  lemma EquipmentDelivers(c: Catalog, inv: AccountInventory, id: u32, times: nat)
    requires Acyclic(c) && times > 0 && Contents(c, id) == [] && Target(c, inv.characters, id).Some?
    ensures Delivers(c, inv, BoughtLeaf(c, inv, id, 1).inventory, Times(Leaves(c, id), times))
  {
    var after := BoughtLeaf(c, inv, id, 1).inventory;
    var ids: seq<u32> := Times([id], times);
    EquipmentDelivered(c, inv, id);
    TimesMembers([id], times);
    forall x: u32 ensures Stacked(c, inv, after, x, multiset(ids)[x]) {
      assert x in ids ==> x == id;
    }
    forall i, slot | 0 <= i < |inv.characters| ensures Gains(c, inv, after, i, slot, ids) {
      assert Gains(c, inv, after, i, slot, [id]);
    }
  }

  /** Something in what is bought goes to the shared stacks, or is not owned yet by the character it is for. */
  ghost predicate HasEffect(c: Catalog, inv: AccountInventory, id: u32)
    requires Acyclic(c)
  {
    exists x <- Leaves(c, id) :: !Settled(c, inv, x)
  }

  /** A purchase reports a change exactly if something in it has an effect. */
  lemma BoughtChangesExactlyWhen(c: Catalog, inv: AccountInventory, id: u32, n: u16)
    requires Acyclic(c)
    ensures Bought(c, inv, id, n).changed <==> HasEffect(c, inv, id)
  {
    if Contents(c, id) != [] {
      var ids := Times(Leaves(c, id), Max(n, 1));
      PackageIsItsLeaves(c, inv, id, n);
      LeafAllChanges(c, inv, ids);
      TimesMembers(Leaves(c, id), Max(n, 1));
      if HasEffect(c, inv, id) {
        var x :| x in Leaves(c, id) && !Settled(c, inv, x);
        assert x in ids;
      }
    } else {
      assert Leaves(c, id) == [id];
      assert id in Leaves(c, id);
    }
  }

  lemma {:induction false} LeafAllChanges(c: Catalog, inv: AccountInventory, ids: seq<u32>)
    ensures LeafAll(c, inv, ids).changed <==> exists x <- ids :: !Settled(c, inv, x)
  {
    if ids != [] {
      var n := |ids| - 1;
      LeafAllChanges(c, inv, ids[..n]);
      SomeOrLast(c, inv, ids);
      if forall x <- ids[..n] :: Settled(c, inv, x) { LastChanges(c, inv, ids); }
    }
  }

  lemma SomeOrLast(c: Catalog, inv: AccountInventory, ids: seq<u32>)
    requires ids != []
    ensures var n := |ids| - 1;
            (exists x <- ids :: !Settled(c, inv, x)) <==>
              (exists x <- ids[..n] :: !Settled(c, inv, x)) || !Settled(c, inv, ids[n])
  {
    assert ids == ids[..|ids| - 1] + [ids[|ids| - 1]];
  }

  /** Behind settled items the last one changes something unless it is settled too. */
  lemma LastChanges(c: Catalog, inv: AccountInventory, ids: seq<u32>)
    requires ids != [] && forall x <- ids[..|ids| - 1] :: Settled(c, inv, x)
    ensures LeafAll(c, inv, ids).changed <==> !Settled(c, inv, ids[|ids| - 1])
  {
    var n := |ids| - 1;
    forall i | 0 <= i < n ensures Settled(c, inv, ids[..n][i]) { assert ids[..n][i] in ids[..n]; }
    SettledIsNoChange(c, inv, ids[..n]);
  }

  // ---------------------------------------------------------------- what stored tokens deliver

  /** Everything the tokens of a list come to, one token after the other. */
  ghost function TokenUnits(c: Catalog, stacks: seq<ItemStack>): seq<u32>
    requires Acyclic(c)
  {
    if stacks == [] then []
    else
      (if IsToken(c, stacks[0]) then Times(Leaves(c, stacks[0].itemId), Max(stacks[0].ownedCount, 1)) else []) +
      TokenUnits(c, stacks[1..])
  }

  /** How many units of an item the tokens of a list come to. */
  ghost function UnitsIn(c: Catalog, stacks: seq<ItemStack>, id: u32): nat
    requires Acyclic(c)
  {
    if stacks == [] then 0
    else
      (if IsToken(c, stacks[0]) then Max(stacks[0].ownedCount, 1) * multiset(Leaves(c, stacks[0].itemId))[id] else 0) +
      UnitsIn(c, stacks[1..], id)
  }

  lemma {:induction false} TimesCount(ids: seq<u32>, n: nat, id: u32)
    ensures multiset(Times(ids, n))[id] == n * multiset(ids)[id]
  {
    if n > 0 {
      var earlier := Times(ids, n - 1);
      TimesCount(ids, n - 1, id);
      assert multiset(earlier + ids) == multiset(earlier) + multiset(ids);
      OneMore(n, multiset(ids)[id]);
    }
  }

  lemma OneMore(n: nat, x: nat)
    requires n > 0
    ensures n * x == (n - 1) * x + x
  {
  }

  lemma {:induction false} TokenUnitsCount(c: Catalog, stacks: seq<ItemStack>, id: u32)
    requires Acyclic(c)
    ensures multiset(TokenUnits(c, stacks))[id] == UnitsIn(c, stacks, id)
  {
    if stacks != [] {
      var s := stacks[0];
      var first := if IsToken(c, s) then Times(Leaves(c, s.itemId), Max(s.ownedCount, 1)) else [];
      TimesCount(Leaves(c, s.itemId), Max(s.ownedCount, 1), id);
      TokenUnitsCount(c, stacks[1..], id);
      assert multiset(first + TokenUnits(c, stacks[1..])) == multiset(first) + multiset(TokenUnits(c, stacks[1..]));
    }
  }

  lemma {:induction false} HeldPlain(c: Catalog, stacks: seq<ItemStack>, id: u32)
    ensures Held(Plain(c, stacks), id) == if Contents(c, id) != [] then [] else Held(stacks, id)
  {
    if stacks != [] {
      HeldPlain(c, stacks[1..], id);
      assert stacks == [stacks[0]] + stacks[1..];
      OfAppend([stacks[0]], stacks[1..], StackKey, id);
      OfOne(stacks[0], StackKey, id);
      OfAppend(if IsToken(c, stacks[0]) then [] else [stacks[0]], Plain(c, stacks[1..]), StackKey, id);
    }
  }

  function OnlyPlain(c: Catalog, inv: AccountInventory): AccountInventory {
    inv.(sharedItemStacks := Plain(c, inv.sharedItemStacks))
  }

  /** Deliveries of things that are no packages deliver the same to an inventory without its tokens. */
  lemma PlainDelivers(c: Catalog, a: AccountInventory, b: AccountInventory, ids: seq<u32>)
    requires Delivers(c, a, b, ids) && forall x <- ids :: Contents(c, x) == []
    ensures Delivers(c, OnlyPlain(c, a), OnlyPlain(c, b), ids)
  {
    forall id: u32 ensures Stacked(c, OnlyPlain(c, a), OnlyPlain(c, b), id, multiset(ids)[id]) {
      assert Stacked(c, a, b, id, multiset(ids)[id]);
      HeldPlain(c, a.sharedItemStacks, id);
      HeldPlain(c, b.sharedItemStacks, id);
    }
    forall i, slot | 0 <= i < |a.characters| ensures Gains(c, OnlyPlain(c, a), OnlyPlain(c, b), i, slot, ids) {
      assert Gains(c, a, b, i, slot, ids);
    }
  }

  lemma {:induction false} PlainBehind(c: Catalog, a: seq<ItemStack>, b: seq<ItemStack>)
    requires NoTokens(c, a)
    ensures Plain(c, a + b) == a + Plain(c, b)
  {
    if a == [] {
      assert a + b == b && [] + Plain(c, b) == Plain(c, b);
    } else {
      PlainBehind(c, a[1..], b);
      assert (a + b)[1..] == a[1..] + b && a == [a[0]] + a[1..];
      Regroup([a[0]], a[1..], Plain(c, b));
    }
  }

  lemma {:induction false} UnitsBehind(c: Catalog, a: seq<ItemStack>, b: seq<ItemStack>)
    requires Acyclic(c) && NoTokens(c, a)
    ensures TokenUnits(c, a + b) == TokenUnits(c, b)
  {
    if a == [] {
      assert a + b == b;
    } else {
      UnitsBehind(c, a[1..], b);
      assert (a + b)[1..] == a[1..] + b;
      assert [] + TokenUnits(c, a[1..] + b) == TokenUnits(c, a[1..] + b);
    }
  }

  /** Taking out the first token. */
  lemma DropToken(c: Catalog, stacks: seq<ItemStack>, i: nat)
    requires Acyclic(c) && i < |stacks| && IsToken(c, stacks[i]) && NoTokens(c, stacks[..i])
    ensures Plain(c, stacks) == Plain(c, Drop(stacks, i))
    ensures TokenUnits(c, stacks) ==
            Times(Leaves(c, stacks[i].itemId), Max(stacks[i].ownedCount, 1)) + TokenUnits(c, Drop(stacks, i))
  {
    var a, b := stacks[..i], stacks[i..];
    assert stacks == a + b && b[1..] == stacks[i + 1..];
    PlainBehind(c, a, b);
    PlainBehind(c, a, stacks[i + 1..]);
    UnitsBehind(c, a, b);
    UnitsBehind(c, a, stacks[i + 1..]);
    assert [] + Plain(c, b[1..]) == Plain(c, b[1..]);
  }

  /** Buying items that have their place leaves the stacks of all other items alone. */
  lemma {:induction false} LeafAllSpares(c: Catalog, inv: AccountInventory, ids: seq<u32>, k: nat)
    requires AllPlaced(c, inv, ids) && k < |inv.sharedItemStacks| && inv.sharedItemStacks[k].itemId !in ids
    ensures var after := LeafAll(c, inv, ids).inventory.sharedItemStacks;
            k < |after| && after[k] == inv.sharedItemStacks[k]
  {
    if ids != [] {
      var n := |ids| - 1;
      var before := LeafAll(c, inv, ids[..n]).inventory;
      LeafAllSpares(c, inv, ids[..n], k);
      LeafAllPlaced(c, inv, ids[..n]);
      GrownHasStack(inv.sharedItemStacks, before.sharedItemStacks, ids[n]);
      PlacedStays(c, inv, before, ids[n]);
      SparedByOne(c, before, ids[n], k);
    }
  }

  lemma SparedByOne(c: Catalog, inv: AccountInventory, id: u32, k: nat)
    requires Placed(c, inv, id) && k < |inv.sharedItemStacks| && inv.sharedItemStacks[k].itemId != id
    ensures var after := BoughtLeaf(c, inv, id, 1).inventory.sharedItemStacks;
            k < |after| && after[k] == inv.sharedItemStacks[k]
  {
    if !Resolves(c, inv, id) {
      var i :| 0 <= i < |inv.sharedItemStacks| && inv.sharedItemStacks[i].itemId == id;
      assert StackIndex(inv.sharedItemStacks, id) <= i;
    }
  }

  lemma {:induction false} SameTokensSameUnits(c: Catalog, a: seq<ItemStack>, b: seq<ItemStack>)
    requires Acyclic(c) && Grown(a, b) && forall k :: 0 <= k < |a| && IsToken(c, a[k]) ==> b[k] == a[k]
    ensures TokenUnits(c, a) == TokenUnits(c, b)
  {
    if a != [] { SameTokensSameUnits(c, a[1..], b[1..]); }
  }

  /** One token: its units arrive, and the other tokens are still there. */
  lemma OpenedDelivers(c: Catalog, inv: AccountInventory, i: nat)
    requires Acyclic(c) && TokensPlaced(c, inv) && i < |inv.sharedItemStacks|
    requires IsToken(c, inv.sharedItemStacks[i]) && NoTokens(c, inv.sharedItemStacks[..i])
    ensures var later, token := Opened(c, inv, i), inv.sharedItemStacks[i];
            var units := Times(Leaves(c, token.itemId), Max(token.ownedCount, 1));
            && Delivers(c, OnlyPlain(c, inv), OnlyPlain(c, later), units)
            && TokenUnits(c, inv.sharedItemStacks) == units + TokenUnits(c, later.sharedItemStacks)
  {
    var token, rest := inv.sharedItemStacks[i], inv.(sharedItemStacks := Drop(inv.sharedItemStacks, i));
    var times := Max(token.ownedCount, 1);
    var units := Times(Leaves(c, token.itemId), times);
    var later := Opened(c, inv, i);
    ContentsAreLeaves(c, rest, token.itemId, times);
    LeafAllDelivers(c, rest, units);
    LeavesAreNoPackages(c, token.itemId);
    TimesMembers(Leaves(c, token.itemId), times);
    PlainDelivers(c, rest, later, units);
    DropToken(c, inv.sharedItemStacks, i);
    PlacedAfterDrop(c, inv, rest, i, token.itemId);
    TimesPlaced(c, rest, Leaves(c, token.itemId), times);
    OpenedStacks(c, inv, i);
    forall k | 0 <= k < |rest.sharedItemStacks| && IsToken(c, rest.sharedItemStacks[k])
      ensures later.sharedItemStacks[k] == rest.sharedItemStacks[k]
    {
      LeafAllSpares(c, rest, units, k);
    }
    SameTokensSameUnits(c, rest.sharedItemStacks, later.sharedItemStacks);
  }

  lemma StillNoTokens(c: Catalog, inv: AccountInventory, i: nat)
    requires Acyclic(c) && TokensPlaced(c, inv) && i < |inv.sharedItemStacks|
    requires IsToken(c, inv.sharedItemStacks[i]) && NoTokens(c, inv.sharedItemStacks[..i])
    ensures i <= |Opened(c, inv, i).sharedItemStacks| && NoTokens(c, Opened(c, inv, i).sharedItemStacks[..i])
  {
    var later := Opened(c, inv, i).sharedItemStacks;
    OpenedStacks(c, inv, i);
    forall k | 0 <= k < i ensures !IsToken(c, later[k]) {
      assert later[k].itemId == inv.sharedItemStacks[..i][k].itemId;
    }
  }

  lemma {:induction false} ExpandedFromDelivers(c: Catalog, inv: AccountInventory, i: nat)
    requires Acyclic(c) && TokensPlaced(c, inv) && i <= |inv.sharedItemStacks| && NoTokens(c, inv.sharedItemStacks[..i])
    ensures Delivers(c, OnlyPlain(c, inv), ExpandedFrom(c, inv, i).inventory, TokenUnits(c, inv.sharedItemStacks))
    decreases |inv.sharedItemStacks| - i
  {
    var stacks := inv.sharedItemStacks;
    if i == |stacks| {
      assert stacks[..i] == stacks;
      PlainBehind(c, stacks, []);
      UnitsBehind(c, stacks, []);
      assert stacks + [] == stacks;
      NothingDelivered(c, inv);
    } else if !IsToken(c, stacks[i]) {
      assert stacks[..i + 1] == stacks[..i] + [stacks[i]];
      ExpandedFromDelivers(c, inv, i + 1);
    } else {
      var later, result := Opened(c, inv, i), ExpandedFrom(c, inv, i).inventory;
      OpenedStacks(c, inv, i);
      OpenedDelivers(c, inv, i);
      StillNoTokens(c, inv, i);
      ExpandedFromDelivers(c, later, i);
      DeliversTwice(c, OnlyPlain(c, inv), OnlyPlain(c, later), result,
                    Times(Leaves(c, stacks[i].itemId), Max(stacks[i].ownedCount, 1)),
                    TokenUnits(c, later.sharedItemStacks));
    }
  }

  /** An expansion takes the tokens out and delivers to what is left: of every item of the shared stacks as many units
      as the tokens come to, max(count, 1) times what is in each of them; every item of a character that is in one
      of them; and nothing else changes. */
  lemma ExpandedDelivers(c: Catalog, inv: AccountInventory)
    requires Acyclic(c) && TokensPlaced(c, inv)
    ensures var after := Expanded(c, inv).inventory; var stacks := inv.sharedItemStacks;
            && after.ownedSkills == inv.ownedSkills && |after.characters| == |inv.characters|
            && (forall id: u32 :: Held(after.sharedItemStacks, id) ==
                  if Contents(c, id) != [] then []
                  else if Target(c, inv.characters, id) == None && UnitsIn(c, stacks, id) > 0 then
                    Poured(Held(stacks, id), id, UnitsIn(c, stacks, id))
                  else Held(stacks, id))
            && (forall i, slot :: 0 <= i < |inv.characters| ==>
                  Gains(c, inv, after, i, slot, TokenUnits(c, stacks)))
            && (forall x: u32 :: x in TokenUnits(c, stacks) <==> UnitsIn(c, stacks, x) > 0)
  {
    var stacks, after := inv.sharedItemStacks, Expanded(c, inv).inventory;
    ExpandedFromDelivers(c, inv, 0);
    forall id: u32
      ensures id in TokenUnits(c, stacks) <==> UnitsIn(c, stacks, id) > 0
      ensures Held(after.sharedItemStacks, id) ==
              if Contents(c, id) != [] then []
              else if Target(c, inv.characters, id) == None && UnitsIn(c, stacks, id) > 0 then
                Poured(Held(stacks, id), id, UnitsIn(c, stacks, id))
              else Held(stacks, id)
    {
      TokenUnitsCount(c, stacks, id);
      HeldPlain(c, stacks, id);
      assert Stacked(c, OnlyPlain(c, inv), after, id, multiset(TokenUnits(c, stacks))[id]);
      if Contents(c, id) != [] { UnitsAreNoPackages(c, stacks, id); }
    }
    forall i, slot | 0 <= i < |inv.characters| ensures Gains(c, inv, after, i, slot, TokenUnits(c, stacks)) {
      assert Gains(c, OnlyPlain(c, inv), after, i, slot, TokenUnits(c, stacks));
    }
  }

  lemma {:induction false} UnitsAreNoPackages(c: Catalog, stacks: seq<ItemStack>, id: u32)
    requires Acyclic(c) && Contents(c, id) != []
    ensures UnitsIn(c, stacks, id) == 0
  {
    if stacks != [] {
      LeavesAreNoPackages(c, stacks[0].itemId);
      UnitsAreNoPackages(c, stacks[1..], id);
      assert id !in Leaves(c, stacks[0].itemId);
    }
  }
}
