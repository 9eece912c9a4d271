/** What every operation keeps: lists stay strictly ascending, and what is equipped stays owned. */
module InventoryOrder {
  import opened Bytes
  import opened AccountRecords
  import opened Inventory
  import opened InventoryBuying

  // ---------------------------------------------------------------- sorting

  ghost predicate Fresh<T>(xs: seq<T>, x: T, key: T -> int) { forall i :: 0 <= i < |xs| ==> key(xs[i]) != key(x) }

  lemma {:induction false} InsertedAt<T>(xs: seq<T>, x: T, key: T -> int, i: nat)
    requires i <= |xs|
    ensures var y := InsertBy(xs, x, key)[i]; y == x || exists j :: 0 <= j < |xs| && xs[j] == y
  {
    var n := |xs| - 1;
    if xs != [] && key(xs[n]) > key(x) && i < |xs| {
      InsertedAt(xs[..n], x, key, i);
    }
  }

  lemma {:induction false} InsertAscends<T>(xs: seq<T>, x: T, key: T -> int)
    requires AscendingBy(xs, key) && Fresh(xs, x, key)
    ensures AscendingBy(InsertBy(xs, x, key), key)
  {
    var n := |xs| - 1;
    if xs != [] && key(xs[n]) > key(x) {
      InsertAscends(xs[..n], x, key);
      var r := InsertBy(xs[..n], x, key);
      forall i | 0 <= i < |r| ensures key(r[i]) < key(xs[n]) {
        InsertedAt(xs[..n], x, key, i);
      }
    }
  }

  lemma {:induction false} SortKeepsAscending<T>(xs: seq<T>, key: T -> int)
    requires AscendingBy(xs, key)
    ensures SortBy(xs, key) == xs
  {
    if xs != [] {
      SortKeepsAscending(xs[..|xs| - 1], key);
      assert xs == xs[..|xs| - 1] + [xs[|xs| - 1]];
    }
  }

  /** Appending a new key and sorting keeps a list strictly ascending. */
  lemma AppendAscends<T>(xs: seq<T>, x: T, key: T -> int)
    requires AscendingBy(xs, key) && Fresh(xs, x, key)
    ensures AscendingBy(SortBy(xs + [x], key), key)
  {
    assert (xs + [x])[..|xs|] == xs;
    SortKeepsAscending(xs, key);
    InsertAscends(xs, x, key);
  }

  lemma WithItemAscends(owned: seq<u32>, id: u32)
    requires AscendingBy(owned, IdKey)
    ensures AscendingBy(WithItem(owned, id), IdKey)
  {
    if id !in owned { AppendAscends(owned, id, IdKey); }
  }

  lemma {:induction false} WithoutMembers(ids: seq<u32>, id: u32)
    ensures forall x :: x in Without(ids, id) <==> x in ids && x != id
  {
    if ids != [] {
      var n := |ids| - 1;
      WithoutMembers(ids[..n], id);
      assert ids == ids[..n] + [ids[n]];
    }
  }

  lemma {:induction false} WithoutAscends(ids: seq<u32>, id: u32)
    requires AscendingBy(ids, IdKey)
    ensures AscendingBy(Without(ids, id), IdKey)
  {
    if ids != [] {
      var n := |ids| - 1;
      WithoutAscends(ids[..n], id);
      WithoutMembers(ids[..n], id);
      var r := Without(ids[..n], id);
      forall i | 0 <= i < |r| ensures IdKey(r[i]) < IdKey(ids[n]) {
        assert r[i] in r && r[i] in ids[..n];
      }
    }
  }

  // ---------------------------------------------------------------- the invariants

  ghost predicate SortedCharacter(c: CharacterInventory) { forall slot :: AscendingBy(Owned(c, slot), IdKey) }

  ghost predicate Sorted(inv: AccountInventory) {
    && AscendingBy(inv.sharedItemStacks, StackKey) && AscendingBy(inv.ownedSkills, SkillKey)
    && forall i :: 0 <= i < |inv.characters| ==> SortedCharacter(inv.characters[i])
  }

  ghost predicate WearsOwn(c: CharacterInventory) {
    forall slot :: Equipped(c, slot) == 0 || Equipped(c, slot) in Owned(c, slot)
  }

  ghost predicate AllWearOwn(inv: AccountInventory) {
    forall i :: 0 <= i < |inv.characters| ==> WearsOwn(inv.characters[i])
  }

  ghost predicate Kept(before: AccountInventory, after: AccountInventory) {
    (Sorted(before) ==> Sorted(after)) && (AllWearOwn(before) ==> AllWearOwn(after))
  }

  // ---------------------------------------------------------------- buying

  lemma WithStackAscends(stacks: seq<ItemStack>, id: u32, count: u16)
    requires AscendingBy(stacks, StackKey)
    ensures AscendingBy(WithStack(stacks, id, count), StackKey)
  {
    if StackIndex(stacks, id) == |stacks| { AppendAscends(stacks, ItemStack(id, count), StackKey); }
  }

  lemma WithOwnedKeeps(c: CharacterInventory, slot: EquipSlot, ids: seq<u32>)
    requires AscendingBy(Owned(c, slot), IdKey) ==> AscendingBy(ids, IdKey)
    requires forall x :: x in Owned(c, slot) ==> x in ids
    ensures SortedCharacter(c) ==> SortedCharacter(WithOwned(c, slot, ids))
    ensures WearsOwn(c) ==> WearsOwn(WithOwned(c, slot, ids))
  {
    var d := WithOwned(c, slot, ids);
    if SortedCharacter(c) {
      forall s ensures AscendingBy(Owned(d, s), IdKey) { OwnedOf(c, slot, ids, s); }
    }
    if WearsOwn(c) {
      forall s ensures Equipped(d, s) == 0 || Equipped(d, s) in Owned(d, s) { OwnedOf(c, slot, ids, s); }
    }
  }

  lemma WithEquipmentKeeps(inv: AccountInventory, i: nat, slot: Option<EquipSlot>, id: u32)
    requires i < |inv.characters|
    ensures Kept(inv, WithEquipment(inv, i, slot, id).inventory)
  {
    if slot.Some? {
      var c := inv.characters[i];
      var ids := WithItem(Owned(c, slot.value), id);
      WithItemMembers(Owned(c, slot.value), id);
      if AscendingBy(Owned(c, slot.value), IdKey) { WithItemAscends(Owned(c, slot.value), id); }
      WithOwnedKeeps(c, slot.value, ids);
    }
  }

  lemma BoughtLeafKeeps(c: Catalog, inv: AccountInventory, id: u32, count: u16)
    ensures Kept(inv, BoughtLeaf(c, inv, id, count).inventory)
  {
    var target := Target(c, inv.characters, id);
    if target.Some? {
      WithEquipmentKeeps(inv, target.value, SlotOf(c.items[id].typeName), id);
    } else if Sorted(inv) {
      WithStackAscends(inv.sharedItemStacks, id, count);
    }
  }

  lemma {:induction false} LeafAllKeeps(c: Catalog, inv: AccountInventory, ids: seq<u32>)
    ensures Kept(inv, LeafAll(c, inv, ids).inventory)
  {
    if ids != [] {
      var n := |ids| - 1;
      LeafAllKeeps(c, inv, ids[..n]);
      BoughtLeafKeeps(c, LeafAll(c, inv, ids[..n]).inventory, ids[n], 1);
    }
  }

  /** Buying keeps every list ascending and every equipped item owned. */
  lemma BoughtKeeps(c: Catalog, inv: AccountInventory, id: u32, count: u16)
    requires Acyclic(c)
    ensures Kept(inv, Bought(c, inv, id, count).inventory)
  {
    if Contents(c, id) == [] {
      BoughtLeafKeeps(c, inv, id, count);
    } else {
      PackageIsItsLeaves(c, inv, id, count);
      LeafAllKeeps(c, inv, Times(Leaves(c, id), Max(count, 1)));
    }
  }

  // ---------------------------------------------------------------- removing

  /** Removing an item takes it from every slot and every list of a character. */
  lemma CharacterWithoutIs(c: CharacterInventory, id: u32, s: EquipSlot)
    ensures var d := CharacterWithout(c, id);
            Owned(d, s) == Without(Owned(c, s), id) &&
            Equipped(d, s) == if Equipped(c, s) == id then 0 else Equipped(c, s)
  {
  }

  lemma CharacterWithoutKeeps(c: CharacterInventory, id: u32)
    ensures SortedCharacter(c) ==> SortedCharacter(CharacterWithout(c, id))
    ensures WearsOwn(c) ==> WearsOwn(CharacterWithout(c, id))
    ensures id != 0 ==> !HoldsAnywhere(CharacterWithout(c, id), id)
  {
    var d := CharacterWithout(c, id);
    forall s: EquipSlot
      ensures AscendingBy(Owned(c, s), IdKey) ==> AscendingBy(Owned(d, s), IdKey)
      ensures Equipped(c, s) == 0 || Equipped(c, s) in Owned(c, s) ==>
              Equipped(d, s) == 0 || Equipped(d, s) in Owned(d, s)
      ensures id != 0 ==> !Holds(d, s, id)
    {
      CharacterWithoutIs(c, id, s);
      WithoutMembers(Owned(c, s), id);
      if AscendingBy(Owned(c, s), IdKey) { WithoutAscends(Owned(c, s), id); }
    }
  }

  lemma RemovedKeeps(inv: AccountInventory, id: u32)
    ensures Kept(inv, Removed(inv, id).inventory)
  {
    forall i | 0 <= i < |inv.characters|
      ensures SortedCharacter(inv.characters[i]) ==> SortedCharacter(CharacterWithout(inv.characters[i], id))
      ensures WearsOwn(inv.characters[i]) ==> WearsOwn(CharacterWithout(inv.characters[i], id))
    {
      CharacterWithoutKeeps(inv.characters[i], id);
    }
    assert AscendingBy(inv.sharedItemStacks, StackKey) ==>
        AscendingBy(WithoutStack(inv.sharedItemStacks, id), StackKey);
  }

  // ---------------------------------------------------------------- repairing and skills

  /** Some item that a repair takes away is equipped. */
  predicate WearsMisexpanded(c: CharacterInventory) {
    c.clothesItemId == 8090 || c.accessory1ItemId == 8099 || c.accessory2ItemId == 8100 || c.accessory3ItemId == 8101
  }

  /** What a repair takes from a list and adds to it; nothing is taken from the weapons. */
  function Gone(slot: EquipSlot): u32 {
    match slot
    case Weapon => 0
    case Clothes => 8090
    case Accessory1 => 8099
    case Accessory2 => 8100
    case Accessory3 => 8101
  }

  function Got(slot: EquipSlot): u32 {
    match slot
    case Weapon => 8007
    case Clothes => 8000
    case Accessory1 => 8004
    case Accessory2 => 8005
    case Accessory3 => 8006
  }

  lemma RepairedOwned(c: CharacterInventory, slot: EquipSlot)
    requires Misexpanded(c)
    ensures Equipped(Repaired(c), slot) == Equipped(c, slot)
    ensures Owned(Repaired(c), slot) ==
            WithItem(if slot == Weapon then Owned(c, slot) else Without(Owned(c, slot), Gone(slot)), Got(slot))
  {
  }

  lemma RepairedSorted(c: CharacterInventory)
    requires SortedCharacter(c)
    ensures SortedCharacter(Repaired(c))
  {
    if Misexpanded(c) {
      forall s: EquipSlot ensures AscendingBy(Owned(Repaired(c), s), IdKey) {
        var owned := Owned(c, s);
        RepairedOwned(c, s);
        assert AscendingBy(owned, IdKey);
        WithoutAscends(owned, Gone(s));
        WithItemAscends(if s == Weapon then owned else Without(owned, Gone(s)), Got(s));
      }
    }
  }

  lemma RepairedSlot(c: CharacterInventory, slot: EquipSlot)
    requires Misexpanded(c)
    ensures var d := Repaired(c);
            && Equipped(d, slot) == Equipped(c, slot)
            && forall x :: x != 0 ==>
                 (x in Owned(d, slot) <==> (x in Owned(c, slot) && x != Gone(slot)) || x == Got(slot))
  {
    RepairedOwned(c, slot);
    WithoutMembers(Owned(c, slot), Gone(slot));
    WithItemMembers(if slot == Weapon then Owned(c, slot) else Without(Owned(c, slot), Gone(slot)), Got(slot));
  }

  /** A repair keeps equipped items owned exactly when none of the items it takes away is equipped. */
  lemma RepairedWearsOwnExactlyWhen(c: CharacterInventory)
    requires WearsOwn(c)
    ensures WearsOwn(Repaired(c)) <==> !Misexpanded(c) || !WearsMisexpanded(c)
  {
    if Misexpanded(c) {
      var d := Repaired(c);
      forall s: EquipSlot
        ensures (Equipped(d, s) == 0 || Equipped(d, s) in Owned(d, s)) <==> (s == Weapon || Equipped(c, s) != Gone(s))
      {
        RepairedSlot(c, s);
        assert Equipped(c, s) == 0 || Equipped(c, s) in Owned(c, s);
      }
      assert WearsMisexpanded(c) <==> exists s: EquipSlot :: s != Weapon && Equipped(c, s) == Gone(s) by {
        assert Equipped(c, Clothes) == c.clothesItemId && Equipped(c, Accessory1) == c.accessory1ItemId;
        assert Equipped(c, Accessory2) == c.accessory2ItemId && Equipped(c, Accessory3) == c.accessory3ItemId;
      }
    }
  }

  /** A misexpanded character that wears the clothes it owns. */
  const MISDRESSED := CharacterInventory(1, 0, 8090, 0, 0, 0, [], [8090], [8099], [8100], [8101])

  /** A repair takes away what is worn. */
  lemma RepairFails()
    ensures SortedCharacter(MISDRESSED) && WearsOwn(MISDRESSED) && !WearsOwn(Repaired(MISDRESSED))
  {
    var c := MISDRESSED;
    forall s: EquipSlot
      ensures AscendingBy(Owned(c, s), IdKey)
      ensures Equipped(c, s) == 0 || Equipped(c, s) in Owned(c, s)
    {
      match s { case Weapon => case Clothes => case Accessory1 => case Accessory2 => case Accessory3 => }
    }
    RepairedWearsOwnExactlyWhen(c);
  }

  lemma RepairedAllSorted(inv: AccountInventory)
    requires Sorted(inv)
    ensures Sorted(RepairedAll(inv).inventory)
  {
    forall i | 0 <= i < |inv.characters| ensures SortedCharacter(Repaired(inv.characters[i])) {
      RepairedSorted(inv.characters[i]);
    }
  }

  lemma WithSkillKeeps(inv: AccountInventory, id: u32, minutes: u32)
    ensures Kept(inv, WithSkill(inv, id, minutes).inventory)
  {
    if Sorted(inv) && SkillIndex(inv.ownedSkills, id) == |inv.ownedSkills| {
      AppendAscends(inv.ownedSkills, OwnedSkill(id, minutes), SkillKey);
    }
  }

  // ---------------------------------------------------------------- equipping

  /** An equipment request names one item per slot, 0 for none. */
  datatype Bundle = Bundle(weapon: u32, clothes: u32, accessory1: u32, accessory2: u32, accessory3: u32)

  function Requested(b: Bundle, slot: EquipSlot): u32 {
    match slot
    case Weapon => b.weapon
    case Clothes => b.clothes
    case Accessory1 => b.accessory1
    case Accessory2 => b.accessory2
    case Accessory3 => b.accessory3
  }

  predicate Fits(c: CharacterInventory, b: Bundle, slot: EquipSlot) {
    Requested(b, slot) == 0 || Holds(c, slot, Requested(b, slot))
  }

  predicate FitsAll(c: CharacterInventory, b: Bundle) {
    Fits(c, b, Clothes) && Fits(c, b, Weapon) && Fits(c, b, Accessory1) && Fits(c, b, Accessory2) &&
        Fits(c, b, Accessory3)
  }

  function Dressed(c: CharacterInventory, b: Bundle): CharacterInventory {
    c.(equippedWeaponItemId := b.weapon, clothesItemId := b.clothes, accessory1ItemId := b.accessory1,
       accessory2ItemId := b.accessory2, accessory3ItemId := b.accessory3)
  }

  /** A character that puts on a bundle wears what it names, slot by slot, and owns what it owned. */
  lemma DressedWears(c: CharacterInventory, b: Bundle)
    ensures var d := Dressed(c, b);
            && d.characterId == c.characterId
            && Equipped(d, Weapon) == b.weapon && Equipped(d, Clothes) == b.clothes
            && Equipped(d, Accessory1) == b.accessory1 && Equipped(d, Accessory2) == b.accessory2
            && Equipped(d, Accessory3) == b.accessory3
            && forall s: EquipSlot :: Owned(d, s) == Owned(c, s)
  {
  }

  /** Putting on a bundle that fits, or taking everything off, leaves only owned items equipped. */
  lemma DressedKeeps(c: CharacterInventory, b: Bundle)
    requires FitsAll(c, b)
    ensures WearsOwn(c) ==> WearsOwn(Dressed(c, b))
    ensures SortedCharacter(c) ==> SortedCharacter(Dressed(c, b))
  {
    var d := Dressed(c, b);
    forall s: EquipSlot
      ensures (Equipped(c, s) == 0 || Equipped(c, s) in Owned(c, s)) ==>
              Equipped(d, s) == 0 || Equipped(d, s) in Owned(d, s)
      ensures AscendingBy(Owned(c, s), IdKey) ==> AscendingBy(Owned(d, s), IdKey)
    {
      assert Owned(d, s) == Owned(c, s) && Equipped(d, s) == Requested(b, s) && Fits(c, b, s);
    }
  }
}
