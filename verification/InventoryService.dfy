/** The inventory as the service changes it: lists updated in place, packages opened by mutual recursion. */
module InventoryService {
  import opened Bytes
  import opened AccountRecords
  import opened Inventory
  import opened InventoryBuying
  import opened InventoryOrder
  import opened InventoryExpansion

  /** Removes every occurrence of an id. */
  method EraseOwnedItemId(ids: seq<u32>, id: u32) returns (r: seq<u32>, changed: bool)
    ensures r == Without(ids, id) && (changed <==> id in ids)
  {
    r := [];
    for i := 0 to |ids|
      invariant r == Without(ids[..i], id) && |r| <= i && (|r| == i <==> id !in ids[..i])
    {
      assert ids[..i + 1][..i] == ids[..i] && ids[..i + 1] == ids[..i] + [ids[i]];
      if ids[i] != id {
        r := r + [ids[i]];
      }
    }
    assert ids[..|ids|] == ids;
    changed := |r| != |ids|;
  }

  method EraseFromSlot(c: CharacterInventory, slot: EquipSlot, id: u32) returns (r: CharacterInventory, changed: bool)
    ensures r == SlotWithout(c, slot, id) && (changed <==> Holds(c, slot, id))
  {
    var owned, erased := EraseOwnedItemId(Owned(c, slot), id);
    r, changed := c, erased;
    if Equipped(c, slot) == id {
      r, changed := WithEquipped(c, slot, 0), true;
    }
    r := WithOwned(r, slot, owned);
  }

  class StoredInventory {
    var sharedItemStacks: seq<ItemStack>
    var ownedSkills: seq<OwnedSkill>
    var characters: seq<CharacterInventory>

    ghost function Value(): AccountInventory
      reads this
    {
      AccountInventory(sharedItemStacks, ownedSkills, characters)
    }

    constructor (inventory: AccountInventory)
      ensures Value() == inventory
    {
      sharedItemStacks, ownedSkills := inventory.sharedItemStacks, inventory.ownedSkills;
      characters := inventory.characters;
    }

    // -------------------------------------------------------------- single lists

    method FindStack(id: u32) returns (i: nat)
      ensures i == StackIndex(sharedItemStacks, id)
    {
      i := 0;
      while i < |sharedItemStacks| && sharedItemStacks[i].itemId != id
        invariant i <= |sharedItemStacks| &&
                  i + StackIndex(sharedItemStacks[i..], id) == StackIndex(sharedItemStacks, id)
      {
        assert sharedItemStacks[i..][1..] == sharedItemStacks[i + 1..];
        i := i + 1;
      }
    }

    method AppendSharedItemStack(id: u32, count: u16)
      modifies this`sharedItemStacks
      ensures sharedItemStacks == WithStack(old(sharedItemStacks), id, count)
    {
      var i := FindStack(id);
      if i < |sharedItemStacks| {
        var next := sharedItemStacks[i].ownedCount as int + count as int;
        sharedItemStacks := sharedItemStacks[i := ItemStack(id, Min(next, 0xFFFF))];
      } else {
        sharedItemStacks := SortBy(sharedItemStacks + [ItemStack(id, count)], StackKey);
      }
    }

    method RemoveSharedItemStack(id: u32) returns (changed: bool)
      modifies this`sharedItemStacks
      ensures sharedItemStacks == WithoutStack(old(sharedItemStacks), id)
      ensures changed <==> StackIndex(old(sharedItemStacks), id) < |old(sharedItemStacks)|
    {
      var i := FindStack(id);
      if i == |sharedItemStacks| {
        return false;
      }
      var s := sharedItemStacks[i];
      if s.ownedCount > 1 {
        sharedItemStacks := sharedItemStacks[i := s.(ownedCount := s.ownedCount - 1)];
      } else {
        sharedItemStacks := sharedItemStacks[..i] + sharedItemStacks[i + 1..];
      }
      return true;
    }

    method MergeOwnedSkill(id: u32, minutes: u32) returns (changed: bool)
      modifies this`ownedSkills
      ensures Change(Value(), changed) == WithSkill(old(Value()), id, minutes)
    {
      if id == 0 {
        return false;
      }
      var i := 0;
      while i < |ownedSkills| && ownedSkills[i].skillItemId != id
        invariant i <= |ownedSkills| && i + SkillIndex(ownedSkills[i..], id) == SkillIndex(ownedSkills, id)
      {
        assert ownedSkills[i..][1..] == ownedSkills[i + 1..];
        i := i + 1;
      }
      if i < |ownedSkills| {
        changed := ownedSkills[i].durationMinutes != minutes;
        ownedSkills := ownedSkills[i := OwnedSkill(id, minutes)];
      } else {
        ownedSkills := SortBy(ownedSkills + [OwnedSkill(id, minutes)], SkillKey);
        changed := true;
      }
    }

    // -------------------------------------------------------------- characters

    method AppendOwnedEquipmentItem(i: nat, typeName: string, id: u32) returns (changed: bool)
      requires i < |characters|
      modifies this`characters
      ensures Change(Value(), changed) == WithEquipment(old(Value()), i, SlotOf(typeName), id)
    {
      var slot := SlotOf(typeName);
      if slot == None {
        return false;
      }
      var owned := Owned(characters[i], slot.value);
      if id in owned {
        return false;
      }
      characters := characters[i := WithOwned(characters[i], slot.value, SortBy(owned + [id], IdKey))];
      return true;
    }

    method FindCharacterForItem(c: Catalog, id: u32) returns (target: Option<nat>)
      ensures target == Target(c, characters, id)
    {
      if id !in c.items || !c.items[id].equipmentLike {
        return None;
      }
      var key := CharacterKey(c.items[id].characterName);
      if key == "" {
        return None;
      }
      var i := 0;
      while i < |characters| && !Bears(c, characters[i].characterId, key)
        invariant i <= |characters| && i + CharacterIndex(c, characters[i..], key) == CharacterIndex(c, characters, key)
      {
        assert characters[i..][1..] == characters[i + 1..];
        i := i + 1;
      }
      return if i == |characters| then None else Some(i);
    }

    method RemoveFromCharacter(i: nat, id: u32) returns (changed: bool)
      requires i < |characters|
      modifies this`characters
      ensures characters == old(characters)[i := CharacterWithout(old(characters)[i], id)]
      ensures changed <==> HoldsAnywhere(old(characters)[i], id)
    {
      var c := characters[i];
      var weapon, clothes, accessory1, accessory2, accessory3;
      c, weapon := EraseFromSlot(c, Weapon, id);
      c, clothes := EraseFromSlot(c, Clothes, id);
      c, accessory1 := EraseFromSlot(c, Accessory1, id);
      c, accessory2 := EraseFromSlot(c, Accessory2, id);
      c, accessory3 := EraseFromSlot(c, Accessory3, id);
      characters := characters[i := c];
      changed := weapon || clothes || accessory1 || accessory2 || accessory3;
    }

    method RemoveFromCharacters(id: u32) returns (changed: bool)
      modifies this`characters
      ensures changed <==> exists c <- old(characters) :: HoldsAnywhere(c, id)
      ensures characters == if changed then Removed(old(Value()), id).inventory.characters else old(characters)
    {
      ghost var before, f, p := characters, c => CharacterWithout(c, id), c => HoldsAnywhere(c, id);
      changed := false;
      for i := 0 to |characters|
        invariant MappedUpTo(before, characters, i, f, p, changed)
      {
        MappedStep(before, characters, i, f, p, changed);
        var removed := RemoveFromCharacter(i, id);
        changed := removed || changed;
      }
      MappedAll(before, characters, f, p, changed);
      RemovalIs(old(Value()), characters, id, changed);
    }

    method RemoveItem(id: u32) returns (changed: bool)
      modifies this`characters, this`sharedItemStacks
      ensures Change(Value(), changed) == Removed(old(Value()), id)
    {
      changed := RemoveFromCharacters(id);
      if !changed {
        changed := RemoveSharedItemStack(id);
      }
    }

    method RepairMisexpandedPackages() returns (changed: bool)
      modifies this`characters
      ensures Change(Value(), changed) == RepairedAll(old(Value()))
    {
      ghost var before := characters;
      changed := false;
      for i := 0 to |characters|
        invariant MappedUpTo(before, characters, i, Repaired, Misexpanded, changed)
      {
        MappedStep(before, characters, i, Repaired, Misexpanded, changed);
        var repaired := RepairCharacter(i);
        changed := repaired || changed;
      }
      MappedAll(before, characters, Repaired, Misexpanded, changed);
      assert characters == RepairedAll(old(Value())).inventory.characters;
    }

    method RepairCharacter(i: nat) returns (changed: bool)
      requires i < |characters|
      modifies this`characters
      ensures characters == old(characters)[i := Repaired(old(characters)[i])] &&
              changed == Misexpanded(old(characters)[i])
    {
      changed := Misexpanded(characters[i]);
      characters := characters[i := Repaired(characters[i])];
    }

    // -------------------------------------------------------------- buying

    method ApplyBoughtItem(c: Catalog, id: u32, count: u16) returns (changed: bool)
      requires Acyclic(c)
      modifies this`sharedItemStacks, this`characters
      ensures Change(Value(), changed) == Bought(c, old(Value()), id, count)
      decreases Rank(c)(id), 1
    {
      if Contents(c, id) != [] {
        changed := ApplyPackageContents(c, id, count);
        return;
      }
      var target := FindCharacterForItem(c, id);
      if target == None {
        AppendSharedItemStack(id, count);
        return true;
      }
      changed := AppendOwnedEquipmentItem(target.value, c.items[id].typeName, id);
    }

    method ApplyPackageContents(c: Catalog, id: u32, packageCount: u16) returns (changed: bool)
      requires Acyclic(c)
      modifies this`sharedItemStacks, this`characters
      ensures Change(Value(), changed) == BoughtContents(c, old(Value()), id, Max(packageCount, 1))
      decreases Rank(c)(id), 0
    {
      changed := false;
      for index := 0 to Max(packageCount, 1)
        invariant Change(Value(), changed) == BoughtContents(c, old(Value()), id, index)
      {
        var once := ApplyContentsOnce(c, id);
        changed := once || changed;
      }
    }

    method ApplyContentsOnce(c: Catalog, id: u32) returns (changed: bool)
      requires Acyclic(c)
      modifies this`sharedItemStacks, this`characters
      ensures Change(Value(), changed) == BoughtItems(c, old(Value()), id, |Contents(c, id)|)
      decreases Rank(c)(id), 0, 0
    {
      var contents := Contents(c, id);
      changed := false;
      for k := 0 to |contents|
        invariant Change(Value(), changed) == BoughtItems(c, old(Value()), id, k)
      {
        var item := ApplyBoughtItem(c, contents[k], 1);
        changed := item || changed;
      }
    }

    /** Opens every package token in the shared stacks, where it stands. */
    method ExpandStoredPackageTokens(c: Catalog) returns (tokens: seq<u32>)
      requires Acyclic(c) && TokensPlaced(c, Value())
      modifies this`sharedItemStacks, this`characters
      ensures Expansion(Value(), tokens) == Expanded(c, old(Value()))
    {
      tokens := [];
      var it := 0;
      ghost var goal := Expanded(c, Value());
      assert [] + goal.tokens == goal.tokens;
      while it < |sharedItemStacks|
        invariant it <= |sharedItemStacks| && TokensPlaced(c, Value()) && ownedSkills == old(ownedSkills)
        invariant var rest := ExpandedFrom(c, Value(), it);
                  goal == Expansion(rest.inventory, tokens + rest.tokens)
        decreases |sharedItemStacks| - it
      {
        var token := sharedItemStacks[it];
        if Contents(c, token.itemId) == [] {
          it := it + 1;
        } else {
          OpenedStacks(c, Value(), it);
          ghost var rest := ExpandedFrom(c, Opened(c, Value(), it), it);
          Regroup(tokens, [token.itemId], rest.tokens);
          OpenToken(c, it);
          tokens := tokens + [token.itemId];
        }
      }
      assert tokens + [] == tokens;
    }

    method OpenToken(c: Catalog, it: nat)
      requires Acyclic(c) && it < |sharedItemStacks|
      modifies this`sharedItemStacks, this`characters
      ensures Value() == Opened(c, old(Value()), it)
    {
      var token := sharedItemStacks[it];
      sharedItemStacks := sharedItemStacks[..it] + sharedItemStacks[it + 1..];
      var changed := ApplyPackageContents(c, token.itemId, token.ownedCount);
    }
  }

  /** The first i characters were changed by f, and changed says whether one of them needed it. */
  ghost predicate MappedUpTo(before: seq<CharacterInventory>, now: seq<CharacterInventory>, i: nat,
                             f: CharacterInventory -> CharacterInventory, p: CharacterInventory -> bool,
                             changed: bool) {
    && |now| == |before| && i <= |before|
    && (forall k :: 0 <= k < i ==> now[k] == f(before[k])) && now[i..] == before[i..]
    && (changed <==> exists k :: 0 <= k < i && p(before[k]))
  }

  lemma MappedStep(before: seq<CharacterInventory>, now: seq<CharacterInventory>, i: nat,
                   f: CharacterInventory -> CharacterInventory, p: CharacterInventory -> bool, changed: bool)
    requires MappedUpTo(before, now, i, f, p, changed) && i < |before|
    ensures now[i] == before[i] && MappedUpTo(before, now[i := f(now[i])], i + 1, f, p, p(now[i]) || changed)
  {
    assert now[i] == now[i..][0] && before[i] == before[i..][0];
    var next := now[i := f(now[i])];
    assert next[i + 1..] == now[i..][1..] && before[i + 1..] == before[i..][1..];
  }

  lemma MappedAll(before: seq<CharacterInventory>, now: seq<CharacterInventory>,
                  f: CharacterInventory -> CharacterInventory, p: CharacterInventory -> bool, changed: bool)
    requires MappedUpTo(before, now, |now|, f, p, changed)
    ensures |now| == |before| && (forall k :: 0 <= k < |now| ==> now[k] == f(before[k]))
    ensures changed <==> exists c <- before :: p(c)
  {
  }

  lemma RemovalIs(before: AccountInventory, after: seq<CharacterInventory>, id: u32, changed: bool)
    requires |after| == |before.characters|
    requires forall k :: 0 <= k < |after| ==> after[k] == CharacterWithout(before.characters[k], id)
    requires changed <==> exists c <- before.characters :: HoldsAnywhere(c, id)
    ensures after == if changed then Removed(before, id).inventory.characters else before.characters
  {
    forall k | 0 <= k < |after| && !HoldsAnywhere(before.characters[k], id) ensures after[k] == before.characters[k] {
      NothingRemoved(before.characters[k], id);
    }
    if !changed { assert forall k :: 0 <= k < |after| ==> before.characters[k] in before.characters; }
  }

  lemma {:induction false} WithoutAbsent(ids: seq<u32>, id: u32)
    requires id !in ids
    ensures Without(ids, id) == ids
  {
    if ids != [] {
      WithoutAbsent(ids[..|ids| - 1], id);
      assert ids == ids[..|ids| - 1] + [ids[|ids| - 1]];
    }
  }

  lemma NothingRemoved(c: CharacterInventory, id: u32)
    requires !HoldsAnywhere(c, id)
    ensures CharacterWithout(c, id) == c
  {
    WithoutAbsent(c.ownedWeaponItemIds, id);
    WithoutAbsent(c.ownedClothesItemIds, id);
    WithoutAbsent(c.ownedAccessory1ItemIds, id);
    WithoutAbsent(c.ownedAccessory2ItemIds, id);
    WithoutAbsent(c.ownedAccessory3ItemIds, id);
  }

  // ---------------------------------------------------------------- finding the character a request means

  /** The preferred character if the bundle fits it, and otherwise the only character it fits. */
  method FindBundleTarget(inv: AccountInventory, b: Bundle, preferred: Option<u32>) returns (target: Option<nat>)
    ensures target.Some? ==> target.value < |inv.characters| && FitsAll(inv.characters[target.value], b)
    ensures (exists i :: 0 <= i < |inv.characters| && Some(inv.characters[i].characterId) == preferred &&
                         FitsAll(inv.characters[i], b)) ==>
            target.Some? && Some(inv.characters[target.value].characterId) == preferred
    ensures (forall i :: 0 <= i < |inv.characters| && FitsAll(inv.characters[i], b) ==>
                         Some(inv.characters[i].characterId) != preferred) ==>
            (target.Some? <==>
               exists i :: 0 <= i < |inv.characters| && FitsAll(inv.characters[i], b) && Only(inv, b, i))
  {
    if preferred.Some? {
      for i := 0 to |inv.characters|
        invariant forall k :: 0 <= k < i && FitsAll(inv.characters[k], b) ==>
                  inv.characters[k].characterId != preferred.value
      {
        if inv.characters[i].characterId == preferred.value && FitsAll(inv.characters[i], b) {
          return Some(i);
        }
      }
    }
    target := None;
    var ambiguous := false;
    for i := 0 to |inv.characters|
      invariant target.Some? ==> target.value < i && FitsAll(inv.characters[target.value], b)
      invariant target == None ==> forall k :: 0 <= k < i ==> !FitsAll(inv.characters[k], b)
      invariant target.Some? ==>
                (ambiguous <==> exists k :: 0 <= k < i && k != target.value && FitsAll(inv.characters[k], b))
      invariant ambiguous ==> target.Some?
    {
      if FitsAll(inv.characters[i], b) {
        if target == None {
          target := Some(i);
        } else {
          ambiguous := true;
        }
      }
    }
    if ambiguous {
      ghost var first := target.value;
      assert forall i :: 0 <= i < |inv.characters| && FitsAll(inv.characters[i], b) ==> !Only(inv, b, i);
      target := None;
    } else if target.Some? {
      assert Only(inv, b, target.value);
    }
  }

  ghost predicate Only(inv: AccountInventory, b: Bundle, i: nat) {
    forall k :: 0 <= k < |inv.characters| && k != i ==> !FitsAll(inv.characters[k], b)
  }
}
