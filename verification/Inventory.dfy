/** What buying, removing, repairing and equipping do to an inventory. */
module Inventory {
  import opened Bytes
  import opened AccountRecords

  // ---------------------------------------------------------------- sorted lists

  /** A new element in its place, behind those with the same key. */
  function InsertBy<T>(xs: seq<T>, x: T, key: T -> int): (r: seq<T>)
    ensures |r| == |xs| + 1
  {
    var n := |xs| - 1;
    if xs == [] || key(xs[n]) <= key(x) then xs + [x] else InsertBy(xs[..n], x, key) + [xs[n]]
  }

  function SortBy<T>(xs: seq<T>, key: T -> int): (r: seq<T>)
    ensures |r| == |xs|
  {
    if xs == [] then [] else InsertBy(SortBy(xs[..|xs| - 1], key), xs[|xs| - 1], key)
  }

  ghost predicate AscendingBy<T>(xs: seq<T>, key: T -> int) {
    forall i, j :: 0 <= i < j < |xs| ==> key(xs[i]) < key(xs[j])
  }

  function IdKey(id: u32): int { id }

  function StackKey(s: ItemStack): int { s.itemId }

  function SkillKey(s: OwnedSkill): int { s.skillItemId }

  // ---------------------------------------------------------------- the catalog

  datatype Item = Item(typeName: string, characterName: string, equipmentLike: bool, lunaPrice: u32, cashPrice: u32)

  datatype Catalog = Catalog(items: map<u32, Item>, packages: map<u32, seq<u32>>, names: map<u32, string>)

  function Contents(c: Catalog, id: u32): seq<u32> { if id in c.packages then c.packages[id] else [] }

  /** rank falls from a package to what it contains. */
  ghost predicate Ranked(c: Catalog, rank: u32 -> nat) {
    forall id: u32, i: nat :: i < |Contents(c, id)| ==> rank(Contents(c, id)[i]) < rank(id)
  }

  /** No package contains itself, however deep. Buying from a cyclic table does not return. */
  ghost predicate Acyclic(c: Catalog) { exists rank: u32 -> nat :: Ranked(c, rank) }

  ghost function Rank(c: Catalog): (rank: u32 -> nat)
    requires Acyclic(c)
    ensures Ranked(c, rank)
  {
    var rank: u32 -> nat :| Ranked(c, rank); rank
  }

  // ---------------------------------------------------------------- the slots of a character

  datatype EquipSlot = Weapon | Clothes | Accessory1 | Accessory2 | Accessory3

  function Equipped(c: CharacterInventory, slot: EquipSlot): u32 {
    match slot
    case Weapon => c.equippedWeaponItemId
    case Clothes => c.clothesItemId
    case Accessory1 => c.accessory1ItemId
    case Accessory2 => c.accessory2ItemId
    case Accessory3 => c.accessory3ItemId
  }

  function Owned(c: CharacterInventory, slot: EquipSlot): seq<u32> {
    match slot
    case Weapon => c.ownedWeaponItemIds
    case Clothes => c.ownedClothesItemIds
    case Accessory1 => c.ownedAccessory1ItemIds
    case Accessory2 => c.ownedAccessory2ItemIds
    case Accessory3 => c.ownedAccessory3ItemIds
  }

  function WithEquipped(c: CharacterInventory, slot: EquipSlot, id: u32): CharacterInventory {
    match slot
    case Weapon => c.(equippedWeaponItemId := id)
    case Clothes => c.(clothesItemId := id)
    case Accessory1 => c.(accessory1ItemId := id)
    case Accessory2 => c.(accessory2ItemId := id)
    case Accessory3 => c.(accessory3ItemId := id)
  }

  function WithOwned(c: CharacterInventory, slot: EquipSlot, ids: seq<u32>): CharacterInventory {
    match slot
    case Weapon => c.(ownedWeaponItemIds := ids)
    case Clothes => c.(ownedClothesItemIds := ids)
    case Accessory1 => c.(ownedAccessory1ItemIds := ids)
    case Accessory2 => c.(ownedAccessory2ItemIds := ids)
    case Accessory3 => c.(ownedAccessory3ItemIds := ids)
  }

  function SlotOf(typeName: string): Option<EquipSlot> {
    if typeName == "Weapon" then Some(Weapon)
    else if typeName == "Main Clothes" then Some(Clothes)
    else if typeName == "Accessories (1)" then Some(Accessory1)
    else if typeName == "Accessories (2)" then Some(Accessory2)
    else if typeName == "Accessories (3)" then Some(Accessory3)
    else None
  }

  // ---------------------------------------------------------------- whose item it is

  function Letters(text: string): string {
    if text == "" then ""
    else
      var c := text[0];
      (if '0' <= c <= '9' || 'a' <= c <= 'z' then [c]
       else if 'A' <= c <= 'Z' then [(c as int - 'A' as int + 'a' as int) as char]
       else "") + Letters(text[1..])
  }

  function CharacterKey(name: string): string { if Letters(name) == "kirious" then "kirius" else Letters(name) }

  predicate Bears(c: Catalog, characterId: u32, key: string) {
    characterId in c.names && CharacterKey(c.names[characterId]) == key
  }

  /** The first character with a key, or the number of characters. */
  function CharacterIndex(c: Catalog, characters: seq<CharacterInventory>, key: string): (i: nat)
    ensures i <= |characters| && (i < |characters| ==> Bears(c, characters[i].characterId, key))
    ensures forall j :: 0 <= j < i ==> !Bears(c, characters[j].characterId, key)
  {
    if characters == [] || Bears(c, characters[0].characterId, key) then 0
    else 1 + CharacterIndex(c, characters[1..], key)
  }

  /** The character an equipment item goes to; None for everything that is kept in the shared stacks. */
  function Target(c: Catalog, characters: seq<CharacterInventory>, id: u32): Option<nat> {
    if id !in c.items || !c.items[id].equipmentLike then None
    else
      var key := CharacterKey(c.items[id].characterName);
      var i := CharacterIndex(c, characters, key);
      if key == "" || i == |characters| then None else Some(i)
  }

  // ---------------------------------------------------------------- buying

  datatype Change = Change(inventory: AccountInventory, changed: bool)

  function StackIndex(stacks: seq<ItemStack>, id: u32): (i: nat)
    ensures i <= |stacks| && (i < |stacks| ==> stacks[i].itemId == id)
    ensures forall j :: 0 <= j < i ==> stacks[j].itemId != id
  {
    if stacks == [] || stacks[0].itemId == id then 0 else 1 + StackIndex(stacks[1..], id)
  }

  /** A stack never counts beyond 16 bits. */
  function WithStack(stacks: seq<ItemStack>, id: u32, count: u16): seq<ItemStack> {
    var i := StackIndex(stacks, id);
    if i < |stacks| then stacks[i := ItemStack(id, Min(stacks[i].ownedCount as int + count as int, 0xFFFF))]
    else SortBy(stacks + [ItemStack(id, count)], StackKey)
  }

  function WithItem(owned: seq<u32>, id: u32): seq<u32> { if id in owned then owned else SortBy(owned + [id], IdKey) }

  function WithEquipment(inv: AccountInventory, i: nat, slot: Option<EquipSlot>, id: u32): Change
    requires i < |inv.characters|
  {
    var c := inv.characters[i];
    if slot == None || id in Owned(c, slot.value) then Change(inv, false)
    else
      var grown := WithOwned(c, slot.value, WithItem(Owned(c, slot.value), id));
      Change(inv.(characters := inv.characters[i := grown]), true)
  }

  /** Buying something that is not a package. */
  function BoughtLeaf(c: Catalog, inv: AccountInventory, id: u32, count: u16): Change {
    var target := Target(c, inv.characters, id);
    if target == None then Change(inv.(sharedItemStacks := WithStack(inv.sharedItemStacks, id, count)), true)
    else WithEquipment(inv, target.value, SlotOf(c.items[id].typeName), id)
  }

  function Bought(c: Catalog, inv: AccountInventory, id: u32, count: u16): Change
    requires Acyclic(c)
    decreases Rank(c)(id), 2, 0
  {
    if Contents(c, id) == [] then BoughtLeaf(c, inv, id, count)
    else BoughtContents(c, inv, id, Max(count, 1))
  }

  /** The contents of a package, one item after the other, as many times as it was bought. */
  function BoughtContents(c: Catalog, inv: AccountInventory, id: u32, times: nat): Change
    requires Acyclic(c)
    decreases Rank(c)(id), 1, times
  {
    if times == 0 then Change(inv, false)
    else
      var before := BoughtContents(c, inv, id, times - 1);
      var once := BoughtItems(c, before.inventory, id, |Contents(c, id)|);
      Change(once.inventory, before.changed || once.changed)
  }

  /** The first n of the contents of a package. */
  function BoughtItems(c: Catalog, inv: AccountInventory, id: u32, n: nat): Change
    requires Acyclic(c) && n <= |Contents(c, id)|
    decreases Rank(c)(id), 0, n
  {
    if n == 0 then Change(inv, false)
    else
      var before := BoughtItems(c, inv, id, n - 1);
      var item := Bought(c, before.inventory, Contents(c, id)[n - 1], 1);
      Change(item.inventory, before.changed || item.changed)
  }

  // ---------------------------------------------------------------- removing, repairing, skills, equipment

  function Without(ids: seq<u32>, id: u32): seq<u32> {
    if ids == [] then []
    else Without(ids[..|ids| - 1], id) + (if ids[|ids| - 1] == id then [] else [ids[|ids| - 1]])
  }

  function SlotWithout(c: CharacterInventory, slot: EquipSlot, id: u32): CharacterInventory {
    WithOwned(if Equipped(c, slot) == id then WithEquipped(c, slot, 0) else c, slot, Without(Owned(c, slot), id))
  }

  function CharacterWithout(c: CharacterInventory, id: u32): CharacterInventory {
    SlotWithout(SlotWithout(SlotWithout(SlotWithout(SlotWithout(c, Weapon, id), Clothes, id), Accessory1, id),
                            Accessory2, id), Accessory3, id)
  }

  function WithoutStack(stacks: seq<ItemStack>, id: u32): seq<ItemStack> {
    var i := StackIndex(stacks, id);
    if i == |stacks| then stacks
    else if stacks[i].ownedCount > 1 then stacks[i := stacks[i].(ownedCount := stacks[i].ownedCount - 1)]
    else stacks[..i] + stacks[i + 1..]
  }

  predicate Holds(c: CharacterInventory, slot: EquipSlot, id: u32) { Equipped(c, slot) == id || id in Owned(c, slot) }

  predicate HoldsAnywhere(c: CharacterInventory, id: u32) {
    Holds(c, Weapon, id) || Holds(c, Clothes, id) || Holds(c, Accessory1, id) || Holds(c, Accessory2, id) ||
    Holds(c, Accessory3, id)
  }

  /** An item leaves every character that has it; only if none has it does a shared stack shrink. */
  function Removed(inv: AccountInventory, id: u32): Change {
    if exists c <- inv.characters :: HoldsAnywhere(c, id) then
      Change(inv.(characters := seq(|inv.characters|, i requires 0 <= i < |inv.characters| =>
                                      CharacterWithout(inv.characters[i], id))), true)
    else
      Change(inv.(sharedItemStacks := WithoutStack(inv.sharedItemStacks, id)),
             StackIndex(inv.sharedItemStacks, id) < |inv.sharedItemStacks|)
  }

  /** The items a swimsuit package was once expanded to for the first character. */
  predicate Misexpanded(c: CharacterInventory) {
    c.characterId == 1 && 8090 in c.ownedClothesItemIds && 8099 in c.ownedAccessory1ItemIds &&
    8100 in c.ownedAccessory2ItemIds && 8101 in c.ownedAccessory3ItemIds
  }

  function Repaired(c: CharacterInventory): CharacterInventory {
    if !Misexpanded(c) then c
    else
      c.(ownedWeaponItemIds := WithItem(c.ownedWeaponItemIds, 8007),
         ownedClothesItemIds := WithItem(Without(c.ownedClothesItemIds, 8090), 8000),
         ownedAccessory1ItemIds := WithItem(Without(c.ownedAccessory1ItemIds, 8099), 8004),
         ownedAccessory2ItemIds := WithItem(Without(c.ownedAccessory2ItemIds, 8100), 8005),
         ownedAccessory3ItemIds := WithItem(Without(c.ownedAccessory3ItemIds, 8101), 8006))
  }

  function RepairedAll(inv: AccountInventory): Change {
    var repaired := seq(|inv.characters|, i requires 0 <= i < |inv.characters| => Repaired(inv.characters[i]));
    Change(inv.(characters := repaired), exists c <- inv.characters :: Misexpanded(c))
  }

  function SkillIndex(skills: seq<OwnedSkill>, id: u32): (i: nat)
    ensures i <= |skills| && (i < |skills| ==> skills[i].skillItemId == id)
    ensures forall j :: 0 <= j < i ==> skills[j].skillItemId != id
  {
    if skills == [] || skills[0].skillItemId == id then 0 else 1 + SkillIndex(skills[1..], id)
  }

  function WithSkill(inv: AccountInventory, id: u32, minutes: u32): Change {
    var i := SkillIndex(inv.ownedSkills, id);
    if id == 0 then Change(inv, false)
    else if i < |inv.ownedSkills| then
      var learnt := inv.ownedSkills[i := OwnedSkill(id, minutes)];
      Change(inv.(ownedSkills := learnt), inv.ownedSkills[i].durationMinutes != minutes)
    else Change(inv.(ownedSkills := SortBy(inv.ownedSkills + [OwnedSkill(id, minutes)], SkillKey)), true)
  }
}
