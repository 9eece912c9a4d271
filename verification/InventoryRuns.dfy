/** What every run of inventory operations keeps. */
module InventoryRuns {
  import opened Bytes
  import opened AccountRecords
  import opened Inventory
  import opened InventoryBuying
  import opened InventoryOrder
  import opened InventoryExpansion

  /** An operation of the service. The bundle of Equip is put on the character at a place, if there is one that it
      fits; the other requests are refused. */
  datatype Operation =
    | Buy(itemId: u32, count: u16)
    | Expand
    | Remove(removedId: u32)
    | Repair
    | Learn(skillId: u32, minutes: u32)
    | Equip(place: nat, bundle: Bundle)

  /** The expansion walks its list with an iterator, so it needs contents that have their place. */
  ghost predicate Performable(c: Catalog, inv: AccountInventory, op: Operation)
    requires Acyclic(c)
  {
    op.Expand? ==> TokensPlaced(c, inv)
  }

  function Perform(c: Catalog, inv: AccountInventory, op: Operation): AccountInventory
    requires Acyclic(c) && Performable(c, inv, op)
  {
    match op
    case Buy(id, count) => Bought(c, inv, id, count).inventory
    case Expand => Expanded(c, inv).inventory
    case Remove(id) => Removed(inv, id).inventory
    case Repair => RepairedAll(inv).inventory
    case Learn(id, minutes) => WithSkill(inv, id, minutes).inventory
    case Equip(i, b) =>
      if i < |inv.characters| && FitsAll(inv.characters[i], b) then
        inv.(characters := inv.characters[i := Dressed(inv.characters[i], b)])
      else inv
  }

  ghost predicate AllPerformable(c: Catalog, inv: AccountInventory, ops: seq<Operation>)
    requires Acyclic(c)
    decreases ops
  {
    ops == [] || (Performable(c, inv, ops[0]) && AllPerformable(c, Perform(c, inv, ops[0]), ops[1..]))
  }

  function PerformAll(c: Catalog, inv: AccountInventory, ops: seq<Operation>): AccountInventory
    requires Acyclic(c) && AllPerformable(c, inv, ops)
    decreases ops
  {
    if ops == [] then inv else PerformAll(c, Perform(c, inv, ops[0]), ops[1..])
  }

  /** No repair comes while an item that it takes away is equipped. */
  ghost predicate RepairsSpare(c: Catalog, inv: AccountInventory, ops: seq<Operation>)
    requires Acyclic(c) && AllPerformable(c, inv, ops)
    decreases ops
  {
    ops == [] || ((ops[0].Repair? ==> Spares(inv)) && RepairsSpare(c, Perform(c, inv, ops[0]), ops[1..]))
  }

  predicate Spares(inv: AccountInventory) {
    forall i :: 0 <= i < |inv.characters| ==> !Misexpanded(inv.characters[i]) || !WearsMisexpanded(inv.characters[i])
  }

  lemma RepairKeeps(inv: AccountInventory)
    ensures Sorted(inv) ==> Sorted(RepairedAll(inv).inventory)
    ensures AllWearOwn(inv) ==> (AllWearOwn(RepairedAll(inv).inventory) <==> Spares(inv))
  {
    if Sorted(inv) { RepairedAllSorted(inv); }
    forall i | 0 <= i < |inv.characters| && WearsOwn(inv.characters[i])
      ensures var ch := inv.characters[i];
              WearsOwn(RepairedAll(inv).inventory.characters[i]) <==> !Misexpanded(ch) || !WearsMisexpanded(ch)
    {
      RepairedWearsOwnExactlyWhen(inv.characters[i]);
    }
  }

  lemma EquipKeeps(inv: AccountInventory, i: nat, b: Bundle)
    requires i < |inv.characters| && FitsAll(inv.characters[i], b)
    ensures Kept(inv, inv.(characters := inv.characters[i := Dressed(inv.characters[i], b)]))
  {
    var ch := inv.characters[i];
    DressedKeeps(ch, b);
  }

  lemma PerformKeeps(c: Catalog, inv: AccountInventory, op: Operation)
    requires Acyclic(c) && Performable(c, inv, op)
    ensures Sorted(inv) ==> Sorted(Perform(c, inv, op))
    ensures AllWearOwn(inv) ==> (AllWearOwn(Perform(c, inv, op)) <==> !op.Repair? || Spares(inv))
  {
    match op {
      case Buy(id, count) => BoughtKeeps(c, inv, id, count);
      case Expand => ExpandedIsDone(c, inv);
      case Remove(id) => RemovedKeeps(inv, id);
      case Repair => RepairKeeps(inv);
      case Learn(id, minutes) => WithSkillKeeps(inv, id, minutes);
      case Equip(i, b) => if i < |inv.characters| && FitsAll(inv.characters[i], b) { EquipKeeps(inv, i, b); }
    }
  }

  /** Whatever is bought, expanded, removed, repaired, learnt and put on, in any order, all lists stay strictly
      ascending; and what is equipped stays owned if no repair takes away something that is worn. */
  lemma {:induction false} RunsKeepOrder(c: Catalog, inv: AccountInventory, ops: seq<Operation>)
    requires Acyclic(c) && AllPerformable(c, inv, ops) && Sorted(inv)
    ensures Sorted(PerformAll(c, inv, ops))
    ensures AllWearOwn(inv) && RepairsSpare(c, inv, ops) ==> AllWearOwn(PerformAll(c, inv, ops))
    decreases ops
  {
    if ops != [] {
      PerformKeeps(c, inv, ops[0]);
      RunsKeepOrder(c, Perform(c, inv, ops[0]), ops[1..]);
    }
  }
}
