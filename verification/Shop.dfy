/** A purchase in the shop as one transaction over the stored profile. */
module Shop {
  import opened Bytes
  import opened AccountRecords
  import opened AccountNames
  import opened AccountStore
  import opened Inventory
  import opened InventoryBuying
  import opened InventoryOrder
  import opened InventoryDelivery
  import opened InventoryExpansion
  import opened InventoryRuns
  import opened InventoryService

  const SELECT_CASH: byte := 1
  const SELECT_LUNA: byte := 2

  datatype BuyRequest = BuyRequest(itemId: u32, field04: u16, selection: byte)

  function ParseBuy(payload: bytes): Option<BuyRequest> {
    if |payload| != 7 then None else Some(BuyRequest(DoubleWordAt(payload, 0), WordAt(payload, 4), payload[6]))
  }

  /** The middle word of a request counts from zero, in 16 bits. */
  function PurchaseCount(r: BuyRequest): u16 { (r.field04 as int + 1) % 0x1_0000 }

  // ---------------------------------------------------------------- paying

  function PaidInLuna(info: AccountInfo, price: u32, n: nat): Option<AccountInfo> {
    if price == 0 || info.luna < price * n then None else Some(info.(luna := info.luna - price * n))
  }

  function PaidInCash(info: AccountInfo, price: u32, n: nat): Option<AccountInfo> {
    if price == 0 || info.cash < price * n then None else Some(info.(cash := info.cash - price * n))
  }

  /** An item with one price is paid in that currency; otherwise the buyer chooses. */
  function Paid(info: AccountInfo, item: Item, selection: byte, count: u16): Option<AccountInfo> {
    var n := Max(count, 1);
    if item.lunaPrice != 0 && item.cashPrice == 0 then PaidInLuna(info, item.lunaPrice, n)
    else if item.cashPrice != 0 && item.lunaPrice == 0 then PaidInCash(info, item.cashPrice, n)
    else if selection == SELECT_LUNA then PaidInLuna(info, item.lunaPrice, n)
    else if selection == SELECT_CASH then PaidInCash(info, item.cashPrice, n)
    else None
  }

  /** Which currency a purchase is paid in, if any. */
  predicate InLuna(item: Item, selection: byte) {
    item.lunaPrice != 0 && (item.cashPrice == 0 || selection == SELECT_LUNA)
  }

  predicate InCash(item: Item, selection: byte) {
    item.cashPrice != 0 && (item.lunaPrice == 0 || selection == SELECT_CASH)
  }

  /** A payment lowers exactly one balance, by exactly the unit price times the count, which it never exceeds; it
      succeeds exactly when one currency is meant and that balance suffices. */
  lemma PaymentIsExact(info: AccountInfo, item: Item, selection: byte, count: u16)
    ensures var n, paid := Max(count, 1), Paid(info, item, selection, count);
            && !(InLuna(item, selection) && InCash(item, selection))
            && (paid.Some? <==> (InLuna(item, selection) && item.lunaPrice * n <= info.luna) ||
                                (InCash(item, selection) && item.cashPrice * n <= info.cash))
            && (paid.Some? && InLuna(item, selection) ==>
                  paid.value == info.(luna := info.luna - item.lunaPrice * n) && paid.value.luna < info.luna)
            && (paid.Some? && InCash(item, selection) ==>
                  paid.value == info.(cash := info.cash - item.cashPrice * n) && paid.value.cash < info.cash)
  {
  }

  // ---------------------------------------------------------------- the transaction

  datatype Refusal = Malformed | MissingInventory | MissingAccountInfo | UnknownItem | Funds

  /** What a request comes to: a refusal, or the profile afterwards and whether it is stored. */
  datatype Outcome = Refused(why: Refusal) | Accepted(profile: Profile, stored: bool)

  /** What the request does to the inventory: repair, expansion of stored tokens, and the purchase itself. */
  datatype Steps = Steps(repaired: Change, expanded: Expansion, bought: Change)

  ghost predicate CanExpand(c: Catalog, p: Option<Profile>) {
    && Acyclic(c)
    && (p.Some? && p.value.inventory.Some? ==> TokensPlaced(c, RepairedAll(p.value.inventory.value).inventory))
  }

  function StepsOf(c: Catalog, inv: AccountInventory, id: u32, count: u16): Steps
    requires Acyclic(c) && TokensPlaced(c, RepairedAll(inv).inventory)
  {
    var repaired := RepairedAll(inv);
    var expanded := Expanded(c, repaired.inventory);
    Steps(repaired, expanded, Bought(c, expanded.inventory, id, count))
  }

  function Buy(c: Catalog, profile: Option<Profile>, payload: bytes): Outcome
    requires CanExpand(c, profile)
  {
    var request := ParseBuy(payload);
    if request == None then Refused(Malformed)
    else if profile == None || profile.value.inventory == None then Refused(MissingInventory)
    else if profile.value.accountInfo == None then Refused(MissingAccountInfo)
    else if request.value.itemId !in c.items then Refused(UnknownItem)
    else Settle(c, profile.value, request.value)
  }

  function Settle(c: Catalog, p: Profile, r: BuyRequest): Outcome
    requires p.inventory.Some? && p.accountInfo.Some? && r.itemId in c.items && CanExpand(c, Some(p))
  {
    var steps := StepsOf(c, p.inventory.value, r.itemId, PurchaseCount(r));
    var after := p.(inventory := Some(steps.bought.inventory));
    if steps.bought.changed then
      var paid := Paid(p.accountInfo.value, c.items[r.itemId], r.selection, PurchaseCount(r));
      if paid == None then Refused(Funds) else Accepted(after.(accountInfo := paid), true)
    else if steps.repaired.changed || steps.expanded.tokens != [] then Accepted(after, true)
    else Accepted(p, false)
  }

  // ---------------------------------------------------------------- what a transaction keeps

  lemma {:induction false} LeafAllUnchanged(c: Catalog, inv: AccountInventory, ids: seq<u32>)
    requires !LeafAll(c, inv, ids).changed
    ensures LeafAll(c, inv, ids).inventory == inv
  {
    if ids != [] { LeafAllUnchanged(c, inv, ids[..|ids| - 1]); }
  }

  /** A purchase that reports no change changes nothing. */
  lemma UnchangedIsSame(c: Catalog, inv: AccountInventory, id: u32, count: u16)
    requires Acyclic(c) && !Bought(c, inv, id, count).changed
    ensures Bought(c, inv, id, count).inventory == inv
  {
    if Contents(c, id) != [] {
      PackageIsItsLeaves(c, inv, id, count);
      LeafAllUnchanged(c, inv, Times(Leaves(c, id), Max(count, 1)));
    }
  }

  /** A request says item, count from zero and currency, in seven bytes; the largest count wraps to none. */
  lemma RequestReadsBack(itemId: u32, field04: u16, selection: byte)
    ensures var r := BuyRequest(itemId, field04, selection);
            && ParseBuy(DoubleWordBytes(itemId) + WordBytes(field04) + [selection]) == Some(r)
            && PurchaseCount(r) as int == if field04 == 0xFFFF then 0 else field04 as int + 1
  {
    var payload := DoubleWordBytes(itemId) + WordBytes(field04) + [selection];
    assert payload[..4] == DoubleWordBytes(itemId) && payload[4..6] == WordBytes(field04);
    assert payload[0] == payload[..4][0] && payload[1] == payload[..4][1];
    assert payload[2] == payload[..4][2] && payload[3] == payload[..4][3];
  }

  /** Why a request is refused before the transaction. */
  lemma RefusedBeforehandExactlyWhen(c: Catalog, profile: Option<Profile>, payload: bytes)
    requires CanExpand(c, profile)
    ensures var o := Buy(c, profile, payload);
            var stocked := profile.Some? && profile.value.inventory.Some?;
            && (o == Refused(Malformed) <==> |payload| != 7)
            && (o == Refused(MissingInventory) <==> |payload| == 7 && !stocked)
            && (o == Refused(MissingAccountInfo) <==> |payload| == 7 && stocked && profile.value.accountInfo == None)
            && (o == Refused(UnknownItem) <==>
                  |payload| == 7 && stocked && profile.value.accountInfo.Some? && DoubleWordAt(payload, 0) !in c.items)
  {
    if |payload| == 7 && profile.Some? && profile.value.inventory.Some? && profile.value.accountInfo.Some? &&
       DoubleWordAt(payload, 0) in c.items {
      PurchaseIsExact(c, profile.value, ParseBuy(payload).value);
    }
  }

  /** The inventory a purchase starts from: misexpanded packages are repaired and stored tokens opened. */
  function Readied(c: Catalog, p: Profile): AccountInventory
    requires p.inventory.Some? && CanExpand(c, Some(p))
  {
    Expanded(c, RepairedAll(p.inventory.value).inventory).inventory
  }

  /** The balance of the currency meant covers max(n, 1) units. */
  predicate Affordable(info: AccountInfo, item: Item, r: BuyRequest) {
    var n := Max(PurchaseCount(r), 1);
    || (InLuna(item, r.selection) && item.lunaPrice * n <= info.luna)
    || (InCash(item, r.selection) && item.cashPrice * n <= info.cash)
  }

  function Charged(info: AccountInfo, item: Item, r: BuyRequest): AccountInfo
    requires Affordable(info, item, r)
  {
    var n := Max(PurchaseCount(r), 1);
    if InLuna(item, r.selection) then info.(luna := info.luna - item.lunaPrice * n)
    else info.(cash := info.cash - item.cashPrice * n)
  }

  /** A repair has something to repair, or a token lies in the stacks. */
  predicate NeedsReadying(c: Catalog, inv: AccountInventory) {
    || (exists ch <- inv.characters :: Misexpanded(ch))
    || (exists s <- inv.sharedItemStacks :: IsToken(c, s))
  }

  /** What a purchase comes to. It is refused for funds exactly if it has an effect and the balance of the currency
      meant does not cover it. Otherwise the inventory, repaired and its tokens opened, gets exactly what is bought;
      exactly one balance falls, by the unit price times max(n, 1), if there is an effect, and none if not; nothing
      else of the profile changes; and it is stored exactly if there was an effect, a repair or an opened token. */
  lemma PurchaseIsExact(c: Catalog, p: Profile, r: BuyRequest)
    requires p.inventory.Some? && p.accountInfo.Some? && r.itemId in c.items && CanExpand(c, Some(p))
    ensures var base, item, info := Readied(c, p), c.items[r.itemId], p.accountInfo.value;
            var effect, affordable := HasEffect(c, base, r.itemId), Affordable(info, item, r);
            match Settle(c, p, r)
            case Refused(why) => why == Funds && effect && !affordable
            case Accepted(after, stored) =>
              && (effect ==> affordable)
              && after == p.(inventory := after.inventory, accountInfo := after.accountInfo)
              && after.inventory.Some? && Delivered(c, base, after.inventory.value, r.itemId, PurchaseCount(r))
              && after.accountInfo == (if effect then Some(Charged(info, item, r)) else p.accountInfo)
              && (stored <==> effect || NeedsReadying(c, p.inventory.value)) && (!stored ==> after == p)
  {
    var base, b, ready := SettleSteps(c, p, r);
    BoughtDelivers(c, base, r.itemId, PurchaseCount(r));
    BoughtChangesExactlyWhen(c, base, r.itemId, PurchaseCount(r));
    if !b.changed { UnchangedIsSame(c, base, r.itemId, PurchaseCount(r)); }
  }

  /** The transaction from the inventory it starts from. */
  lemma SettleSteps(c: Catalog, p: Profile, r: BuyRequest) returns (base: AccountInventory, b: Change, ready: bool)
    requires p.inventory.Some? && p.accountInfo.Some? && r.itemId in c.items && CanExpand(c, Some(p))
    ensures base == Readied(c, p) && b == Bought(c, base, r.itemId, PurchaseCount(r))
    ensures ready == NeedsReadying(c, p.inventory.value) && (!ready ==> base == p.inventory.value)
    ensures var item, info, after := c.items[r.itemId], p.accountInfo.value, p.(inventory := Some(b.inventory));
            Settle(c, p, r) ==
            if b.changed && !Affordable(info, item, r) then Refused(Funds)
            else if b.changed then Accepted(after.(accountInfo := Some(Charged(info, item, r))), true)
            else if ready then Accepted(after, true)
            else Accepted(p, false)
  {
    base, ready := ReadyingSteps(c, p.inventory.value);
    b := Bought(c, base, r.itemId, PurchaseCount(r));
    PaidIs(p.accountInfo.value, c.items[r.itemId], r);
  }

  lemma ReadyingSteps(c: Catalog, inv: AccountInventory) returns (base: AccountInventory, ready: bool)
    requires Acyclic(c) && TokensPlaced(c, RepairedAll(inv).inventory)
    ensures base == Expanded(c, RepairedAll(inv).inventory).inventory && ready == NeedsReadying(c, inv)
    ensures ready <==> RepairedAll(inv).changed || Expanded(c, RepairedAll(inv).inventory).tokens != []
    ensures !ready ==> base == inv
  {
    var repaired := RepairedAll(inv);
    base, ready := Expanded(c, repaired.inventory).inventory, NeedsReadying(c, inv);
    ExpandedFromIs(c, repaired.inventory, 0);
    TokensAreThere(c, inv.sharedItemStacks);
    assert inv.sharedItemStacks[0..] == inv.sharedItemStacks;
    if !repaired.changed { UnrepairedIsSame(inv); }
  }

  lemma PaidIs(info: AccountInfo, item: Item, r: BuyRequest)
    ensures Paid(info, item, r.selection, PurchaseCount(r)) ==
            if Affordable(info, item, r) then Some(Charged(info, item, r)) else None
  {
    PaymentIsExact(info, item, r.selection, PurchaseCount(r));
  }

  lemma {:induction false} TokensAreThere(c: Catalog, stacks: seq<ItemStack>)
    ensures Tokens(c, stacks) == [] <==> forall s <- stacks :: !IsToken(c, s)
  {
    if stacks != [] {
      TokensAreThere(c, stacks[1..]);
      assert stacks == [stacks[0]] + stacks[1..];
    }
  }

  lemma UnrepairedIsSame(inv: AccountInventory)
    requires !RepairedAll(inv).changed
    ensures RepairedAll(inv).inventory == inv
  {
    forall i | 0 <= i < |inv.characters| ensures Repaired(inv.characters[i]) == inv.characters[i] {
      assert inv.characters[i] in inv.characters;
    }
    assert RepairedAll(inv).inventory.characters == inv.characters;
  }

  /** A purchase keeps all lists strictly ascending, and equipped items owned unless the repair that comes first takes
      away an item that is worn. */
  lemma PurchaseKeepsOrder(c: Catalog, p: Profile, r: BuyRequest)
    requires p.inventory.Some? && p.accountInfo.Some? && r.itemId in c.items && CanExpand(c, Some(p))
    requires Settle(c, p, r).Accepted? && Sorted(p.inventory.value)
    ensures var before, after := p.inventory.value, Settle(c, p, r).profile.inventory;
            && after.Some? && Sorted(after.value)
            && (AllWearOwn(before) && Spares(before) ==> AllWearOwn(after.value))
  {
    var inv := p.inventory.value;
    var steps := StepsOf(c, inv, r.itemId, PurchaseCount(r));
    RepairKeeps(inv);
    ExpandedIsDone(c, steps.repaired.inventory);
    BoughtKeeps(c, steps.expanded.inventory, r.itemId, PurchaseCount(r));
    if !steps.repaired.changed { UnrepairedIsSame(inv); }
  }

  /** How many of an item the shared stacks hold, going by its first stack. */
  function OwnedCount(stacks: seq<ItemStack>, id: u32): u16 {
    var i := StackIndex(stacks, id);
    if i < |stacks| then stacks[i].ownedCount else 0
  }

  lemma CountWithStack(stacks: seq<ItemStack>, id: u32, count: u16)
    ensures var after := WithStack(stacks, id, count);
            && StackIndex(after, id) < |after|
            && OwnedCount(after, id) == Min(OwnedCount(stacks, id) as int + count as int, 0xFFFF)
  {
    var i, after := StackIndex(stacks, id), WithStack(stacks, id, count);
    if i < |stacks| {
      assert after[i].itemId == id && StackIndex(after, id) <= i;
      assert forall j :: 0 <= j < i ==> after[j] == stacks[j];
    } else {
      var more := stacks + [ItemStack(id, count)];
      SortMembers(more, StackKey);
      assert more[|stacks|] in more && ItemStack(id, count) in after;
      var k := StackIndex(after, id);
      assert after[k] in after && after[k] in more;
    }
  }

  /** How many units of an item an inventory holds: one if its character owns it, or what the shared stack counts. */
  function Units(c: Catalog, inv: AccountInventory, id: u32): nat {
    match Target(c, inv.characters, id)
    case None => OwnedCount(inv.sharedItemStacks, id)
    case Some(i) => OwnedUnits(inv.characters[i], SlotOf(c.items[id].typeName), id)
  }

  function OwnedUnits(ch: CharacterInventory, slot: Option<EquipSlot>, id: u32): nat {
    if slot.Some? && id in Owned(ch, slot.value) then 1 else 0
  }

  /** How many units a purchase is charged for: none if it changes nothing, and one at least otherwise. */
  function UnitsCharged(c: Catalog, inv: AccountInventory, r: BuyRequest): nat
    requires Acyclic(c)
  {
    if Bought(c, inv, r.itemId, PurchaseCount(r)).changed then Max(PurchaseCount(r), 1) else 0
  }

  /** For an item of the shared stacks the units charged are the units added exactly when the count does not wrap to
      zero and the stack does not reach its end. A wrapped count adds nothing, though it makes the stack if there is
      none, and one unit is charged for it; a full stack takes less than is charged. */
  lemma StackChargedIsAdded(c: Catalog, inv: AccountInventory, r: BuyRequest)
    requires Acyclic(c) && Contents(c, r.itemId) == [] && Target(c, inv.characters, r.itemId) == None
    ensures var n, had := PurchaseCount(r), Units(c, inv, r.itemId);
            var after := Bought(c, inv, r.itemId, n).inventory;
            var now := Units(c, after, r.itemId);
            && StackIndex(after.sharedItemStacks, r.itemId) < |after.sharedItemStacks| && now == Min(had + n, 0xFFFF)
            && (now - had == UnitsCharged(c, inv, r) <==> r.field04 != 0xFFFF && had + n <= 0xFFFF)
            && (r.field04 == 0xFFFF <==> n == 0)
  {
    CountWithStack(inv.sharedItemStacks, r.itemId, PurchaseCount(r));
  }

  /** Equipment is added once whatever the count; the units charged are the units added exactly when the character
      owns the item already or has no place for it, and nothing is charged, or when the count is no more than one. */
  lemma EquipmentChargedIsAdded(c: Catalog, inv: AccountInventory, r: BuyRequest)
    requires Acyclic(c) && Contents(c, r.itemId) == [] && Target(c, inv.characters, r.itemId).Some?
    ensures var n, had := PurchaseCount(r), Units(c, inv, r.itemId);
            var now := Units(c, Bought(c, inv, r.itemId, n).inventory, r.itemId);
            var fits := SlotOf(c.items[r.itemId].typeName).Some?;
            && now == (if fits then 1 else 0)
            && (now - had == UnitsCharged(c, inv, r) <==> !fits || had == 1 || r.field04 in {0, 0xFFFF})
  {
    var had, now, slot := BoughtEquipment(c, inv, r.itemId, PurchaseCount(r));
  }

  /** Equipment is owned once afterwards, whatever the count. */
  lemma BoughtEquipment(c: Catalog, inv: AccountInventory, id: u32, count: u16)
    returns (had: nat, now: nat, slot: Option<EquipSlot>)
    requires Acyclic(c) && Contents(c, id) == [] && Target(c, inv.characters, id).Some?
    ensures slot == SlotOf(c.items[id].typeName) && had == Units(c, inv, id) <= 1
    ensures now == Units(c, Bought(c, inv, id, count).inventory, id) == if slot.Some? then 1 else 0
    ensures Bought(c, inv, id, count).changed <==> slot.Some? && had == 0
  {
    var i := Target(c, inv.characters, id).value;
    slot := SlotOf(c.items[id].typeName);
    var after := WithEquipment(inv, i, slot, id).inventory;
    had, now := Units(c, inv, id), Units(c, after, id);
    WithEquipmentOwns(inv, i, slot, id);
    SameIdsSameTarget(c, inv.characters, after.characters, id);
  }

  lemma WithEquipmentOwns(inv: AccountInventory, i: nat, slot: Option<EquipSlot>, id: u32)
    requires i < |inv.characters|
    ensures var b := WithEquipment(inv, i, slot, id);
            && SameIds(inv.characters, b.inventory.characters)
            && OwnedUnits(b.inventory.characters[i], slot, id) == (if slot.Some? then 1 else 0)
            && (b.changed <==> slot.Some? && OwnedUnits(inv.characters[i], slot, id) == 0)
  {
    WithEquipmentGrows(inv, i, slot, id);
    if slot.Some? && id !in Owned(inv.characters[i], slot.value) {
      var ids := WithItem(Owned(inv.characters[i], slot.value), id);
      WithItemMembers(Owned(inv.characters[i], slot.value), id);
      OwnedOf(inv.characters[i], slot.value, ids, slot.value);
    }
  }

  /** When the units charged for an item that is no package are the units added. */
  lemma ChargedIsAddedExactlyWhen(c: Catalog, inv: AccountInventory, r: BuyRequest)
    requires Acyclic(c) && Contents(c, r.itemId) == []
    ensures var n, had := PurchaseCount(r), Units(c, inv, r.itemId);
            var now := Units(c, Bought(c, inv, r.itemId, n).inventory, r.itemId);
            now - had == UnitsCharged(c, inv, r) <==>
            if Target(c, inv.characters, r.itemId) == None then r.field04 != 0xFFFF && had + n <= 0xFFFF
            else SlotOf(c.items[r.itemId].typeName) == None || had == 1 || r.field04 in {0, 0xFFFF}
  {
    if Target(c, inv.characters, r.itemId) == None { StackChargedIsAdded(c, inv, r); }
    else { EquipmentChargedIsAdded(c, inv, r); }
  }

  /** When a buyer pays exactly for the units that arrive in the stored profile, for an item that is no package. */
  lemma PaidForWhatArrivesExactlyWhen(c: Catalog, p: Profile, r: BuyRequest)
    returns (had: nat, now: nat, price: nat, paid: int)
    requires p.inventory.Some? && p.accountInfo.Some? && r.itemId in c.items && CanExpand(c, Some(p))
    requires Contents(c, r.itemId) == [] && Settle(c, p, r).Accepted?
    ensures var item, info, after := c.items[r.itemId], p.accountInfo.value, Settle(c, p, r).profile;
            && after.inventory.Some? && after.accountInfo.Some?
            && had == Units(c, Readied(c, p), r.itemId) && now == Units(c, after.inventory.value, r.itemId)
            && price == (if InLuna(item, r.selection) then item.lunaPrice else item.cashPrice)
            && paid == (info.luna - after.accountInfo.value.luna) + (info.cash - after.accountInfo.value.cash)
    ensures paid == price * (now - had) <==>
            if Target(c, Readied(c, p).characters, r.itemId) == None then
              r.field04 != 0xFFFF && had + PurchaseCount(r) as int <= 0xFFFF
            else SlotOf(c.items[r.itemId].typeName) == None || had == 1 || r.field04 in {0, 0xFFFF}
  {
    var charged;
    had, now, price, paid, charged := PaidAndArrived(c, p, r);
    var h, n, fair := UnitsArrived(c, Readied(c, p), r);
    SameCost(price, paid, charged, now as int - had as int);
  }

  lemma SameCost(price: nat, paid: int, charged: int, arrived: int)
    requires paid == price * charged && (price > 0 || charged == arrived)
    ensures paid == price * arrived <==> charged == arrived
  {
    if price > 0 { SameFactor(price, charged, arrived); }
  }

  lemma PaidAndArrived(c: Catalog, p: Profile, r: BuyRequest)
    returns (had: nat, now: nat, price: nat, paid: int, charged: nat)
    requires p.inventory.Some? && p.accountInfo.Some? && r.itemId in c.items && CanExpand(c, Some(p))
    requires Contents(c, r.itemId) == [] && Settle(c, p, r).Accepted?
    ensures var item, info, after := c.items[r.itemId], p.accountInfo.value, Settle(c, p, r).profile;
            && after.inventory.Some? && after.accountInfo.Some?
            && had == Units(c, Readied(c, p), r.itemId) && now == Units(c, after.inventory.value, r.itemId)
            && price == (if InLuna(item, r.selection) then item.lunaPrice else item.cashPrice)
            && paid == (info.luna - after.accountInfo.value.luna) + (info.cash - after.accountInfo.value.cash)
    ensures charged == UnitsCharged(c, Readied(c, p), r) && paid == price * charged
    ensures now == Units(c, Bought(c, Readied(c, p), r.itemId, PurchaseCount(r)).inventory, r.itemId)
    ensures price > 0 || charged == now as int - had as int
  {
    var item, info := c.items[r.itemId], p.accountInfo.value;
    var base, b, ready := SettleSteps(c, p, r);
    had, now, charged := Units(c, base, r.itemId), Units(c, b.inventory, r.itemId), UnitsCharged(c, base, r);
    price, paid := if InLuna(item, r.selection) then item.lunaPrice else item.cashPrice, 0;
    if b.changed {
      price := ChargedCosts(info, item, r);
      paid := price * charged;
    } else {
      UnchangedIsSame(c, base, r.itemId, PurchaseCount(r));
    }
  }

  lemma UnitsArrived(c: Catalog, inv: AccountInventory, r: BuyRequest) returns (had: nat, now: nat, fair: bool)
    requires Acyclic(c) && Contents(c, r.itemId) == []
    ensures had == Units(c, inv, r.itemId) &&
            now == Units(c, Bought(c, inv, r.itemId, PurchaseCount(r)).inventory, r.itemId)
    ensures fair <==> if Target(c, inv.characters, r.itemId) == None then
                        r.field04 != 0xFFFF && had + PurchaseCount(r) as int <= 0xFFFF
                      else SlotOf(c.items[r.itemId].typeName) == None || had == 1 || r.field04 in {0, 0xFFFF}
    ensures now - had == UnitsCharged(c, inv, r) <==> fair
  {
    had, now := Units(c, inv, r.itemId), Units(c, Bought(c, inv, r.itemId, PurchaseCount(r)).inventory, r.itemId);
    ChargedIsAddedExactlyWhen(c, inv, r);
    fair := now as int - had as int == UnitsCharged(c, inv, r);
  }

  lemma ChargedCosts(info: AccountInfo, item: Item, r: BuyRequest) returns (price: nat)
    requires Affordable(info, item, r)
    ensures price == (if InLuna(item, r.selection) then item.lunaPrice else item.cashPrice) && price > 0
    ensures var later := Charged(info, item, r);
            (info.luna - later.luna) + (info.cash - later.cash) == price * Max(PurchaseCount(r), 1)
  {
    price := if InLuna(item, r.selection) then item.lunaPrice else item.cashPrice;
  }

  lemma SameFactor(price: nat, a: int, b: int)
    requires price > 0
    ensures price * a == price * b <==> a == b
  {
    if price * a == price * b { assert price * (a - b) == 0; }
  }

  /** A shop that sells one consumable for ten a piece. */
  const SHELF := Catalog(map[9 := Item("Etc", "", false, 10, 0)], map[], map[])

  lemma ShelfIsAcyclic()
    ensures Acyclic(SHELF)
  {
    assert Ranked(SHELF, (id: u32) => 0);
  }

  /** A request for 65536 units charges one and adds none; one for ten units of a full stack charges ten and adds
      none. */
  lemma ChargedForNothing(p: Profile, info: AccountInfo)
    requires p.accountInfo == Some(info) && info.luna >= 100
    ensures Acyclic(SHELF)
    ensures p.inventory == Some(AccountInventory([ItemStack(9, 5)], [], [])) ==>
              CanExpand(SHELF, Some(p)) &&
              Settle(SHELF, p, BuyRequest(9, 0xFFFF, SELECT_LUNA)) ==
                Accepted(p.(accountInfo := Some(info.(luna := info.luna - 10))), true)
    ensures p.inventory == Some(AccountInventory([ItemStack(9, 0xFFFF)], [], [])) ==>
              CanExpand(SHELF, Some(p)) &&
              Settle(SHELF, p, BuyRequest(9, 9, SELECT_LUNA)) ==
                Accepted(p.(accountInfo := Some(info.(luna := info.luna - 100))), true)
  {
    ShelfIsAcyclic();
    OneStackBuys(5, 0);
    OneStackBuys(0xFFFF, 10);
  }

  lemma OneStackBuys(count: u16, n: u16)
    requires count as int + n as int <= 0xFFFF || count == 0xFFFF
    ensures Acyclic(SHELF)
    ensures var inv := AccountInventory([ItemStack(9, count)], [], []);
            && TokensPlaced(SHELF, inv) && RepairedAll(inv) == Change(inv, false)
            && Expanded(SHELF, inv) == Expansion(inv, [])
            && Bought(SHELF, inv, 9, n) ==
                 Change(inv.(sharedItemStacks := [ItemStack(9, Min(count as int + n as int, 0xFFFF))]), true)
  {
    var inv := AccountInventory([ItemStack(9, count)], [], []);
    ShelfIsAcyclic();
    assert RepairedAll(inv).inventory.characters == [];
    assert ExpandedFrom(SHELF, inv, 1) == Expansion(inv, []);
    assert StackIndex(inv.sharedItemStacks, 9) == 0;
  }

  // ---------------------------------------------------------------- the handler

  function FirstProfile(accounts: seq<Account>, login: string): Option<Profile> {
    var i := IndexOf(accounts, login);
    if i == |accounts| then None else Some(accounts[i].profile)
  }

  /** Repairs, expands and buys on a copy of the inventory. */
  method UpdateInventory(c: Catalog, inv: AccountInventory, id: u32, count: u16) returns (steps: Steps)
    requires Acyclic(c) && TokensPlaced(c, RepairedAll(inv).inventory)
    ensures steps == StepsOf(c, inv, id, count)
  {
    var updated := new StoredInventory(inv);
    var repaired := updated.RepairMisexpandedPackages();
    var afterRepair := AccountInventory(updated.sharedItemStacks, updated.ownedSkills, updated.characters);
    var tokens := updated.ExpandStoredPackageTokens(c);
    var afterExpansion := AccountInventory(updated.sharedItemStacks, updated.ownedSkills, updated.characters);
    var changed := updated.ApplyBoughtItem(c, id, count);
    var after := AccountInventory(updated.sharedItemStacks, updated.ownedSkills, updated.characters);
    steps := Steps(Change(afterRepair, repaired), Expansion(afterExpansion, tokens), Change(after, changed));
  }

  method ApplyShopPrice(info: AccountInfo, item: Item, selection: byte, count: u16) returns (paid: Option<AccountInfo>)
    ensures paid == Paid(info, item, selection, count)
  {
    var total := Max(count, 1);
    var luna := if item.lunaPrice != 0 && item.cashPrice == 0 then true
                else if item.cashPrice != 0 && item.lunaPrice == 0 then false
                else selection == SELECT_LUNA;
    if luna {
      paid := PaidInLuna(info, item.lunaPrice, total);
    } else if (item.cashPrice != 0 && item.lunaPrice == 0) || selection == SELECT_CASH {
      paid := PaidInCash(info, item.cashPrice, total);
    } else {
      paid := None;
    }
  }

  /** Handles a buy request of a logged-in client. Whatever is refused leaves the database and its file alone. */
  method HandleBuyItem(c: Catalog, db: AccountDatabase, login: string, payload: bytes) returns (outcome: Outcome)
    requires db.Valid() && CanExpand(c, FirstProfile(db.accounts, login))
    modifies db
    ensures db.Valid() && outcome == Buy(c, FirstProfile(old(db.accounts), login), payload)
    ensures outcome.Accepted? && outcome.stored ==>
              db.accounts == Apply(old(db.accounts), SetProfile(login, outcome.profile), db.units)
    ensures outcome.Refused? || !outcome.stored ==> db.accounts == old(db.accounts) && db.file == old(db.file)
  {
    var request := ParseBuy(payload);
    if request == None {
      return Refused(Malformed);
    }
    var profile := FindPacketProfile(db, login);
    if profile == None || profile.value.inventory == None {
      return Refused(MissingInventory);
    }
    var p := profile.value;
    if p.accountInfo == None {
      return Refused(MissingAccountInfo);
    }
    if request.value.itemId !in c.items {
      return Refused(UnknownItem);
    }
    outcome := SettlePurchase(c, p, request.value);
    if outcome.Accepted? && outcome.stored {
      var found := db.SetPacketProfile(login, outcome.profile);
    }
  }

  method FindPacketProfile(db: AccountDatabase, login: string) returns (profile: Option<Profile>)
    ensures profile == FirstProfile(db.accounts, login)
  {
    var i := db.FindIndex(login);
    profile := if i == |db.accounts| then None else Some(db.accounts[i].profile);
  }

  method SettlePurchase(c: Catalog, p: Profile, r: BuyRequest) returns (outcome: Outcome)
    requires p.inventory.Some? && p.accountInfo.Some? && r.itemId in c.items && CanExpand(c, Some(p))
    ensures outcome == Settle(c, p, r)
  {
    var count := PurchaseCount(r);
    var steps := UpdateInventory(c, p.inventory.value, r.itemId, count);
    var updated := p.(inventory := Some(steps.bought.inventory));
    if steps.bought.changed {
      var paid := ApplyShopPrice(p.accountInfo.value, c.items[r.itemId], r.selection, count);
      if paid == None {
        return Refused(Funds);
      }
      return Accepted(updated.(accountInfo := paid), true);
    }
    if steps.repaired.changed || steps.expanded.tokens != [] {
      return Accepted(updated, true);
    }
    return Accepted(p, false);
  }
}
