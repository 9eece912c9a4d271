/** Opening the package tokens that lie in the shared stacks. */
module InventoryExpansion {
  import opened Bytes
  import opened AccountRecords
  import opened Inventory
  import opened InventoryBuying
  import opened InventoryOrder

  predicate IsToken(c: Catalog, s: ItemStack) { Contents(c, s.itemId) != [] }

  // ---------------------------------------------------------------- contents that have their place

  ghost predicate HasStack(stacks: seq<ItemStack>, id: u32) { exists i :: 0 <= i < |stacks| && stacks[i].itemId == id }

  /** The item goes to a character, or onto a shared stack that is there. */
  ghost predicate Placed(c: Catalog, inv: AccountInventory, id: u32) {
    Resolves(c, inv, id) || HasStack(inv.sharedItemStacks, id)
  }

  ghost predicate AllPlaced(c: Catalog, inv: AccountInventory, ids: seq<u32>) {
    forall i :: 0 <= i < |ids| ==> Placed(c, inv, ids[i])
  }

  /** Nothing in the packages that are stored needs a new shared stack. The server's loop walks those
      stacks with an iterator, which an insertion would invalidate. */
  ghost predicate TokensPlaced(c: Catalog, inv: AccountInventory)
    requires Acyclic(c)
  {
    forall i :: 0 <= i < |inv.sharedItemStacks| && IsToken(c, inv.sharedItemStacks[i]) ==>
      AllPlaced(c, inv, Leaves(c, inv.sharedItemStacks[i].itemId))
  }

  /** The same stacks in the same order, and none of them smaller. */
  ghost predicate Grown(a: seq<ItemStack>, b: seq<ItemStack>) {
    |a| == |b| && forall i :: 0 <= i < |a| ==> b[i].itemId == a[i].itemId && b[i].ownedCount >= a[i].ownedCount
  }

  ghost predicate SamePlaces(a: AccountInventory, b: AccountInventory) {
    SameIds(a.characters, b.characters) && Grown(a.sharedItemStacks, b.sharedItemStacks)
  }

  lemma PlacedStays(c: Catalog, a: AccountInventory, b: AccountInventory, id: u32)
    requires SameIds(a.characters, b.characters) && Placed(c, a, id)
    requires HasStack(a.sharedItemStacks, id) ==> HasStack(b.sharedItemStacks, id)
    ensures Placed(c, b, id)
  {
    SameIdsSameTarget(c, a.characters, b.characters, id);
  }

  lemma BoughtLeafPlaced(c: Catalog, inv: AccountInventory, id: u32)
    requires Placed(c, inv, id)
    ensures SamePlaces(inv, BoughtLeaf(c, inv, id, 1).inventory)
  {
    BoughtLeafGrows(c, inv, id, 1);
    if !Resolves(c, inv, id) {
      var i :| 0 <= i < |inv.sharedItemStacks| && inv.sharedItemStacks[i].itemId == id;
      assert StackIndex(inv.sharedItemStacks, id) <= i;
    }
  }

  /** Buying items that have their place makes no stack and takes none away. */
  lemma {:induction false} LeafAllPlaced(c: Catalog, inv: AccountInventory, ids: seq<u32>)
    requires AllPlaced(c, inv, ids)
    ensures SamePlaces(inv, LeafAll(c, inv, ids).inventory)
  {
    if ids != [] {
      var n := |ids| - 1;
      LeafAllPlaced(c, inv, ids[..n]);
      var before := LeafAll(c, inv, ids[..n]).inventory;
      GrownHasStack(inv.sharedItemStacks, before.sharedItemStacks, ids[n]);
      PlacedStays(c, inv, before, ids[n]);
      BoughtLeafPlaced(c, before, ids[n]);
    }
  }

  lemma GrownHasStack(a: seq<ItemStack>, b: seq<ItemStack>, id: u32)
    requires Grown(a, b)
    ensures HasStack(a, id) ==> HasStack(b, id)
  {
    if HasStack(a, id) {
      var i :| 0 <= i < |a| && a[i].itemId == id;
      assert b[i].itemId == id;
    }
  }

  lemma {:induction false} TimesPlaced(c: Catalog, inv: AccountInventory, ids: seq<u32>, n: nat)
    requires AllPlaced(c, inv, ids)
    ensures AllPlaced(c, inv, Times(ids, n))
  {
    if n > 0 { TimesPlaced(c, inv, ids, n - 1); }
  }

  // ---------------------------------------------------------------- one token

  function Drop(stacks: seq<ItemStack>, i: nat): seq<ItemStack>
    requires i < |stacks|
  {
    stacks[..i] + stacks[i + 1..]
  }

  /** The inventory after the token at a place was taken out and opened. */
  function Opened(c: Catalog, inv: AccountInventory, i: nat): AccountInventory
    requires Acyclic(c) && i < |inv.sharedItemStacks|
  {
    var token := inv.sharedItemStacks[i];
    var rest := inv.(sharedItemStacks := Drop(inv.sharedItemStacks, i));
    BoughtContents(c, rest, token.itemId, Max(token.ownedCount, 1)).inventory
  }

  /** A place that is left when a token is taken out: no leaf lies on the stack of a token. */
  lemma {:induction false} LeavesAreNoPackages(c: Catalog, id: u32)
    requires Acyclic(c)
    ensures forall i :: 0 <= i < |Leaves(c, id)| ==> Contents(c, Leaves(c, id)[i]) == []
    decreases Rank(c)(id), 1
  {
    if Contents(c, id) != [] { LeavesOfAreNoPackages(c, id, |Contents(c, id)|); }
  }

  lemma {:induction false} LeavesOfAreNoPackages(c: Catalog, id: u32, n: nat)
    requires Acyclic(c) && n <= |Contents(c, id)|
    ensures forall i :: 0 <= i < |LeavesOf(c, id, n)| ==> Contents(c, LeavesOf(c, id, n)[i]) == []
    decreases Rank(c)(id), 0, n
  {
    if n > 0 {
      LeavesOfAreNoPackages(c, id, n - 1);
      LeavesAreNoPackages(c, Contents(c, id)[n - 1]);
    }
  }

  lemma PlacedAfterDrop(c: Catalog, inv: AccountInventory, after: AccountInventory, i: nat, id: u32)
    requires Acyclic(c) && i < |inv.sharedItemStacks| && IsToken(c, inv.sharedItemStacks[i])
    requires AllPlaced(c, inv, Leaves(c, id)) && SameIds(inv.characters, after.characters)
    requires Grown(Drop(inv.sharedItemStacks, i), after.sharedItemStacks)
    ensures AllPlaced(c, after, Leaves(c, id))
  {
    var ids, stacks := Leaves(c, id), inv.sharedItemStacks;
    LeavesAreNoPackages(c, id);
    forall n | 0 <= n < |ids| ensures Placed(c, after, ids[n]) {
      if HasStack(stacks, ids[n]) {
        var k :| 0 <= k < |stacks| && stacks[k].itemId == ids[n];
        assert after.sharedItemStacks[if k < i then k else k - 1].itemId == ids[n];
      }
      PlacedStays(c, inv, after, ids[n]);
    }
  }

  /** Opening a token takes away its stack; the others stay in their order and none of them shrinks. */
  lemma OpenedStacks(c: Catalog, inv: AccountInventory, i: nat)
    requires Acyclic(c) && i < |inv.sharedItemStacks| && IsToken(c, inv.sharedItemStacks[i]) && TokensPlaced(c, inv)
    ensures var after := Opened(c, inv, i);
            && Grown(Drop(inv.sharedItemStacks, i), after.sharedItemStacks) && SameIds(inv.characters, after.characters)
            && TokensPlaced(c, after) && Kept(inv, after)
  {
    var token := inv.sharedItemStacks[i];
    var rest := inv.(sharedItemStacks := Drop(inv.sharedItemStacks, i));
    PlacedAfterDrop(c, inv, rest, i, token.itemId);
    ContentsPlaced(c, rest, token.itemId, Max(token.ownedCount, 1));
    StaysPlaced(c, inv, Opened(c, inv, i), i);
  }

  lemma ContentsPlaced(c: Catalog, inv: AccountInventory, id: u32, times: nat)
    requires Acyclic(c) && Contents(c, id) != [] && AllPlaced(c, inv, Leaves(c, id))
    ensures var after := BoughtContents(c, inv, id, times).inventory; SamePlaces(inv, after) && Kept(inv, after)
  {
    ContentsAreLeaves(c, inv, id, times);
    TimesPlaced(c, inv, Leaves(c, id), times);
    LeafAllPlaced(c, inv, Times(Leaves(c, id), times));
    LeafAllKeeps(c, inv, Times(Leaves(c, id), times));
  }

  lemma StaysPlaced(c: Catalog, inv: AccountInventory, after: AccountInventory, i: nat)
    requires Acyclic(c) && i < |inv.sharedItemStacks| && IsToken(c, inv.sharedItemStacks[i]) && TokensPlaced(c, inv)
    requires Grown(Drop(inv.sharedItemStacks, i), after.sharedItemStacks) && SameIds(inv.characters, after.characters)
    ensures TokensPlaced(c, after)
  {
    forall k | 0 <= k < |after.sharedItemStacks| && IsToken(c, after.sharedItemStacks[k])
      ensures AllPlaced(c, after, Leaves(c, after.sharedItemStacks[k].itemId))
    {
      var j := if k < i then k else k + 1;
      assert after.sharedItemStacks[k].itemId == inv.sharedItemStacks[j].itemId;
      PlacedAfterDrop(c, inv, after, i, inv.sharedItemStacks[j].itemId);
    }
  }

  // ---------------------------------------------------------------- all of them

  datatype Expansion = Expansion(inventory: AccountInventory, tokens: seq<u32>)

  /** Opens every token from a place on. */
  function ExpandedFrom(c: Catalog, inv: AccountInventory, i: nat): Expansion
    requires Acyclic(c) && TokensPlaced(c, inv) && i <= |inv.sharedItemStacks|
    decreases |inv.sharedItemStacks| - i
  {
    if i == |inv.sharedItemStacks| then Expansion(inv, [])
    else if !IsToken(c, inv.sharedItemStacks[i]) then ExpandedFrom(c, inv, i + 1)
    else
      OpenedStacks(c, inv, i);
      var rest := ExpandedFrom(c, Opened(c, inv, i), i);
      Expansion(rest.inventory, [inv.sharedItemStacks[i].itemId] + rest.tokens)
  }

  function Expanded(c: Catalog, inv: AccountInventory): Expansion
    requires Acyclic(c) && TokensPlaced(c, inv)
  {
    ExpandedFrom(c, inv, 0)
  }

  ghost predicate NoTokens(c: Catalog, stacks: seq<ItemStack>) {
    forall i :: 0 <= i < |stacks| ==> !IsToken(c, stacks[i])
  }

  function Plain(c: Catalog, stacks: seq<ItemStack>): seq<ItemStack> {
    if stacks == [] then [] else (if IsToken(c, stacks[0]) then [] else [stacks[0]]) + Plain(c, stacks[1..])
  }

  function Tokens(c: Catalog, stacks: seq<ItemStack>): seq<u32> {
    if stacks == [] then [] else (if IsToken(c, stacks[0]) then [stacks[0].itemId] else []) + Tokens(c, stacks[1..])
  }

  /** Whether a stack is a token is a matter of its id. */
  lemma {:induction false} GrownSplits(c: Catalog, a: seq<ItemStack>, b: seq<ItemStack>)
    requires Grown(a, b)
    ensures Tokens(c, a) == Tokens(c, b) && Grown(Plain(c, a), Plain(c, b)) && NoTokens(c, Plain(c, a))
    ensures NoTokens(c, a) ==> NoTokens(c, b) && Tokens(c, b) == []
  {
    if a != [] { GrownSplits(c, a[1..], b[1..]); }
  }

  /** What is left of the stacks from a place on, and what was opened. */
  ghost predicate ExpandsTo(c: Catalog, before: seq<ItemStack>, i: nat, after: seq<ItemStack>, tokens: seq<u32>)
    requires i <= |before|
  {
    Grown(before[..i] + Plain(c, before[i..]), after) && tokens == Tokens(c, before[i..])
  }

  lemma ExpandsFirst(c: Catalog, before: seq<ItemStack>, i: nat, later: seq<ItemStack>, after: seq<ItemStack>,
                     tokens: seq<u32>)
    requires i < |before| && IsToken(c, before[i]) && Grown(Drop(before, i), later)
    requires ExpandsTo(c, later, i, after, tokens)
    ensures ExpandsTo(c, before, i, after, [before[i].itemId] + tokens)
  {
    var rest := before[i + 1..];
    assert before[i..][1..] == rest && [] + Plain(c, rest) == Plain(c, rest);
    GrownAround(before, i, later);
    GrownSplits(c, rest, later[i..]);
    GrownTogether(before[..i], later[..i], Plain(c, rest), Plain(c, later[i..]), after);
  }

  lemma GrownAround(before: seq<ItemStack>, i: nat, later: seq<ItemStack>)
    requires i < |before| && Grown(Drop(before, i), later)
    ensures Grown(before[..i], later[..i]) && Grown(before[i + 1..], later[i..])
  {
    var rest := before[i + 1..];
    forall k | 0 <= k < |rest| ensures rest[k] == Drop(before, i)[i + k] && later[i..][k] == later[i + k] {}
    forall k | 0 <= k < i ensures before[..i][k] == Drop(before, i)[k] {}
  }

  lemma GrownTogether(a: seq<ItemStack>, b: seq<ItemStack>, a1: seq<ItemStack>, b1: seq<ItemStack>,
                      after: seq<ItemStack>)
    requires Grown(a, b) && Grown(a1, b1) && Grown(b + b1, after)
    ensures Grown(a + a1, after)
  {
    forall k | 0 <= k < |a + a1|
      ensures after[k].itemId == (a + a1)[k].itemId && after[k].ownedCount >= (a + a1)[k].ownedCount
    {
      assert (b + b1)[k] == if k < |b| then b[k] else b1[k - |b|];
    }
  }

  lemma ExpandsNext(c: Catalog, before: seq<ItemStack>, i: nat, after: seq<ItemStack>, tokens: seq<u32>)
    requires i < |before| && !IsToken(c, before[i]) && ExpandsTo(c, before, i + 1, after, tokens)
    ensures ExpandsTo(c, before, i, after, tokens)
  {
    assert before[i..][1..] == before[i + 1..] && before[..i + 1] == before[..i] + [before[i]];
    Regroup(before[..i], [before[i]], Plain(c, before[i + 1..]));
    assert [] + Tokens(c, before[i + 1..]) == Tokens(c, before[i + 1..]);
  }

  /** From a place on, exactly the tokens are opened, in order, and exactly the other stacks stay. */
  lemma {:induction false} ExpandedFromIs(c: Catalog, inv: AccountInventory, i: nat)
    requires Acyclic(c) && TokensPlaced(c, inv) && i <= |inv.sharedItemStacks|
    ensures var r := ExpandedFrom(c, inv, i);
            && ExpandsTo(c, inv.sharedItemStacks, i, r.inventory.sharedItemStacks, r.tokens)
            && Kept(inv, r.inventory) && (r.tokens == [] ==> r.inventory == inv) && TokensPlaced(c, r.inventory)
    decreases |inv.sharedItemStacks| - i
  {
    var stacks, r := inv.sharedItemStacks, ExpandedFrom(c, inv, i);
    if i == |stacks| {
      assert stacks[..i] + [] == stacks;
    } else if !IsToken(c, stacks[i]) {
      ExpandedFromIs(c, inv, i + 1);
      ExpandsNext(c, stacks, i, r.inventory.sharedItemStacks, r.tokens);
    } else {
      var later := Opened(c, inv, i);
      OpenedStacks(c, inv, i);
      ExpandedFromIs(c, later, i);
      ExpandsFirst(c, stacks, i, later.sharedItemStacks, r.inventory.sharedItemStacks,
          ExpandedFrom(c, later, i).tokens);
    }
  }

  /** After the expansion no token is left, the other stacks are there in their order and none of them is smaller,
      and expanding again does nothing. */
  lemma ExpandedIsDone(c: Catalog, inv: AccountInventory)
    requires Acyclic(c) && TokensPlaced(c, inv)
    ensures var r := Expanded(c, inv);
            && Grown(Plain(c, inv.sharedItemStacks), r.inventory.sharedItemStacks)
            && NoTokens(c, r.inventory.sharedItemStacks)
            && r.tokens == Tokens(c, inv.sharedItemStacks) && Kept(inv, r.inventory)
            && TokensPlaced(c, r.inventory) && Expanded(c, r.inventory) == Expansion(r.inventory, [])
  {
    var stacks, r := inv.sharedItemStacks, Expanded(c, inv).inventory;
    ExpandedFromIs(c, inv, 0);
    assert stacks[0..] == stacks && stacks[..0] + Plain(c, stacks) == Plain(c, stacks);
    GrownSplits(c, stacks, stacks);
    GrownSplits(c, Plain(c, stacks), r.sharedItemStacks);
    ExpandedFromIs(c, r, 0);
    assert r.sharedItemStacks[0..] == r.sharedItemStacks;
  }
}
