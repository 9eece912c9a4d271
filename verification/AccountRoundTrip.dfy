/** Saving accounts and loading the file gives the same accounts. */
module AccountRoundTrip {
  import opened Bytes
  import opened Json
  import opened JsonText
  import opened AccountRecords
  import opened AccountKeys
  import opened AccountText

  /** The fixed names of the members are printed as they are. */
  lemma NamesArePrinted(kind: RecordKind)
    ensures forall key <- KeysOf(kind) :: Escaped(key) == key
  {
    KeysAreNames(kind);
    forall key | key in KeysOf(kind) ensures Escaped(key) == key {
      forall i | 0 <= i < |key| ensures IsNameChar(key[i]) { assert key[i] in key; }
      PlainTextIsKept(key);
    }
  }

  // ---------------------------------------------------------------- looking a member up

  function FieldsOf(members: seq<Member>): JsonObject { Fields(members, map[]) }

  predicate Holds(o: JsonObject, key: string, doc: Doc) { key in o && o[key] == Value(doc) }

  /** No earlier member has the same key. */
  predicate FirstOfKey(members: seq<Member>, i: nat)
    requires i < |members|
  {
    forall j :: 0 <= j < i ==> members[j].key != members[i].key
  }

  lemma {:induction false} FieldsKeep(members: seq<Member>, before: JsonObject, key: string)
    requires key in before
    ensures key in Fields(members, before) && Fields(members, before)[key] == before[key]
    decreases members
  {
    if members != [] {
      FieldsKeep(members[1..], Emplaced(before, members[0].key, Value(members[0].doc)), key);
    }
  }

  lemma {:induction false} FoundAfter(members: seq<Member>, before: JsonObject, i: nat)
    requires i < |members| && FirstOfKey(members, i) && members[i].key !in before
    ensures Holds(Fields(members, before), members[i].key, members[i].doc)
    decreases members
  {
    var grown := Emplaced(before, members[0].key, Value(members[0].doc));
    if i == 0 {
      FieldsKeep(members[1..], grown, members[0].key);
    } else {
      assert forall j :: 0 <= j < i - 1 ==> members[1..][j] == members[j + 1];
      FoundAfter(members[1..], grown, i - 1);
    }
  }

  lemma Look(keys: seq<string>, members: seq<Member>, i: nat)
    requires Distinct(keys) && |members| == |keys| && i < |keys|
    requires forall j :: 0 <= j < |keys| ==> members[j].key == keys[j]
    ensures Holds(FieldsOf(members), keys[i], members[i].doc)
  {
    FoundAfter(members, map[], i);
  }

  /** Every member of a record is found under its own name. */
  lemma Looks(kind: RecordKind, members: seq<Member>)
    requires |members| == |KeysOf(kind)| && forall j :: 0 <= j < |members| ==> members[j].key == KeysOf(kind)[j]
    ensures forall i :: 0 <= i < |members| ==> Holds(FieldsOf(members), members[i].key, members[i].doc)
  {
    KeysDiffer(kind);
    forall i | 0 <= i < |members| ensures Holds(FieldsOf(members), members[i].key, members[i].doc) {
      Look(KeysOf(kind), members, i);
    }
  }

  // ---------------------------------------------------------------- lists

  lemma {:induction false} ValuesAre(items: seq<Doc>)
    ensures forall i :: 0 <= i < |items| ==> Values(items)[i] == Value(items[i])
    decreases items
  {
    if items != [] {
      ValuesAre(items[1..]);
      forall i | 0 <= i < |items| ensures Values(items)[i] == Value(items[i]) {
        if i > 0 { assert items[1..][i - 1] == items[i]; }
      }
    }
  }

  lemma {:induction false} ReadIdsOf(items: seq<Json>, ids: seq<u32>)
    requires |items| == |ids| && forall i :: 0 <= i < |ids| ==> items[i] == Int(ids[i])
    ensures ReadIds(items) == Got(ids)
  {
    if ids != [] {
      ReadIdsOf(items[..|ids| - 1], ids[..|ids| - 1]);
      assert ids[..|ids| - 1] + [ids[|ids| - 1]] == ids;
    }
  }

  lemma IdsReadBack(ids: seq<u32>, o: JsonObject, key: string)
    requires Holds(o, key, IdsDoc(ids))
    ensures GetIds(o, key) == Got(ids)
  {
    var items := IdsDoc(ids).items;
    ValuesAre(items);
    assert forall i :: 0 <= i < |ids| ==> Value(items[i]) == Int(ids[i]);
    ReadIdsOf(o[key].items, ids);
  }

  ghost predicate ReadsAs<T>(x: T, y: T, members: T -> seq<Member>, read: JsonObject -> Read<T>) {
    read(FieldsOf(members(x))) == Got(y)
  }

  lemma {:induction false} ReadRecordsOf<T>(items: seq<Json>, xs: seq<T>, ys: seq<T>, members: T -> seq<Member>,
                                            read: JsonObject -> Read<T>)
    requires |items| == |xs| == |ys| && forall i :: 0 <= i < |xs| ==> items[i] == Obj(FieldsOf(members(xs[i])))
    requires forall i :: 0 <= i < |xs| ==> ReadsAs(xs[i], ys[i], members, read)
    ensures ReadRecords(items, read) == Got(ys)
  {
    if xs != [] {
      var n := |xs| - 1;
      ReadRecordsOf(items[..n], xs[..n], ys[..n], members, read);
      assert ReadsAs(xs[n], ys[n], members, read);
      assert ys[..n] + [ys[n]] == ys;
    }
  }

  lemma RecordsReadAs<T>(xs: seq<T>, ys: seq<T>, members: T -> seq<Member>, read: JsonObject -> Read<T>, o: JsonObject,
                         key: string)
    requires Holds(o, key, RecordsDoc(xs, members)) && |xs| == |ys|
    requires forall i :: 0 <= i < |xs| ==> ReadsAs(xs[i], ys[i], members, read)
    ensures GetRecords(o, key, read) == Got(ys)
  {
    var items := RecordsDoc(xs, members).items;
    ValuesAre(items);
    assert forall i :: 0 <= i < |xs| ==> Value(items[i]) == Obj(FieldsOf(members(xs[i])));
    ReadRecordsOf(o[key].items, xs, ys, members, read);
  }

  // ---------------------------------------------------------------- flat records

  lemma AccountInfoFound(x: AccountInfo)
    ensures var o := FieldsOf(AccountInfoMembers(x));
            && Holds(o, "exp_current", Number(x.expCurrent)) && Holds(o, "field_04_unknown", Number(x.field04))
            && Holds(o, "level_raw", Number(x.levelRaw)) && Holds(o, "field_09_unknown", Number(x.field09))
            && Holds(o, "luna", Number(x.luna)) && Holds(o, "cash", Number(x.cash))
            && Holds(o, "event_cash", Number(x.eventCash))
            && Holds(o, "total_kill_count", Number(x.totalKillCount))
            && Holds(o, "profile_flags", Number(x.profileFlags))
            && Holds(o, "indicator_max_or_limit", Number(x.indicatorMaxOrLimit))
            && Holds(o, "field_25_unknown", Number(x.field25))
            && Holds(o, "deploy_slot_0_id", Number(x.deploySlot0Id))
            && Holds(o, "deploy_slot_1_id", Number(x.deploySlot1Id))
            && Holds(o, "deploy_slot_2_id", Number(x.deploySlot2Id))
            && Holds(o, "deploy_slot_3_id", Number(x.deploySlot3Id)) && Holds(o, "bp", Number(x.bp))
            && Holds(o, "clan_contribution", Number(x.clanContribution))
            && Holds(o, "string0_display_label", Text(x.displayLabel)) && Holds(o, "clan_name", Text(x.clanName))
  {
    AccountInfoKeysDiffer();
    var keys, m := ACCOUNT_INFO_KEYS, AccountInfoMembers(x);
    Look(keys, m, 0); Look(keys, m, 1); Look(keys, m, 2); Look(keys, m, 3); Look(keys, m, 4); Look(keys, m, 5);
    Look(keys, m, 6); Look(keys, m, 7); Look(keys, m, 8); Look(keys, m, 9); Look(keys, m, 10); Look(keys, m, 11);
    Look(keys, m, 12); Look(keys, m, 13); Look(keys, m, 14); Look(keys, m, 15); Look(keys, m, 16);
    Look(keys, m, 17); Look(keys, m, 18);
  }

  lemma AccountInfoReadsBack(x: AccountInfo)
    ensures ReadAccountInfo(FieldsOf(AccountInfoMembers(x))) == Got(x)
  {
    AccountInfoFound(x);
  }

  lemma CharacterEntryFound(x: CharacterEntry)
    ensures var o := FieldsOf(CharacterEntryMembers(x));
            && Holds(o, "character_id", Number(x.characterId))
            && Holds(o, "equipped_weapon_item_id", Number(x.equippedWeaponItemId))
            && Holds(o, "room_config_slot_1", Number(x.roomConfigSlot1))
            && Holds(o, "room_config_slot_2", Number(x.roomConfigSlot2))
            && Holds(o, "clothes_item_id", Number(x.clothesItemId))
            && Holds(o, "accessory_1_item_id", Number(x.accessory1ItemId))
            && Holds(o, "accessory_2_item_id", Number(x.accessory2ItemId))
            && Holds(o, "accessory_3_item_id", Number(x.accessory3ItemId))
  {
    KeysDiffer(CharacterEntryRecord);
    var keys, m := CHARACTER_ENTRY_KEYS, CharacterEntryMembers(x);
    Look(keys, m, 0); Look(keys, m, 1); Look(keys, m, 2); Look(keys, m, 3); Look(keys, m, 4); Look(keys, m, 5);
    Look(keys, m, 6); Look(keys, m, 7);
  }

  lemma CharacterEntryReadsBack(x: CharacterEntry)
    ensures ReadCharacterEntry(FieldsOf(CharacterEntryMembers(x))) == Got(x)
  {
    CharacterEntryFound(x);
  }

  lemma ItemEntryFound(x: ItemEntry)
    ensures var o := FieldsOf(ItemEntryMembers(x));
            && Holds(o, "field_00", Number(x.field00)) && Holds(o, "field_04", Number(x.field04))
            && Holds(o, "field_08", Number(x.field08)) && Holds(o, "field_0c", Number(x.field0c))
            && Holds(o, "field_10", Number(x.field10)) && Holds(o, "field_14", Number(x.field14))
            && Holds(o, "field_18", Number(x.field18)) && Holds(o, "field_1c", Number(x.field1c))
            && Holds(o, "field_20", Number(x.field20)) && Holds(o, "field_24", Number(x.field24))
            && Holds(o, "field_28", Number(x.field28)) && Holds(o, "field_2a", Number(x.field2a))
            && Holds(o, "field_2e", Number(x.field2e)) && Holds(o, "field_32", Number(x.field32))
  {
    KeysDiffer(ItemEntryRecord);
    var keys, m := ITEM_ENTRY_KEYS, ItemEntryMembers(x);
    Look(keys, m, 0); Look(keys, m, 1); Look(keys, m, 2); Look(keys, m, 3); Look(keys, m, 4); Look(keys, m, 5);
    Look(keys, m, 6); Look(keys, m, 7); Look(keys, m, 8); Look(keys, m, 9); Look(keys, m, 10); Look(keys, m, 11);
    Look(keys, m, 12); Look(keys, m, 13);
  }

  lemma ItemEntryReadsBack(x: ItemEntry)
    ensures ReadItemEntry(FieldsOf(ItemEntryMembers(x))) == Got(x)
  {
    ItemEntryFound(x);
  }

  lemma QuickSlotReadsBack(x: QuickSlot)
    ensures ReadQuickSlot(FieldsOf(QuickSlotMembers(x))) == Got(x)
  {
    var m := QuickSlotMembers(x);
    Looks(QuickSlotRecord, m);
    assert m[0] == Member("entry_key", Number(x.entryKey)) && m[1] == Member("slot_index", Number(x.slotIndex)) &&
           m[2] == Member("quickslot_entry_id", Number(x.quickslotEntryId)) &&
           m[3] == Member("slot_state", Number(x.slotState)) &&
           m[4] == Member("display_lookup_key", Number(x.displayLookupKey)) &&
           m[5] == Member("duration_minutes", Number(x.durationMinutes));
  }

  lemma SkillEntryReadsBack(x: SkillEntry)
    ensures ReadSkillEntry(FieldsOf(SkillEntryMembers(x))) == Got(x)
  {
    var m := SkillEntryMembers(x);
    Looks(SkillEntryRecord, m);
    assert m[0] == Member("field_00", Number(x.field00)) && m[1] == Member("field_04", Number(x.field04)) &&
           m[2] == Member("skill_item_id", Number(x.skillItemId)) &&
           m[3] == Member("duration_minutes", Number(x.durationMinutes)) &&
           m[4] == Member("update_existing_flag", Number(x.updateExistingFlag));
  }

  lemma GuardReadsBack(x: Guard)
    ensures ReadGuard(FieldsOf(GuardMembers(x))) == Got(x)
  {
    var m := GuardMembers(x);
    Looks(GuardRecord, m);
    assert m[0] == Member("guard_instance_id", Number(x.guardInstanceId)) &&
           m[1] == Member("guard_nickname", Text(x.guardNickname)) &&
           m[2] == Member("guard_kind_id", Number(x.guardKindId)) &&
           m[3] == Member("selectable_flag", Number(x.selectableFlag)) &&
           m[4] == Member("equipped_item_slot_0_id", Number(x.equippedItemSlot0Id)) &&
           m[5] == Member("equipped_item_slot_1_id", Number(x.equippedItemSlot1Id));
  }

  lemma ItemStackReadsBack(x: ItemStack)
    ensures ReadItemStack(FieldsOf(ItemStackMembers(x))) == Got(x)
  {
    var m := ItemStackMembers(x);
    Looks(ItemStackRecord, m);
    assert m[0] == Member("item_id", Number(x.itemId)) && m[1] == Member("owned_count", Number(x.ownedCount));
  }

  lemma OwnedSkillReadsBack(x: OwnedSkill)
    ensures ReadOwnedSkill(FieldsOf(OwnedSkillMembers(x))) == Got(x)
  {
    var m := OwnedSkillMembers(x);
    Looks(OwnedSkillRecord, m);
    assert m[0] == Member("skill_item_id", Number(x.skillItemId)) &&
           m[1] == Member("duration_minutes", Number(x.durationMinutes));
  }

  lemma CharacterInventoryFound(x: CharacterInventory)
    ensures var o := FieldsOf(CharacterInventoryMembers(x));
            && Holds(o, "character_id", Number(x.characterId))
            && Holds(o, "equipped_weapon_item_id", Number(x.equippedWeaponItemId))
            && Holds(o, "clothes_item_id", Number(x.clothesItemId))
            && Holds(o, "accessory_1_item_id", Number(x.accessory1ItemId))
            && Holds(o, "accessory_2_item_id", Number(x.accessory2ItemId))
            && Holds(o, "accessory_3_item_id", Number(x.accessory3ItemId))
            && Holds(o, "owned_weapon_item_ids", IdsDoc(x.ownedWeaponItemIds))
            && Holds(o, "owned_clothes_item_ids", IdsDoc(x.ownedClothesItemIds))
            && Holds(o, "owned_accessory_1_item_ids", IdsDoc(x.ownedAccessory1ItemIds))
            && Holds(o, "owned_accessory_2_item_ids", IdsDoc(x.ownedAccessory2ItemIds))
            && Holds(o, "owned_accessory_3_item_ids", IdsDoc(x.ownedAccessory3ItemIds))
  {
    KeysDiffer(CharacterInventoryRecord);
    var keys, m := CHARACTER_INVENTORY_KEYS, CharacterInventoryMembers(x);
    Look(keys, m, 0); Look(keys, m, 1); Look(keys, m, 2); Look(keys, m, 3); Look(keys, m, 4); Look(keys, m, 5);
    Look(keys, m, 6); Look(keys, m, 7); Look(keys, m, 8); Look(keys, m, 9); Look(keys, m, 10);
  }

  lemma CharacterInventoryReadsBack(x: CharacterInventory)
    ensures ReadCharacterInventory(FieldsOf(CharacterInventoryMembers(x))) == Got(x)
  {
    CharacterInventoryFound(x);
    var o := FieldsOf(CharacterInventoryMembers(x));
    IdsReadBack(x.ownedWeaponItemIds, o, "owned_weapon_item_ids");
    IdsReadBack(x.ownedClothesItemIds, o, "owned_clothes_item_ids");
    IdsReadBack(x.ownedAccessory1ItemIds, o, "owned_accessory_1_item_ids");
    IdsReadBack(x.ownedAccessory2ItemIds, o, "owned_accessory_2_item_ids");
    IdsReadBack(x.ownedAccessory3ItemIds, o, "owned_accessory_3_item_ids");
  }

  lemma InventoryReadsBack(x: AccountInventory)
    ensures ReadInventory(FieldsOf(InventoryMembers(x))) == Got(x)
  {
    var o := FieldsOf(InventoryMembers(x));
    var m := InventoryMembers(x);
    Looks(InventoryRecord, m);
    assert m[0] == Member("shared_item_stacks", RecordsDoc(x.sharedItemStacks, ItemStackMembers)) &&
           m[1] == Member("owned_skills", RecordsDoc(x.ownedSkills, OwnedSkillMembers)) &&
           m[2] == Member("characters", RecordsDoc(x.characters, CharacterInventoryMembers));
    forall s: ItemStack ensures ReadsAs(s, s, ItemStackMembers, ReadItemStack) { ItemStackReadsBack(s); }
    forall s: OwnedSkill ensures ReadsAs(s, s, OwnedSkillMembers, ReadOwnedSkill) { OwnedSkillReadsBack(s); }
    forall c: CharacterInventory ensures ReadsAs(c, c, CharacterInventoryMembers, ReadCharacterInventory) {
      CharacterInventoryReadsBack(c);
    }
    RecordsReadAs(x.sharedItemStacks, x.sharedItemStacks, ItemStackMembers, ReadItemStack, o, "shared_item_stacks");
    RecordsReadAs(x.ownedSkills, x.ownedSkills, OwnedSkillMembers, ReadOwnedSkill, o, "owned_skills");
    RecordsReadAs(x.characters, x.characters, CharacterInventoryMembers, ReadCharacterInventory, o, "characters");
  }

  // ---------------------------------------------------------------- optional members

  predicate HoldsEntry(o: JsonObject, e: Entry) {
    if e.doc == None then e.key !in o else Holds(o, e.key, e.doc.value)
  }

  lemma {:induction false} AbsentKey(entries: seq<Entry>, before: JsonObject, key: string)
    requires key !in before && forall i :: 0 <= i < |entries| ==> entries[i].key != key
    ensures key !in Fields(Present(entries), before)
    decreases entries
  {
    if entries != [] {
      PresentStep(entries, before);
      AbsentKey(entries[1..], AfterEntry(entries[0], before), key);
    }
  }

  function AfterEntry(e: Entry, before: JsonObject): JsonObject {
    if e.doc == None then before else Emplaced(before, e.key, Value(e.doc.value))
  }

  lemma PresentStep(entries: seq<Entry>, before: JsonObject)
    requires entries != []
    ensures Fields(Present(entries), before) == Fields(Present(entries[1..]), AfterEntry(entries[0], before))
  {
    var rest := Present(entries[1..]);
    if entries[0].doc == None {
      assert [] + rest == rest;
    } else {
      var m := Member(entries[0].key, entries[0].doc.value);
      assert ([m] + rest)[1..] == rest;
    }
  }

  /** An entry is in the parsed object exactly when it has a value. */
  lemma {:induction false} EntryFound(entries: seq<Entry>, before: JsonObject, i: nat)
    requires i < |entries| && entries[i].key !in before
    requires forall j :: 0 <= j < |entries| && j != i ==> entries[j].key != entries[i].key
    ensures HoldsEntry(Fields(Present(entries), before), entries[i])
    decreases entries
  {
    var rest, after := entries[1..], AfterEntry(entries[0], before);
    PresentStep(entries, before);
    if i > 0 {
      EntryFound(rest, after, i - 1);
    } else if entries[0].doc == None {
      AbsentKey(rest, before, entries[0].key);
    } else {
      FieldsKeep(Present(rest), after, entries[0].key);
    }
  }

  lemma OptionalRecordsReadBack<T>(list: Option<seq<T>>, members: T -> seq<Member>, read: JsonObject -> Read<T>,
                                   o: JsonObject, key: string)
    requires HoldsEntry(o, ListEntry(key, list, members))
    requires forall x: T :: ReadsAs(x, x, members, read)
    ensures GetOptionalRecords(o, key, read) == Got(list)
  {
    if list.Some? {
      RecordsReadAs(list.value, list.value, members, read, o, key);
    }
  }

  lemma OptionalRecordReadsBack<T>(x: Option<T>, members: T -> seq<Member>, read: JsonObject -> Read<T>,
                                   o: JsonObject, key: string)
    requires HoldsEntry(o, Entry(key, if x == None then None else Some(Record(members(x.value)))))
    requires x.Some? ==> ReadsAs(x.value, x.value, members, read)
    ensures GetOptionalRecord(o, key, read) == Got(x)
  {
  }

  // ---------------------------------------------------------------- profiles, accounts and the whole database

  lemma LookEntry(keys: seq<string>, entries: seq<Entry>, i: nat)
    requires Distinct(keys) && |entries| == |keys| && i < |keys|
    requires forall j :: 0 <= j < |keys| ==> entries[j].key == keys[j]
    ensures HoldsEntry(FieldsOf(Present(entries)), entries[i])
  {
    assert forall j :: 0 <= j < |keys| && j != i ==> keys[j] != keys[i];
    EntryFound(entries, map[], i);
  }

  lemma ProfileFound(p: Profile)
    ensures var o, e := FieldsOf(Present(ProfileEntries(p))), ProfileEntries(p);
            && HoldsEntry(o, e[0]) && HoldsEntry(o, e[1]) && HoldsEntry(o, e[2]) && HoldsEntry(o, e[3])
            && HoldsEntry(o, e[4]) && HoldsEntry(o, e[5]) && HoldsEntry(o, e[6])
  {
    KeysDiffer(ProfileRecord);
    var keys, e := PROFILE_KEYS, ProfileEntries(p);
    LookEntry(keys, e, 0); LookEntry(keys, e, 1); LookEntry(keys, e, 2); LookEntry(keys, e, 3); LookEntry(keys, e, 4);
    LookEntry(keys, e, 5); LookEntry(keys, e, 6);
  }

  lemma PartsReadBack()
    ensures forall x: AccountInfo :: ReadsAs(x, x, AccountInfoMembers, ReadAccountInfo)
    ensures forall x: AccountInventory :: ReadsAs(x, x, InventoryMembers, ReadInventory)
    ensures forall x: CharacterEntry :: ReadsAs(x, x, CharacterEntryMembers, ReadCharacterEntry)
    ensures forall x: ItemEntry :: ReadsAs(x, x, ItemEntryMembers, ReadItemEntry)
    ensures forall x: QuickSlot :: ReadsAs(x, x, QuickSlotMembers, ReadQuickSlot)
    ensures forall x: SkillEntry :: ReadsAs(x, x, SkillEntryMembers, ReadSkillEntry)
    ensures forall x: Guard :: ReadsAs(x, x, GuardMembers, ReadGuard)
  {
    forall x: AccountInfo ensures ReadsAs(x, x, AccountInfoMembers, ReadAccountInfo) { AccountInfoReadsBack(x); }
    forall x: AccountInventory ensures ReadsAs(x, x, InventoryMembers, ReadInventory) { InventoryReadsBack(x); }
    forall x: CharacterEntry ensures ReadsAs(x, x, CharacterEntryMembers, ReadCharacterEntry) {
      CharacterEntryReadsBack(x);
    }
    forall x: ItemEntry ensures ReadsAs(x, x, ItemEntryMembers, ReadItemEntry) { ItemEntryReadsBack(x); }
    forall x: QuickSlot ensures ReadsAs(x, x, QuickSlotMembers, ReadQuickSlot) { QuickSlotReadsBack(x); }
    forall x: SkillEntry ensures ReadsAs(x, x, SkillEntryMembers, ReadSkillEntry) { SkillEntryReadsBack(x); }
    forall x: Guard ensures ReadsAs(x, x, GuardMembers, ReadGuard) { GuardReadsBack(x); }
  }

  lemma ProfileReadsBack(p: Profile)
    ensures ReadProfile(FieldsOf(Present(ProfileEntries(p)))) == Got(p)
  {
    var o := FieldsOf(Present(ProfileEntries(p)));
    ProfileFound(p);
    PartsReadBack();
    OptionalRecordReadsBack(p.accountInfo, AccountInfoMembers, ReadAccountInfo, o, "packet_70");
    OptionalRecordsReadBack(p.characterList, CharacterEntryMembers, ReadCharacterEntry, o, "packet_6b_entries");
    OptionalRecordsReadBack(p.itemList, ItemEntryMembers, ReadItemEntry, o, "packet_3f_entries");
    OptionalRecordsReadBack(p.quickslotList, QuickSlotMembers, ReadQuickSlot, o, "packet_44_entries");
    OptionalRecordsReadBack(p.skillList, SkillEntryMembers, ReadSkillEntry, o, "packet_73_entries");
    OptionalRecordsReadBack(p.guardList, GuardMembers, ReadGuard, o, "packet_6e_entries");
    OptionalRecordReadsBack(p.inventory, InventoryMembers, ReadInventory, o, "inventory");
  }

  /** What a stored nickname is loaded as: without surrounding white space, and absent when nothing is left. */
  function LoadedName(name: Option<string>): Option<string> {
    if name == None || Trim(name.value) == "" then None else Some(Trim(name.value))
  }

  function Normalized(a: Account): Account { a.(nickname := LoadedName(a.nickname)) }

  lemma AccountFound(a: Account)
    ensures var o, e := FieldsOf(AccountMembers(a)), AccountEntries(a);
            && HoldsEntry(o, e[0]) && HoldsEntry(o, e[1]) && HoldsEntry(o, e[2]) && HoldsEntry(o, e[3])
  {
    KeysDiffer(AccountRecord);
    var keys, e := ACCOUNT_KEYS, AccountEntries(a);
    LookEntry(keys, e, 0); LookEntry(keys, e, 1); LookEntry(keys, e, 2); LookEntry(keys, e, 3);
  }

  lemma NicknameReadsBack(a: Account, o: JsonObject)
    requires HoldsEntry(o, AccountEntries(a)[2])
    ensures ReadNickname(o) == Got(LoadedName(a.nickname))
  {
    assert Trim("") == "";
  }

  lemma AccountReadsBack(a: Account)
    ensures ReadAccount(FieldsOf(AccountMembers(a))) == Got(Normalized(a))
  {
    AccountFound(a);
    ProfileReadsBack(a.profile);
    NicknameReadsBack(a, FieldsOf(AccountMembers(a)));
  }

  function NormalizedAll(accounts: seq<Account>): (r: seq<Account>)
    ensures |r| == |accounts|
  {
    seq(|accounts|, i requires 0 <= i < |accounts| => Normalized(accounts[i]))
  }

  /** Saving any accounts and loading the file gives them back with normalized nicknames. */
  lemma LoadedAfterStored(accounts: seq<Account>)
    ensures Loaded(Stored(accounts)) == Got(NormalizedAll(accounts))
  {
    var m := DatabaseDoc(accounts).members;
    DocumentReadsBack(DatabaseDoc(accounts));
    FoundAfter(m, map[], 0);
    forall i | 0 <= i < |accounts|
      ensures ReadsAs(accounts[i], NormalizedAll(accounts)[i], AccountMembers, ReadAccount)
    {
      AccountReadsBack(accounts[i]);
    }
    RecordsReadAs(accounts, NormalizedAll(accounts), AccountMembers, ReadAccount, FieldsOf(m), "accounts");
  }

  /** A nickname the file can hold: absent, or not empty and without white space around it. */
  predicate Storable(a: Account) {
    a.nickname == None || (a.nickname.value != "" && Trim(a.nickname.value) == a.nickname.value)
  }

  /** Loading what was saved gives the same accounts exactly when every nickname is storable. */
  lemma RoundTripExactlyWhen(accounts: seq<Account>)
    ensures Loaded(Stored(accounts)) == Got(accounts) <==> forall i :: 0 <= i < |accounts| ==> Storable(accounts[i])
  {
    LoadedAfterStored(accounts);
    var n := NormalizedAll(accounts);
    assert forall i :: 0 <= i < |accounts| ==> (Storable(accounts[i]) <==> n[i] == accounts[i]);
    if forall i :: 0 <= i < |accounts| ==> Storable(accounts[i]) {
      assert n == accounts;
    }
  }
}
