/** How accounts are laid out as JSON, and how parsed JSON is read as accounts. */
module AccountText {
  import opened Bytes
  import opened Json
  import opened JsonText
  import opened AccountRecords
  import opened AccountKeys

  type JsonObject = map<string, Json>

  // ---------------------------------------------------------------- layout

  function IdsDoc(ids: seq<u32>): Doc { List(seq(|ids|, i requires 0 <= i < |ids| => Number(ids[i]))) }

  function RecordsDoc<T>(xs: seq<T>, members: T -> seq<Member>): Doc {
    List(seq(|xs|, i requires 0 <= i < |xs| => Record(members(xs[i]))))
  }

  function Zip(keys: seq<string>, docs: seq<Doc>): (r: seq<Member>)
    requires |keys| == |docs|
    ensures |r| == |keys| && forall i :: 0 <= i < |keys| ==> r[i] == Member(keys[i], docs[i])
  {
    seq(|keys|, i requires 0 <= i < |keys| => Member(keys[i], docs[i]))
  }

  function AccountInfoMembers(x: AccountInfo): seq<Member> {
    Zip(ACCOUNT_INFO_KEYS,
        [Number(x.expCurrent), Number(x.field04), Number(x.levelRaw), Number(x.field09),
         Number(x.luna), Number(x.cash), Number(x.eventCash), Number(x.totalKillCount), Number(x.profileFlags),
         Number(x.indicatorMaxOrLimit), Number(x.field25), Number(x.deploySlot0Id), Number(x.deploySlot1Id),
         Number(x.deploySlot2Id), Number(x.deploySlot3Id), Number(x.bp), Number(x.clanContribution),
         Text(x.displayLabel), Text(x.clanName)])
  }

  function CharacterEntryMembers(x: CharacterEntry): seq<Member> {
    Zip(CHARACTER_ENTRY_KEYS,
        [Number(x.characterId), Number(x.equippedWeaponItemId),
         Number(x.roomConfigSlot1), Number(x.roomConfigSlot2), Number(x.clothesItemId), Number(x.accessory1ItemId),
         Number(x.accessory2ItemId), Number(x.accessory3ItemId)])
  }

  function ItemEntryMembers(x: ItemEntry): seq<Member> {
    Zip(ITEM_ENTRY_KEYS,
        [Number(x.field00), Number(x.field04), Number(x.field08), Number(x.field0c),
         Number(x.field10), Number(x.field14), Number(x.field18), Number(x.field1c), Number(x.field20),
         Number(x.field24), Number(x.field28), Number(x.field2a), Number(x.field2e), Number(x.field32)])
  }

  function QuickSlotMembers(x: QuickSlot): seq<Member> {
    Zip(QUICK_SLOT_KEYS,
        [Number(x.entryKey), Number(x.slotIndex), Number(x.quickslotEntryId),
         Number(x.slotState), Number(x.displayLookupKey), Number(x.durationMinutes)])
  }

  function SkillEntryMembers(x: SkillEntry): seq<Member> {
    Zip(SKILL_ENTRY_KEYS,
        [Number(x.field00), Number(x.field04), Number(x.skillItemId),
         Number(x.durationMinutes), Number(x.updateExistingFlag)])
  }

  function GuardMembers(x: Guard): seq<Member> {
    Zip(GUARD_KEYS,
        [Number(x.guardInstanceId), Text(x.guardNickname), Number(x.guardKindId),
         Number(x.selectableFlag), Number(x.equippedItemSlot0Id), Number(x.equippedItemSlot1Id)])
  }

  function ItemStackMembers(x: ItemStack): seq<Member> {
    Zip(ITEM_STACK_KEYS,
        [Number(x.itemId), Number(x.ownedCount)])
  }

  function OwnedSkillMembers(x: OwnedSkill): seq<Member> {
    Zip(OWNED_SKILL_KEYS,
        [Number(x.skillItemId), Number(x.durationMinutes)])
  }

  function CharacterInventoryMembers(x: CharacterInventory): seq<Member> {
    Zip(CHARACTER_INVENTORY_KEYS,
        [Number(x.characterId), Number(x.equippedWeaponItemId),
         Number(x.clothesItemId), Number(x.accessory1ItemId), Number(x.accessory2ItemId),
         Number(x.accessory3ItemId), IdsDoc(x.ownedWeaponItemIds), IdsDoc(x.ownedClothesItemIds),
         IdsDoc(x.ownedAccessory1ItemIds), IdsDoc(x.ownedAccessory2ItemIds), IdsDoc(x.ownedAccessory3ItemIds)])
  }

  function InventoryMembers(x: AccountInventory): seq<Member> {
    [Member("shared_item_stacks", RecordsDoc(x.sharedItemStacks, ItemStackMembers)),
     Member("owned_skills", RecordsDoc(x.ownedSkills, OwnedSkillMembers)),
     Member("characters", RecordsDoc(x.characters, CharacterInventoryMembers))]
  }

  /** A member that is left out when it has no value. */
  datatype Entry = Entry(key: string, doc: Option<Doc>)

  function Present(entries: seq<Entry>): seq<Member> {
    if entries == [] then []
    else (if entries[0].doc == None then [] else [Member(entries[0].key, entries[0].doc.value)]) + Present(entries[1..])
  }

  function ListEntry<T>(key: string, list: Option<seq<T>>, members: T -> seq<Member>): Entry {
    Entry(key, if list == None then None else Some(RecordsDoc(list.value, members)))
  }

  function ProfileEntries(p: Profile): seq<Entry> {
    [Entry("packet_70", if p.accountInfo == None then None else Some(Record(AccountInfoMembers(p.accountInfo.value)))),
     ListEntry("packet_6b_entries", p.characterList, CharacterEntryMembers),
     ListEntry("packet_3f_entries", p.itemList, ItemEntryMembers),
     ListEntry("packet_44_entries", p.quickslotList, QuickSlotMembers),
     ListEntry("packet_73_entries", p.skillList, SkillEntryMembers),
     ListEntry("packet_6e_entries", p.guardList, GuardMembers),
     Entry("inventory", if p.inventory == None then None else Some(Record(InventoryMembers(p.inventory.value))))]
  }

  /** An empty nickname is stored like an absent one, and a profile without any part is not stored. */
  function AccountEntries(a: Account): seq<Entry> {
    var named := a.nickname.Some? && a.nickname.value != "";
    [Entry("login_id", Some(Text(a.loginId))), Entry("password", Some(Text(a.password))),
     Entry("nickname", Some(if named then Text(a.nickname.value) else NullDoc)),
     Entry("profile", if a.profile == NO_PROFILE then None else Some(Record(Present(ProfileEntries(a.profile)))))]
  }

  function AccountMembers(a: Account): seq<Member> { Present(AccountEntries(a)) }

  function DatabaseDoc(accounts: seq<Account>): Doc {
    Record([Member("accounts", RecordsDoc(accounts, AccountMembers))])
  }

  /** The text of the file the database writes. */
  function Stored(accounts: seq<Account>): string { Printed(DatabaseDoc(accounts), 0) + "\n" }

  // ---------------------------------------------------------------- reading

  /** Refused stands for the exception a malformed database raises. */
  datatype Read<+T> = Got(value: T) | Refused {
    predicate IsFailure() { Refused? }

    function PropagateFailure<U>(): Read<U>
      requires IsFailure()
    {
      Refused
    }

    function Extract(): T
      requires !IsFailure()
    {
      value
    }
  }

  /** An integer below the limit of its type; a missing one has its default. */
  function GetNumber(o: JsonObject, key: string, limit: nat, default: nat): (r: Read<nat>)
    requires default < limit
    ensures r.Got? ==> r.value < limit
  {
    if key !in o then Got(default)
    else if !o[key].Int? || !(0 <= o[key].n < limit) then Refused
    else Got(o[key].n)
  }

  function GetU32(o: JsonObject, key: string): Read<u32> {
    var n :- GetNumber(o, key, 0x1_0000_0000, 0); Got(n)
  }

  function GetU16(o: JsonObject, key: string, default: u16): Read<u16> {
    var n :- GetNumber(o, key, 0x1_0000, default); Got(n)
  }

  function GetU8(o: JsonObject, key: string): Read<byte> {
    var n :- GetNumber(o, key, 0x100, 0); Got(n)
  }

  function GetAlias(o: JsonObject, preferred: string, legacy: string): Read<u32> {
    GetU32(o, if preferred in o then preferred else legacy)
  }

  function GetString(o: JsonObject, key: string): Read<string> {
    if key !in o then Got("") else if o[key].Str? then Got(o[key].s) else Refused
  }

  function GetArray(o: JsonObject, key: string): Read<seq<Json>> {
    if key !in o then Got([]) else if o[key].Arr? then Got(o[key].items) else Refused
  }

  function ReadIds(items: seq<Json>): Read<seq<u32>> {
    if items == [] then Got([])
    else
      var before :- ReadIds(items[..|items| - 1]);
      var last := items[|items| - 1];
      if last.Int? && 0 <= last.n < 0x1_0000_0000 then Got(before + [last.n]) else Refused
  }

  function GetIds(o: JsonObject, key: string): Read<seq<u32>> {
    var items :- GetArray(o, key); ReadIds(items)
  }

  function ReadRecords<T>(items: seq<Json>, read: JsonObject -> Read<T>): Read<seq<T>> {
    if items == [] then Got([])
    else
      var before :- ReadRecords(items[..|items| - 1], read);
      var last := items[|items| - 1];
      if !last.Obj? then Refused
      else
        var x :- read(last.fields);
        Got(before + [x])
  }

  function GetRecords<T>(o: JsonObject, key: string, read: JsonObject -> Read<T>): Read<seq<T>> {
    var items :- GetArray(o, key); ReadRecords(items, read)
  }

  function GetOptionalRecords<T>(o: JsonObject, key: string, read: JsonObject -> Read<T>): Read<Option<seq<T>>> {
    if key !in o then Got(None)
    else
      var xs :- GetRecords(o, key, read);
      Got(Some(xs))
  }

  function GetOptionalRecord<T>(o: JsonObject, key: string, read: JsonObject -> Read<T>): Read<Option<T>> {
    if key !in o then Got(None)
    else if !o[key].Obj? then Refused
    else
      var x :- read(o[key].fields);
      Got(Some(x))
  }

  function ReadAccountInfo(o: JsonObject): Read<AccountInfo> {
    var expCurrent :- GetU32(o, "exp_current");
    var field04 :- GetU32(o, "field_04_unknown");
    var levelRaw :- GetU8(o, "level_raw");
    var field09 :- GetU32(o, "field_09_unknown");
    var luna :- GetU32(o, "luna");
    var cash :- GetU32(o, "cash");
    var eventCash :- GetU32(o, "event_cash");
    var totalKillCount :- GetU32(o, "total_kill_count");
    var profileFlags :- GetU32(o, "profile_flags");
    var indicatorMaxOrLimit :- GetU32(o, "indicator_max_or_limit");
    var field25 :- GetU32(o, "field_25_unknown");
    var deploySlot0Id :- GetU32(o, "deploy_slot_0_id");
    var deploySlot1Id :- GetU32(o, "deploy_slot_1_id");
    var deploySlot2Id :- GetU32(o, "deploy_slot_2_id");
    var deploySlot3Id :- GetU32(o, "deploy_slot_3_id");
    var bp :- GetU32(o, "bp");
    var clanContribution :- GetU32(o, "clan_contribution");
    var displayLabel :- GetString(o, "string0_display_label");
    var clanName :- GetString(o, "clan_name");
    Got(AccountInfo(expCurrent, field04, levelRaw, field09, luna, cash, eventCash, totalKillCount, profileFlags,
                    indicatorMaxOrLimit, field25, deploySlot0Id, deploySlot1Id, deploySlot2Id, deploySlot3Id, bp,
                    clanContribution, displayLabel, clanName))
  }

  function ReadCharacterEntry(o: JsonObject): Read<CharacterEntry> {
    var characterId :- GetU32(o, "character_id");
    var equippedWeaponItemId :- GetAlias(o, "equipped_weapon_item_id", "room_config_slot_0");
    var roomConfigSlot1 :- GetU32(o, "room_config_slot_1");
    var roomConfigSlot2 :- GetU32(o, "room_config_slot_2");
    var clothesItemId :- GetAlias(o, "clothes_item_id", "room_config_slot_3");
    var accessory1ItemId :- GetAlias(o, "accessory_1_item_id", "room_config_slot_4");
    var accessory2ItemId :- GetAlias(o, "accessory_2_item_id", "room_config_slot_5");
    var accessory3ItemId :- GetAlias(o, "accessory_3_item_id", "room_config_slot_6");
    Got(CharacterEntry(characterId, equippedWeaponItemId, roomConfigSlot1, roomConfigSlot2, clothesItemId,
                       accessory1ItemId, accessory2ItemId, accessory3ItemId))
  }

  function ReadItemEntry(o: JsonObject): Read<ItemEntry> {
    var field00 :- GetU32(o, "field_00");
    var field04 :- GetU32(o, "field_04");
    var field08 :- GetU32(o, "field_08");
    var field0c :- GetU32(o, "field_0c");
    var field10 :- GetU32(o, "field_10");
    var field14 :- GetU32(o, "field_14");
    var field18 :- GetU32(o, "field_18");
    var field1c :- GetU32(o, "field_1c");
    var field20 :- GetU32(o, "field_20");
    var field24 :- GetU32(o, "field_24");
    var field28 :- GetU16(o, "field_28", 0);
    var field2a :- GetU32(o, "field_2a");
    var field2e :- GetU32(o, "field_2e");
    var field32 :- GetU8(o, "field_32");
    Got(ItemEntry(field00, field04, field08, field0c, field10, field14, field18, field1c, field20, field24,
                  field28, field2a, field2e, field32))
  }

  function ReadQuickSlot(o: JsonObject): Read<QuickSlot> {
    var entryKey :- GetU32(o, "entry_key");
    var slotIndex :- GetU8(o, "slot_index");
    var quickslotEntryId :- GetU32(o, "quickslot_entry_id");
    var slotState :- GetU8(o, "slot_state");
    var displayLookupKey :- GetU16(o, "display_lookup_key", 0);
    var durationMinutes :- GetU32(o, "duration_minutes");
    Got(QuickSlot(entryKey, slotIndex, quickslotEntryId, slotState, displayLookupKey, durationMinutes))
  }

  function ReadSkillEntry(o: JsonObject): Read<SkillEntry> {
    var field00 :- GetU32(o, "field_00");
    var field04 :- GetU32(o, "field_04");
    var skillItemId :- GetU32(o, "skill_item_id");
    var durationMinutes :- GetU32(o, "duration_minutes");
    var updateExistingFlag :- GetU8(o, "update_existing_flag");
    Got(SkillEntry(field00, field04, skillItemId, durationMinutes, updateExistingFlag))
  }

  function ReadGuard(o: JsonObject): Read<Guard> {
    var guardInstanceId :- GetU32(o, "guard_instance_id");
    var guardNickname :- GetString(o, "guard_nickname");
    var guardKindId :- GetU32(o, "guard_kind_id");
    var selectableFlag :- GetU32(o, "selectable_flag");
    var equippedItemSlot0Id :- GetU32(o, "equipped_item_slot_0_id");
    var equippedItemSlot1Id :- GetU32(o, "equipped_item_slot_1_id");
    Got(Guard(guardInstanceId, guardNickname, guardKindId, selectableFlag, equippedItemSlot0Id,
              equippedItemSlot1Id))
  }

  function ReadItemStack(o: JsonObject): Read<ItemStack> {
    var itemId :- GetU32(o, "item_id");
    var ownedCount :- GetU16(o, "owned_count", 1);
    Got(ItemStack(itemId, ownedCount))
  }

  function ReadOwnedSkill(o: JsonObject): Read<OwnedSkill> {
    var skillItemId :- GetU32(o, "skill_item_id");
    var durationMinutes :- GetU32(o, "duration_minutes");
    Got(OwnedSkill(skillItemId, durationMinutes))
  }

  function ReadCharacterInventory(o: JsonObject): Read<CharacterInventory> {
    var characterId :- GetU32(o, "character_id");
    var equippedWeaponItemId :- GetU32(o, "equipped_weapon_item_id");
    var clothesItemId :- GetU32(o, "clothes_item_id");
    var accessory1ItemId :- GetU32(o, "accessory_1_item_id");
    var accessory2ItemId :- GetU32(o, "accessory_2_item_id");
    var accessory3ItemId :- GetU32(o, "accessory_3_item_id");
    var ownedWeaponItemIds :- GetIds(o, "owned_weapon_item_ids");
    var ownedClothesItemIds :- GetIds(o, "owned_clothes_item_ids");
    var ownedAccessory1ItemIds :- GetIds(o, "owned_accessory_1_item_ids");
    var ownedAccessory2ItemIds :- GetIds(o, "owned_accessory_2_item_ids");
    var ownedAccessory3ItemIds :- GetIds(o, "owned_accessory_3_item_ids");
    Got(CharacterInventory(characterId, equippedWeaponItemId, clothesItemId, accessory1ItemId, accessory2ItemId,
                           accessory3ItemId, ownedWeaponItemIds, ownedClothesItemIds, ownedAccessory1ItemIds,
                           ownedAccessory2ItemIds, ownedAccessory3ItemIds))
  }

  function ReadInventory(o: JsonObject): Read<AccountInventory> {
    var stacks :- GetRecords(o, "shared_item_stacks", ReadItemStack);
    var skills :- GetRecords(o, "owned_skills", ReadOwnedSkill);
    var characters :- GetRecords(o, "characters", ReadCharacterInventory);
    Got(AccountInventory(stacks, skills, characters))
  }

  function ReadProfile(o: JsonObject): Read<Profile> {
    var accountInfo :- GetOptionalRecord(o, "packet_70", ReadAccountInfo);
    var characterList :- GetOptionalRecords(o, "packet_6b_entries", ReadCharacterEntry);
    var itemList :- GetOptionalRecords(o, "packet_3f_entries", ReadItemEntry);
    var quickslotList :- GetOptionalRecords(o, "packet_44_entries", ReadQuickSlot);
    var skillList :- GetOptionalRecords(o, "packet_73_entries", ReadSkillEntry);
    var guardList :- GetOptionalRecords(o, "packet_6e_entries", ReadGuard);
    var inventory :- GetOptionalRecord(o, "inventory", ReadInventory);
    Got(Profile(accountInfo, characterList, itemList, quickslotList, skillList, guardList, inventory))
  }

  function TrimFront(s: string): (r: string)
    ensures |r| <= |s|
  {
    if s != "" && IsSpace(s[0]) then TrimFront(s[1..]) else s
  }

  function TrimBack(s: string): (r: string)
    ensures |r| <= |s|
  {
    if s != "" && IsSpace(s[|s| - 1]) then TrimBack(s[..|s| - 1]) else s
  }

  function Trim(s: string): string { TrimBack(TrimFront(s)) }

  function ReadNickname(o: JsonObject): Read<Option<string>> {
    if "nickname" !in o || o["nickname"].Null? then Got(None)
    else if !o["nickname"].Str? then Refused
    else
      var name := Trim(o["nickname"].s);
      Got(if name == "" then None else Some(name))
  }

  function ReadAccount(o: JsonObject): Read<Account> {
    if "login_id" !in o || "password" !in o || !o["login_id"].Str? || !o["password"].Str? then Refused
    else
      var nickname :- ReadNickname(o);
      var profile :- GetOptionalRecord(o, "profile", ReadProfile);
      Got(Account(o["login_id"].s, o["password"].s, nickname, if profile == None then NO_PROFILE else profile.value))
  }

  function ReadDatabase(root: Json): Read<seq<Account>> {
    if !root.Obj? then Refused
    else GetRecords(root.fields, "accounts", ReadAccount)
  }

  /** What the database makes of the text of its file. */
  function Loaded(text: string): Read<seq<Account>> {
    var p := Parse(text);
    if p.Ok? then ReadDatabase(p.value) else Refused
  }
}
