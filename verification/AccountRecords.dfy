/** The records the account database keeps. */
module AccountRecords {
  import opened Bytes

  datatype AccountInfo = AccountInfo(expCurrent: u32, field04: u32, levelRaw: byte, field09: u32, luna: u32,
                                     cash: u32, eventCash: u32, totalKillCount: u32, profileFlags: u32,
                                     indicatorMaxOrLimit: u32, field25: u32, deploySlot0Id: u32,
                                     deploySlot1Id: u32, deploySlot2Id: u32, deploySlot3Id: u32, bp: u32,
                                     clanContribution: u32, displayLabel: string, clanName: string)

  datatype CharacterEntry = CharacterEntry(characterId: u32, equippedWeaponItemId: u32, roomConfigSlot1: u32,
                                           roomConfigSlot2: u32, clothesItemId: u32, accessory1ItemId: u32,
                                           accessory2ItemId: u32, accessory3ItemId: u32)

  datatype ItemEntry = ItemEntry(field00: u32, field04: u32, field08: u32, field0c: u32, field10: u32,
                                 field14: u32, field18: u32, field1c: u32, field20: u32, field24: u32,
                                 field28: u16, field2a: u32, field2e: u32, field32: byte)

  datatype QuickSlot = QuickSlot(entryKey: u32, slotIndex: byte, quickslotEntryId: u32, slotState: byte,
                                 displayLookupKey: u16, durationMinutes: u32)

  datatype SkillEntry = SkillEntry(field00: u32, field04: u32, skillItemId: u32, durationMinutes: u32,
                                   updateExistingFlag: byte)

  datatype Guard = Guard(guardInstanceId: u32, guardNickname: string, guardKindId: u32, selectableFlag: u32,
                         equippedItemSlot0Id: u32, equippedItemSlot1Id: u32)

  datatype ItemStack = ItemStack(itemId: u32, ownedCount: u16)

  datatype OwnedSkill = OwnedSkill(skillItemId: u32, durationMinutes: u32)

  datatype CharacterInventory = CharacterInventory(characterId: u32, equippedWeaponItemId: u32, clothesItemId: u32,
                                                   accessory1ItemId: u32, accessory2ItemId: u32,
                                                   accessory3ItemId: u32, ownedWeaponItemIds: seq<u32>,
                                                   ownedClothesItemIds: seq<u32>, ownedAccessory1ItemIds: seq<u32>,
                                                   ownedAccessory2ItemIds: seq<u32>,
                                                   ownedAccessory3ItemIds: seq<u32>)

  datatype AccountInventory = AccountInventory(sharedItemStacks: seq<ItemStack>, ownedSkills: seq<OwnedSkill>,
                                               characters: seq<CharacterInventory>)

  const NO_INVENTORY := AccountInventory([], [], [])

  datatype Profile = Profile(accountInfo: Option<AccountInfo>, characterList: Option<seq<CharacterEntry>>,
                             itemList: Option<seq<ItemEntry>>, quickslotList: Option<seq<QuickSlot>>,
                             skillList: Option<seq<SkillEntry>>, guardList: Option<seq<Guard>>,
                             inventory: Option<AccountInventory>)

  const NO_PROFILE := Profile(None, None, None, None, None, None, None)

  datatype Account = Account(loginId: string, password: string, nickname: Option<string>, profile: Profile)
}
