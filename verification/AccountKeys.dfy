/** The names of the members of every stored record, in the order they are written. */
module AccountKeys {
  const PROGRESS_KEYS: seq<string> := ["exp_current", "field_04_unknown", "level_raw", "field_09_unknown", "luna",
    "cash", "event_cash", "total_kill_count", "profile_flags", "indicator_max_or_limit"]

  const DEPLOYMENT_KEYS: seq<string> := ["field_25_unknown", "deploy_slot_0_id", "deploy_slot_1_id",
    "deploy_slot_2_id", "deploy_slot_3_id", "bp", "clan_contribution", "string0_display_label", "clan_name"]

  const ACCOUNT_INFO_KEYS: seq<string> := PROGRESS_KEYS + DEPLOYMENT_KEYS

  const CHARACTER_ENTRY_KEYS: seq<string> := ["character_id", "equipped_weapon_item_id", "room_config_slot_1",
    "room_config_slot_2", "clothes_item_id", "accessory_1_item_id", "accessory_2_item_id", "accessory_3_item_id"]

  const ITEM_ENTRY_KEYS: seq<string> := ["field_00", "field_04", "field_08", "field_0c", "field_10", "field_14",
    "field_18", "field_1c", "field_20", "field_24", "field_28", "field_2a", "field_2e", "field_32"]

  const QUICK_SLOT_KEYS: seq<string> := ["entry_key", "slot_index", "quickslot_entry_id", "slot_state",
    "display_lookup_key", "duration_minutes"]

  const SKILL_ENTRY_KEYS: seq<string> := ["field_00", "field_04", "skill_item_id", "duration_minutes",
    "update_existing_flag"]

  const GUARD_KEYS: seq<string> := ["guard_instance_id", "guard_nickname", "guard_kind_id", "selectable_flag",
    "equipped_item_slot_0_id", "equipped_item_slot_1_id"]

  const ITEM_STACK_KEYS: seq<string> := ["item_id", "owned_count"]

  const OWNED_SKILL_KEYS: seq<string> := ["skill_item_id", "duration_minutes"]

  const CHARACTER_INVENTORY_KEYS: seq<string> := ["character_id", "equipped_weapon_item_id", "clothes_item_id",
    "accessory_1_item_id", "accessory_2_item_id", "accessory_3_item_id", "owned_weapon_item_ids",
    "owned_clothes_item_ids", "owned_accessory_1_item_ids", "owned_accessory_2_item_ids",
    "owned_accessory_3_item_ids"]

  const INVENTORY_KEYS: seq<string> := ["shared_item_stacks", "owned_skills", "characters"]

  const PROFILE_KEYS: seq<string> := ["packet_70", "packet_6b_entries", "packet_3f_entries", "packet_44_entries",
    "packet_73_entries", "packet_6e_entries", "inventory"]

  const ACCOUNT_KEYS: seq<string> := ["login_id", "password", "nickname", "profile"]

  datatype RecordKind =
    | AccountInfoRecord
    | CharacterEntryRecord
    | ItemEntryRecord
    | QuickSlotRecord
    | SkillEntryRecord
    | GuardRecord
    | ItemStackRecord
    | OwnedSkillRecord
    | CharacterInventoryRecord
    | InventoryRecord
    | ProfileRecord
    | AccountRecord

  function KeysOf(kind: RecordKind): seq<string> {
    match kind
    case AccountInfoRecord => ACCOUNT_INFO_KEYS
    case CharacterEntryRecord => CHARACTER_ENTRY_KEYS
    case ItemEntryRecord => ITEM_ENTRY_KEYS
    case QuickSlotRecord => QUICK_SLOT_KEYS
    case SkillEntryRecord => SKILL_ENTRY_KEYS
    case GuardRecord => GUARD_KEYS
    case ItemStackRecord => ITEM_STACK_KEYS
    case OwnedSkillRecord => OWNED_SKILL_KEYS
    case CharacterInventoryRecord => CHARACTER_INVENTORY_KEYS
    case InventoryRecord => INVENTORY_KEYS
    case ProfileRecord => PROFILE_KEYS
    case AccountRecord => ACCOUNT_KEYS
  }

  predicate Distinct(keys: seq<string>) { forall i, j :: 0 <= i < j < |keys| ==> keys[i] != keys[j] }

  lemma AccountInfoKeysDiffer()
    ensures Distinct(ACCOUNT_INFO_KEYS)
  {
    var a, b := PROGRESS_KEYS, DEPLOYMENT_KEYS;
    assert Distinct(a) && Distinct(b);
    assert forall i, j :: 0 <= i < |a| && 0 <= j < |b| ==> a[i] != b[j];
  }

  lemma ItemEntryKeysDiffer()
    ensures Distinct(ITEM_ENTRY_KEYS)
  {
  }

  lemma CharacterInventoryKeysDiffer()
    ensures Distinct(CHARACTER_INVENTORY_KEYS)
  {
  }

  /** No record has two members of one name. */
  lemma KeysDiffer(kind: RecordKind)
    ensures Distinct(KeysOf(kind))
  {
    match kind {
      case AccountInfoRecord => AccountInfoKeysDiffer();
      case ItemEntryRecord => ItemEntryKeysDiffer();
      case CharacterInventoryRecord => CharacterInventoryKeysDiffer();
      case _ =>
    }
  }

  predicate IsNameChar(c: char) { '0' <= c && c != '\\' }

  /** Letters, digits and underscores; at any rate nothing that a JSON string would escape. */
  predicate IsName(s: string) { forall c <- s :: IsNameChar(c) }

  lemma ProgressNames()
    ensures forall key <- PROGRESS_KEYS :: IsName(key)
  {
  }

  lemma DeploymentNames()
    ensures forall key <- DEPLOYMENT_KEYS :: IsName(key)
  {
  }

  lemma CharacterEntryNames()
    ensures forall i :: 0 <= i < 4 ==> IsName(CHARACTER_ENTRY_KEYS[i])
  {
  }

  lemma OutfitNames()
    ensures forall i :: 4 <= i < |CHARACTER_ENTRY_KEYS| ==> IsName(CHARACTER_ENTRY_KEYS[i])
  {
  }

  lemma WornNames()
    ensures forall i :: 0 <= i < 6 ==> IsName(CHARACTER_INVENTORY_KEYS[i])
  {
  }

  lemma OwnedNames()
    ensures forall i :: 6 <= i < 8 ==> IsName(CHARACTER_INVENTORY_KEYS[i])
  {
  }

  lemma OwnedAccessoryNames()
    ensures forall i :: 8 <= i < |CHARACTER_INVENTORY_KEYS| ==> IsName(CHARACTER_INVENTORY_KEYS[i])
  {
  }

  lemma GuardNames()
    ensures forall key <- GUARD_KEYS :: IsName(key)
  {
  }

  lemma ListNames()
    ensures forall key <- PROFILE_KEYS :: IsName(key)
    ensures forall key <- INVENTORY_KEYS :: IsName(key)
  {
  }

  lemma ItemNames()
    ensures forall key <- ITEM_ENTRY_KEYS :: IsName(key)
    ensures forall key <- ITEM_STACK_KEYS :: IsName(key)
  {
  }

  lemma SkillNames()
    ensures forall key <- SKILL_ENTRY_KEYS :: IsName(key)
    ensures forall key <- OWNED_SKILL_KEYS :: IsName(key)
    ensures forall key <- ACCOUNT_KEYS :: IsName(key)
  {
  }

  lemma QuickSlotNames()
    ensures forall key <- QUICK_SLOT_KEYS :: IsName(key)
  {
  }

  /** Every member of a record has a plain name. */
  lemma KeysAreNames(kind: RecordKind)
    ensures forall key <- KeysOf(kind) :: IsName(key)
  {
    match kind {
      case AccountInfoRecord =>
        ProgressNames();
        DeploymentNames();
      case CharacterEntryRecord =>
        CharacterEntryNames();
        OutfitNames();
      case CharacterInventoryRecord =>
        WornNames();
        OwnedNames();
        OwnedAccessoryNames();
      case GuardRecord => GuardNames();
      case QuickSlotRecord => QuickSlotNames();
      case ItemEntryRecord => ItemNames();
      case ItemStackRecord => ItemNames();
      case ProfileRecord => ListNames();
      case InventoryRecord => ListNames();
      case _ => SkillNames();
    }
  }
}
