// The inventory settings object: the map from inventory type to its
// configuration, which must hold an entry for every required type, and
// the configured notification types.
module InventorySettings {
  import opened Common
  import opened InventoryTypeConfig

  datatype InventoryType = Player | NPC | Storage | Merchant | Loot | Specialized | DefaultType

  /** The types ValidateInventoryTypes guarantees an entry for, in its order. */
  const RequiredTypes: seq<InventoryType> := [Player, NPC, Storage, Merchant, Loot, Specialized]

  /** The display names of the default configurations. */
  const CharacterName: string := "Character Inventory"
  const StorageName: string := "Storage"
  const MerchantName: string := "Merchant"
  const LootName: string := "Loot"
  const SpecialName: string := "Special"

  /**
   * The configuration a type starts with, its bytes written out; the bits
   * they are made of are listed in DefaultFlags. The access bytes use one
   * bit per flag; the values as the enum declares them are compared in
   * DefaultAccessAsDeclared.
   */
  function DefaultConfigForType(t: InventoryType): (c: TypeConfig)
    ensures c.slotsRange.x <= c.startingSlots <= c.slotsRange.y
    ensures t == DefaultType ==> c == DefaultConfig()
  {
    var d := DefaultConfig();
    match t
    case Player =>
      d.(displayName := CharacterName, configFlags := 0x7D, accessFlags := 0x10,
         slotsRange := Point(30, 50), startingSlots := 30, maxWeight := 75)
    case NPC =>
      d.(displayName := CharacterName, configFlags := 0x0D, accessFlags := 0x14,
         slotsRange := Point(15, 30), startingSlots := 15, maxWeight := 50)
    case Storage =>
      d.(displayName := StorageName, configFlags := 0x5D, accessFlags := 0x10,
         slotsRange := Point(50, 200), startingSlots := 50, maxWeight := 300)
    case Merchant =>
      d.(displayName := MerchantName, configFlags := 0x1E, accessFlags := 0x10,
         slotsRange := Point(50, 50), startingSlots := 50, maxValue := 5000)
    case Loot =>
      d.(displayName := LootName, configFlags := 0x18, accessFlags := 0x0D,
         slotsRange := Point(1, 30), startingSlots := 10)
    case Specialized =>
      d.(displayName := SpecialName, configFlags := 0x0C, accessFlags := 0x10,
         slotsRange := Point(20, 20), startingSlots := 20)
    case DefaultType => d
  }

  /** The default bytes are exactly the flags each Setup function combines. */
  lemma DefaultFlags()
    ensures DefaultConfigForType(Player).configFlags
         == TypeBit(HasWeightLimitFlag) | TypeBit(CanAddItemsFlag) | TypeBit(CanRemoveItemsFlag)
          | TypeBit(AllowStackingFlag) | TypeBit(AutoStackFlag) | TypeBit(PersistentFlag)
    ensures DefaultConfigForType(NPC).configFlags
         == TypeBit(HasWeightLimitFlag) | TypeBit(CanAddItemsFlag) | TypeBit(CanRemoveItemsFlag)
    ensures DefaultConfigForType(Storage).configFlags
         == TypeBit(HasWeightLimitFlag) | TypeBit(CanAddItemsFlag) | TypeBit(CanRemoveItemsFlag)
          | TypeBit(AllowStackingFlag) | TypeBit(PersistentFlag)
    ensures DefaultConfigForType(Merchant).configFlags
         == TypeBit(HasValueLimitFlag) | TypeBit(CanAddItemsFlag) | TypeBit(CanRemoveItemsFlag)
          | TypeBit(AllowStackingFlag)
    ensures DefaultConfigForType(Loot).configFlags == TypeBit(CanRemoveItemsFlag) | TypeBit(AllowStackingFlag)
    ensures DefaultConfigForType(Specialized).configFlags == TypeBit(CanAddItemsFlag) | TypeBit(CanRemoveItemsFlag)
    ensures DefaultConfigForType(NPC).accessFlags == AccessBit(Private) | AccessBit(Lootable)
    ensures DefaultConfigForType(Loot).accessFlags == AccessBit(Public) | AccessBit(Lootable) | AccessBit(Temporary)
    ensures forall t :: t !in {NPC, Loot} ==> DefaultConfigForType(t).accessFlags == AccessBit(Private)
  {
  }

  /** The access and behaviour rules of the defaults read back as intended. */
  lemma DefaultAccess()
    ensures IsLootable(DefaultConfigForType(NPC)) && !IsPublic(DefaultConfigForType(NPC))
    ensures IsPublic(DefaultConfigForType(Loot)) && IsLootable(DefaultConfigForType(Loot))
    ensures IsTemporary(DefaultConfigForType(Loot)) && !IsPrivate(DefaultConfigForType(Loot))
    ensures DefaultConfigForType(NPC).accessFlags != DefaultConfigForType(Loot).accessFlags
    ensures HasWeightLimit(DefaultConfigForType(Player)) && !HasValueLimit(DefaultConfigForType(Player))
    ensures HasValueLimit(DefaultConfigForType(Merchant)) && !HasWeightLimit(DefaultConfigForType(Merchant))
    ensures !CanAddItems(DefaultConfigForType(Loot)) && CanAddItems(DefaultConfigForType(Specialized))
  {
  }

  /** Every default but the loot one is private and not public. */
  lemma DefaultIsPrivate(t: InventoryType)
    requires t != Loot
    ensures IsPrivate(DefaultConfigForType(t)) && !IsPublic(DefaultConfigForType(t))
  {
    match t
    case Player => case NPC => case Storage => case Merchant => case Specialized => case DefaultType =>
  }

  /**
   * The NPC and Loot defaults as written, with ordinals as masks: both
   * come to the same byte, so an NPC inventory reads as Public and a loot
   * inventory as Private.
   */
  lemma DefaultAccessAsDeclared()
    ensures DeclaredValue(Private) | DeclaredValue(Lootable)
         == DeclaredValue(Public) | DeclaredValue(Lootable) | DeclaredValue(Temporary)
    ensures HasFlagAsDeclared(DeclaredValue(Private) | DeclaredValue(Lootable), Public)
    ensures HasFlagAsDeclared(DeclaredValue(Public) | DeclaredValue(Lootable) | DeclaredValue(Temporary), Private)
  {
  }

  /** The required types `keys` does not have yet, in the order they are checked. */
  function MissingTypes(keys: seq<InventoryType>, req: seq<InventoryType>): (r: seq<InventoryType>)
    ensures forall t :: t in r <==> t in req && t !in keys
  {
    if req == [] then []
    else if req[0] in keys then MissingTypes(keys, req[1..])
    else [req[0]] + MissingTypes(keys, req[1..])
  }

  /** `types` keeps every entry of `types0` and gives each type it adds its default configuration. */
  predicate ExtendsWithDefaults(types0: map<InventoryType, TypeConfig>, types: map<InventoryType, TypeConfig>)
  {
    (forall t :: t in types0 ==> t in types && types[t] == types0[t])
    && (forall t :: t in types && t !in types0 ==> types[t] == DefaultConfigForType(t))
  }

  /** Adding a missing type with its default keeps ExtendsWithDefaults. */
  lemma ExtendsWithDefaultsAdd(types0: map<InventoryType, TypeConfig>, types: map<InventoryType, TypeConfig>, t: InventoryType)
    requires ExtendsWithDefaults(types0, types) && t !in types
    ensures ExtendsWithDefaults(types0, types[t := DefaultConfigForType(t)])
  {
  }

  /** One round of the loop: a type without an entry is appended with its default configuration. */
  function AddIfMissing(keys: seq<InventoryType>, types: map<InventoryType, TypeConfig>, t: InventoryType)
    : (r: (seq<InventoryType>, map<InventoryType, TypeConfig>))
    ensures t in types ==> r == (keys, types)
    ensures t !in types ==> r == (keys + [t], types[t := DefaultConfigForType(t)])
  {
    if t in types then (keys, types) else (keys + [t], types[t := DefaultConfigForType(t)])
  }

  /** What holds after the first i required types have been handled. */
  ghost predicate AddedThrough(keys0: seq<InventoryType>, types0: map<InventoryType, TypeConfig>, req: seq<InventoryType>,
                               i: int, keys: seq<InventoryType>, types: map<InventoryType, TypeConfig>)
    requires 0 <= i <= |req|
  {
    keys == keys0 + MissingTypes(keys0, req[..i])
    && NoDup(keys) && (forall t :: t in types <==> t in keys)
    && (forall j :: 0 <= j < i ==> req[j] in types)
    && ExtendsWithDefaults(types0, types)
  }

  /** Each round of the loop keeps AddedThrough. */
  lemma AddStep(keys0: seq<InventoryType>, types0: map<InventoryType, TypeConfig>, req: seq<InventoryType>,
                i: int, keys: seq<InventoryType>, types: map<InventoryType, TypeConfig>)
    requires NoDup(req) && 0 <= i < |req| && AddedThrough(keys0, types0, req, i, keys, types)
    ensures AddedThrough(keys0, types0, req, i + 1, AddIfMissing(keys, types, req[i]).0, AddIfMissing(keys, types, req[i]).1)
  {
    var t := req[i];
    assert t !in req[..i];
    assert t in keys <==> t in keys0 by {
      assert t !in MissingTypes(keys0, req[..i]);
    }
    MissingTypesSnoc(keys0, req[..i], t);
    assert req[..i + 1] == req[..i] + [t];
    if t in types {
      AddStepPresent(keys0, types0, req, i, keys, types);
    } else {
      NoDupSnoc(keys, t);
      ExtendsWithDefaultsAdd(types0, types, t);
      AddStepMissing(keys0, types0, req, i, keys, types);
    }
  }

  lemma AddStepPresent(keys0: seq<InventoryType>, types0: map<InventoryType, TypeConfig>, req: seq<InventoryType>,
                       i: int, keys: seq<InventoryType>, types: map<InventoryType, TypeConfig>)
    requires 0 <= i < |req| && AddedThrough(keys0, types0, req, i, keys, types) && req[i] in types
    requires keys0 + MissingTypes(keys0, req[..i + 1]) == keys
    ensures AddedThrough(keys0, types0, req, i + 1, keys, types)
  {
  }

  lemma AddStepMissing(keys0: seq<InventoryType>, types0: map<InventoryType, TypeConfig>, req: seq<InventoryType>,
                       i: int, keys: seq<InventoryType>, types: map<InventoryType, TypeConfig>)
    requires 0 <= i < |req| && AddedThrough(keys0, types0, req, i, keys, types) && req[i] !in types
    requires keys0 + MissingTypes(keys0, req[..i + 1]) == keys + [req[i]]
    requires NoDup(keys + [req[i]])
    requires ExtendsWithDefaults(types0, types[req[i] := DefaultConfigForType(req[i])])
    ensures AddedThrough(keys0, types0, req, i + 1, keys + [req[i]], types[req[i] := DefaultConfigForType(req[i])])
  {
  }

  /**
   * The loop of ValidateInventoryTypes on the map's keys and entries: each
   * required type without an entry is appended to the keys and given its
   * default configuration.
   */
  method AddMissing(keys0: seq<InventoryType>, types0: map<InventoryType, TypeConfig>, req: seq<InventoryType>)
    returns (keys: seq<InventoryType>, types: map<InventoryType, TypeConfig>)
    requires NoDup(keys0) && (forall t :: t in types0 <==> t in keys0) && NoDup(req)
    ensures keys == keys0 + MissingTypes(keys0, req)
    ensures NoDup(keys) && (forall t :: t in types <==> t in keys)
    ensures forall t :: t in req ==> t in types
    ensures ExtendsWithDefaults(types0, types)
  {
    keys, types := keys0, types0;
    var i := 0;
    assert req[..0] == [];
    while i < |req|
      invariant 0 <= i <= |req|
      invariant AddedThrough(keys0, types0, req, i, keys, types)
    {
      AddStep(keys0, types0, req, i, keys, types);
      keys, types := AddIfMissing(keys, types, req[i]).0, AddIfMissing(keys, types, req[i]).1;
      i := i + 1;
    }
    assert req[..i] == req;
  }

  class SettingsConfig {
    /** The keys of AllowedInventoryTypes in map order. */
    var typeKeys: seq<InventoryType>
    var allowedTypes: map<InventoryType, TypeConfig>
    /** NotificationTypes, a set of strings in insertion order. */
    var notificationTypes: seq<string>

    ghost predicate Valid()
      reads this
    {
      NoDup(typeKeys) && (forall t :: t in allowedTypes <==> t in typeKeys) && NoDup(notificationTypes)
    }

    predicate HasRequiredTypes()
      reads this
    {
      forall t :: t in RequiredTypes ==> t in allowedTypes
    }

    /** A new settings object already holds every required type with its default. */
    constructor ()
      ensures Valid() && HasRequiredTypes()
      ensures typeKeys == RequiredTypes && notificationTypes == []
      ensures forall t :: t in allowedTypes ==> allowedTypes[t] == DefaultConfigForType(t)
    {
      typeKeys, allowedTypes, notificationTypes := [], map[], [];
      new;
      ValidateInventoryTypes();
      MissingFromNone(RequiredTypes);
    }

    /**
     * Adds each required type that has no entry, with its default
     * configuration; entries already present are kept as they are.
     */
    method ValidateInventoryTypes()
      requires Valid()
      modifies this
      ensures Valid() && HasRequiredTypes()
      ensures typeKeys == old(typeKeys) + MissingTypes(old(typeKeys), RequiredTypes)
      ensures forall t :: t in old(allowedTypes) ==> t in allowedTypes && allowedTypes[t] == old(allowedTypes)[t]
      ensures forall t :: t in allowedTypes && t !in old(allowedTypes) ==> allowedTypes[t] == DefaultConfigForType(t)
      ensures notificationTypes == old(notificationTypes)
    {
      AddMissingTypes(RequiredTypes);
    }

    /** The loop of ValidateInventoryTypes, over any list of required types. */
    method AddMissingTypes(req: seq<InventoryType>)
      requires Valid() && NoDup(req)
      modifies this
      ensures Valid() && forall t :: t in req ==> t in allowedTypes
      ensures typeKeys == old(typeKeys) + MissingTypes(old(typeKeys), req)
      ensures forall t :: t in old(allowedTypes) ==> t in allowedTypes && allowedTypes[t] == old(allowedTypes)[t]
      ensures forall t :: t in allowedTypes && t !in old(allowedTypes) ==> allowedTypes[t] == DefaultConfigForType(t)
      ensures notificationTypes == old(notificationTypes)
    {
      var keys, types := AddMissing(typeKeys, allowedTypes, req);
      typeKeys, allowedTypes := keys, types;
    }

    /** The configured notification types, then the built-in ones. */
    function GetNotificationTypes(builtIn: seq<string>): (r: seq<string>)
      reads this
      ensures |r| == |notificationTypes| + |builtIn|
      ensures forall s :: s in r <==> s in notificationTypes || s in builtIn
      ensures r[..|notificationTypes|] == notificationTypes
    {
      notificationTypes + builtIn
    }
  }

  /** Checking one more, new, required type extends the missing list by it when `keys` lacks it. */
  lemma {:induction false} MissingTypesSnoc(keys: seq<InventoryType>, req: seq<InventoryType>, t: InventoryType)
    requires t !in req
    ensures MissingTypes(keys, req + [t]) == MissingTypes(keys, req) + (if t in keys then [] else [t])
  {
    if req == [] {
      assert req + [t] == [t];
    } else {
      var tail := if t in keys then [] else [t];
      assert (req + [t])[0] == req[0];
      assert (req + [t])[1..] == req[1..] + [t];
      MissingTypesSnoc(keys, req[1..], t);
      if req[0] !in keys {
        assert [req[0]] + (MissingTypes(keys, req[1..]) + tail)
            == ([req[0]] + MissingTypes(keys, req[1..])) + tail;
      }
    }
  }

  /** Once the missing types are added, none is missing any more. */
  lemma MissingTypesClosed(keys: seq<InventoryType>, req: seq<InventoryType>)
    ensures MissingTypes(keys + MissingTypes(keys, req), req) == []
  {
    MissingNone(keys + MissingTypes(keys, req), req);
  }

  /** Nothing is missing when every required type is among the keys. */
  lemma {:induction false} MissingNone(keys: seq<InventoryType>, req: seq<InventoryType>)
    requires forall t :: t in req ==> t in keys
    ensures MissingTypes(keys, req) == []
  {
    if req != [] {
      assert req[0] in req;
      MissingNone(keys, req[1..]);
    }
  }

  /** From no keys at all, every required type is missing, in order. */
  lemma {:induction false} MissingFromNone(req: seq<InventoryType>)
    ensures MissingTypes([], req) == req
  {
    if req != [] {
      MissingFromNone(req[1..]);
    }
  }

  /**
   * A second ValidateInventoryTypes adds nothing: after the first, no
   * required type is missing.
   */
  lemma ValidateIdempotent(keys: seq<InventoryType>)
    ensures MissingTypes(keys + MissingTypes(keys, RequiredTypes), RequiredTypes) == []
  {
    MissingTypesClosed(keys, RequiredTypes);
  }
}
