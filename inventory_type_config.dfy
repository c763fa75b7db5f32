// FInventoryTypeConfig: the per-inventory-type configuration record with
// its behaviour bits (ConfigFlags) and access bits (AccessFlags). The
// record is a value type held by value in the settings map, so its
// setters are functions that return the updated record.
module InventoryTypeConfig {
  import opened Common

  /** EInventoryTypeFlags, each a single bit. */
  datatype TypeFlag =
    | HasWeightLimitFlag | HasValueLimitFlag | CanAddItemsFlag | CanRemoveItemsFlag
    | AllowStackingFlag | AutoStackFlag | PersistentFlag

  function TypeBit(f: TypeFlag): bv8
  {
    match f
    case HasWeightLimitFlag => 1
    case HasValueLimitFlag => 2
    case CanAddItemsFlag => 4
    case CanRemoveItemsFlag => 8
    case AllowStackingFlag => 16
    case AutoStackFlag => 32
    case PersistentFlag => 64
  }

  /** EInventoryFlags. */
  datatype AccessFlag = NoAccess | Public | TeamShared | Lootable | Temporary | Private

  /**
   * The value each enumerator has as the enum is declared: without
   * initialisers it is the enumerator's position.
   */
  function DeclaredValue(f: AccessFlag): bv8
  {
    match f
    case NoAccess => 0
    case Public => 1
    case TeamShared => 2
    case Lootable => 3
    case Temporary => 4
    case Private => 5
  }

  /** The single bit each enumerator is meant to occupy in AccessFlags. */
  function AccessBit(f: AccessFlag): bv8
  {
    match f
    case NoAccess => 0
    case Public => 1
    case TeamShared => 2
    case Lootable => 4
    case Temporary => 8
    case Private => 16
  }

  datatype TypeConfig = TypeConfig(
    displayName: string,
    configFlags: bv8,
    accessFlags: bv8,
    slotsRange: Point,
    startingSlots: int,
    maxWeight: int,
    maxValue: int)

  /** The default-constructed record: no behaviour bits and Private access. */
  function DefaultConfig(): (c: TypeConfig)
    ensures c.configFlags == 0
    ensures IsPrivate(c) && !IsPublic(c) && !IsTeamShared(c) && !IsLootable(c) && !IsTemporary(c)
  {
    TypeConfig("", 0, AccessBit(Private), Point(10, 20), 10, 100, 1000)
  }

  predicate HasConfigFlag(c: TypeConfig, f: TypeFlag)
  {
    c.configFlags & TypeBit(f) != 0
  }

  predicate HasWeightLimit(c: TypeConfig) { HasConfigFlag(c, HasWeightLimitFlag) }

  predicate HasValueLimit(c: TypeConfig) { HasConfigFlag(c, HasValueLimitFlag) }

  predicate CanAddItems(c: TypeConfig) { HasConfigFlag(c, CanAddItemsFlag) }

  predicate HasFlag(c: TypeConfig, f: AccessFlag)
  {
    c.accessFlags & AccessBit(f) != 0
  }

  predicate IsPublic(c: TypeConfig) { HasFlag(c, Public) }

  predicate IsTeamShared(c: TypeConfig) { HasFlag(c, TeamShared) }

  predicate IsLootable(c: TypeConfig) { HasFlag(c, Lootable) }

  predicate IsTemporary(c: TypeConfig) { HasFlag(c, Temporary) }

  predicate IsPrivate(c: TypeConfig) { HasFlag(c, Private) }

  /** SetFlag ORs the flag's bit in, or masks it out; nothing else changes. */
  function SetFlag(c: TypeConfig, f: AccessFlag, value: bool): (r: TypeConfig)
    ensures r.displayName == c.displayName && r.configFlags == c.configFlags
    ensures r.slotsRange == c.slotsRange && r.startingSlots == c.startingSlots
    ensures r.maxWeight == c.maxWeight && r.maxValue == c.maxValue
  {
    c.(accessFlags := if value then c.accessFlags | AccessBit(f) else c.accessFlags & !AccessBit(f))
  }

  /** SetPublic: the Public query answers `value` afterwards and every other flag keeps its answer. */
  function SetPublic(c: TypeConfig, value: bool): (r: TypeConfig)
    ensures IsPublic(r) == value
    ensures forall g :: g != NoAccess && g != Public ==> HasFlag(r, g) == HasFlag(c, g)
  {
    SetFlagAnswers(c, Public, value);
    SetFlag(c, Public, value)
  }

  /** SetTeamShared: the TeamShared query answers `value` afterwards and every other flag keeps its answer. */
  function SetTeamShared(c: TypeConfig, value: bool): (r: TypeConfig)
    ensures IsTeamShared(r) == value
    ensures forall g :: g != NoAccess && g != TeamShared ==> HasFlag(r, g) == HasFlag(c, g)
  {
    SetFlagAnswers(c, TeamShared, value);
    SetFlag(c, TeamShared, value)
  }

  /** SetLootable: the Lootable query answers `value` afterwards and every other flag keeps its answer. */
  function SetLootable(c: TypeConfig, value: bool): (r: TypeConfig)
    ensures IsLootable(r) == value
    ensures forall g :: g != NoAccess && g != Lootable ==> HasFlag(r, g) == HasFlag(c, g)
  {
    SetFlagAnswers(c, Lootable, value);
    SetFlag(c, Lootable, value)
  }

  /** SetTemporary: the Temporary query answers `value` afterwards and every other flag keeps its answer. */
  function SetTemporary(c: TypeConfig, value: bool): (r: TypeConfig)
    ensures IsTemporary(r) == value
    ensures forall g :: g != NoAccess && g != Temporary ==> HasFlag(r, g) == HasFlag(c, g)
  {
    SetFlagAnswers(c, Temporary, value);
    SetFlag(c, Temporary, value)
  }

  /** SetPrivate: the Private query answers `value` afterwards and every other flag keeps its answer. */
  function SetPrivate(c: TypeConfig, value: bool): (r: TypeConfig)
    ensures IsPrivate(r) == value
    ensures forall g :: g != NoAccess && g != Private ==> HasFlag(r, g) == HasFlag(c, g)
  {
    SetFlagAnswers(c, Private, value);
    SetFlag(c, Private, value)
  }

  /**
   * With one bit per flag, setting a flag makes it hold, clearing it makes
   * it fail, and every other flag keeps its answer.
   */
  lemma SetFlagTouchesOnlyItsFlag(c: TypeConfig, f: AccessFlag, g: AccessFlag, value: bool)
    requires f != NoAccess && g != NoAccess
    ensures HasFlag(SetFlag(c, f, value), g) == if g == f then value else HasFlag(c, g)
  {
    match f
    case Public =>
      match g {
        case Public => case TeamShared => case Lootable => case Temporary => case Private =>
      }
    case TeamShared =>
      match g {
        case Public => case TeamShared => case Lootable => case Temporary => case Private =>
      }
    case Lootable =>
      match g {
        case Public => case TeamShared => case Lootable => case Temporary => case Private =>
      }
    case Temporary =>
      match g {
        case Public => case TeamShared => case Lootable => case Temporary => case Private =>
      }
    case Private =>
      match g {
        case Public => case TeamShared => case Lootable => case Temporary => case Private =>
      }
  }

  /** SetFlagTouchesOnlyItsFlag for every flag at once. */
  lemma SetFlagAnswers(c: TypeConfig, f: AccessFlag, value: bool)
    requires f != NoAccess
    ensures forall g :: g != NoAccess ==> HasFlag(SetFlag(c, f, value), g) == if g == f then value else HasFlag(c, g)
  {
    forall g | g != NoAccess
      ensures HasFlag(SetFlag(c, f, value), g) == if g == f then value else HasFlag(c, g)
    {
      SetFlagTouchesOnlyItsFlag(c, f, g, value);
    }
  }

  /** HasFlag(None) never holds: the None enumerator has no bit. */
  lemma NoFlagNeverSet(c: TypeConfig)
    ensures !HasFlag(c, NoAccess)
  {
  }

  /** The access bits set as the enum is declared, with ordinals used as masks. */
  function SetFlagAsDeclared(bits: bv8, f: AccessFlag, value: bool): bv8
  {
    if value then bits | DeclaredValue(f) else bits & !DeclaredValue(f)
  }

  predicate HasFlagAsDeclared(bits: bv8, f: AccessFlag)
  {
    bits & DeclaredValue(f) != 0
  }

  /**
   * With ordinals as masks the flags overlap: a Private-only record (5)
   * also reads as Public (1) and Temporary (4), and clearing Lootable (3)
   * also clears Public and TeamShared.
   */
  lemma DeclaredValuesOverlap()
    ensures HasFlagAsDeclared(DeclaredValue(Private), Public)
    ensures HasFlagAsDeclared(DeclaredValue(Private), Temporary)
    ensures !HasFlagAsDeclared(SetFlagAsDeclared(DeclaredValue(Public) | DeclaredValue(TeamShared), Lootable, false), Public)
    ensures !HasFlagAsDeclared(SetFlagAsDeclared(DeclaredValue(Public) | DeclaredValue(TeamShared), Lootable, false), TeamShared)
    ensures DeclaredValue(Private) | DeclaredValue(Lootable) == DeclaredValue(Public) | DeclaredValue(Lootable) | DeclaredValue(Temporary)
  {
  }
}
