// Equipment slot records: a slot identity (name, tag, compatible tags),
// an equipment slot holding an instanced item, and a compare record that
// matches slots on the criteria it sets. Slot names are FText and compare
// with EqualTo, which is case-sensitive; FString's == is not.
module EquipmentHelpers {
  import opened Common
  import opened GameplayTags
  import opened InventoryInstancedItem

  /** FMounteaEquipmentSlotIdentity; the empty tag is the invalid FGameplayTag. */
  datatype SlotIdentity = SlotIdentity(slotName: string, slotTag: Tag, compatibleTags: Container)

  /** The default identity, also what Reset leaves. */
  const EmptyIdentity: SlotIdentity := SlotIdentity("", [], [])

  /** The identity made from a tag alone. */
  function IdentityOfTag(tag: Tag): (r: SlotIdentity)
    ensures r.slotTag == tag && r.slotName == "" && r.compatibleTags == []
  {
    SlotIdentity("", tag, [])
  }

  /** IsEmpty: no valid tag and no name. */
  predicate IdentityIsEmpty(i: SlotIdentity)
  {
    !TagValid(i.slotTag) && i.slotName == ""
  }

  /** operator==(FText): two empty names match, otherwise the strings compare ignoring case. */
  predicate IdentityEqualsName(i: SlotIdentity, name: string)
    ensures IdentityEqualsName(i, name) <==> EqualsCI(name, i.slotName)
  {
    if i.slotName == "" && name == "" then true else EqualsCI(name, i.slotName)
  }

  /** operator==(FGameplayTag): two invalid tags match, otherwise the tags must be equal. */
  predicate IdentityEqualsTag(i: SlotIdentity, tag: Tag)
    ensures IdentityEqualsTag(i, tag) <==> i.slotTag == tag
  {
    if !TagValid(i.slotTag) && !TagValid(tag) then true else i.slotTag == tag
  }

  /**
   * operator==(FMounteaEquipmentSlotIdentity): with both names empty only
   * the tags decide; otherwise an equal name or an equal tag is enough.
   */
  predicate IdentityEquals(a: SlotIdentity, b: SlotIdentity)
    ensures IdentityEquals(a, b) <==> (a.slotName == b.slotName && a.slotName != "") || a.slotTag == b.slotTag
  {
    if a.slotName == "" && b.slotName == "" then a.slotTag == b.slotTag
    else if a.slotName == b.slotName then true
    else a.slotTag == b.slotTag
  }

  /** The identity equality is reflexive and symmetric. */
  lemma IdentityEqualsReflexiveSymmetric(a: SlotIdentity, b: SlotIdentity)
    ensures IdentityEquals(a, a)
    ensures IdentityEquals(a, b) == IdentityEquals(b, a)
  {
  }

  /** Identities with the same tag are always equal, whatever their names. */
  lemma SameTagEqual(a: SlotIdentity, b: SlotIdentity)
    requires a.slotTag == b.slotTag
    ensures IdentityEquals(a, b)
  {
  }

  /**
   * The identity equality is not transitive: a slot named like a second
   * one that shares its tag with a third is equal to both, while those
   * two are not equal to each other.
   */
  lemma IdentityEqualsNotTransitive()
    ensures exists a, b, c :: IdentityEquals(a, b) && IdentityEquals(b, c) && !IdentityEquals(a, c)
  {
    var a := SlotIdentity("Head", ["Slot", "Head"], []);
    var b := SlotIdentity("Head", ["Slot", "Helmet"], []);
    var c := SlotIdentity("Helmet", ["Slot", "Helmet"], []);
    assert IdentityEquals(a, b) && IdentityEquals(b, c);
    assert a.slotTag != c.slotTag;
    assert !IdentityEquals(a, c);
  }

  /**
   * GetTypeHash hashes the tag only (zero for an invalid tag), so equal
   * identities can hash differently: same name, different tags.
   */
  function IdentityHashKey(i: SlotIdentity): (r: Tag)
    ensures TagValid(i.slotTag) ==> r == i.slotTag
    ensures !TagValid(i.slotTag) ==> r == []
  {
    if !TagValid(i.slotTag) then [] else i.slotTag
  }

  lemma EqualIdentitiesMayHashApart()
    ensures exists a, b :: IdentityEquals(a, b) && IdentityHashKey(a) != IdentityHashKey(b)
  {
    var a := SlotIdentity("Head", ["Slot", "Head"], []);
    var b := SlotIdentity("Head", ["Slot", "Helmet"], []);
    assert IdentityEquals(a, b) && IdentityHashKey(a) != IdentityHashKey(b);
  }

  /** Equal hash keys imply equal identities, so a hashed set keeps at most one identity per tag. */
  lemma SameHashKeyEqual(a: SlotIdentity, b: SlotIdentity)
    requires IdentityHashKey(a) == IdentityHashKey(b)
    ensures IdentityEquals(a, b)
  {
  }

  /** The slot guid an item gives: its instance guid, or the empty guid for no item. */
  function GuidOf(item: InstancedItem?): (g: Guid)
    ensures item == null ==> g == InvalidGuid
    ensures item != null ==> g == item.instanceID
  {
    if item == null then InvalidGuid else item.instanceID
  }

  /** FMounteaEquipmentSlotCompare: each criterion counts only when it is set. */
  datatype SlotCompare = SlotCompare(slotItem: InstancedItem?, slotID: string, slotTag: Tag)

  /** FEquipmentSlot. */
  class EquipmentSlot {
    var item: InstancedItem?
    var slotGuid: Guid
    var slotIdentity: SlotIdentity

    /** The default slot: no item, empty guid, empty identity. */
    constructor Empty()
      ensures item == null && slotGuid == InvalidGuid && slotIdentity == EmptyIdentity
    {
      item := null;
      slotGuid := InvalidGuid;
      slotIdentity := EmptyIdentity;
    }

    /** A slot for a tag. */
    constructor OfTag(tag: Tag)
      ensures item == null && slotGuid == InvalidGuid && slotIdentity == IdentityOfTag(tag)
    {
      item := null;
      slotGuid := InvalidGuid;
      slotIdentity := IdentityOfTag(tag);
    }

    /**
     * A slot for an item: the item's guid becomes the slot guid and the
     * name of its category, when it has one, the slot name.
     */
    constructor OfItem(newItem: InstancedItem?)
      ensures item == newItem && slotGuid == GuidOf(newItem)
      ensures slotIdentity.slotTag == [] && slotIdentity.compatibleTags == []
      ensures slotIdentity.slotName == (if newItem != null && newItem.category.Some? then newItem.category.value else "")
    {
      item := newItem;
      slotGuid := InvalidGuid;
      slotIdentity := EmptyIdentity;
      if newItem != null {
        slotGuid := newItem.instanceID;
        if newItem.category.Some? {
          slotIdentity := EmptyIdentity.(slotName := newItem.category.value);
        }
      }
    }

    /** UpdateSlot: the slot takes the item and its guid (the empty guid for no item); the identity stays. */
    method UpdateSlot(newItem: InstancedItem?)
      modifies this
      ensures item == newItem && slotGuid == GuidOf(newItem)
      ensures slotIdentity == old(slotIdentity)
    {
      item := newItem;
      slotGuid := if newItem != null then newItem.instanceID else InvalidGuid;
    }

    /** The slot guid agrees with the item held, as the constructors and UpdateSlot leave it. */
    predicate GuidMatchesItem()
      reads this
    {
      slotGuid == GuidOf(item)
    }

    predicate IsEmpty()
      reads this
    {
      item == null
    }

    /**
     * IsValid as written: true only for an EMPTY slot with a valid guid
     * and a valid tag, although it is documented to require an item.
     */
    predicate IsValidAsWritten()
      reads this
    {
      IsEmpty() && GuidValid(slotGuid) && TagValid(slotIdentity.slotTag)
    }

    /** IsValid as documented: an item, a valid guid and a valid tag. */
    predicate IsValid()
      reads this
    {
      !IsEmpty() && GuidValid(slotGuid) && TagValid(slotIdentity.slotTag)
    }

    /** operator==(FEquipmentSlot): the slot guids decide. */
    predicate EqualsSlot(other: EquipmentSlot)
      reads this, other
      ensures EqualsSlot(other) <==> slotGuid == other.slotGuid
    {
      other.slotGuid == slotGuid
    }

    /** operator==(const FEquipmentSlot*): false for null, otherwise the slot guids decide. */
    predicate EqualsSlotPointer(other: EquipmentSlot?)
      reads this, other
      ensures EqualsSlotPointer(other) <==> other != null && EqualsSlot(other)
    {
      if other == null then false else other.slotGuid == slotGuid
    }

    /** operator==(FGuid). */
    predicate EqualsGuid(g: Guid)
      reads this
      ensures EqualsGuid(g) <==> slotGuid == g
    {
      g == slotGuid
    }

    /** operator==(FText): the name, compared case-sensitively. */
    predicate EqualsName(name: string)
      reads this
      ensures EqualsName(name) <==> name == slotIdentity.slotName
    {
      name == slotIdentity.slotName
    }

    /** operator==(const UMounteaInstancedItem*): false for null, otherwise the same item object. */
    predicate EqualsItem(other: InstancedItem?)
      reads this
      ensures EqualsItem(other) <==> other != null && other == item
    {
      if other == null then false else other == item
    }

    /**
     * operator==(FMounteaEquipmentSlotCompare): the slot matches unless a
     * criterion that is set (an item, a valid tag, a non-empty id)
     * disagrees with it.
     */
    predicate MatchesCompare(c: SlotCompare)
      reads this
      ensures MatchesCompare(c) <==>
        (c.slotItem != null ==> c.slotItem == item)
        && (TagValid(c.slotTag) ==> c.slotTag == slotIdentity.slotTag)
        && (c.slotID != "" ==> c.slotID == slotIdentity.slotName)
    {
      var itemSame := c.slotItem == item;
      var nameSame := c.slotID == slotIdentity.slotName;
      var tagSame := c.slotTag == slotIdentity.slotTag;
      var afterItem := if c.slotItem != null && !itemSame then false else true;
      var afterTag := if TagValid(c.slotTag) && !tagSame then false else afterItem;
      if c.slotID != "" && !nameSame then false else afterTag
    }
  }

  /** Every slot matches a compare record that sets no criterion. */
  lemma EmptyCompareMatchesAll(s: EquipmentSlot)
    ensures s.MatchesCompare(SlotCompare(null, "", []))
  {
  }

  /** A slot matches the compare record built from its own item, name and tag. */
  lemma OwnCompareMatches(s: EquipmentSlot)
    ensures s.MatchesCompare(SlotCompare(s.item, s.slotIdentity.slotName, s.slotIdentity.slotTag))
  {
  }

  /** Adding a criterion only narrows the slots a compare record matches. */
  lemma CompareCriterionNarrows(s: EquipmentSlot, c: SlotCompare, tag: Tag)
    requires s.MatchesCompare(c.(slotTag := tag))
    requires !TagValid(c.slotTag)
    ensures s.MatchesCompare(c)
  {
  }

  /**
   * Two slots holding the same item, each as UpdateSlot or the item
   * constructor leaves it, compare equal; slots holding items with
   * different guids do not.
   */
  lemma SameItemSlotsEqual(a: EquipmentSlot, b: EquipmentSlot)
    requires a.GuidMatchesItem() && b.GuidMatchesItem()
    ensures a.item == b.item ==> a.EqualsSlot(b)
    ensures a.item != null && b.item != null && a.item.instanceID != b.item.instanceID ==> !a.EqualsSlot(b)
  {
  }

  /**
   * IsValid as written never holds for a slot whose guid is kept in step
   * with its item: an empty slot has the empty guid.
   */
  lemma IsValidAsWrittenNeverHolds(s: EquipmentSlot)
    requires s.GuidMatchesItem()
    ensures !s.IsValidAsWritten()
  {
  }

  /**
   * The documented IsValid, for a slot kept in step with its item, holds
   * exactly when the slot holds an item with a valid guid and a valid tag.
   */
  lemma ValidSlotHoldsItem(s: EquipmentSlot)
    requires s.GuidMatchesItem()
    ensures s.IsValid() <==> s.item != null && GuidValid(s.item.instanceID) && TagValid(s.slotIdentity.slotTag)
  {
  }
}
