// UMounteaEquipmentSlotBaseWidget: one equipment slot in the UI. It
// records the item widget attached to it and that item's slot guid;
// attaching and detaching answer with a status code and a text.
module EquipmentSlotWidget {
  import opened Common
  import opened GameplayTags
  import opened EquipmentHelpers
  import opened EquipmentConfigData
  import opened InventoryItemWidget

  datatype StatusCode = StatusOK | StatusBadRequest | StatusGenericIssue

  /** FInventoryUpdateResult: the code, the text, and whether the slot itself is the payload. */
  datatype UpdateResult = UpdateResult(code: StatusCode, text: string, payloadIsSlot: bool)

  function BadRequest(text: string): (r: UpdateResult)
    ensures r.code == StatusBadRequest && !r.payloadIsSlot && r.text == text
  {
    UpdateResult(StatusBadRequest, text, false)
  }

  /** The slot ids offered for selection: the valid tags of the configured identities, in order. */
  function ValidTags(ids: seq<SlotIdentity>): (r: seq<Tag>)
    ensures forall t :: t in r <==> TagValid(t) && exists d :: d in ids && d.slotTag == t
  {
    if ids == [] then []
    else
      var last := ids[|ids| - 1];
      var rest := ValidTags(ids[..|ids| - 1]);
      assert forall d :: d in ids <==> d == last || d in ids[..|ids| - 1];
      if TagValid(last.slotTag) then rest + [last.slotTag] else rest
  }

  class EquipmentSlotBaseWidget {
    /** The owning equipment UI, by id. */
    var owningEquipment: Option<nat>
    var parentSlotGuid: Guid
    var attachedItemWidget: ItemWidget?
    /** SlotID: the slot tag whose text it holds. */
    var slotID: Tag

    constructor()
      ensures owningEquipment == None && parentSlotGuid == InvalidGuid && attachedItemWidget == null && slotID == []
    {
      owningEquipment := None;
      parentSlotGuid := InvalidGuid;
      attachedItemWidget := null;
      slotID := [];
    }

    /** SetOwningEquipment: afterwards the slot belongs to the new equipment UI (a no-op when it already did). */
    method SetOwningEquipment(newOwningEquipment: Option<nat>)
      modifies this
      ensures owningEquipment == newOwningEquipment
      ensures parentSlotGuid == old(parentSlotGuid) && attachedItemWidget == old(attachedItemWidget) && slotID == old(slotID)
    {
      if owningEquipment == newOwningEquipment {
        return;
      }
      owningEquipment := newOwningEquipment;
    }

    /** IsSlotEmpty: no parent guid and no attached widget. */
    predicate IsSlotEmpty()
      reads this
    {
      !GuidValid(parentSlotGuid) && attachedItemWidget == null
    }

    /**
     * AttachItemToSlot: refuses a missing widget, the widget already
     * attached, a widget that is not an item widget, and an item whose
     * slot guid is the one already recorded; otherwise records the widget
     * and its guid. The slot need not be empty: a different widget
     * replaces the attached one.
     */
    method AttachItemToSlot(itemToAttach: ItemWidget?, inventory: Option<set<Guid>>) returns (result: UpdateResult)
      modifies this
      ensures result.code == StatusOK <==>
        itemToAttach != null && itemToAttach != old(attachedItemWidget) && itemToAttach.implementsItemInterface
        && itemToAttach.GetItemGuid(inventory) != old(parentSlotGuid)
      ensures result.code == StatusOK ==>
        parentSlotGuid == itemToAttach.GetItemGuid(inventory) && attachedItemWidget == itemToAttach
        && result.payloadIsSlot && result.text == "Equipment successful."
      ensures result.code != StatusOK ==>
        result.code == StatusBadRequest && !result.payloadIsSlot
        && parentSlotGuid == old(parentSlotGuid) && attachedItemWidget == old(attachedItemWidget)
      ensures itemToAttach == null ==> result.text == "Cannot attach invalid item!"
      ensures owningEquipment == old(owningEquipment) && slotID == old(slotID)
    {
      if itemToAttach == null {
        return BadRequest("Cannot attach invalid item!");
      }
      if itemToAttach == attachedItemWidget {
        return BadRequest("Cannot attach already attached item!");
      }
      if !itemToAttach.implementsItemInterface {
        return BadRequest("Cannot attach invalid item!");
      }
      var newGuid := itemToAttach.GetItemGuid(inventory);
      if newGuid == parentSlotGuid {
        return BadRequest("Cannot attach already attached item!");
      }
      parentSlotGuid := newGuid;
      attachedItemWidget := itemToAttach;
      result := UpdateResult(StatusOK, "Equipment successful.", true);
    }

    /**
     * DetachItemToSlot: needs the attached widget itself, an item widget,
     * and the recorded slot guid; then the slot is empty again.
     */
    method DetachItemToSlot(itemToDetach: ItemWidget?, inventory: Option<set<Guid>>) returns (result: UpdateResult)
      modifies this
      ensures result.code == StatusOK <==>
        itemToDetach != null && itemToDetach == old(attachedItemWidget) && itemToDetach.implementsItemInterface
        && itemToDetach.GetItemGuid(inventory) == old(parentSlotGuid)
      ensures result.code == StatusOK ==> IsSlotEmpty() && result.payloadIsSlot && result.text == "Detachement successful."
      ensures result.code != StatusOK ==>
        result.code == StatusBadRequest && !result.payloadIsSlot
        && parentSlotGuid == old(parentSlotGuid) && attachedItemWidget == old(attachedItemWidget)
      ensures itemToDetach == null ==> result.text == "Cannot detach invalid item!"
      ensures owningEquipment == old(owningEquipment) && slotID == old(slotID)
    {
      if itemToDetach == null {
        return BadRequest("Cannot detach invalid item!");
      }
      if itemToDetach != attachedItemWidget {
        return BadRequest("Cannot detach non-attached item!");
      }
      if !itemToDetach.implementsItemInterface {
        return BadRequest("Cannot detach invalid item!");
      }
      var newGuid := itemToDetach.GetItemGuid(inventory);
      if newGuid != parentSlotGuid {
        return BadRequest("Cannot detach non-attached item!");
      }
      parentSlotGuid := InvalidGuid;
      attachedItemWidget := null;
      result := UpdateResult(StatusOK, "Detachement successful.", true);
    }

    /**
     * UpdateSlotID: with a configuration loaded (`config`, None without
     * settings or config asset) that holds an identity for the tag, the
     * slot id becomes that tag; otherwise it stays.
     */
    method UpdateSlotID(affectedSlot: Tag, config: Option<seq<SlotIdentity>>)
      modifies this
      ensures config.Some? && KeyIndex(config.value, IdentityHashKey(IdentityOfTag(affectedSlot))) != -1 ==> slotID == affectedSlot
      ensures !(config.Some? && KeyIndex(config.value, IdentityHashKey(IdentityOfTag(affectedSlot))) != -1) ==> slotID == old(slotID)
      ensures owningEquipment == old(owningEquipment) && parentSlotGuid == old(parentSlotGuid)
      ensures attachedItemWidget == old(attachedItemWidget)
    {
      if config.Some? {
        var k := KeyIndex(config.value, IdentityHashKey(IdentityOfTag(affectedSlot)));
        if k != -1 {
          slotID := config.value[k].slotTag;
          return;
        }
      }
    }
  }

  /**
   * GetSlotIDOptions: the ids of the configured identities, skipping those
   * without a valid tag; empty without a configuration.
   */
  method GetSlotIDOptions(config: Option<seq<SlotIdentity>>) returns (results: seq<Tag>)
    ensures config.None? ==> results == []
    ensures config.Some? ==> results == ValidTags(config.value)
  {
    results := [];
    if config.None? {
      return;
    }
    var ids := config.value;
    var i := 0;
    while i < |ids|
      invariant 0 <= i <= |ids|
      invariant results == ValidTags(ids[..i])
    {
      assert ids[..i + 1][..i] == ids[..i];
      if TagValid(ids[i].slotTag) {
        results := results + [ids[i].slotTag];
      }
      i := i + 1;
    }
    assert ids[..|ids|] == ids;
  }

  /**
   * The hashed lookup of a tag finds an identity carrying exactly that
   * tag, so UpdateSlotID stores the tag it was given.
   */
  lemma LookupByTagFindsTag(ids: seq<SlotIdentity>, tag: Tag)
    requires KeyIndex(ids, IdentityHashKey(IdentityOfTag(tag))) != -1
    ensures ids[KeyIndex(ids, IdentityHashKey(IdentityOfTag(tag)))].slotTag == tag
    ensures exists d :: d in ids && d.slotTag == tag
  {
    var k := KeyIndex(ids, IdentityHashKey(IdentityOfTag(tag)));
    assert ids[k] in ids;
  }
}
