# Mountea inventory and equipment, modelled in Dafny

This project models the core logic of the Mountea inventory and
equipment plugins for Unreal Engine, together with their editor tools.
Each source file in the core becomes one Dafny module:

- **Items and stacks.** Item records:
  - their guids, quantities, templates and affector slots;
  - the instanced-item flags, quantity and merging;
  - the item-slot stacks, with the stack arithmetic of the item function library (add amounts, fill stacks up to the maximum stack size, reduce quantities across stacks, update one stack).
- **Inventories.**
  - the advanced inventory component's item array (find, add, remove, increase, decrease, split, clear);
  - the actor inventory component's add-with-stacking, remove, subtract, finders and saved layout;
  - the inventory manager's allowed categories and rarities, with the bounded parent-category walk.
- **Grid slots.** The inventory grid widget's set of slots, keyed by position. This is a sequence with unique coordinates, where adding a slot replaces the one at the same position. It is used to add, remove, swap, clear and query slots, to place a quantity across slots, and to sum the stack sizes of an item.
- **Item widget cells and the scroll box.** The cells an item widget covers, its root coordinates and dirty flag, and the scroll box's active-index arithmetic.
- **Equipment.**
  - slot identities and their equality and hashing rules;
  - equipment slots and slot-compare records;
  - the equipment config's duplicate and empty-slot detection;
  - the equipment slot widget's attach and detach rules;
  - item shadows, which are the cells an item's footprint covers on the grid;
  - exclusion filters;
  - the fallback-slot repair of the equipment settings.
- **Attachments.** The Empty/Occupied/Locked state machines of an attachment slot and of an attachable, and the container's map from slot name to slot.
- **Settings and flags.**
  - the required inventory types and their default configurations;
  - the access and configuration bit flags;
  - the action-callback bit flags of a selectable item action.
- **Editor tools.** In the template editor and its search filter:
  - search and filter predicates and filter sets;
  - grouping templates into a category tree;
  - display-name truncation and dirty tracking;
  - help-link parsing and shared-asset injection into the help page;
  - assembling the JSON export string.
- **The Distinct Array node.** The Blueprint node's intersection of its input arrays, with duplicates removed.

The design follows these rules:

- **Changing state.** An object whose methods change its fields is a `class`. Most of its methods pin the new state exactly, or tie it to a specification function of the old state. Some pin only part of it:
  - the items grid's add path states each slot's kind of change, the totals and when it stops short, but not which slot takes what;
  - the actor inventory's add methods tie the stored quantities and the result to a specification function, and say only where the item objects come from.

  "## Left out" lists each such method by name.
- **Pure logic.** Pure logic is made of functions and lemmas.
- **Loops.** Source loops are `while` loops proved against specification functions.
- **Engine services.** Engine services become parameters of the operations that use them:
  - world and actor lookups;
  - data tables;
  - file dialogs;
  - guid generation;
  - the settings objects.
- **Unreal semantics.**
  - `FString` equality and ordering ignore case (ASCII folding), while `FText::EqualTo` is case-sensitive.
  - A `TSet` is a sequence without duplicates in iteration order.
  - A `TMap` is a Dafny `map`, or a sequence of pairs with distinct keys. Where the order of iteration matters, a key sequence is kept beside the map.
  - A gameplay tag is a sequence of name segments.
  - `Common` and `GameplayTags` hold these shared helpers.

Where a header and its `.cpp` file disagree, the model follows the `.cpp`. Where the code does not do what its comments or documentation promise, the model keeps the code as written in a member named `...AsWritten`. The corrected member beside it is the one the rest of the model uses (see "## Findings").

## Model

| member | source | states |
|---|---|---|
| ActorInventory.ClassLookupAsWritten | Source/ActorInventoryPlugin/Private/Components/ActorInventoryComponent.cpp:481-491 | as written the class test is the static base class: the base class finds the first non-null entry, any other class finds nothing |
| ActorInventory.ClassLookupIgnoresClass | Source/ActorInventoryPlugin/Private/Components/ActorInventoryComponent.cpp:485 | a single stored item of a derived class is found when asking for the base class and not when asking for its own class, unlike a lookup by the item's class |
| ActorInventory.StackOnto | Source/ActorInventoryPlugin/Private/Components/ActorInventoryComponent.cpp:169-243 | stacking onto a stored item with the same data: succeeds only for a stackable item that lands exactly on MaxQuantity or below it with a category; past the limit the stored item is filled to MaxQuantity and the excess stays on the incoming item; a non-stackable item is refused with LimitReached |
| ActorInventory.StackOntoNeverLoses | Source/ActorInventoryPlugin/Private/Components/ActorInventoryComponent.cpp:188-235 | for a non-negative amount onto a stored item within its limit, the stored quantity never drops, never passes MaxQuantity, and the incoming item keeps between none and all of its amount |
| ActorInventory.AddNew | Source/ActorInventoryPlugin/Private/Components/ActorInventoryComponent.cpp:245-281 | storing an unmatched item: within MaxQuantity the item itself is stored; over it, a copy with a new data guid and MaxQuantity is stored, the rest stays on the incoming item, and the call reports SplitStack and false |
| ActorInventory.SaveSlot | Source/ActorInventoryPlugin/Private/Components/ActorInventoryComponent.cpp:89-113 | the saved layout changes at the slot's coordinates only: a known key is overwritten by a valid slot (item, positive quantity, created manually) and removed otherwise; an unknown key is added only for a slot created manually |
| ActorInventory.SaveSlotTwice | Source/ActorInventoryPlugin/Private/Components/ActorInventoryComponent.cpp:89-113 | saving a valid slot twice equals saving it once; an invalid manual slot at a known key is removed and comes back on a second save |
| ActorInventory.RemoveEach | Source/ActorInventoryPlugin/Private/Components/ActorInventoryComponent.cpp:301-307 | removing a list of items never grows the array, never introduces an item, and leaves the count of every unlisted item as it was |
| ActorInventory.RemoveEachRemoves | Source/ActorInventoryPlugin/Private/Components/ActorInventoryComponent.cpp:301-315 | removing a list takes one occurrence of each non-null listed item off the array, where there is one, and nothing else |
| ActorInventory.NonNullCounts | Source/ActorInventoryPlugin/Private/Components/ActorInventoryComponent.cpp:309-315 | the items that the remove loop passes on to RemoveSingle are the non-null entries of the list, each as often as it is listed |
| ActorInventory.ActorInventory.FindItemByGUID | Source/ActorInventoryPlugin/Private/Components/ActorInventoryComponent.cpp:402-413 | true exactly when some non-null stored item has the data guid |
| ActorInventory.ActorInventory.GetItemByGUID | Source/ActorInventoryPlugin/Private/Components/ActorInventoryComponent.cpp:454-465 | the first stored item with the data guid, or null; a result is in the array and carries the guid |
| ActorInventory.ActorInventory.FindItemByData | Source/ActorInventoryPlugin/Private/Components/ActorInventoryComponent.cpp:415-425 | true exactly when some stored item's data equals the given data, which compares data guids |
| ActorInventory.ActorInventory.GetItemByData | Source/ActorInventoryPlugin/Private/Components/ActorInventoryComponent.cpp:427-438 | the first stored item with equal data (the same data guid), or null |
| ActorInventory.ActorInventory.FindItemByClass | Source/ActorInventoryPlugin/Private/Components/ActorInventoryComponent.cpp:389-400 | true exactly when some stored item's own class is the class |
| ActorInventory.ActorInventory.GetItemByClassAsWritten | Source/ActorInventoryPlugin/Private/Components/ActorInventoryComponent.cpp:481-491 | the entry the as-written static-class lookup gives |
| ActorInventory.ActorInventory.GetItemByClass | Source/ActorInventoryPlugin/Private/Components/ActorInventoryComponent.cpp:481-491 | the first stored item whose own class is the class, or null |
| ActorInventory.ActorInventory.GetItemsByGUID | Source/ActorInventoryPlugin/Private/Components/ActorInventoryComponent.cpp:467-479 | exactly the non-null stored items with the data guid, each once |
| ActorInventory.ActorInventory.GetItemsByData | Source/ActorInventoryPlugin/Private/Components/ActorInventoryComponent.cpp:440-452 | exactly the non-null stored items with equal data, each once |
| ActorInventory.ActorInventory.GetItemsByClass | Source/ActorInventoryPlugin/Private/Components/ActorInventoryComponent.cpp:493-505 | with the class test corrected to each item's own class: exactly the non-null stored items of the class, each once |
| ActorInventory.ActorInventory.GetItemByCategory | Source/ActorInventoryPlugin/Private/Components/ActorInventoryComponent.cpp:507-518 | null exactly when no stored item has a category with the guid; otherwise the first such item |
| ActorInventory.ActorInventory.GetItemsByCategory | Source/ActorInventoryPlugin/Private/Components/ActorInventoryComponent.cpp:520-532 | the stored items in that category, each as often as it is stored, and nothing else |
| ActorInventory.ActorInventory.IsItemInInventory | Source/ActorInventoryPlugin/Private/Components/ActorInventoryComponent.cpp:534-547 | false for null; otherwise true exactly when some stored item has the item's data guid |
| ActorInventory.ActorInventory.GetItemQuantity | Source/ActorInventoryPlugin/Private/Components/ActorInventoryComponent.cpp:370-377 | the passed item's own quantity when it is in the inventory, and 0 otherwise |
| ActorInventory.ActorInventory.AddItemToInventory | Source/ActorInventoryPlugin/Private/Components/ActorInventoryComponent.cpp:132-284 | for any Stock the heap mirrors (the array, and the data of every stored or listed object), the verdict, the broadcast context and the new heap are AddTo of that Stock: the heap afterwards mirrors AddTo's Stock; a split-off copy is a fresh base-class object; the array gains only the item or new objects; the layout stays |
| ActorInventory.ActorInventory.AddItemsToInventory | Source/ActorInventoryPlugin/Private/Components/ActorInventoryComponent.cpp:286-299 | the verdict and the new heap are AddEach, the fold of AddTo over the list that stops at the first refusal, started from the Stock of the array and the list as they were: the result is AddEach's verdict and the heap mirrors AddEach's Stock; copies made are fresh; the array gains only listed or new objects; the layout stays |
| ActorInventory.ActorInventory.RemoveItemFromInventory | Source/ActorInventoryPlugin/Private/Components/ActorInventoryComponent.cpp:309-315 | a non-null item loses its first occurrence; null changes nothing |
| ActorInventory.ActorInventory.RemoveItemsFromInventory | Source/ActorInventoryPlugin/Private/Components/ActorInventoryComponent.cpp:301-307 | the array afterwards is RemoveEach of the list, and its multiset is the old one less one occurrence of every non-null listed item |
| ActorInventory.ActorInventory.SubtractItemFromInventory | Source/ActorInventoryPlugin/Private/Components/ActorInventoryComponent.cpp:317-358 | with the class fallback corrected: null gives InvalidItem; otherwise the SubtractTarget entry loses the amount, or is removed when that leaves zero or less (SuccessRemovedItem); no target leaves everything as it was (Default); every other entry keeps its data |
| ActorInventory.ActorInventory.SubtractItemsFromInventory | Source/ActorInventoryPlugin/Private/Components/ActorInventoryComponent.cpp:360-368 | the array and every stored quantity end as SubtractEach, the pairs subtracted one after another in the map's order, computes them from the state before the call; nothing new enters the array |
| ActorInventory.ActorInventory.SaveToInventoryLayout | Source/ActorInventoryPlugin/Private/Components/ActorInventoryComponent.cpp:89-113 | the saved layout becomes SaveSlot of the old one; the items stay |
| ActorInventory.SubtractTarget | Source/ActorInventoryPlugin/Private/Components/ActorInventoryComponent.cpp:334-342 | with the class fallback corrected: the entry Subtract works on is none for null, the guid match when there is one (the data lookup compares the same guid), else the first entry of the item's own class |
| ActorInventory.ActorInventory.GetItemsByClassAsWritten | Source/ActorInventoryPlugin/Private/Components/ActorInventoryComponent.cpp:493-505 | as written the test compares the base class with the class asked for: every non-null stored item, each once, for the base class, and nothing for any other class |
| ActorInventory.ActorInventory.FindAddTarget | Source/ActorInventoryPlugin/Private/Components/ActorInventoryComponent.cpp:158-167 | the stored entry an add stacks onto: the first one with the item's data guid, or null |
| ActorInventory.ActorInventory.StackExisting | Source/ActorInventoryPlugin/Private/Components/ActorInventoryComponent.cpp:169-243 | stacking onto the matched entry: the verdict, context and both quantities are StackOnto's, with the item's leftover written back on it |
| ActorInventory.ActorInventory.AddUnmatched | Source/ActorInventoryPlugin/Private/Components/ActorInventoryComponent.cpp:245-281 | the unmatched branch: the verdict and context are AddNew's; within the limit the item itself is appended, over it a fresh base-class copy with the capped quantity is appended and the rest stays on the item |
| ActorInventory.ActorInventory.AddListed | Source/ActorInventoryPlugin/Private/Components/ActorInventoryComponent.cpp:288-294 | one pass of the loop: the fold over one more item is AddItemToInventory's outcome on the Stock so far, which the heap mirrors afterwards; the new copy, if any, is fresh and earlier copies are kept |
| ActorInventory.ActorInventory.FindSubtractTarget | Source/ActorInventoryPlugin/Private/Components/ActorInventoryComponent.cpp:334-342 | the entry found by guid, then by data, then by the corrected class lookup, is the SubtractTarget entry |
| ActorInventory.ActorInventory.SubtractFrom | Source/ActorInventoryPlugin/Private/Components/ActorInventoryComponent.cpp:344-355 | the found entry loses the amount, or leaves the array and keeps its data when that leaves zero or less |
| ActorInventory.ActorInventory.SubtractItemFromInventoryAsWritten | Source/ActorInventoryPlugin/Private/Components/ActorInventoryComponent.cpp:317-358 | as written: the same outcome as SubtractItemFromInventory, on the SubtractTargetAsWritten entry |
| ActorInventory.ActorInventory.FindSubtractTargetAsWritten | Source/ActorInventoryPlugin/Private/Components/ActorInventoryComponent.cpp:334-342 | as written, the lookup by guid, then by data, then the static-class lookup, gives the SubtractTargetAsWritten entry |
| ActorInventory.SubtractTargetAsWritten | Source/ActorInventoryPlugin/Private/Components/ActorInventoryComponent.cpp:334-342 | as written the class fallback takes the first non-null entry: none for null, the guid match when there is one, otherwise the first non-null entry |
| ActorInventory.SubtractAsWrittenTakesFirstEntry | Source/ActorInventoryPlugin/Private/Components/ActorInventoryComponent.cpp:340 | with no guid match Subtract as written finds nothing only in an array of nulls and otherwise takes the first non-null entry; the corrected target always has the item's class |
| ActorInventory.SubtractAsWrittenDrainsUnrelated | Source/ActorInventoryPlugin/Private/Components/ActorInventoryComponent.cpp:340 | one stored item of another guid and class: Subtract as written works on it, the corrected lookup finds nothing |
| ActorInventory.ActorInventory.SubtractOne | Source/ActorInventoryPlugin/Private/Components/ActorInventoryComponent.cpp:362-365 | one pair of the map: the array and quantities become SubtractStep's on the recorded quantities and guids |
| ActorInventory.SubtractStep | Source/ActorInventoryPlugin/Private/Components/ActorInventoryComponent.cpp:317-358 | one subtraction on recorded quantities and guids never brings a new entry into the array and keeps every recorded quantity |
| ActorInventory.SubtractEach | Source/ActorInventoryPlugin/Private/Components/ActorInventoryComponent.cpp:360-368 | the pairs subtracted in order never bring a new entry into the array and keep every recorded quantity key |
| ActorInventory.TargetAgrees | Source/ActorInventoryPlugin/Private/Components/ActorInventoryComponent.cpp:334-342 | with the guids recorded as they stand, the target found on the record is SubtractTarget's |
| ActorInventory.GuidIndex | Source/ActorInventoryPlugin/Private/Components/ActorInventoryComponent.cpp:158-163 | on a Stock, the index of the first stored entry whose data has the guid, or -1 exactly when no entry has it |
| ActorInventory.GuidIndexMirrors | Source/ActorInventoryPlugin/Private/Components/ActorInventoryComponent.cpp:158-163 | where the heap holds the Stock's data for every stored object, the array lookup by guid finds what GuidIndex finds |
| ActorInventory.AddTo | Source/ActorInventoryPlugin/Private/Components/ActorInventoryComponent.cpp:132-284 | a null, unknown or invalid item is refused with FailedInvalidItem and nothing changed; otherwise the array keeps its prefix and grows by at most one at its end; no object is forgotten and only the copy is new; every entry other than the item, the copy and the guid match keeps its data |
| ActorInventory.Stacked | Source/ActorInventoryPlugin/Private/Components/ActorInventoryComponent.cpp:169-243 | stacking onto the guid match: the array and the set of objects stay, the verdict and context are StackOnto's, and only the two items involved change |
| ActorInventory.Appended | Source/ActorInventoryPlugin/Private/Components/ActorInventoryComponent.cpp:245-281 | the unmatched branch on a Stock: accepted exactly when the quantity is within MaxQuantity, with AddNew's context; accepted means the item itself is appended and nothing else changes; refused with a copy means the copy is appended and becomes known; every other entry keeps its data |
| ActorInventory.AddEachStops | Source/ActorInventoryPlugin/Private/Components/ActorInventoryComponent.cpp:288-294 | once an item of the list is refused, the outcome of the whole list is the outcome up to that item: nothing after it is applied |
| ActorInventory.AddEachAppends | Source/ActorInventoryPlugin/Private/Components/ActorInventoryComponent.cpp:286-299 | adding a list never drops or reorders stored entries: the array keeps its prefix and grows by at most the list's length |
| ActorInventory.NullStopsList | Source/ActorInventoryPlugin/Private/Components/ActorInventoryComponent.cpp:137-143 | a null entry in the list is refused, and the Stock is what the items before it left |
| AttachmentSlot.Slot.constructor | Source/MounteaAdvancedInventorySystem/Private/Definitions/MounteaAdvancedAttachmentSlot.cpp:13-16 | a new slot is Empty with no attachment and has told no attachable anything, so its attachment is present exactly while it is Occupied |
| AttachmentSlot.Slot.AttachmentSocketName | Source/MounteaAdvancedInventorySystem/Private/Definitions/MounteaAdvancedAttachmentSlot.cpp:205-216 | a socket slot attaches at its socket name, a component slot at no name |
| AttachmentSlot.Slot.Attach | Source/MounteaAdvancedInventorySystem/Private/Definitions/MounteaAdvancedAttachmentSlot.cpp:100-126 | succeeds exactly when the slot can attach, the attachment exists, and the checks pass in order: a target component, an attachable found for the object (the object itself, or an actor's component) that answers CanAttach, the socket for a socket slot, and an object that is a scene component or an actor; then the slot is Occupied by that attachment and the attachable found is told the slot name, otherwise nothing changes; an occupied slot is overwritten |
| AttachmentSlot.Slot.CompleteAttachment | Source/MounteaAdvancedInventorySystem/Private/Definitions/MounteaAdvancedAttachmentSlot.cpp:218-223 | the slot holds the attachment, is Occupied, and has told the attachable its slot name (AttachToSlot) |
| AttachmentSlot.Slot.Detach | Source/MounteaAdvancedInventorySystem/Private/Definitions/MounteaAdvancedAttachmentSlot.cpp:225-236 | succeeds exactly on an occupied slot and leaves it Empty without attachment, having told an attachment that implements the interface that it is detached; otherwise nothing changes |
| AttachmentSlot.Slot.DisableSlot | Source/MounteaAdvancedInventorySystem/Private/Definitions/MounteaAdvancedAttachmentSlot.cpp:88-93 | the slot ends Locked whatever it was; a slot that was not empty is detached first, with Detach's notice |
| AttachmentContainer.ContainerComponent.constructor | Source/MounteaAdvancedInventorySystem/Private/Components/MounteaAttachmentContainerComponent.cpp:8-21 | a new container has no slots |
| AttachmentContainer.ContainerComponent.GetSlot | Source/MounteaAdvancedInventorySystem/Private/Components/MounteaAttachmentContainerComponent.cpp:29-33 | the slot stored under the id, or null when there is none |
| AttachmentContainer.ContainerComponent.DisableSlot | Source/MounteaAdvancedInventorySystem/Private/Components/MounteaAttachmentContainerComponent.cpp:41-48 | detaches the named slot, without locking it: true exactly when the slot exists and was occupied, the slot sends Detach's notice; an unknown id gives false |
| AttachmentContainer.ContainerComponent.TryAttach | Source/MounteaAdvancedInventorySystem/Private/Components/MounteaAttachmentContainerComponent.cpp:50-57 | with the component offered as a scene component: true exactly for an attachment and a known slot that can attach, when the target is valid, the component agrees and a socket slot finds its socket; then the slot holds the component and has told it the slot name; otherwise the slot is unchanged |
| AttachmentContainer.ContainerComponent.TryDetach | Source/MounteaAdvancedInventorySystem/Private/Components/MounteaAttachmentContainerComponent.cpp:59-63 | true exactly when the named slot exists and was occupied; then it is Empty and has sent Detach's notice |
| AttachmentContainer.ContainerComponent.ForceAttach | Source/MounteaAdvancedInventorySystem/Private/Components/MounteaAttachmentContainerComponent.cpp:65-77 | skips every check but a missing attachment or slot, the physical attach included: the slot becomes Occupied by the component and tells nobody |
| AttachmentContainer.ContainerComponent.ForceDetach | Source/MounteaAdvancedInventorySystem/Private/Components/MounteaAttachmentContainerComponent.cpp:79-88 | any known slot becomes Empty with no attachment, occupied or not, and tells nobody |
| AttachmentContainer.ContainerComponent.FindFirstFreeSlotWithTags | Source/MounteaAdvancedInventorySystem/Private/Components/MounteaAttachmentContainerComponent.cpp:90-100 | the first slot in map order that can attach and has all the required tags, or no name when there is none; this is FirstFree of the tags |
| AttachmentContainer.ContainerComponent.GetSlotIdForAttachable | Source/MounteaAdvancedInventorySystem/Private/Components/MounteaAttachmentContainerComponent.cpp:102-114 | no name for a missing attachable; otherwise the first occupied slot in map order holding it, or no name; this is SlotHolding of the attachable |
| AttachmentContainer.ContainerComponent.ClearAll | Source/MounteaAdvancedInventorySystem/Private/Components/MounteaAttachmentContainerComponent.cpp:116-122 | every occupied slot becomes Empty and sends Detach's notice, every other slot is untouched; consistent slots stay consistent |
| Attachable.AttachableComponent.constructor | Source/MounteaAdvancedInventorySystem/Private/Components/MounteaAttachableComponent.cpp:8-21 | a new attachable is Empty and attached to nothing |
| Attachable.AttachableComponent.AttachToSlot | Source/MounteaAdvancedInventorySystem/Private/Components/MounteaAttachableComponent.cpp:48-59 | with the component offered as a scene component: succeeds exactly when this component can attach, the container is present, the named slot can attach, the target is valid and a socket slot finds its socket; then both sides record the attachment and the slot has told this component its name, otherwise this component is unchanged |
| Attachable.AttachableComponent.AttachToContainer | Source/MounteaAdvancedInventorySystem/Private/Components/MounteaAttachableComponent.cpp:61-71 | with the component offered as a scene component: succeeds exactly when the component can attach, the container exists, FirstFree of its tags names a slot, the engine target is valid and, for a socket slot, the socket exists; then that slot holds the component and has told it its name, and every other slot is unchanged; on failure no slot and not the component change |
| Attachable.AttachableComponent.Detach | Source/MounteaAdvancedInventorySystem/Private/Components/MounteaAttachableComponent.cpp:73-85 | succeeds exactly when occupied; then it is Empty and attached to nothing; the slot SlotHolding named before the call, if any, is Empty with no attachment and has sent its detach notice, and every other slot of the container is unchanged |
| Attachable.AttachableComponent.Disable | Source/MounteaAdvancedInventorySystem/Private/Components/MounteaAttachableComponent.cpp:87-93 | always ends Locked, keeping its id, name and tags; an occupied component is detached first: the slot SlotHolding named before the call, if any, ends Empty with no attachment and Detach's notice, and every other slot of the container is unchanged (all of them when it was not occupied) |
| AttachmentSlot.SlotGuards | Source/MounteaAdvancedInventorySystem/Public/Definitions/MounteaAdvancedAttachmentSlotBase.h:124-135 | a valid slot has a parent container and a name or tags; an invalid or a locked slot accepts neither attach nor detach; a detachable slot can be attached to, being overwritten |
| AttachmentSlot.MatchesTagsModes | Source/MounteaAdvancedInventorySystem/Public/Definitions/MounteaAdvancedAttachmentSlotBase.h:141-144 | requiring all of a non-empty query implies matching any of it; the empty query matches all and never any; matching any means holding one of the tags |
| Attachable.AttachableGuards | Source/MounteaAdvancedInventorySystem/Private/Components/MounteaAttachableComponent.cpp:23-46 | a consistent component can attach exactly when it has a display name and an id and is Empty; occupied or locked ones cannot |
| AttachmentSlot.FindAttachable | Source/MounteaAdvancedInventorySystem/Private/Definitions/MounteaAdvancedAttachmentSlot.cpp:128-158 | an object implementing the attachable interface is its own attachable; otherwise an actor yields the first of its components that implements it, and anything else yields none |
| AttachmentSlot.DetachNotice | Source/MounteaAdvancedInventorySystem/Private/Definitions/MounteaAdvancedAttachmentSlot.cpp:225-236 | detaching sends one SetState(Detached) to the attachment exactly when the slot is occupied by an object implementing the interface, and nothing otherwise |
| AttachmentSlot.AcceptedKinds | Source/MounteaAdvancedInventorySystem/Private/Definitions/MounteaAdvancedAttachmentSlot.cpp:184-203 | with the other checks passing, an attach goes through exactly for a scene component implementing the interface, or an actor that implements it or has a component that does; an actor component never goes through |
| AttachmentContainer.AsAttachableComponent | Source/MounteaAdvancedInventorySystem/Private/Components/MounteaAttachmentContainerComponent.cpp:50-57 | the container offers a slot a UMounteaAttachableComponent, an actor component that implements the interface, which the physical attach refuses |
| AttachmentContainer.AsSceneAttachable | Source/MounteaAdvancedInventorySystem/Private/Components/MounteaAttachmentContainerComponent.cpp:50-57 | the corrected offer: the same component as a scene component implementing the interface, which the physical attach accepts |
| AttachmentContainer.AttachableComponentNeverAttaches | Source/MounteaAdvancedInventorySystem/Private/Definitions/MounteaAdvancedAttachmentSlot.cpp:184-203 | no slot accepts an attachable component offered as the code offers it, whatever the engine answers; offered as a scene component, only the target, agreement and socket checks decide |
| AttachmentContainer.ContainerComponent.TryAttachAsWritten | Source/MounteaAdvancedInventorySystem/Private/Components/MounteaAttachmentContainerComponent.cpp:50-57 | as written, TryAttach never succeeds and leaves the slot as it was |
| Attachable.AttachableComponent.AttachToSlotAsWritten | Source/MounteaAdvancedInventorySystem/Private/Components/MounteaAttachableComponent.cpp:48-59 | as written, AttachTo with a slot id never succeeds and changes neither the component nor the slot |
| Attachable.AttachableComponent.AttachToContainerAsWritten | Source/MounteaAdvancedInventorySystem/Private/Components/MounteaAttachableComponent.cpp:61-71 | as written, AttachTo a container never succeeds and changes neither the component nor any slot |
| AttachmentContainer.ContainerComponent.FreeFrom | Source/MounteaAdvancedInventorySystem/Private/Components/MounteaAttachmentContainerComponent.cpp:90-100 | the first index from the given one whose slot can attach and has all the required tags, or -1 exactly when none from there has |
| AttachmentContainer.ContainerComponent.HoldingFrom | Source/MounteaAdvancedInventorySystem/Private/Components/MounteaAttachmentContainerComponent.cpp:102-114 | the first index from the given one whose slot is occupied by the attachable, or -1 exactly when none from there is |
| AttachmentContainer.ContainerComponent.IsValidSlot | Source/MounteaAdvancedInventorySystem/Private/Components/MounteaAttachmentContainerComponent.cpp:23-27 | a slot id is valid exactly when GetSlot finds a slot under it |
| DistinctArray.CollectContents | Source/MounteaInventoryEquipmentDeveloper/Private/K2Nodes/K2Node_DistinctArray.cpp:82-131 | the values the scan appends are duplicate-free and are exactly the scanned values that occur in every input array |
| DistinctArray.CollectIgnoresCovered | Source/MounteaInventoryEquipmentDeveloper/Private/K2Nodes/K2Node_DistinctArray.cpp:113-130 | scanning values that are not common, or are already in the output, appends nothing |
| DistinctArray.OutputFollowsFirstArray | Source/MounteaInventoryEquipmentDeveloper/Private/K2Nodes/K2Node_DistinctArray.cpp:71-133 | scanning all inputs in pin order gives the same output as scanning the first input alone: the distinct common values in the first array's order |
| DistinctArray.ArrayContains | Source/MounteaInventoryEquipmentDeveloper/Private/K2Nodes/K2Node_DistinctArray.cpp:95-103 | true exactly when the value is in the array |
| DistinctArray.ExistsInAllOthers | Source/MounteaInventoryEquipmentDeveloper/Private/K2Nodes/K2Node_DistinctArray.cpp:86-111 | true exactly when every input array other than the scanned one holds the value |
| DistinctArray.Compile | Source/MounteaInventoryEquipmentDeveloper/Private/K2Nodes/K2Node_DistinctArray.cpp:45-134 | the output is duplicate-free, holds exactly the values common to all inputs (nothing for no inputs), and equals the scan of the first input |
| DistinctArray.PinName | Source/MounteaInventoryEquipmentDeveloper/Private/K2Nodes/K2Node_DistinctArray.cpp:562-565 | an input pin is named "Array [" followed by its index and "]" |
| DistinctArray.PinNamesDistinct | Source/MounteaInventoryEquipmentDeveloper/Private/K2Nodes/K2Node_DistinctArray.cpp:562-570 | different indices give different input pin names, and none is the output pin's name |
| DistinctArray.IsConnectionDisallowed | Source/MounteaInventoryEquipmentDeveloper/Private/K2Nodes/K2Node_DistinctArray.cpp:539-560 | refused exactly for a missing pin, a non-container pin on an unsplit input, or an exec pin; a refusal carries a reason and an acceptance none |
| DistinctArray.DistinctArrayNode.constructor | Source/MounteaInventoryEquipmentDeveloper/Private/K2Nodes/K2Node_DistinctArray.cpp:139-144 | a new node has the minimum of two inputs |
| DistinctArray.DistinctArrayNode.AllocateDefaultPins | Source/MounteaInventoryEquipmentDeveloper/Private/K2Nodes/K2Node_DistinctArray.cpp:485-499 | the output pin first, then one input pin per input index in order, so at least three pins |
| EditorHelp.AtoiDecimal | Source/MounteaAdvancedInventorySystemEditor/Private/Editor/MounteaItemTemplatesEditorHelp.cpp:272 | the page id parse reads back the decimal text of any page number, and of its negation |
| EditorHelp.AtoiOfDigits | Source/MounteaAdvancedInventorySystemEditor/Private/Editor/MounteaItemTemplatesEditorHelp.cpp:272 | the number parse reads a run of digits, bare or after a minus sign, as the number the digits spell |
| EditorHelp.SplitAtColon | Source/MounteaAdvancedInventorySystemEditor/Private/Editor/MounteaItemTemplatesEditorHelp.cpp:263 | the split fails exactly when there is no ':'; otherwise the text is the part before, a ':', and the part after, and the part before holds no ':' |
| EditorHelp.FirstColonUnique | Source/MounteaAdvancedInventorySystemEditor/Private/Editor/MounteaItemTemplatesEditorHelp.cpp:263 | a text splits at its first ':' in only one way |
| EditorHelp.HandleConsoleMessage | Source/MounteaAdvancedInventorySystemEditor/Private/Editor/MounteaItemTemplatesEditorHelp.cpp:256-295 | a message not starting with the link prefix (ignoring case) does nothing, and any action comes from a prefixed message that holds a ':' after the prefix |
| EditorHelp.PrefixedMessage | Source/MounteaAdvancedInventorySystemEditor/Private/Editor/MounteaItemTemplatesEditorHelp.cpp:258-293 | a message made of the prefix in any case, a type without ':', a ':' and a url is dispatched on exactly that type and url |
| EditorHelp.PageLinkRoundTrip | Source/MounteaAdvancedInventorySystemEditor/Private/Editor/MounteaItemTemplatesEditorHelp.cpp:270-274 | a page link carrying the decimal text of a page id switches to that page |
| EditorHelp.ExternalLinkRoundTrip | Source/MounteaAdvancedInventorySystemEditor/Private/Editor/MounteaItemTemplatesEditorHelp.cpp:275-278 | an external link launches its url whole, colons included |
| EditorHelp.LowerCasePrefixAccepted | Source/MounteaAdvancedInventorySystemEditor/Private/Editor/MounteaItemTemplatesEditorHelp.cpp:258 | the prefix matches ignoring case, so the lower-case prefix is accepted |
| EditorHelp.UnknownTypeIgnored | Source/MounteaAdvancedInventorySystemEditor/Private/Editor/MounteaItemTemplatesEditorHelp.cpp:265-292 | a link type none of the branches names does nothing |
| EditorHelp.InjectTagContains | Source/MounteaAdvancedInventorySystemEditor/Private/Editor/MounteaItemTemplatesEditorHelp.cpp:210-217 | after injecting, the page contains the tag |
| EditorHelp.InjectTagInserts | Source/MounteaAdvancedInventorySystemEditor/Private/Editor/MounteaItemTemplatesEditorHelp.cpp:210-239 | a tag the page lacks is inserted once at the insertion point (the front for the style, the end for the script, when the marker is missing), and cutting it out again gives back the page |
| EditorHelp.InjectTagBeforeMarker | Source/MounteaAdvancedInventorySystemEditor/Private/Editor/MounteaItemTemplatesEditorHelp.cpp:212-215 | on a page with the marker the tag goes directly before the marker's first occurrence, found ignoring case |
| EditorHelp.InjectTagIdempotent | Source/MounteaAdvancedInventorySystemEditor/Private/Editor/MounteaItemTemplatesEditorHelp.cpp:210 | injecting the same tag twice is injecting it once |
| EditorHelp.InjectInto | Source/MounteaAdvancedInventorySystemEditor/Private/Editor/MounteaItemTemplatesEditorHelp.cpp:208-218 | one injection step computes InjectTag: skipped when the page holds the tag, otherwise inserted before the marker or at the given end |
| EditorHelp.InjectSharedAssets | Source/MounteaAdvancedInventorySystemEditor/Private/Editor/MounteaItemTemplatesEditorHelp.cpp:192-245 | without settings the page is returned as is; otherwise the style tag is injected before the head end when a stylesheet is configured and loads, then the script tag before the body end when a script is configured and loads |
| EditorHelp.Atoi | Source/MounteaAdvancedInventorySystemEditor/Private/Editor/MounteaItemTemplatesEditorHelp.cpp:272 | the page id parse skips leading white space, takes an optional sign and the longest run of digits, and gives 0 without digits |
| EditorHelp.InjectTag | Source/MounteaAdvancedInventorySystemEditor/Private/Editor/MounteaItemTemplatesEditorHelp.cpp:208-218 | a page that contains the tag, ignoring case, is kept; otherwise the tag is inserted at the insertion point |
| EditorStatics.ValidJson | Source/MounteaAdvancedInventorySystemEditor/Private/Statics/MounteaAdvancedInventoryItemTemplateEditorStatics.cpp:131-140 | the collected texts are exactly the non-empty JSON of the valid templates: each comes from some template, every valid template's non-empty JSON is among them, and there are no more than templates |
| EditorStatics.CollectValidJson | Source/MounteaAdvancedInventorySystemEditor/Private/Statics/MounteaAdvancedInventoryItemTemplateEditorStatics.cpp:131-140 | the first export loop collects the texts of ValidJson, in template order |
| EditorStatics.EntriesBeforeLast | Source/MounteaAdvancedInventorySystemEditor/Private/Statics/MounteaAdvancedInventoryItemTemplateEditorStatics.cpp:178-184 | the entries written before the last one are the texts, each indented, joined by a comma and a line break, ending with a comma |
| EditorStatics.EntriesAreJoined | Source/MounteaAdvancedInventorySystemEditor/Private/Statics/MounteaAdvancedInventoryItemTemplateEditorStatics.cpp:178-184 | all entries together are the indented texts joined by a comma and a line break, followed by one line break and no trailing comma |
| EditorStatics.WrapJson | Source/MounteaAdvancedInventorySystemEditor/Private/Statics/MounteaAdvancedInventoryItemTemplateEditorStatics.cpp:177-185 | the multi-template export is the header, the texts joined by comma and line break as the "items" list, and the footer |
| EditorStatics.FirstWithJson | Source/MounteaAdvancedInventorySystemEditor/Private/Statics/MounteaAdvancedInventoryItemTemplateEditorStatics.cpp:132-139 | the first exported text comes from a valid template in the list, at the returned index |
| EditorStatics.SingleDefaultName | Source/MounteaAdvancedInventorySystemEditor/Private/Statics/MounteaAdvancedInventoryItemTemplateEditorStatics.cpp:154-156 | the default name of a single export is the display name, with spaces turned into underscores, of the template whose JSON is exported |
| EditorStatics.DefaultNameAsWrittenReadsNull | Source/MounteaAdvancedInventorySystemEditor/Private/Statics/MounteaAdvancedInventoryItemTemplateEditorStatics.cpp:154-156 | a null first entry followed by one template with JSON passes both checks, and the default name is then read from the null entry |
| EditorStatics.ExportTemplatesToFile | Source/MounteaAdvancedInventorySystemEditor/Private/Statics/MounteaAdvancedInventoryItemTemplateEditorStatics.cpp:121-197 | the four failures in order (no templates, no JSON, no file chosen, write failed) with their messages; success exactly when none applies; the path gains the extension unless it already ends in it ignoring case; a single export writes the text itself and multiple ones the wrapped list |
| EditorStatics.ExportPathHasExtension | Source/MounteaAdvancedInventorySystemEditor/Private/Statics/MounteaAdvancedInventoryItemTemplateEditorStatics.cpp:170-172 | the final path always ends in the chosen extension, ignoring case |
| EditorStatics.FindTemplateByGuid | Source/MounteaAdvancedInventorySystemEditor/Private/Statics/MounteaAdvancedInventoryItemTemplateEditorStatics.cpp:217-231 | null for an invalid guid; otherwise the first valid template with that guid, and null only when no valid template carries it |
| EquipmentBFL.CalculateItemShadow | Source/MounteaInventoryEquipment/Private/Helpers/MounteaInventoryEquipmentBFL.cpp:307-329 | the shadow holds every cell of the Area.X by Area.Y rectangle at the start cell and no other, each once, Area.X * Area.Y cells in all and none for a non-positive side |
| EquipmentBFL.ShadowCoversLongerSide | Source/MounteaInventoryEquipment/Private/Helpers/MounteaInventoryEquipmentBFL.cpp:344 | a full shadow of an area with positive sides is never smaller than its longer side, so IsValidShadow's size check lets it through |
| EquipmentBFL.IsSafeSlot | Source/MounteaInventoryEquipment/Private/Helpers/MounteaInventoryEquipmentBFL.cpp:409-414 | the answer is false for every start cell and area |
| EquipmentBFL.SlotFor | Source/MounteaInventoryEquipment/Private/Helpers/MounteaInventoryEquipmentBFL.cpp:372-382 | a cell off the grid gets no slot; a cell on it gets the reference at its index among the coordinates, none past the end of the references |
| EquipmentBFL.IsValidShadow | Source/MounteaInventoryEquipment/Private/Helpers/MounteaInventoryEquipmentBFL.cpp:331-407 | true exactly when an item is moved, the shadow is at least as large as the item's longer side, every cell is on the grid and no cell's slot holds a different item |
| EquipmentBFL.Kept | Source/MounteaInventoryEquipment/Private/Helpers/MounteaInventoryEquipmentBFL.cpp:420-449 | the kept entries are exactly the non-null items no enabled criterion excludes, never more than the input, and all of the input when nothing is dropped |
| EquipmentBFL.ExcludeItems | Source/MounteaInventoryEquipment/Private/Helpers/MounteaInventoryEquipmentBFL.cpp:416-452 | an invalid filter returns the input itself; a valid one returns the kept items in input order |
| EquipmentSettings.EquipmentSettings.constructor | Source/MounteaAdvancedInventorySystem/Private/Settings/MounteaAdvancedEquipmentSettingsConfig.cpp:18-23 | the scene, static mesh and skeletal mesh component classes are the allowed attachment targets, in that order |
| EquipmentSettings.EquipmentSettings.GetFallbackSlotOptions | Source/MounteaAdvancedInventorySystem/Private/Settings/MounteaAdvancedEquipmentSettingsConfig.cpp:25-35 | NAME_None first, then every slot key in map order, one more entry than there are slots |
| EquipmentSettings.RepairedFallback | Source/MounteaAdvancedInventorySystem/Private/Settings/MounteaAdvancedEquipmentSettingsConfig.cpp:51-61 | the repaired fallback is NAME_None or another existing slot; a fallback naming another existing slot or NAME_None is kept, one naming the slot itself or a missing slot becomes NAME_None |
| EquipmentSettings.RepairIdempotent | Source/MounteaAdvancedInventorySystem/Private/Settings/MounteaAdvancedEquipmentSettingsConfig.cpp:49-64 | repairing a repaired fallback changes nothing |
| EquipmentSettings.EquipmentSettings.PostEditChangeProperty | Source/MounteaAdvancedInventorySystem/Private/Settings/MounteaAdvancedEquipmentSettingsConfig.cpp:39-65 | another edited property changes nothing; an edit of the slot map repairs every slot's fallback, keeps the same slots, and leaves every fallback NAME_None or another slot |
| EquipmentConfigData.KeyIndex | Source/MounteaInventoryEquipment/Public/Helpers/MounteaEquipmentHelpers.h:94-103 | the hashed set's lookup: -1 exactly when no element has the key, otherwise the position of an element with that key |
| EquipmentConfigData.SetAdd | Source/MounteaInventoryEquipment/Private/Settings/MounteaEquipmentConfigData.cpp:95 | after TSet::Add the new identity is in the set |
| EquipmentConfigData.SetAddProperties | Source/MounteaInventoryEquipment/Private/Settings/MounteaEquipmentConfigData.cpp:95-102 | TSet::Add adds the new identity's key, keeps every other element, adds nothing else, and keeps one element per key |
| EquipmentConfigData.EquipmentConfig.ValidateConfig | Source/MounteaInventoryEquipment/Private/Settings/MounteaEquipmentConfigData.cpp:81-106 | the dirty set keeps one identity per key, holds the key of every duplicated or empty identity and only such identities, and the result is true exactly when some identity is dirty |
| EquipmentConfigData.IsDataValidAsWritten | Source/MounteaInventoryEquipment/Private/Settings/MounteaEquipmentConfigData.cpp:69-77 | as written the parent's verdict is kept when some slot is dirty, and a config with no dirty slot is Invalid |
| EquipmentConfigData.AsWrittenRejectsCleanConfig | Source/MounteaInventoryEquipment/Private/Settings/MounteaEquipmentConfigData.cpp:74 | as written an empty config is Invalid and a config with two slots of the same name passes as Valid |
| EquipmentConfigData.IsDataValid | Source/MounteaInventoryEquipment/Private/Settings/MounteaEquipmentConfigData.cpp:69-77 | as intended the config is Invalid exactly when some slot is dirty or the parent says Invalid, and otherwise takes the parent's verdict |
| EquipmentConfigData.DuplicatedInHashedSet | Source/MounteaInventoryEquipment/Private/Settings/MounteaEquipmentConfigData.cpp:87-96 | in a set with one identity per tag, an identity counts as duplicated exactly when another one has the same non-empty name |
| EquipmentHelpers.IdentityOfTag | Source/MounteaInventoryEquipment/Public/Helpers/MounteaEquipmentHelpers.h:24-25 | the identity built from a tag carries that tag, no name and no compatible tags |
| EquipmentHelpers.IdentityEqualsName | Source/MounteaInventoryEquipment/Public/Helpers/MounteaEquipmentHelpers.cpp:84-88 | an identity equals a name exactly when the two texts agree ignoring case, two empty names included |
| EquipmentHelpers.IdentityEqualsTag | Source/MounteaInventoryEquipment/Public/Helpers/MounteaEquipmentHelpers.cpp:90-94 | an identity equals a tag exactly when its own tag is that tag, two invalid tags included |
| EquipmentHelpers.IdentityEquals | Source/MounteaInventoryEquipment/Public/Helpers/MounteaEquipmentHelpers.cpp:96-118 | two identities are equal exactly when they share a non-empty name or share a tag |
| EquipmentHelpers.IdentityEqualsReflexiveSymmetric | Source/MounteaInventoryEquipment/Public/Helpers/MounteaEquipmentHelpers.cpp:96-118 | identity equality is reflexive and symmetric |
| EquipmentHelpers.SameTagEqual | Source/MounteaInventoryEquipment/Public/Helpers/MounteaEquipmentHelpers.cpp:99-114 | identities with the same tag are equal whatever their names |
| EquipmentHelpers.IdentityEqualsNotTransitive | Source/MounteaInventoryEquipment/Public/Helpers/MounteaEquipmentHelpers.cpp:104-114 | there are three identities where the first equals the second and the second the third, but the first does not equal the third |
| EquipmentHelpers.IdentityHashKey | Source/MounteaInventoryEquipment/Public/Helpers/MounteaEquipmentHelpers.h:94-103 | the hash key is the tag of an identity with a valid tag, and the same fixed key for every identity without one |
| EquipmentHelpers.EqualIdentitiesMayHashApart | Source/MounteaInventoryEquipment/Public/Helpers/MounteaEquipmentHelpers.h:94-103 | two equal identities can have different hash keys |
| EquipmentHelpers.SameHashKeyEqual | Source/MounteaInventoryEquipment/Public/Helpers/MounteaEquipmentHelpers.h:94-103 | identities with the same hash key are equal |
| EquipmentHelpers.GuidOf | Source/MounteaInventoryEquipment/Public/Helpers/MounteaEquipmentHelpers.cpp:28 | the slot guid of no item is the empty guid, and of an item its instance guid |
| EquipmentHelpers.EquipmentSlot.Empty | Source/MounteaInventoryEquipment/Public/Helpers/MounteaEquipmentHelpers.h:110-111 | the default slot has no item, the empty guid and the empty identity |
| EquipmentHelpers.EquipmentSlot.OfTag | Source/MounteaInventoryEquipment/Public/Helpers/MounteaEquipmentHelpers.h:113-114 | a slot made from a tag has no item, the empty guid and the identity of that tag |
| EquipmentHelpers.EquipmentSlot.OfItem | Source/MounteaInventoryEquipment/Public/Helpers/MounteaEquipmentHelpers.cpp:10-22 | a slot made from an item holds it and its guid, and takes the item's category name as its name when there is a category |
| EquipmentHelpers.EquipmentSlot.UpdateSlot | Source/MounteaInventoryEquipment/Public/Helpers/MounteaEquipmentHelpers.cpp:24-29 | the slot holds the new item and its guid, the empty guid for no item, and keeps its identity |
| EquipmentHelpers.EquipmentSlot.EqualsSlot | Source/MounteaInventoryEquipment/Public/Helpers/MounteaEquipmentHelpers.cpp:31-34 | two slots compare equal exactly when their guids are equal |
| EquipmentHelpers.EquipmentSlot.EqualsSlotPointer | Source/MounteaInventoryEquipment/Public/Helpers/MounteaEquipmentHelpers.cpp:36-40 | a null slot pointer never matches; otherwise the guids decide |
| EquipmentHelpers.EquipmentSlot.EqualsGuid | Source/MounteaInventoryEquipment/Public/Helpers/MounteaEquipmentHelpers.cpp:42-45 | a slot equals a guid exactly when that guid is its own |
| EquipmentHelpers.EquipmentSlot.EqualsName | Source/MounteaInventoryEquipment/Public/Helpers/MounteaEquipmentHelpers.cpp:47-50 | a slot equals a name exactly when the name is its own, compared case-sensitively |
| EquipmentHelpers.EquipmentSlot.EqualsItem | Source/MounteaInventoryEquipment/Public/Helpers/MounteaEquipmentHelpers.cpp:52-56 | a null item never matches; otherwise the slot must hold that very item |
| EquipmentHelpers.EquipmentSlot.MatchesCompare | Source/MounteaInventoryEquipment/Public/Helpers/MounteaEquipmentHelpers.cpp:58-82 | a slot matches a compare record exactly when each criterion the record sets (an item, a valid tag, a non-empty id) agrees with the slot |
| EquipmentHelpers.EmptyCompareMatchesAll | Source/MounteaInventoryEquipment/Public/Helpers/MounteaEquipmentHelpers.cpp:58-82 | every slot matches a compare record that sets no criterion |
| EquipmentHelpers.OwnCompareMatches | Source/MounteaInventoryEquipment/Public/Helpers/MounteaEquipmentHelpers.cpp:58-82 | a slot matches the compare record built from its own item, name and tag |
| EquipmentHelpers.CompareCriterionNarrows | Source/MounteaInventoryEquipment/Public/Helpers/MounteaEquipmentHelpers.cpp:71-74 | setting a tag criterion only narrows the slots a record matches |
| EquipmentHelpers.SameItemSlotsEqual | Source/MounteaInventoryEquipment/Public/Helpers/MounteaEquipmentHelpers.cpp:24-34 | slots whose guids follow their items compare equal when they hold the same item, and unequal when their items have different guids |
| EquipmentHelpers.IsValidAsWrittenNeverHolds | Source/MounteaInventoryEquipment/Public/Helpers/MounteaEquipmentHelpers.h:149-157 | for a slot whose guid follows its item, IsValid as written never holds: it asks for an empty slot with a valid guid |
| EquipmentHelpers.ValidSlotHoldsItem | Source/MounteaInventoryEquipment/Public/Helpers/MounteaEquipmentHelpers.h:145-157 | the documented check holds, for a slot whose guid follows its item, exactly when it holds an item with a valid guid and a valid tag |
| EquipmentHelpers.EquipmentSlot.IsEmpty | Source/MounteaInventoryEquipment/Public/Helpers/MounteaEquipmentHelpers.h:146-147 | a slot is empty exactly when it holds no item |
| EquipmentHelpers.EquipmentSlot.IsValidAsWritten | Source/MounteaInventoryEquipment/Public/Helpers/MounteaEquipmentHelpers.h:150-157 | as written, valid exactly for an empty slot with a valid guid and a valid tag |
| EquipmentHelpers.EquipmentSlot.IsValid | Source/MounteaInventoryEquipment/Public/Helpers/MounteaEquipmentHelpers.h:149-157 | as documented, valid exactly for a slot holding an item with a valid guid and a valid tag |
| EquipmentSlotWidget.ValidTags | Source/MounteaInventoryEquipment/Private/WBP/Equipment/MounteaEquipmentSlotBaseWidget.cpp:182-187 | the offered ids are exactly the valid tags of the configured identities |
| EquipmentSlotWidget.EquipmentSlotBaseWidget.constructor | Source/MounteaInventoryEquipment/Private/WBP/Equipment/MounteaEquipmentSlotBaseWidget.cpp:33-36 | a new slot widget has no owner, no parent guid, no attached widget and an empty slot id, so it is empty |
| EquipmentSlotWidget.EquipmentSlotBaseWidget.SetOwningEquipment | Source/MounteaInventoryEquipment/Private/WBP/Equipment/MounteaEquipmentSlotBaseWidget.cpp:26-31 | afterwards the slot belongs to the given equipment UI and nothing else changes |
| EquipmentSlotWidget.EquipmentSlotBaseWidget.AttachItemToSlot | Source/MounteaInventoryEquipment/Private/WBP/Equipment/MounteaEquipmentSlotBaseWidget.cpp:38-94 | success exactly for a present item widget that is not the attached one, implements the item interface and whose slot guid differs from the recorded one; success records the widget and its guid and returns the slot as payload; every refusal is a bad request that changes nothing; the missing widget gets its own text |
| EquipmentSlotWidget.EquipmentSlotBaseWidget.DetachItemToSlot | Source/MounteaInventoryEquipment/Private/WBP/Equipment/MounteaEquipmentSlotBaseWidget.cpp:96-152 | success exactly for the attached widget itself, implementing the interface, whose slot guid is the recorded one; success leaves the slot empty; every refusal is a bad request that changes nothing |
| EquipmentSlotWidget.EquipmentSlotBaseWidget.UpdateSlotID | Source/MounteaInventoryEquipment/Private/WBP/Equipment/MounteaEquipmentSlotBaseWidget.cpp:154-171 | with a loaded configuration holding an identity for the tag the slot id becomes that tag; otherwise the slot id stays; nothing else changes |
| EquipmentSlotWidget.GetSlotIDOptions | Source/MounteaInventoryEquipment/Private/WBP/Equipment/MounteaEquipmentSlotBaseWidget.cpp:173-192 | no options without settings or a configuration; otherwise the valid tags of the configured identities, in order |
| EquipmentSlotWidget.LookupByTagFindsTag | Source/MounteaInventoryEquipment/Private/WBP/Equipment/MounteaEquipmentSlotBaseWidget.cpp:161-163 | the hashed lookup of a tag finds an identity carrying exactly that tag |
| InventoryItemWidget.Column | Source/MounteaInventoryEquipment/Private/WBP/Inventory/MounteaInventoryItemBaseWidget.cpp:119-124 | one column of the block holds ny cells, the k-th at offset (x, k) from the root |
| InventoryItemWidget.CellsMembership | Source/MounteaInventoryEquipment/Private/WBP/Inventory/MounteaInventoryItemBaseWidget.cpp:117-125 | a cell is covered exactly when its offset from the root lies within the dimensions |
| InventoryItemWidget.CellsLength | Source/MounteaInventoryEquipment/Private/WBP/Inventory/MounteaInventoryItemBaseWidget.cpp:115-125 | the block holds Dimensions.X * Dimensions.Y cells, none when a dimension is not positive |
| InventoryItemWidget.CellsNoDup | Source/MounteaInventoryEquipment/Private/WBP/Inventory/MounteaInventoryItemBaseWidget.cpp:117-125 | no cell is reported twice |
| InventoryItemWidget.ItemWidget.constructor | Source/MounteaInventoryEquipment/Private/WBP/Inventory/MounteaInventoryItemBaseWidget.cpp:12-17 | a constructed widget carries its exposed values and is not dirty |
| InventoryItemWidget.ItemWidget.NativeConstruct | Source/MounteaInventoryEquipment/Private/WBP/Inventory/MounteaInventoryItemBaseWidget.cpp:12-17 | construction clears the dirty flag and keeps everything else |
| InventoryItemWidget.ItemWidget.SetOwningInventory | Source/MounteaInventoryEquipment/Private/WBP/Inventory/MounteaInventoryItemBaseWidget.cpp:24-29 | afterwards the widget belongs to the given inventory UI and nothing else changes |
| InventoryItemWidget.ItemWidget.SetDirty | Source/MounteaInventoryEquipment/Private/WBP/Inventory/MounteaInventoryItemBaseWidget.cpp:36-39 | the dirty flag takes the given state and nothing else changes |
| InventoryItemWidget.ItemWidget.OnDropped | Source/MounteaInventoryEquipment/Private/WBP/Inventory/MounteaInventoryItemBaseWidget.cpp:149-152 | a drop leaves the widget dirty and changes nothing else |
| InventoryItemWidget.ItemWidget.GetItemGuid | Source/MounteaInventoryEquipment/Private/WBP/Inventory/MounteaInventoryItemBaseWidget.cpp:41-69 | the slot guid found is valid exactly when the stack is valid, there is an owning UI with an inventory and the search finds the stack's guid, and then it is the stack's guid |
| InventoryItemWidget.ItemWidget.SaveRootCoords | Source/MounteaInventoryEquipment/Private/WBP/Inventory/MounteaInventoryItemBaseWidget.cpp:86-93 | saving reports a change exactly when the new root differs from the old, and the root is the new one afterwards |
| InventoryItemWidget.ItemWidget.MoveToNewCoords | Source/MounteaInventoryEquipment/Private/WBP/Inventory/MounteaInventoryItemBaseWidget.cpp:95-103 | moving is refused exactly when the new root is the current one, and does not change the root |
| InventoryItemWidget.ItemWidget.ReleaseOldCoords | Source/MounteaInventoryEquipment/Private/WBP/Inventory/MounteaInventoryItemBaseWidget.cpp:105-110 | releasing always reports success |
| InventoryItemWidget.ItemWidget.GetOccupyingCoords | Source/MounteaInventoryEquipment/Private/WBP/Inventory/MounteaInventoryItemBaseWidget.cpp:112-128 | the reported cells are the block at the root, column after column |
| InventoryItemWidget.ItemWidget.CanBeDragged | Source/MounteaInventoryEquipment/Private/WBP/Inventory/MounteaInventoryItemBaseWidget.cpp:130-147 | dragging is allowed exactly when there are settings, an owning inventory UI and an inventory theme that allows drag and drop |
| InventoryItemWidget.OccupyingCoordsSpec | Source/MounteaInventoryEquipment/Private/WBP/Inventory/MounteaInventoryItemBaseWidget.cpp:112-128 | the occupied cells number Dimensions.X * Dimensions.Y, are distinct, and are exactly the cells within the dimensions from the root |
| GridSlot.DefaultSlot | Source/MounteaAdvancedInventorySystem/Public/Definitions/MounteaInventoryBaseUIDataTypes.h:23-58 | a default slot is empty, has no widget and so is not valid, and holds quantity INDEX_NONE |
| GridSlot.ResetSlot | Source/MounteaAdvancedInventorySystem/Public/Definitions/MounteaInventoryBaseUIDataTypes.h:64 | a reset slot is empty with quantity INDEX_NONE and keeps its position and widget |
| GridSlot.SameSlotIsEquivalence | Source/MounteaAdvancedInventorySystem/Public/Definitions/MounteaInventoryBaseUIDataTypes.h:68-84 | slot equality is an equivalence, and slots it calls equal have the same hash |
| GridSlot.ResetKeepsIdentity | Source/MounteaAdvancedInventorySystem/Public/Definitions/MounteaInventoryBaseUIDataTypes.h:64-71 | a reset slot is still the same slot with the same hash, so it replaces itself in a set |
| GridSlot.Positions | Source/MounteaAdvancedInventorySystem/Public/Definitions/MounteaInventoryBaseUIDataTypes.h:81-84 | the hash keys of a set's slots, one per slot in iteration order |
| GridSlot.EmplaceKeepsSet | Source/MounteaAdvancedInventorySystem/Public/Definitions/MounteaInventoryBaseUIDataTypes.h:68-84 | adding a slot to a set keeps one slot per position, leaves the positions as they were when the position was present, and the slot is in the set afterwards |
| GridSlot.PositionIndex | Source/MounteaAdvancedInventorySystem/Public/Definitions/MounteaInventoryBaseUIDataTypes.h:68-71 | in a set, a slot's position is found at that slot's own index |
| GridSlot.EmplaceAt | Source/MounteaAdvancedInventorySystem/Public/Definitions/MounteaInventoryBaseUIDataTypes.h:68-84 | adding a slot at an existing slot's position replaces exactly that element |
| GridSlot.EmptyCountFill | Source/MounteaAdvancedInventorySystem/Public/Definitions/MounteaInventoryBaseUIDataTypes.h:66 | filling one empty slot with an item leaves exactly one empty slot fewer |
| GridSlot.SlotsWithItem | Source/MounteaAdvancedInventorySystem/Private/Widgets/Items/MounteaAdvancedInventoryItemsGridWidget.cpp:459-470 | the slots holding an item are exactly the set's slots whose item id is that item |
| GridSlot.StackSumOfFiltered | Source/MounteaAdvancedInventorySystem/Private/Widgets/Items/MounteaAdvancedInventoryItemsGridWidget.cpp:449-470 | the stack total over the slots holding an item equals the total over all slots counting only that item |
| GridSlot.StackSumUpdate | Source/MounteaAdvancedInventorySystem/Private/Widgets/Items/MounteaAdvancedInventoryItemsGridWidget.cpp:449-457 | writing one slot changes the item's stack total by exactly the change in that slot's share |
| GridSlot.IsValid | Source/MounteaAdvancedInventorySystem/Public/Definitions/MounteaInventoryBaseUIDataTypes.h:62 | a grid slot is valid exactly when it has a widget |
| GridSlot.IsEmpty | Source/MounteaAdvancedInventorySystem/Public/Definitions/MounteaInventoryBaseUIDataTypes.h:66 | a grid slot is empty exactly when its item id is not a valid guid |
| ItemsGrid.ItemIds | Source/MounteaAdvancedInventorySystem/Private/Widgets/Items/MounteaAdvancedInventoryItemsGridWidget.cpp:142-146 | the occupied item id of every slot, in iteration order |
| ItemsGrid.FirstWithItem | Source/MounteaAdvancedInventorySystem/Private/Widgets/Items/MounteaAdvancedInventoryItemsGridWidget.cpp:138-149 | INDEX_NONE exactly when no slot holds the item, otherwise the index of the first slot that does |
| ItemsGrid.FirstEmpty | Source/MounteaAdvancedInventorySystem/Private/Widgets/Items/MounteaAdvancedInventoryItemsGridWidget.cpp:171-180 | INDEX_NONE exactly when no slot is empty, otherwise the index of the first empty slot |
| ItemsGrid.WithoutPosition | Source/MounteaAdvancedInventorySystem/Private/Widgets/Items/MounteaAdvancedInventoryItemsGridWidget.cpp:92-93 | removing a slot from the set drops exactly the element at that slot's position |
| ItemsGrid.AddItemToSlotAsWritten | Source/MounteaAdvancedInventorySystem/Private/Widgets/Items/MounteaAdvancedInventoryItemsGridWidget.cpp:25-51 | as written, an item found by the inventory and an index outside the grid reach the unchecked read of that index |
| ItemsGrid.AddItemToSlotReadsPastEnd | Source/MounteaAdvancedInventorySystem/Private/Widgets/Items/MounteaAdvancedInventoryItemsGridWidget.cpp:27-33 | index -1 and the index one past the last slot count as empty and are then read outside the grid |
| ItemsGrid.SwapIds | Source/MounteaAdvancedInventorySystem/Private/Widgets/Items/MounteaAdvancedInventoryItemsGridWidget.cpp:84-107 | the swap removes both slots from the set and adds them back, each landing in the hole the other left: by index the item ids stay while position, widget and quantity change places, so by position the two slots exchange item ids; other slots are untouched |
| ItemsGrid.SwapIdsTwice | Source/MounteaAdvancedInventorySystem/Private/Widgets/Items/MounteaAdvancedInventoryItemsGridWidget.cpp:84-107 | swapping the same two slots twice restores the grid |
| ItemsGrid.ItemsGrid.constructor | Source/MounteaAdvancedInventorySystem/Private/Widgets/Items/MounteaAdvancedInventoryItemsGridWidget.cpp:109-124 | a new grid holds no slots |
| ItemsGrid.ItemsGrid.GetTotalSlots | Source/MounteaAdvancedInventorySystem/Private/Widgets/Items/MounteaAdvancedInventoryItemsGridWidget.cpp:126-129 | the number of slots in the set |
| ItemsGrid.ItemsGrid.IsSlotEmpty | Source/MounteaAdvancedInventorySystem/Private/Widgets/Items/MounteaAdvancedInventoryItemsGridWidget.cpp:131-136 | an index outside the grid counts as empty; inside, a slot is empty exactly when its item id is invalid |
| ItemsGrid.ItemsGrid.GetItemInSlot | Source/MounteaAdvancedInventorySystem/Private/Widgets/Items/MounteaAdvancedInventoryItemsGridWidget.cpp:77-82 | the slot's item id in range, the invalid guid outside |
| ItemsGrid.ItemsGrid.GetSlotIndexByItem | Source/MounteaAdvancedInventorySystem/Private/Widgets/Items/MounteaAdvancedInventoryItemsGridWidget.cpp:138-149 | INDEX_NONE exactly when no slot holds the item, otherwise the lowest index of a slot holding it |
| ItemsGrid.ItemsGrid.IsItemInGrid | Source/MounteaAdvancedInventorySystem/Private/Widgets/Items/MounteaAdvancedInventoryItemsGridWidget.cpp:151-158 | true exactly when some slot holds the item |
| ItemsGrid.ItemsGrid.GetGridSlotData | Source/MounteaAdvancedInventorySystem/Private/Widgets/Items/MounteaAdvancedInventoryItemsGridWidget.cpp:160-164 | the slot at that index of the set |
| ItemsGrid.ItemsGrid.FindEmptyWidgetSlot | Source/MounteaAdvancedInventorySystem/Private/Widgets/Items/MounteaAdvancedInventoryItemsGridWidget.cpp:171-180 | the widget of the first empty slot, none when every slot is occupied |
| ItemsGrid.ItemsGrid.FindEmptySlotIndex | Source/MounteaAdvancedInventorySystem/Private/Widgets/Items/MounteaAdvancedInventoryItemsGridWidget.cpp:182-185 | INDEX_NONE exactly when no slot is empty, otherwise the index of an empty slot |
| ItemsGrid.ItemsGrid.GetItemSlotWidget | Source/MounteaAdvancedInventorySystem/Private/Widgets/Items/MounteaAdvancedInventoryItemsGridWidget.cpp:187-192 | the slot's widget in range, none outside |
| ItemsGrid.ItemsGrid.GetItemWidgetInSlot | Source/MounteaAdvancedInventorySystem/Private/Widgets/Items/MounteaAdvancedInventoryItemsGridWidget.cpp:194-205 | a slot widget is asked exactly when the index is in range and the widget implements the item slot interface |
| ItemsGrid.ItemsGrid.GetStacksSizeForItem | Source/MounteaAdvancedInventorySystem/Private/Widgets/Items/MounteaAdvancedInventoryItemsGridWidget.cpp:449-457 | INDEX_NONE for an invalid id, otherwise the total quantity held for the item over all slots |
| ItemsGrid.ItemsGrid.GetGridSlotsDataForItem | Source/MounteaAdvancedInventorySystem/Private/Widgets/Items/MounteaAdvancedInventoryItemsGridWidget.cpp:459-470 | exactly the slots holding the item |
| ItemsGrid.ItemsGrid.AddSlot | Source/MounteaAdvancedInventorySystem/Private/Widgets/Items/MounteaAdvancedInventoryItemsGridWidget.cpp:207-210 | the slot is added to the set, replacing the slot at its position if any, and the set keeps one slot per position |
| ItemsGrid.ItemsGrid.AddItemToSlot | Source/MounteaAdvancedInventorySystem/Private/Widgets/Items/MounteaAdvancedInventoryItemsGridWidget.cpp:25-51 | as intended, success exactly for an empty slot in range, an item the inventory finds and a widget that accepts items; then only that slot changes, to hold the item and its quantity; otherwise nothing changes |
| ItemsGrid.ItemsGrid.AddItemToEmptySlot | Source/MounteaAdvancedInventorySystem/Private/Widgets/Items/MounteaAdvancedInventoryItemsGridWidget.cpp:17-23 | the item goes into the first empty slot under AddItemToSlot's conditions; nothing changes without one |
| ItemsGrid.ItemsGrid.RemoveItemFromSlot | Source/MounteaAdvancedInventorySystem/Private/Widgets/Items/MounteaAdvancedInventoryItemsGridWidget.cpp:53-75 | success exactly for an index in range whose widget accepts items; that slot is reset and nothing else changes |
| ItemsGrid.ItemsGrid.SwapItemsBetweenSlots | Source/MounteaAdvancedInventorySystem/Private/Widgets/Items/MounteaAdvancedInventoryItemsGridWidget.cpp:84-107 | success exactly when both indices are in range, and then the grid becomes SwapIds of the two indices and keeps one slot per position; otherwise nothing changes |
| ItemsGrid.ItemsGrid.ClearAllSlots | Source/MounteaAdvancedInventorySystem/Private/Widgets/Items/MounteaAdvancedInventoryItemsGridWidget.cpp:109-124 | every slot loses its item id and becomes empty, keeping its position, widget and quantity |
| ItemsGrid.ItemsGrid.UpdateSlotQuantity | Source/MounteaAdvancedInventorySystem/Private/Widgets/Items/MounteaAdvancedInventoryItemsGridWidget.cpp:253-263 | the slot at the given position is written back with the new quantity; nothing else changes |
| ItemsGrid.ItemsGrid.AddSingles | Source/MounteaAdvancedInventorySystem/Private/Widgets/Items/MounteaAdvancedInventoryItemsGridWidget.cpp:271-301 | non-stackable adding leaves each slot unchanged or newly holding one unit; the item total grows by exactly what was placed, which is between nothing and the shortfall, and the result says whether anything was; it stops short only when the next empty slot is missing or refuses items, or when the given slot refused the first unit and nothing changed |
| ItemsGrid.ItemsGrid.TopUp | Source/MounteaAdvancedInventorySystem/Private/Widgets/Items/MounteaAdvancedInventoryItemsGridWidget.cpp:338-345 | one fill step raises one stack of the item by the given amount, never past the maximum stack size |
| ItemsGrid.ItemsGrid.NewStack | Source/MounteaAdvancedInventorySystem/Private/Widgets/Items/MounteaAdvancedInventoryItemsGridWidget.cpp:369-387 | one new stack puts at most the maximum stack size into an empty slot, or changes nothing |
| ItemsGrid.ItemsGrid.AddStacks | Source/MounteaAdvancedInventorySystem/Private/Widgets/Items/MounteaAdvancedInventoryItemsGridWidget.cpp:304-388 | stackable adding leaves every slot unchanged, newly filled with the item or topped up, never above the maximum stack size; the item total grows by exactly what was placed; with no update nothing changes; with a positive maximum what is placed is between nothing and the shortfall, and the result says whether anything was |
| ItemsGrid.ItemsGrid.ReduceStack | Source/MounteaAdvancedInventorySystem/Private/Widgets/Items/MounteaAdvancedInventoryItemsGridWidget.cpp:253-263 | one partial reduction writes the stack back with q fewer units, at least one remaining, and the item total falls by exactly q |
| ItemsGrid.ItemsGrid.ClearStack | Source/MounteaAdvancedInventorySystem/Private/Widgets/Items/MounteaAdvancedInventoryItemsGridWidget.cpp:53-75 | one clearing step resets the slot holding the item exactly when its widget accepts items, taking that slot's quantity off the item total; otherwise nothing changes |
| ItemsGrid.ItemsGrid.RemoveStacks | Source/MounteaAdvancedInventorySystem/Private/Widgets/Items/MounteaAdvancedInventoryItemsGridWidget.cpp:391-438 | removing leaves every slot unchanged, reset, or holding fewer units of the item; the result is true exactly when some slot holds the item, because a clear and a reduction both set the update flag; with none nothing changes; when the first slot visited holds more than the amount, only it loses that amount; with no negative stacks the total falls by zero to the amount |
| ItemsGrid.ItemsGrid.UpdateItemInSlot | Source/MounteaAdvancedInventorySystem/Private/Widgets/Items/MounteaAdvancedInventoryItemsGridWidget.cpp:224-447 | fails without a valid id or item; an unchanged total leaves the grid alone and reports true only when no slot holds the item; a differing total changes the grid as TotalChanged says for the current total |
| ItemsGrid.Reduced | Source/MounteaAdvancedInventorySystem/Private/Widgets/Items/MounteaAdvancedInventoryItemsGridWidget.cpp:253-263 | a reduced slot keeps its position, item and widget and holds q fewer units |
| ItemsGrid.FirstVisited | Source/MounteaAdvancedInventorySystem/Private/Widgets/Items/MounteaAdvancedInventoryItemsGridWidget.cpp:396-437 | the first slot the removal visits holds the item, and there is none exactly when no slot holds it |
| ItemsGrid.DropIndexMembers | Source/MounteaAdvancedInventorySystem/Private/Widgets/Items/MounteaAdvancedInventoryItemsGridWidget.cpp:412 | dropping the given slot from the listed indices keeps exactly the other indices |
| ItemsGrid.FirstItemIndex | Source/MounteaAdvancedInventorySystem/Private/Widgets/Items/MounteaAdvancedInventoryItemsGridWidget.cpp:138-149 | the first of the indices of slots holding the item is the first slot holding it |
| ItemsGrid.SwapKeepsUnique | Source/MounteaAdvancedInventorySystem/Private/Widgets/Items/MounteaAdvancedInventoryItemsGridWidget.cpp:84-107 | a swap keeps one slot per position and the same multiset of positions |
| ItemsGrid.UniqueCons | Source/MounteaAdvancedInventorySystem/Private/Widgets/Items/MounteaAdvancedInventoryItemsGridWidget.cpp:348 | a slot at a position no other listed slot has can be put in front of them keeping positions unique |
| ItemsGrid.ItemIndicesFacts | Source/MounteaAdvancedInventorySystem/Private/Widgets/Items/MounteaAdvancedInventoryItemsGridWidget.cpp:459-470 | the indices of slots holding the item increase, each holds the item, and every slot holding it is listed |
| ItemsGrid.SlotsWithItemUnique | Source/MounteaAdvancedInventorySystem/Private/Widgets/Items/MounteaAdvancedInventoryItemsGridWidget.cpp:459-470 | the slots holding an item have pairwise different positions |
| ItemsGrid.WithoutPositionIndexed | Source/MounteaAdvancedInventorySystem/Private/Widgets/Items/MounteaAdvancedInventoryItemsGridWidget.cpp:412 | removing the given slot from the listed slots leaves them indexed by the other indices |
| ItemsGrid.ListedFromStart | Source/MounteaAdvancedInventorySystem/Private/Widgets/Items/MounteaAdvancedInventoryItemsGridWidget.cpp:416-437 | with no given slot, the first listed slot is the first slot holding the item |
| ItemsGrid.ListedAfterGiven | Source/MounteaAdvancedInventorySystem/Private/Widgets/Items/MounteaAdvancedInventoryItemsGridWidget.cpp:396-414 | after the given slot is handled, the remaining listed slots are the other slots holding the item, untouched |
| ItemsGrid.GateAt | Source/MounteaAdvancedInventorySystem/Private/Widgets/Items/MounteaAdvancedInventoryItemsGridWidget.cpp:422-423 | the index lookup of the removal loop finds the visited slot or a slot whose widget refuses items |
| ItemsGrid.GateNext | Source/MounteaAdvancedInventorySystem/Private/Widgets/Items/MounteaAdvancedInventoryItemsGridWidget.cpp:422-430 | after a clear, the lookup for the next visited slot again finds it or a slot that refuses items |
| ItemsGrid.NoNewItems | Source/MounteaAdvancedInventorySystem/Private/Widgets/Items/MounteaAdvancedInventoryItemsGridWidget.cpp:391-438 | removing never puts the item into a slot that did not hold it |
| ItemsGrid.ItemsGrid.PlaceSingle | Source/MounteaAdvancedInventorySystem/Private/Widgets/Items/MounteaAdvancedInventoryItemsGridWidget.cpp:290-296 | success exactly when the index is in range, the slot is empty and its widget accepts items; then that slot alone newly holds one unit and the item total grows by one; otherwise nothing changes |
| ItemsGrid.ItemsGrid.StacksAtSlot | Source/MounteaAdvancedInventorySystem/Private/Widgets/Items/MounteaAdvancedInventoryItemsGridWidget.cpp:306-349 | the first part of stackable adding changes slots only as AddStacks allows, the item total grows by exactly what was placed, with no update nothing changes, with a positive maximum something is placed exactly when the result says so; when some is still left, every stack of the item is full or among the remaining listed slots |
| ItemsGrid.ItemsGrid.FirstStack | Source/MounteaAdvancedInventorySystem/Private/Widgets/Items/MounteaAdvancedInventoryItemsGridWidget.cpp:307-320 | with no stack of the item yet, slots change only as AddStacks allows, the total grows by exactly what was placed, nothing changes without an update, with a positive maximum something is placed exactly when the result says so, and with some still left every stack of the item is full |
| ItemsGrid.ItemsGrid.StacksAtGiven | Source/MounteaAdvancedInventorySystem/Private/Widgets/Items/MounteaAdvancedInventoryItemsGridWidget.cpp:322-348 | with a given slot in range, slots change only as AddStacks allows, the total grows by exactly what was placed, nothing changes without an update, the listed slots left are slots of the grid, and with a positive maximum and some still left every stack is full or still listed |
| ItemsGrid.FullAfterWrite | Source/MounteaAdvancedInventorySystem/Private/Widgets/Items/MounteaAdvancedInventoryItemsGridWidget.cpp:352-367 | writing a slot that ends full, or holds another item, keeps every stack of the item full |
| ItemsGrid.ListedStep | Source/MounteaAdvancedInventorySystem/Private/Widgets/Items/MounteaAdvancedInventoryItemsGridWidget.cpp:352-367 | one top-up pass over a listed stack that ends full takes it off the stacks still to visit |
| ItemsGrid.ItemsGrid.TopUpStacks | Source/MounteaAdvancedInventorySystem/Private/Widgets/Items/MounteaAdvancedInventoryItemsGridWidget.cpp:351-367 | topping up the listed stacks changes slots only as AddStacks allows; the total grows by exactly what was placed, between nothing and what was left, and nothing changes without an update; with a positive maximum and some still left, every stack of the item is full |
| ItemsGrid.ItemsGrid.NewStacks | Source/MounteaAdvancedInventorySystem/Private/Widgets/Items/MounteaAdvancedInventoryItemsGridWidget.cpp:369-387 | new stacks in empty slots change slots only as AddStacks allows; the total grows by exactly what was placed, between nothing and what was left with a positive maximum; when some is still left the first empty slot is missing or refuses items, and stacks that were full stay full |
| ItemsGrid.ItemsGrid.RemoveAtGiven | Source/MounteaAdvancedInventorySystem/Private/Widgets/Items/MounteaAdvancedInventoryItemsGridWidget.cpp:396-414 | the given slot, when it holds the item, is visited first and sets the update flag; when it holds more than the amount it alone loses that amount; otherwise nothing changes and the first visit is left to the loop |
| ItemsGrid.ItemsGrid.RemoveFromGiven | Source/MounteaAdvancedInventorySystem/Private/Widgets/Items/MounteaAdvancedInventoryItemsGridWidget.cpp:401-411 | the given slot is cleared or loses the amount; only that slot changes, and with no negative stacks the total falls by what was taken |
| ItemsGrid.ItemsGrid.RemoveFromOthers | Source/MounteaAdvancedInventorySystem/Private/Widgets/Items/MounteaAdvancedInventoryItemsGridWidget.cpp:416-437 | the loop over the item's other slots sets the update flag exactly when it visits one; a first slot holding more than what is left alone loses it; with no negative stacks the total falls by what was taken |
| ItemsGrid.ItemsGrid.RemoveRest | Source/MounteaAdvancedInventorySystem/Private/Widgets/Items/MounteaAdvancedInventoryItemsGridWidget.cpp:418-437 | later passes of the loop change slots only as removing allows, and with no negative stacks the total falls by what was taken |
| ItemsGrid.ItemsGrid.RemoveNext | Source/MounteaAdvancedInventorySystem/Private/Widgets/Items/MounteaAdvancedInventoryItemsGridWidget.cpp:418-437 | one pass of the removal loop moves to the next listed slot, changes slots only as removing allows, keeps the bound on the fall of the total with no negative stacks, and keeps the exact account when every slot holding the item accepts items |
| ItemsGrid.RemovedTotal | Source/MounteaAdvancedInventorySystem/Private/Widgets/Items/MounteaAdvancedInventoryItemsGridWidget.cpp:391-438 | with no negative stacks, once nothing is left to remove or no slot holds the item, the total is the old total less the amount, or zero when the amount was larger |
| ItemsGrid.ItemsGrid.RemoveVisited | Source/MounteaAdvancedInventorySystem/Private/Widgets/Items/MounteaAdvancedInventoryItemsGridWidget.cpp:420-435 | one pass clears the first slot holding the item when the visited slot fits in what is left, otherwise the visited slot alone loses what is left |
| ItemsGrid.ItemsGrid.ClearVisited | Source/MounteaAdvancedInventorySystem/Private/Widgets/Items/MounteaAdvancedInventoryItemsGridWidget.cpp:427-431 | a clear of the first slot holding the item changes slots only as removing allows, leaves later listed slots untouched and takes at most the visited slot's quantity |
| ItemsGrid.ItemsGrid.AddToTotal | Source/MounteaAdvancedInventorySystem/Private/Widgets/Items/MounteaAdvancedInventoryItemsGridWidget.cpp:265-389 | with a shortfall the grid changes as SinglesAdded or StacksAdded says: each slot's change, exact accounting, growth between nothing and the shortfall, the result saying whether anything was placed, and the loop stopping short only for lack of room |
| ItemsGrid.ItemsGrid.ChangeTotal | Source/MounteaAdvancedInventorySystem/Private/Widgets/Items/MounteaAdvancedInventoryItemsGridWidget.cpp:265-438 | with a differing total the grid changes as TotalChanged says: adding as AddToTotal states on a shortfall, removing as StacksRemoved states on an excess |
| InventoryItemBFL.ProcessItemAction | Source/MounteaInventoryEquipment/Public/Helpers/MounteaInventoryItemBFL.h:29-62 | the action's own result is returned exactly when there is an action, an item, and the item has a world; every other case is a bad request |
| InventoryItemBFL.DetermineMaxStackSize | Source/MounteaInventoryEquipment/Public/Helpers/MounteaInventoryItemBFL.h:70-79 | zero without an item, otherwise the item's maximum stack size |
| InventoryItemBFL.CalculateAddAmount | Source/MounteaInventoryEquipment/Public/Helpers/MounteaInventoryItemBFL.h:83-94 | zero without an item, otherwise the smaller of the request and the maximum stack size |
| InventoryItemBFL.FindEmptySlot | Source/MounteaInventoryEquipment/Public/Helpers/MounteaInventoryItemBFL.h:96-109 | INDEX_NONE exactly when no slot is empty; otherwise the first index whose slot equals, by the item pointer, an empty slot at or after it |
| InventoryItemBFL.FirstEmptyFrom | Source/MounteaInventoryEquipment/Public/Helpers/MounteaInventoryItemBFL.h:98-102 | INDEX_NONE exactly when no slot from the start index on is empty, otherwise the first such empty slot |
| InventoryItemBFL.FirstSameSlot | Source/MounteaInventoryEquipment/Public/Helpers/MounteaInventoryItemBFL.h:104 | INDEX_NONE exactly when no slot from the start index on equals the given slot, otherwise the first that does |
| InventoryItemBFL.FindEmptySlotIsFirstEmpty | Source/MounteaInventoryEquipment/Public/Helpers/MounteaInventoryItemBFL.h:96-109 | when emptiness depends only on the item pointer, the result is the first empty slot |
| InventoryItemBFL.NewStackLoopNeverEnds | Source/MounteaInventoryEquipment/Public/Helpers/MounteaInventoryItemBFL.h:148-155 | as written, with a maximum stack size of zero or less and something left to place, the new-stack loop's guard holds after any number of rounds |
| InventoryItemBFL.UpdateStacksInSlot | Source/MounteaInventoryEquipment/Public/Helpers/MounteaInventoryItemBFL.h:123-156 | the slot's stacks become UpdatedStacks: FillFrom over the old stacks, then NewStacks for what is left; existing stacks keep their guids and only grow up to the maximum; new stacks, each of at most the maximum, are appended only once every old stack is full, the `j`-th taking the guid `newGuids(j)`, so with a distinct guid source no two new stacks share a guid; the total grows by exactly the quantity |
| InventoryItemBFL.FillStacks | Source/MounteaInventoryEquipment/Public/Helpers/MounteaInventoryItemBFL.h:129-144 | the filling loop ends with FillFrom's stacks and leftover; it keeps each stack but its size, leaves full stacks alone, grows the others to at most the maximum, moves quantity without losing any, and leaves some over only when every stack is full |
| InventoryItemBFL.AppendStacks | Source/MounteaInventoryEquipment/Public/Helpers/MounteaInventoryItemBFL.h:146-154 | the new-stack loop appends exactly NewStacks of the leftover to the existing stacks: the `j`-th new stack takes guid `newGuids(j)` and the slot guid and holds between one and the maximum; together they hold the leftover when the maximum is positive |
| InventoryItemBFL.MakeNewSlot | Source/MounteaInventoryEquipment/Public/Helpers/MounteaInventoryItemBFL.h:111-121 | the new slot is the item's fresh slot with UpdatedStacks of its empty stacks and the quantity: stacks of at most the maximum stack size holding the quantity, the `k`-th with guid `newGuids(k)`, pairwise distinct when the guid source is |
| InventoryItemBFL.InsertBySize | Source/MounteaInventoryEquipment/Public/Helpers/MounteaInventoryItemBFL.h:162-164 | inserting a stack adds exactly that stack, one element more |
| InventoryItemBFL.InsertSorted | Source/MounteaInventoryEquipment/Public/Helpers/MounteaInventoryItemBFL.h:162-164 | inserting into stacks ordered by size keeps them ordered |
| InventoryItemBFL.InsertKeepsTotal | Source/MounteaInventoryEquipment/Public/Helpers/MounteaInventoryItemBFL.h:162-164 | inserting a stack adds its size to the total |
| InventoryItemBFL.SortBySize | Source/MounteaInventoryEquipment/Public/Helpers/MounteaInventoryItemBFL.h:162-164 | the sorted stacks are a permutation of the input, smallest first |
| InventoryItemBFL.SortKeepsTotal | Source/MounteaInventoryEquipment/Public/Helpers/MounteaInventoryItemBFL.h:162-164 | sorting keeps the total quantity |
| InventoryItemBFL.SortStacks | Source/MounteaInventoryEquipment/Public/Helpers/MounteaInventoryItemBFL.h:162-164 | the sort yields an ordered permutation with the same total |
| InventoryItemBFL.Positives | Source/MounteaInventoryEquipment/Public/Helpers/MounteaInventoryItemBFL.h:186-188 | after RemoveAll exactly the stacks with a positive size remain |
| InventoryItemBFL.PositivesSorted | Source/MounteaInventoryEquipment/Public/Helpers/MounteaInventoryItemBFL.h:186-188 | removing the empty stacks keeps the positive ones in ascending order |
| InventoryItemBFL.PositivesKeepTotal | Source/MounteaInventoryEquipment/Public/Helpers/MounteaInventoryItemBFL.h:186-188 | with no negative stacks, removing the empty ones keeps the total |
| InventoryItemBFL.DrainStep | Source/MounteaInventoryEquipment/Public/Helpers/MounteaInventoryItemBFL.h:169-183 | one drain step keeps the loop's invariant: the stacks before the index are drained smallest first and none is negative |
| InventoryItemBFL.ReduceQuantityInStacks | Source/MounteaInventoryEquipment/Public/Helpers/MounteaInventoryItemBFL.h:159-189 | the stacks left are positive, ordered smallest first, each a reduced copy of an original stack, and total the old quantity less the reduction, never below zero |
| InventoryItemBFL.DrainSorted | Source/MounteaInventoryEquipment/Public/Helpers/MounteaInventoryItemBFL.h:169-189 | draining the sorted stacks smallest first and dropping the empty ones leaves positive stacks, ordered, each a reduced copy of an original, totalling the old quantity less the reduction and never below zero |
| InventoryItemBFL.DrainStart | Source/MounteaInventoryEquipment/Public/Helpers/MounteaInventoryItemBFL.h:162-169 | sorted stacks with nothing drained yet meet the loop's invariant |
| InventoryItemBFL.DrainEnd | Source/MounteaInventoryEquipment/Public/Helpers/MounteaInventoryItemBFL.h:183-189 | when the loop stops, the positive stacks left are ordered and each is a reduced copy of an original |
| InventoryItemBFL.DrainEndTotal | Source/MounteaInventoryEquipment/Public/Helpers/MounteaInventoryItemBFL.h:169-189 | when the loop stops, the positive stacks total the old quantity less the reduction, never below zero |
| InventoryItemBFL.DrainResult | Source/MounteaInventoryEquipment/Public/Helpers/MounteaInventoryItemBFL.h:169-189 | once the drain loop stops, the positive stacks left meet every promise of ReduceQuantityInStacks |
| InventoryItemBFL.ZerosTotal | Source/MounteaInventoryEquipment/Public/Helpers/MounteaInventoryItemBFL.h:179-182 | stacks of size zero total zero |
| InventoryItemBFL.FindStack | Source/MounteaInventoryEquipment/Public/Helpers/MounteaInventoryItemBFL.h:195 | INDEX_NONE exactly when no stack has the guid, otherwise the first stack that has it |
| InventoryItemBFL.UpdateStack | Source/MounteaInventoryEquipment/Public/Helpers/MounteaInventoryItemBFL.h:192-220 | an existing stack grows by what fits below the maximum and is removed when it ends at zero or less; without one a new stack of at most the maximum is appended; the result is the quantity not added, and never more than the quantity is added |
| InventoryItemBFL.UpdateStackLeftover | Source/MounteaInventoryEquipment/Public/Helpers/MounteaInventoryItemBFL.h:198-218 | for a non-negative request nothing negative is left over, and a request that fits in the space available leaves nothing over |
| InventoryItemBFL.FillRaisesInOrder | Source/MounteaInventoryEquipment/Public/Helpers/MounteaInventoryItemBFL.h:129-144 | the filling loop keeps every stack but its size and raises a stack only when every stack before it is full |
| InventoryItemBFL.NewStacksShape | Source/MounteaInventoryEquipment/Public/Helpers/MounteaInventoryItemBFL.h:146-154 | with a positive maximum, the new stacks hold between one and the maximum each, are all full but the last, and together hold the leftover |
| InventoryItemBFL.NewStacksGuids | Source/MounteaInventoryEquipment/Public/Helpers/MounteaInventoryItemBFL.h:148-153 | the `k`-th new stack of a call carries the guid `newGuids(j + k)` and the slot's guid |
| InventoryItemBFL.NewStacksDistinct | Source/MounteaInventoryEquipment/Public/Helpers/MounteaInventoryItemBFL.h:148-153 | with a guid source that never repeats, no two new stacks of one call share a stack guid, so guid-based stack equality tells them apart |
| InventoryItemBFL.TenInStacksOfFive | Source/MounteaInventoryEquipment/Public/Helpers/MounteaInventoryItemBFL.h:123-156 | ten items with a maximum stack size of five fill an empty slot with exactly two stacks of five, taking the first two new guids |
| InventorySettings.DefaultConfigForType | Source/MounteaAdvancedInventorySystem/Private/Settings/MounteaAdvancedInventorySettingsConfig.cpp:33-62 | every default configuration starts within its slot range, and a type without a setup function gets the default-constructed record, whose access byte is that of the one-bit encoding |
| InventorySettings.DefaultFlags | Source/MounteaAdvancedInventorySystem/Private/Settings/MounteaAdvancedInventorySettingsConfig.cpp:64-140 | each type's default behaviour byte, and its access byte in the one-bit encoding, are exactly the flags its setup function combines |
| InventorySettings.DefaultAccess | Source/MounteaAdvancedInventorySystem/Private/Settings/MounteaAdvancedInventorySettingsConfig.cpp:81-130 | with one bit per flag, the NPC default reads as lootable and not public, the loot default as public, lootable and temporary and not private, the player default has a weight limit, the merchant a value limit, and only the specialized default of those two can add items |
| InventorySettings.DefaultIsPrivate | Source/MounteaAdvancedInventorySystem/Private/Settings/MounteaAdvancedInventorySettingsConfig.cpp:64-140 | in the one-bit encoding, every default except the loot one is private and not public |
| InventorySettings.DefaultAccessAsDeclared | Source/MounteaAdvancedInventorySystem/Private/Settings/MounteaAdvancedInventorySettingsConfig.cpp:87 | as declared, the NPC access byte equals the loot one, so the NPC default reads as public and the loot default as private |
| InventorySettings.MissingTypes | Source/MounteaAdvancedInventorySystem/Private/Settings/MounteaAdvancedInventorySettingsConfig.cpp:24-30 | the missing list holds exactly the required types that have no entry yet |
| InventorySettings.SettingsConfig.constructor | Source/MounteaAdvancedInventorySystem/Private/Settings/MounteaAdvancedInventorySettingsConfig.cpp:8-11 | a new settings object holds every required type, in order, with its default configuration |
| InventorySettings.SettingsConfig.ValidateInventoryTypes | Source/MounteaAdvancedInventorySystem/Private/Settings/MounteaAdvancedInventorySettingsConfig.cpp:13-31 | afterwards every required type has an entry; the missing types are appended in order with their defaults, existing entries are kept as they were, and notification types are untouched |
| InventorySettings.SettingsConfig.AddMissingTypes | Source/MounteaAdvancedInventorySystem/Private/Settings/MounteaAdvancedInventorySettingsConfig.cpp:24-30 | the loop adds every listed type that is missing, with its default, and keeps the existing entries |
| InventorySettings.SettingsConfig.GetNotificationTypes | Source/MounteaAdvancedInventorySystem/Private/Settings/MounteaAdvancedInventorySettingsConfig.cpp:142-151 | the configured notification types come first, then the built-in ones; nothing else is added |
| InventorySettings.MissingTypesSnoc | Source/MounteaAdvancedInventorySystem/Private/Settings/MounteaAdvancedInventorySettingsConfig.cpp:24-30 | checking one more required type extends the missing list by it exactly when it has no entry |
| InventorySettings.MissingTypesClosed | Source/MounteaAdvancedInventorySystem/Private/Settings/MounteaAdvancedInventorySettingsConfig.cpp:24-30 | after the missing types are added none is missing |
| InventorySettings.MissingNone | Source/MounteaAdvancedInventorySystem/Private/Settings/MounteaAdvancedInventorySettingsConfig.cpp:26 | nothing is missing when every required type has an entry |
| InventorySettings.MissingFromNone | Source/MounteaAdvancedInventorySystem/Private/Settings/MounteaAdvancedInventorySettingsConfig.cpp:24-30 | from no entries at all every required type is missing, in order |
| InventorySettings.ValidateIdempotent | Source/MounteaAdvancedInventorySystem/Private/Settings/MounteaAdvancedInventorySettingsConfig.cpp:13-31 | a second validation adds nothing |
| InventoryTypeConfig.DefaultConfig | Source/MounteaAdvancedInventorySystem/Private/Definitions/MounteaInventoryBaseDataTypes.cpp:15-17 | the default record has no behaviour bits and, in the one-bit encoding, reads as private only |
| InventoryTypeConfig.SetFlag | Source/MounteaAdvancedInventorySystem/Private/Definitions/MounteaInventoryBaseDataTypes.cpp:78-84 | setting an access flag changes only the access byte |
| InventoryTypeConfig.SetFlagTouchesOnlyItsFlag | Source/MounteaAdvancedInventorySystem/Private/Definitions/MounteaInventoryBaseDataTypes.cpp:53-89 | with one bit per flag, setting a flag makes HasFlag hold, clearing it makes HasFlag fail, and every other flag keeps its answer |
| InventoryTypeConfig.NoFlagNeverSet | Source/MounteaAdvancedInventorySystem/Private/Definitions/MounteaInventoryBaseDataTypes.cpp:86-89 | HasFlag(None) never holds |
| InventoryTypeConfig.DeclaredValuesOverlap | Source/MounteaAdvancedInventorySystem/Public/Definitions/MounteaInventoryBaseEnums.h:28-37 | as declared, with ordinals used as masks, a private-only record also reads as public and temporary, clearing Lootable also clears Public and TeamShared, and the NPC and loot access bytes coincide |
| InventoryTypeConfig.HasWeightLimit | Source/MounteaAdvancedInventorySystem/Private/Definitions/MounteaInventoryBaseDataTypes.cpp:18-19 | the weight-limit behaviour bit is set |
| InventoryTypeConfig.HasValueLimit | Source/MounteaAdvancedInventorySystem/Private/Definitions/MounteaInventoryBaseDataTypes.cpp:21-22 | the value-limit behaviour bit is set |
| InventoryTypeConfig.CanAddItems | Source/MounteaAdvancedInventorySystem/Private/Definitions/MounteaInventoryBaseDataTypes.cpp:24-25 | the can-add-items behaviour bit is set |
| InventoryTypeConfig.HasFlag | Source/MounteaAdvancedInventorySystem/Private/Definitions/MounteaInventoryBaseDataTypes.cpp:86-89 | in the one-bit encoding, the access byte has the flag's bit set |
| InventoryTypeConfig.IsPublic | Source/MounteaAdvancedInventorySystem/Private/Definitions/MounteaInventoryBaseDataTypes.cpp:28-31 | in the one-bit encoding, the Public bit is set |
| InventoryTypeConfig.IsTeamShared | Source/MounteaAdvancedInventorySystem/Private/Definitions/MounteaInventoryBaseDataTypes.cpp:33-36 | in the one-bit encoding, the TeamShared bit is set |
| InventoryTypeConfig.IsLootable | Source/MounteaAdvancedInventorySystem/Private/Definitions/MounteaInventoryBaseDataTypes.cpp:38-41 | in the one-bit encoding, the Lootable bit is set |
| InventoryTypeConfig.IsTemporary | Source/MounteaAdvancedInventorySystem/Private/Definitions/MounteaInventoryBaseDataTypes.cpp:43-46 | in the one-bit encoding, the Temporary bit is set |
| InventoryTypeConfig.IsPrivate | Source/MounteaAdvancedInventorySystem/Private/Definitions/MounteaInventoryBaseDataTypes.cpp:48-51 | in the one-bit encoding, the Private bit is set |
| InventoryTypeConfig.SetFlagAnswers | Source/MounteaAdvancedInventorySystem/Private/Definitions/MounteaInventoryBaseDataTypes.cpp:78-89 | in the one-bit encoding, setting or clearing one flag gives it that answer and leaves every other flag's answer |
| InventoryTypeConfig.SetPublic | Source/MounteaAdvancedInventorySystem/Private/Definitions/MounteaInventoryBaseDataTypes.cpp:53-56 | in the one-bit encoding, IsPublic answers the given value afterwards and every other flag keeps its answer |
| InventoryTypeConfig.SetTeamShared | Source/MounteaAdvancedInventorySystem/Private/Definitions/MounteaInventoryBaseDataTypes.cpp:58-61 | in the one-bit encoding, IsTeamShared answers the given value afterwards and every other flag keeps its answer |
| InventoryTypeConfig.SetLootable | Source/MounteaAdvancedInventorySystem/Private/Definitions/MounteaInventoryBaseDataTypes.cpp:63-66 | in the one-bit encoding, IsLootable answers the given value afterwards and every other flag keeps its answer |
| InventoryTypeConfig.SetTemporary | Source/MounteaAdvancedInventorySystem/Private/Definitions/MounteaInventoryBaseDataTypes.cpp:68-71 | in the one-bit encoding, IsTemporary answers the given value afterwards and every other flag keeps its answer |
| InventoryTypeConfig.SetPrivate | Source/MounteaAdvancedInventorySystem/Private/Definitions/MounteaInventoryBaseDataTypes.cpp:73-76 | in the one-bit encoding, IsPrivate answers the given value afterwards and every other flag keeps its answer |
| MounteaInventory.FirstIndex | Source/MounteaAdvancedInventorySystem/Private/Components/MounteaInventoryComponent.cpp:138-141 | FindByPredicate: -1 exactly when no element satisfies the predicate, otherwise the first index that does |
| MounteaInventory.FindItem | Source/MounteaAdvancedInventorySystem/Private/Components/MounteaInventoryComponent.cpp:136-144 | the first entry carrying the guid, or the default item when no entry carries it |
| MounteaInventory.FindItemValid | Source/MounteaAdvancedInventorySystem/Private/Components/MounteaInventoryComponent.cpp:136-144 | a valid lookup result is a stored entry with that guid; an invalid guid never finds a valid item |
| MounteaInventory.WithoutGuid | Source/MounteaAdvancedInventorySystem/Private/Components/MounteaInventoryComponent.cpp:122-125 | RemoveAll keeps exactly the entries of other guids, shrinks the array when the guid is present and leaves it unchanged otherwise |
| MounteaInventory.RemoveOutcomeProperties | Source/MounteaAdvancedInventorySystem/Private/Components/MounteaInventoryComponent.cpp:116-129 | removal succeeds exactly when the lookup gives a valid item; on success no entry of the guid remains and all others stay; on failure the array is unchanged; an invalid guid is always refused |
| MounteaInventory.IncreaseOutcome | Source/MounteaAdvancedInventorySystem/Private/Components/MounteaInventoryComponent.cpp:151-166 | success exactly when some entry of the guid accepts the raised quantity; then only the first such entry changes, to a quantity within its template's bound; on failure the array is unchanged |
| MounteaInventory.DecreaseOutcome | Source/MounteaAdvancedInventorySystem/Private/Components/MounteaInventoryComponent.cpp:168-188 | when no entry of the guid accepts the decrease, nothing changes and the result is false |
| MounteaInventory.DecreaseToZeroRemoves | Source/MounteaAdvancedInventorySystem/Private/Components/MounteaInventoryComponent.cpp:172-178 | a valid first entry that runs out causes a successful removal of every entry of the guid, keeping all other entries |
| MounteaInventory.DecreaseKeepsOthers | Source/MounteaAdvancedInventorySystem/Private/Components/MounteaInventoryComponent.cpp:168-188 | a decrease never removes an entry of another guid |
| MounteaInventory.DecreaseLowers | Source/MounteaAdvancedInventorySystem/Private/Components/MounteaInventoryComponent.cpp:174-184 | a decrease that does not run out lowers exactly the stopping entry, to a quantity in [1, MaxQuantity] |
| MounteaInventory.InventoryComponent.constructor | Source/MounteaAdvancedInventorySystem/Private/Components/MounteaInventoryComponent.cpp:10-23 | a new component holds no items |
| MounteaInventory.InventoryComponent.AddItem | Source/MounteaAdvancedInventorySystem/Private/Components/MounteaInventoryComponent.cpp:48-114 | the result is true exactly for a valid item with a template and a non-zero quantity; the array is not changed |
| MounteaInventory.InventoryComponent.RemoveItem | Source/MounteaAdvancedInventorySystem/Private/Components/MounteaInventoryComponent.cpp:116-129 | the result and the new array are those of the removal outcome |
| MounteaInventory.InventoryComponent.IncreaseItemQuantity | Source/MounteaAdvancedInventorySystem/Private/Components/MounteaInventoryComponent.cpp:151-166 | the result and the new array are those of the increase outcome |
| MounteaInventory.InventoryComponent.DecreaseItemQuantity | Source/MounteaAdvancedInventorySystem/Private/Components/MounteaInventoryComponent.cpp:168-188 | the result and the new array are those of the decrease outcome |
| MounteaInventory.InventoryComponent.SplitItemStack | Source/MounteaAdvancedInventorySystem/Private/Components/MounteaInventoryComponent.cpp:190-204 | an unknown guid, a non-positive amount or an amount not below the quantity gives the default item and no change; otherwise the stored entry is decreased and a new item of the template and amount is returned |
| MounteaInventory.InventoryComponent.ClearInventory | Source/MounteaAdvancedInventorySystem/Private/Components/MounteaInventoryComponent.cpp:225-232 | the array ends empty |
| MounteaInventory.SplitDropsAmount | Source/MounteaAdvancedInventorySystem/Private/Components/MounteaInventoryComponent.cpp:196-200 | a split lowers the entry by the amount while the returned item is stored nowhere: the array keeps its length and holds no entry of the new guid |
| MounteaInventory.CanAddItem | Source/MounteaAdvancedInventorySystem/Private/Components/MounteaInventoryComponent.cpp:131-134 | an item can be added exactly when it is valid and has a template |
| MounteaItem.DefaultItem | Source/MounteaAdvancedInventorySystem/Private/Definitions/MounteaInventoryItem.cpp:9-11 | the default item has no guid and no template, quantity -1, no owner and no affectors, and is not valid |
| MounteaItem.NewItem | Source/MounteaAdvancedInventorySystem/Private/Definitions/MounteaInventoryItem.cpp:13-29 | without a template the item stays invalid with quantity 1; with one it is valid, gets the new guid, and its quantity is the requested one clamped into [0, MaxQuantity] |
| MounteaItem.SetTemplate | Source/MounteaAdvancedInventorySystem/Private/Definitions/MounteaInventoryItem.cpp:82-90 | accepted exactly for a present template different from the current one, which it then replaces; otherwise the item is unchanged |
| MounteaItem.SetGuid | Source/MounteaAdvancedInventorySystem/Public/Definitions/MounteaInventoryItem.h:103-112 | accepted exactly for a valid guid different from the current one, which it then replaces; otherwise the item is unchanged |
| MounteaItem.SetQuantity | Source/MounteaAdvancedInventorySystem/Private/Definitions/MounteaInventoryItem.cpp:92-104 | accepted exactly when the value differs from the current one, a template exists and the value lies in [0, MaxQuantity]; otherwise the item is unchanged |
| MounteaItem.SetQuantityTwice | Source/MounteaAdvancedInventorySystem/Private/Definitions/MounteaInventoryItem.cpp:92-104 | a quantity just accepted is refused the second time, and an accepted quantity is within the template's bound |
| MounteaItem.SetOwningInventory | Source/MounteaAdvancedInventorySystem/Private/Definitions/MounteaInventoryItem.cpp:162-169 | true exactly when the owner changes; the item afterwards belongs to the given owner |
| MounteaItem.FindAffector | Source/MounteaAdvancedInventorySystem/Private/Definitions/MounteaInventoryItem.cpp:141 | TMap::Find gives None exactly when no pair has the tag; a found guid is paired with the tag, and with unique tags it is that pair's guid |
| MounteaItem.FirstDifference | Source/MounteaAdvancedInventorySystem/Private/Definitions/MounteaInventoryItem.cpp:139-151 | -1 exactly when every new pair is held unchanged by the current map, otherwise the first pair that is not |
| MounteaItem.CheckGuids | Source/MounteaAdvancedInventorySystem/Private/Definitions/MounteaInventoryItem.cpp:127-131 | the guid loop answers true exactly when every guid of the new map is valid |
| MounteaItem.FindDifference | Source/MounteaAdvancedInventorySystem/Private/Definitions/MounteaInventoryItem.cpp:139-151 | the comparison loop stops at the first pair the current map does not hold unchanged, and reports none when there is no such pair |
| MounteaItem.AffectorsAsWrittenTakeInvalidGuid | Source/MounteaAdvancedInventorySystem/Private/Definitions/MounteaInventoryItem.cpp:137-157 | a new map of the same size whose first differing pair has a valid guid is taken although a later pair's guid is invalid; the intended rule refuses it |
| MounteaItem.AcceptsKeepsGuidsValid | Source/MounteaAdvancedInventorySystem/Private/Definitions/MounteaInventoryItem.cpp:123-160 | under the intended rule every taken map holds only valid guids, and a map equal pair for pair to the current one is never taken |
| MounteaItem.SetAffectorSlotsAsWritten | Source/MounteaAdvancedInventorySystem/Private/Definitions/MounteaInventoryItem.cpp:123-160 | the result follows the as-written rule: a map of another size when all its guids are valid, a map of the same size when its first differing pair has a valid guid; a taken map replaces the affectors |
| MounteaItem.SetAffectorSlots | Source/MounteaAdvancedInventorySystem/Private/Definitions/MounteaInventoryItem.cpp:123-160 | the result follows the intended rule: every guid valid, and the size or some pair differing; a taken map replaces the affectors |
| ScrollBox.WheelStep | Source/MounteaAdvancedInventorySystem/Private/Slate/MounteaInventoryScrollBox.cpp:47-52 | a positive wheel delta steps back one entry, any other steps on one |
| ScrollBox.KeyStep | Source/MounteaAdvancedInventorySystem/Private/Slate/MounteaInventoryScrollBox.cpp:54-70 | Up, W and d-pad up step back; Down, S and d-pad down step on; every other key is left to the parent |
| ScrollBox.AnalogStep | Source/MounteaAdvancedInventorySystem/Private/Slate/MounteaInventoryScrollBox.cpp:72-85 | only the left stick's Y axis past one half is handled, stepping as the wheel does for its sign |
| ScrollBox.NewIndex | Source/MounteaAdvancedInventorySystem/Private/Slate/MounteaInventoryScrollBox.cpp:97-110 | without wrap-around the index is the step clamped into the list; with wrap-around a step before the start goes to the second-to-last entry and a step past the second-to-last goes to the first |
| ScrollBox.Broadcast | Source/MounteaAdvancedInventorySystem/Private/Slate/MounteaInventoryScrollBox.cpp:111-112 | an index is broadcast exactly when the computed one differs from the active one, and it is the computed one |
| ScrollBox.WrapSkipsLast | Source/MounteaAdvancedInventorySystem/Private/Slate/MounteaInventoryScrollBox.cpp:101-107 | with wrap-around and at least two children, the last child is never the computed index |
| ScrollBox.ClampAtEnds | Source/MounteaAdvancedInventorySystem/Private/Slate/MounteaInventoryScrollBox.cpp:108-112 | without wrap-around, stepping on from the last child or back from the first broadcasts nothing |
| ScrollBox.ScrollBox.constructor | Source/MounteaAdvancedInventorySystem/Private/Slate/MounteaInventoryScrollBox.cpp:27-39 | a new box starts at index 0 with the given child count and wrap setting |
| ScrollBox.ScrollBox.SetActiveIndex | Source/MounteaAdvancedInventorySystem/Private/Slate/MounteaInventoryScrollBox.cpp:87-95 | without a vertical box nothing changes; otherwise the active index becomes the request clamped into [0, count - 1], so it lies inside a non-empty list |
| ScrollBox.ScrollBox.BroadcastIndexChange | Source/MounteaAdvancedInventorySystem/Private/Slate/MounteaInventoryScrollBox.cpp:97-113 | for a box with a vertical box, the index broadcast is Broadcast of the active index, the step, the child count and the wrap setting |
| SelectableAction.WithFlag | Source/MounteaAdvancedInventorySystem/Private/Decorations/MounteaSelectableInventoryItemAction.cpp:47-51 | after the bitwise or, the flag's bit is set |
| SelectableAction.WithoutFlag | Source/MounteaAdvancedInventorySystem/Private/Decorations/MounteaSelectableInventoryItemAction.cpp:53-57 | after the masking and, the flag's bit is clear |
| SelectableAction.FlagsIndependent | Source/MounteaAdvancedInventorySystem/Private/Decorations/MounteaSelectableInventoryItemAction.cpp:47-57 | adding or removing one callback flag sets or clears that flag and leaves the other flag's answer as it was |
| SelectableAction.AddThenRemove | Source/MounteaAdvancedInventorySystem/Private/Decorations/MounteaSelectableInventoryItemAction.cpp:47-57 | removing a flag that was not set before adding it restores the original byte |
| SelectableAction.Action.constructor | Source/MounteaAdvancedInventorySystem/Private/Decorations/MounteaSelectableInventoryItemAction.cpp:42-45 | a new action has no callback flags |
| SelectableAction.Action.IsActionVisible | Source/MounteaAdvancedInventorySystem/Private/Decorations/MounteaSelectableInventoryItemAction.cpp:37-40 | the base action is always visible |
| SelectableAction.Action.IsAllowed | Source/MounteaAdvancedInventorySystem/Private/Decorations/MounteaSelectableInventoryItemAction.cpp:17-30 | allowed exactly when the base class allows the item and one of the item's displayable actions is of this action's class |
| SelectableAction.Action.GetCallback | Source/MounteaAdvancedInventorySystem/Private/Decorations/MounteaSelectableInventoryItemAction.cpp:42-45 | the callback is the stored flag byte |
| SelectableAction.Action.AddActionFlag | Source/MounteaAdvancedInventorySystem/Private/Decorations/MounteaSelectableInventoryItemAction.cpp:47-51 | always succeeds; the byte becomes the old byte with the flag added |
| SelectableAction.Action.RemoveActionFlag | Source/MounteaAdvancedInventorySystem/Private/Decorations/MounteaSelectableInventoryItemAction.cpp:53-57 | always succeeds; the byte becomes the old byte with the flag removed |
| SelectableAction.Action.ClearAllActionFlags | Source/MounteaAdvancedInventorySystem/Private/Decorations/MounteaSelectableInventoryItemAction.cpp:59-63 | always succeeds; the byte is zero, so neither flag is set |
| SelectableAction.HasCallback | Source/MounteaAdvancedInventorySystem/Public/Definitions/MounteaInventoryBaseUIEnums.h:26-32 | a callback flag is set exactly when its bit is set in the flag byte |
| TemplateEditor.LexIrreflexive | Source/MounteaAdvancedInventorySystemEditor/Private/Editor/SMounteaInventoryTemplateEditor.cpp:226-229 | the name order never puts a name before itself |
| TemplateEditor.LexTransitive | Source/MounteaAdvancedInventorySystemEditor/Private/Editor/SMounteaInventoryTemplateEditor.cpp:226-229 | the name order is transitive |
| TemplateEditor.LexTotal | Source/MounteaAdvancedInventorySystemEditor/Private/Editor/SMounteaInventoryTemplateEditor.cpp:226-229 | any two different names are ordered one way or the other |
| TemplateEditor.LexAsymmetric | Source/MounteaAdvancedInventorySystemEditor/Private/Editor/SMounteaInventoryTemplateEditor.cpp:226-229 | the name order never holds both ways |
| TemplateEditor.Insert | Source/MounteaAdvancedInventorySystemEditor/Private/Editor/SMounteaInventoryTemplateEditor.cpp:226-229 | an insertion adds exactly the new category to the multiset of categories |
| TemplateEditor.InsertSorted | Source/MounteaAdvancedInventorySystemEditor/Private/Editor/SMounteaInventoryTemplateEditor.cpp:226-229 | inserting into a list sorted by name keeps it sorted |
| TemplateEditor.InsertUnique | Source/MounteaAdvancedInventorySystemEditor/Private/Editor/SMounteaInventoryTemplateEditor.cpp:206-229 | inserting a category whose name differs ignoring case from every present one keeps the names unique |
| TemplateEditor.SortByName | Source/MounteaAdvancedInventorySystemEditor/Private/Editor/SMounteaInventoryTemplateEditor.cpp:226-229 | sorting is a permutation of the categories |
| TemplateEditor.SortByNameProperties | Source/MounteaAdvancedInventorySystemEditor/Private/Editor/SMounteaInventoryTemplateEditor.cpp:226-229 | the sorted categories are in name order, and names unique before stay unique |
| TemplateEditor.SortedStrictly | Source/MounteaAdvancedInventorySystemEditor/Private/Editor/SMounteaInventoryTemplateEditor.cpp:206-229 | with unique names the sorted tree is strictly increasing by name |
| TemplateEditor.FindCategory | Source/MounteaAdvancedInventorySystemEditor/Private/Editor/SMounteaInventoryTemplateEditor.cpp:215-223 | the category map lookup gives -1 exactly when no node's name matches ignoring case, otherwise a matching node |
| TemplateEditor.GroupTemplates | Source/MounteaAdvancedInventorySystemEditor/Private/Editor/SMounteaInventoryTemplateEditor.cpp:204-224 | the grouping loop builds exactly the tree that placing each valid template in order gives |
| TemplateEditor.PlaceKeepsGrouped | Source/MounteaAdvancedInventorySystemEditor/Private/Editor/SMounteaInventoryTemplateEditor.cpp:213-223 | placing one more template keeps every category non-empty and of its own templates, keeps names unique and leaves every valid template placed |
| TemplateEditor.GroupIsGrouped | Source/MounteaAdvancedInventorySystemEditor/Private/Editor/SMounteaInventoryTemplateEditor.cpp:204-224 | the grouped tree has unique category names, non-empty categories holding only valid templates of that category, and every valid template placed |
| TemplateEditor.SortSameCategories | Source/MounteaAdvancedInventorySystemEditor/Private/Editor/SMounteaInventoryTemplateEditor.cpp:226-229 | sorting keeps exactly the same category nodes |
| TemplateEditor.SortKeepsChildrenBelong | Source/MounteaAdvancedInventorySystemEditor/Private/Editor/SMounteaInventoryTemplateEditor.cpp:226-229 | every category still holds only its own templates after sorting |
| TemplateEditor.SortKeepsAllPlaced | Source/MounteaAdvancedInventorySystemEditor/Private/Editor/SMounteaInventoryTemplateEditor.cpp:226-229 | every valid template is still placed after sorting |
| TemplateEditor.SortKeepsGrouped | Source/MounteaAdvancedInventorySystemEditor/Private/Editor/SMounteaInventoryTemplateEditor.cpp:226-229 | sorting keeps the whole grouping property |
| TemplateEditor.FilterChildren | Source/MounteaAdvancedInventorySystemEditor/Private/Editor/SMounteaInventoryTemplateEditor.cpp:812-824 | the kept children are exactly those of the category that pass both the filters and the search |
| TemplateEditor.FilterTree | Source/MounteaAdvancedInventorySystemEditor/Private/Editor/SMounteaInventoryTemplateEditor.cpp:805-828 | the filtered tree holds exactly the filtered versions of the categories that keep at least one child |
| TemplateEditor.FilterTreeProperties | Source/MounteaAdvancedInventorySystemEditor/Private/Editor/SMounteaInventoryTemplateEditor.cpp:795-828 | every category left is non-empty and shows only passing templates, and every passing template is shown under its category's name |
| TemplateEditor.FilterChildrenOf | Source/MounteaAdvancedInventorySystemEditor/Private/Editor/SMounteaInventoryTemplateEditor.cpp:812-824 | the loop over one category's children yields the kept children |
| TemplateEditor.FilterTreeOf | Source/MounteaAdvancedInventorySystemEditor/Private/Editor/SMounteaInventoryTemplateEditor.cpp:805-828 | the loop over the categories yields the filtered tree |
| TemplateEditor.GenerateTemplateDisplayInfo | Source/MounteaAdvancedInventorySystemEditor/Private/Editor/SMounteaInventoryTemplateEditor.cpp:722-771 | no template gives the empty info; otherwise the flags, the full text (display name or object name), the label marked when transient or dirty and cut to 32 characters plus "..." when longer, and the path ("Unsaved" when transient) |
| TemplateEditor.MarkedLabel | Source/MounteaAdvancedInventorySystemEditor/Private/Editor/SMounteaInventoryTemplateEditor.cpp:742-746 | the label is the base name with " *" appended exactly when the template is transient or dirty |
| TemplateEditor.ValidateTemplateData | Source/MounteaAdvancedInventorySystemEditor/Private/Editor/SMounteaInventoryTemplateEditor.cpp:1638-1661 | valid exactly with a template, a display name and a category; each failure gives its own message, checked in that order, and success leaves the message empty |
| TemplateEditor.TemplateEditorWindow.constructor | Source/MounteaAdvancedInventorySystemEditor/Private/Editor/SMounteaInventoryTemplateEditor.cpp:70-104 | a new window holds the given templates and search widget, an empty tree and no dirty templates |
| TemplateEditor.TemplateEditorWindow.RebuildTreeStructure | Source/MounteaAdvancedInventorySystemEditor/Private/Editor/SMounteaInventoryTemplateEditor.cpp:202-239 | the tree is the sorted grouping of the templates: unique category names, every valid template under its category, categories strictly in name order; nothing else changes |
| TemplateEditor.TemplateEditorWindow.ApplySearchFilter | Source/MounteaAdvancedInventorySystemEditor/Private/Editor/SMounteaInventoryTemplateEditor.cpp:793-832 | without a search widget the filtered tree is the whole tree, otherwise the filtered tree of the current tree; nothing else changes |
| TemplateEditor.TemplateEditorWindow.TrackDirtyAsset | Source/MounteaAdvancedInventorySystemEditor/Private/Editor/SMounteaInventoryTemplateEditor.cpp:1678-1682 | a present template joins the dirty set, a null one is ignored |
| TemplateEditor.TemplateEditorWindow.UntrackDirtyAsset | Source/MounteaAdvancedInventorySystemEditor/Private/Editor/SMounteaInventoryTemplateEditor.cpp:1684-1688 | a present template leaves the dirty set, a null one is ignored |
| TemplateEditor.TrackAndUntrack | Source/MounteaAdvancedInventorySystemEditor/Private/Editor/SMounteaInventoryTemplateEditor.cpp:1678-1693 | after tracking a template there are unsaved changes; untracking the only dirty template leaves none |
| TemplateSearch.SetAdd | Source/MounteaAdvancedInventorySystemEditor/Private/Search/MounteaInventoryTemplateSearchFilter.cpp:396 | TSet::Add: the keys afterwards are the old ones plus the new key, ignoring case; uniqueness is kept and a new key grows the set by one |
| TemplateSearch.SetRemove | Source/MounteaAdvancedInventorySystemEditor/Private/Search/MounteaInventoryTemplateSearchFilter.cpp:394 | TSet::Remove: the keys afterwards are the old ones except the removed key, ignoring case; uniqueness is kept |
| TemplateSearch.SetFromArray | Source/MounteaAdvancedInventorySystemEditor/Private/Search/MounteaInventoryTemplateSearchFilter.h:33-34 | a set built from an array holds exactly its keys, once each ignoring case, and as many as the array when those were distinct |
| TemplateSearch.Toggle | Source/MounteaAdvancedInventorySystemEditor/Private/Search/MounteaInventoryTemplateSearchFilter.cpp:391-414 | toggling keeps the keys unique |
| TemplateSearch.ToggleFlips | Source/MounteaAdvancedInventorySystemEditor/Private/Search/MounteaInventoryTemplateSearchFilter.cpp:391-414 | a toggle flips the membership of its own key and of no other |
| TemplateSearch.ToggleTwice | Source/MounteaAdvancedInventorySystemEditor/Private/Search/MounteaInventoryTemplateSearchFilter.cpp:391-414 | toggling a key twice restores every membership |
| TemplateSearch.DefaultFilters | Source/MounteaAdvancedInventorySystemEditor/Private/Search/MounteaInventoryTemplateSearchFilter.h:23-46 | the defaults show dirty and clean templates, search by name and guid but not by category or rarity, and allow exactly the available categories and rarities |
| TemplateSearch.ResetIsDefault | Source/MounteaAdvancedInventorySystemEditor/Private/Search/MounteaInventoryTemplateSearchFilter.h:36-52 | with distinct available keys, the reset filters read as default |
| TemplateSearch.IsDefaultCountsOnly | Source/MounteaAdvancedInventorySystemEditor/Private/Search/MounteaInventoryTemplateSearchFilter.h:48-52 | IsDefault only counts the allowed keys: a set of the right size that lacks an available category still reads as default |
| TemplateSearch.DefaultPasses | Source/MounteaAdvancedInventorySystemEditor/Private/Search/MounteaInventoryTemplateSearchFilter.h:54-69 | under the defaults a template passes exactly when its category and rarity are available, dirty or not |
| TemplateSearch.SearchFilterWidget.constructor | Source/MounteaAdvancedInventorySystemEditor/Private/Search/MounteaInventoryTemplateSearchFilter.h:33-34 | a new widget holds the default filters and an empty search text |
| TemplateSearch.SearchFilterWidget.OnResetFilters | Source/MounteaAdvancedInventorySystemEditor/Private/Search/MounteaInventoryTemplateSearchFilter.cpp:379-383 | the filters go back to the defaults and the text stays |
| TemplateSearch.SearchFilterWidget.OnSearchChanged | Source/MounteaAdvancedInventorySystemEditor/Private/Search/MounteaInventoryTemplateSearchFilter.cpp:385-389 | the search text becomes the new text and the filters stay |
| TemplateSearch.SearchFilterWidget.ClearSearch | Source/MounteaAdvancedInventorySystemEditor/Private/Search/MounteaInventoryTemplateSearchFilter.cpp:421-425 | the search text becomes empty and the filters stay |
| TemplateSearch.SearchFilterWidget.ToggleCategory | Source/MounteaAdvancedInventorySystemEditor/Private/Search/MounteaInventoryTemplateSearchFilter.cpp:391-399 | only the allowed categories change, by a toggle of the key |
| TemplateSearch.SearchFilterWidget.ToggleRarity | Source/MounteaAdvancedInventorySystemEditor/Private/Search/MounteaInventoryTemplateSearchFilter.cpp:406-414 | only the allowed rarities change, by a toggle of the key |
| TemplateSearch.ClearedSearchMatchesAll | Source/MounteaAdvancedInventorySystemEditor/Private/Search/MounteaInventoryTemplateSearchFilter.cpp:427-433 | with no search text every live template matches and a stale one never does |
| TemplateSearch.NoSearchMatchesNothing | Source/MounteaAdvancedInventorySystemEditor/Private/Search/MounteaInventoryTemplateSearchFilter.cpp:435-459 | with a non-blank text and every search switch off, no template matches |
| TemplateSearch.AllowedCategoryMatchesAnyText | Source/MounteaAdvancedInventorySystemEditor/Private/Search/MounteaInventoryTemplateSearchFilter.cpp:438-439 | with category search on, a template of an allowed category matches whatever the text |
| TemplateSearch.SearchFilterWidget.DoesTemplateMatchSearch | Source/MounteaAdvancedInventorySystemEditor/Private/Search/MounteaInventoryTemplateSearchFilter.cpp:427-459 | a stale template never matches; a blank text matches every live one; otherwise a template matches when an enabled category or rarity search allows its key, or an enabled name, path, guid, category or rarity search finds the lower-cased text inside the lower-cased field |
| InventoryInstancedItem.InstancedItem.constructor | Source/MounteaInventoryEquipment/Public/Definitions/MounteaInventoryInstancedItem.h:71-88 | a new instance has its guid, the table as data source, no sources, quantity 0, no flags and no config |
| InventoryInstancedItem.InstancedItem.Copied | Source/MounteaInventoryEquipment/Private/Definitions/MounteaInventoryInstancedItem.cpp:57-66 | the copy step finds the base item for the item source, and for the table source the row when the table exists and holds it |
| InventoryInstancedItem.InstancedItem.SetSourceItem | Source/MounteaInventoryEquipment/Private/Definitions/MounteaInventoryInstancedItem.cpp:34-37 | only the source item changes |
| InventoryInstancedItem.InstancedItem.SetSourceTable | Source/MounteaInventoryEquipment/Private/Definitions/MounteaInventoryInstancedItem.cpp:39-43 | only the table and the row name change |
| InventoryInstancedItem.InstancedItem.CleanupData | Source/MounteaInventoryEquipment/Private/Definitions/MounteaInventoryInstancedItem.cpp:110-116 | quantity zero, no config, no flags; the sources stay |
| InventoryInstancedItem.InstancedItem.ConstructItem | Source/MounteaInventoryEquipment/Private/Definitions/MounteaInventoryInstancedItem.cpp:45-69 | with no source at all nothing changes and the result is false; otherwise the data is wiped and refilled from the selected source, succeeding exactly when that source provides the data |
| InventoryInstancedItem.InstancedItem.CopyFromBaseItem | Source/MounteaInventoryEquipment/Private/Definitions/MounteaInventoryInstancedItem.cpp:71-84 | succeeds exactly with a base item, taking its config and flags; otherwise nothing changes |
| InventoryInstancedItem.InstancedItem.CopyFromDataTable | Source/MounteaInventoryEquipment/Private/Definitions/MounteaInventoryInstancedItem.cpp:86-108 | succeeds exactly when the table holds the row, taking its config and flags; otherwise nothing changes |
| InventoryInstancedItem.InstancedItem.OnItemBeginPlay | Source/MounteaInventoryEquipment/Private/Definitions/MounteaInventoryInstancedItem.cpp:22-32 | the table becomes the data source when one is set, the base item otherwise; the instance is marked as garbage exactly when construction fails |
| InventoryInstancedItem.InstancedItem.UpdateQuantity | Source/MounteaInventoryEquipment/Private/Definitions/MounteaInventoryInstancedItem.cpp:118-130 | the quantity becomes the new value floored at zero; nothing else changes |
| InventoryInstancedItem.InstancedItem.MergeWith | Source/MounteaInventoryEquipment/Private/Definitions/MounteaInventoryInstancedItem.cpp:145-152 | the merge is refused exactly for a missing instance |
| InventoryInstancedItem.InstancedItem.IsFlagSet | Source/MounteaInventoryEquipment/Private/Definitions/MounteaInventoryInstancedItem.cpp:172-175 | a flag reads as set exactly when it is valid and some stored flag is it or one of its descendants |
| InventoryInstancedItem.InstancedItem.AreFlagsSet | Source/MounteaInventoryEquipment/Private/Definitions/MounteaInventoryInstancedItem.cpp:177-191 | the simple search asks for any query flag, the full search for all; an empty query fails the simple and passes the full search |
| InventoryInstancedItem.InstancedItem.AddItemFlag | Source/MounteaInventoryEquipment/Private/Definitions/MounteaInventoryInstancedItem.cpp:154-157 | a valid flag is set afterwards and every flag set before stays set |
| InventoryInstancedItem.InstancedItem.SetItemFlags | Source/MounteaInventoryEquipment/Private/Definitions/MounteaInventoryInstancedItem.cpp:159-162 | the flags become the given container; nothing else changes |
| InventoryInstancedItem.InstancedItem.RemoveItemFlag | Source/MounteaInventoryEquipment/Private/Definitions/MounteaInventoryInstancedItem.cpp:164-170 | the explicit flag is gone afterwards; it still reads as set exactly when a strict descendant of it was stored |
| InventoryInstancedItem.SingleFlagQuery | Source/MounteaInventoryEquipment/Private/Definitions/MounteaInventoryInstancedItem.cpp:172-191 | for a one-flag query both kinds of search agree with IsFlagSet |
| InventoryInstancedItem.FullSearchImpliesSimple | Source/MounteaInventoryEquipment/Private/Definitions/MounteaInventoryInstancedItem.cpp:177-191 | a non-empty query met by the full search is met by the simple search |
| ActorInventoryManager.AddUnique | Source/ActorInventoryPlugin/Private/Components/ActorInventoryManagerComponent.cpp:297-303 | TSet::Emplace keeps the old elements in front, contains the new one, adds nothing else and keeps the set duplicate-free |
| ActorInventoryManager.Without | Source/ActorInventoryPlugin/Private/Components/ActorInventoryManagerComponent.cpp:313-319 | TSet::Remove keeps exactly the elements other than the removed one |
| ActorInventoryManager.FilterNotIn | Source/ActorInventoryPlugin/Private/Components/ActorInventoryManagerComponent.cpp:58-61 | the filtered sequence holds exactly the elements not listed |
| ActorInventoryManager.WithoutFilter | Source/ActorInventoryPlugin/Private/Components/ActorInventoryManagerComponent.cpp:321-327 | removing one more element from a filtered set filters by one more element |
| ActorInventoryManager.WithoutNoDup | Source/ActorInventoryPlugin/Private/Components/ActorInventoryManagerComponent.cpp:313-319 | removing keeps the set duplicate-free |
| ActorInventoryManager.WithoutIsFilter | Source/ActorInventoryPlugin/Private/Components/ActorInventoryManagerComponent.cpp:313-319 | removing one element is filtering by a one-element list |
| ActorInventoryManager.AddThenRemove | Source/ActorInventoryPlugin/Private/Components/ActorInventoryManagerComponent.cpp:297-319 | adding an absent element and removing it again restores the set exactly |
| ActorInventoryManager.RemoveThenAdd | Source/ActorInventoryPlugin/Private/Components/ActorInventoryManagerComponent.cpp:297-319 | removing a present element and adding it back gives the same elements |
| ActorInventoryManager.AddEachContents | Source/ActorInventoryPlugin/Private/Components/ActorInventoryManagerComponent.cpp:305-311 | adding a list keeps the old elements in front, holds exactly the old and the listed elements, and stays duplicate-free |
| ActorInventoryManager.RemoveEachIsFilter | Source/ActorInventoryPlugin/Private/Components/ActorInventoryManagerComponent.cpp:321-327 | removing a list one by one is filtering out exactly the listed elements, in order |
| ActorInventoryManager.FilterNotInNoDup | Source/ActorInventoryPlugin/Private/Components/ActorInventoryManagerComponent.cpp:58-61 | a filtered duplicate-free set stays duplicate-free |
| ActorInventoryManager.AddEachLoop | Source/ActorInventoryPlugin/Private/Components/ActorInventoryManagerComponent.cpp:305-311 | the add loop yields the list added element by element |
| ActorInventoryManager.RemoveEachLoop | Source/ActorInventoryPlugin/Private/Components/ActorInventoryManagerComponent.cpp:321-327 | the remove loop yields the list removed element by element |
| ActorInventoryManager.CleanedContents | Source/ActorInventoryPlugin/Private/Components/ActorInventoryManagerComponent.cpp:24-63 | after the cleanup there is no null and at most one generic category, only categories that were there remain, every non-generic category stays, and the first generic one stays |
| ActorInventoryManager.BeginPlayPassesValidation | Source/ActorInventoryPlugin/Private/Components/ActorInventoryManagerComponent.cpp:24-63 | the cleaned set passes the editor validation, and a set that already passes is left as it is |
| ActorInventoryManager.ActorInventoryManagerComponent.constructor | Source/ActorInventoryPlugin/Private/Components/ActorInventoryManagerComponent.cpp:14-22 | a new component allows no categories and no rarities |
| ActorInventoryManager.ActorInventoryManagerComponent.BeginPlay | Source/ActorInventoryPlugin/Private/Components/ActorInventoryManagerComponent.cpp:24-63 | the allowed categories become the cleaned set; the rarities stay |
| ActorInventoryManager.ActorInventoryManagerComponent.IsValidCategory | Source/ActorInventoryPlugin/Private/Components/ActorInventoryManagerComponent.cpp:257-268 | true exactly when some allowed non-null category has the guid |
| ActorInventoryManager.ActorInventoryManagerComponent.ClearAllowedCategories | Source/ActorInventoryPlugin/Private/Components/ActorInventoryManagerComponent.cpp:286-289 | no category is allowed afterwards; the rarities stay |
| ActorInventoryManager.ActorInventoryManagerComponent.SetAllowedCategories | Source/ActorInventoryPlugin/Private/Components/ActorInventoryManagerComponent.cpp:291-295 | the allowed categories become the given set |
| ActorInventoryManager.ActorInventoryManagerComponent.AddAllowedCategory | Source/ActorInventoryPlugin/Private/Components/ActorInventoryManagerComponent.cpp:297-303 | the category is appended unless already allowed |
| ActorInventoryManager.ActorInventoryManagerComponent.AddAllowedCategories | Source/ActorInventoryPlugin/Private/Components/ActorInventoryManagerComponent.cpp:305-311 | each given category is added in turn |
| ActorInventoryManager.ActorInventoryManagerComponent.RemoveAllowedCategory | Source/ActorInventoryPlugin/Private/Components/ActorInventoryManagerComponent.cpp:313-319 | the category is removed; when it was not allowed nothing changes |
| ActorInventoryManager.ActorInventoryManagerComponent.RemoveAllowedCategories | Source/ActorInventoryPlugin/Private/Components/ActorInventoryManagerComponent.cpp:321-327 | each given category is removed in turn |
| ActorInventoryManager.ActorInventoryManagerComponent.ClearAllowedRarities | Source/ActorInventoryPlugin/Private/Components/ActorInventoryManagerComponent.cpp:348-351 | no rarity is allowed afterwards; the categories stay |
| ActorInventoryManager.ActorInventoryManagerComponent.SetAllowedRarities | Source/ActorInventoryPlugin/Private/Components/ActorInventoryManagerComponent.cpp:353-357 | the allowed rarities become the given set |
| ActorInventoryManager.ActorInventoryManagerComponent.AddAllowedRarity | Source/ActorInventoryPlugin/Private/Components/ActorInventoryManagerComponent.cpp:359-365 | the rarity is appended unless already allowed |
| ActorInventoryManager.ActorInventoryManagerComponent.AddAllowedRarities | Source/ActorInventoryPlugin/Private/Components/ActorInventoryManagerComponent.cpp:367-373 | each given rarity is added in turn |
| ActorInventoryManager.ActorInventoryManagerComponent.RemoveAllowedRarity | Source/ActorInventoryPlugin/Private/Components/ActorInventoryManagerComponent.cpp:375-381 | the rarity is removed; when it was not allowed nothing changes |
| ActorInventoryManager.ActorInventoryManagerComponent.RemoveAllowedRarities | Source/ActorInventoryPlugin/Private/Components/ActorInventoryManagerComponent.cpp:383-389 | each given rarity is removed in turn |
| ActorInventoryManager.ActorInventoryManagerComponent.ValidateCategories | Source/ActorInventoryPlugin/Private/Components/ActorInventoryManagerComponent.cpp:393-432 | an asset not loaded with an owner passes unchecked when flags are checked; otherwise the result is true exactly when there is no null entry and at most one generic category |
| ActorInventoryManager.ActorInventoryManagerComponent.IsDataValid | Source/ActorInventoryPlugin/Private/Components/ActorInventoryManagerComponent.cpp:500-510 | a failed category validation makes the component Invalid; otherwise the parent's verdict stands |
| ActorInventoryManager.ActorInventoryManagerComponent.AddParentCategory | Source/ActorInventoryPlugin/Private/Components/ActorInventoryManagerComponent.cpp:459-484 | the allowed categories gain exactly the parent chain from the category, and the depth grows by its length |
| ActorInventoryManager.ActorInventoryManagerComponent.UpdateCategories | Source/ActorInventoryPlugin/Private/Components/ActorInventoryManagerComponent.cpp:434-457 | categories are only ever added; with auto-allowing off nothing changes; with it on, the allowed categories become AllowChains of the MissingParents of the old ones: each collected parent in turn adds its parent chain from depth 1; every category added is an ancestor, at most the depth bound up, of one already allowed; with a depth of at least one, the parent of every allowed category is allowed afterwards |
| ActorInventoryManager.ActorInventoryManagerComponent.CollectMissingParents | Source/ActorInventoryPlugin/Private/Components/ActorInventoryManagerComponent.cpp:438-446 | the first loop collects MissingParents of the allowed categories, and every parent of an allowed category ends collected or is allowed already |
| ActorInventoryManager.ParentChainProperties | Source/ActorInventoryPlugin/Private/Components/ActorInventoryManagerComponent.cpp:459-484 | the chain starts at the category when it is within depth and not yet allowed, follows parent links, never exceeds the depth budget, holds only categories not yet allowed, and keeps the set duplicate-free |
| ActorInventoryManager.MissingParents | Source/ActorInventoryPlugin/Private/Components/ActorInventoryManagerComponent.cpp:438-446 | the parents the first loop collects are never null and never already allowed |
| ActorInventoryManager.MissingParentsAreParents | Source/ActorInventoryPlugin/Private/Components/ActorInventoryManagerComponent.cpp:438-446 | every collected parent is the parent of one of the categories it was collected from |
| ActorInventoryManager.ChainIsAncestry | Source/ActorInventoryPlugin/Private/Components/ActorInventoryManagerComponent.cpp:459-484 | everything AddParentCategory allows from a category is that category or one of its ancestors within the remaining depth |
| ActorInventoryManager.AllowChainsAncestry | Source/ActorInventoryPlugin/Private/Components/ActorInventoryManagerComponent.cpp:448-455 | everything the allowing loop adds is one of the collected parents or one of its ancestors, and something is added only with a depth bound of at least one |
| ActorInventoryManager.AddedIsAncestor | Source/ActorInventoryPlugin/Private/Components/ActorInventoryManagerComponent.cpp:434-484 | every category UpdateCategories adds is an ancestor, at most the depth bound up, of a category that was allowed before |
| ItemSlot.SameStackIgnoresSize | Source/MounteaInventoryEquipment/Public/Helpers/MounteaItemHelpers.cpp:21-29 | stack equality looks at the stack guid alone: stacks of one guid are equal whatever their sizes and slots |
| ItemSlot.NewItemSlot | Source/MounteaInventoryEquipment/Public/Helpers/MounteaItemHelpers.cpp:31-38 | a new slot holds the item and no stacks; its guid is the item's, or stays the invalid default without an item |
| ItemSlot.SlotGuidComparison | Source/MounteaInventoryEquipment/Public/Helpers/MounteaItemHelpers.cpp:66-92 | a slot without an item equals no guid, a slot with one equals exactly its item's guid, and a slot equals its own item and the slot built from it |
| ItemSlot.TotalAppend | Source/MounteaInventoryEquipment/Public/Helpers/MounteaItemHelpers.cpp:56-62 | the stack total of two runs of stacks is the sum of their totals |
| ItemSlot.TotalUpdate | Source/MounteaInventoryEquipment/Public/Helpers/MounteaItemHelpers.cpp:56-62 | writing one stack changes the total by the change in its size |
| ItemSlot.AreStacksValid | Source/MounteaInventoryEquipment/Public/Helpers/MounteaItemHelpers.cpp:40-52 | true exactly when the slot has no item or every stack carries the item's guid |
| ItemSlot.IsStackSizeValid | Source/MounteaInventoryEquipment/Public/Helpers/MounteaItemHelpers.cpp:54-64 | true exactly when no running total of the stack sizes passes the item's quantity |
| ItemSlot.StackSizeValidMeansTotal | Source/MounteaInventoryEquipment/Public/Helpers/MounteaItemHelpers.cpp:54-64 | without negative stacks the running check is the check of the whole total against the quantity |
| GameplayTags.HasTag | Source/MounteaAdvancedInventorySystem/Private/Components/MounteaAttachableComponent.cpp:95-98 | a container has a query tag when one of its explicit tags is that tag or a descendant of it; an explicit valid tag is always found and an invalid query never is |
| GameplayTags.AddTag | Source/MounteaInventoryEquipment/Private/Definitions/MounteaInventoryInstancedItem.cpp:154-157 | adding keeps every tag, adds a valid new tag once and ignores an invalid one |
| GameplayTags.AddTagQuery | Source/MounteaInventoryEquipment/Private/Definitions/MounteaInventoryInstancedItem.cpp:154-157 | after adding, the container has the new tag and every tag it had before |
| GameplayTags.RemoveTag | Source/MounteaInventoryEquipment/Private/Definitions/MounteaInventoryInstancedItem.cpp:164-170 | removing drops exactly the explicit tag and keeps every other one |
| GameplayTags.RemoveTagQuery | Source/MounteaInventoryEquipment/Private/Definitions/MounteaInventoryInstancedItem.cpp:164-174 | after removing a tag the flag query still holds exactly when a strict descendant of it remains |
| GameplayTags.SingleQuery | Source/MounteaAdvancedInventorySystem/Private/Components/MounteaAttachableComponent.cpp:95-98 | any-of and all-of queries of one tag agree with the single-tag query |
| GameplayTags.AllImpliesAny | Source/MounteaAdvancedInventorySystem/Private/Components/MounteaAttachableComponent.cpp:95-98 | a non-empty query satisfied in full is satisfied in part |

## Left out

General:
- Slate, UMG and HTML construction and all visuals (toolbars, tree rows, tooltips, details panels, styles, tree expansion, notifications), because they are UI plumbing. Widget refreshes that follow a state change are left out for the same reason.
- Floating-point logic is left out, because the model works on integers:
  - item durability (`ModifyItemDurability`, `SetDurability`, and the durability given in the item constructor);
  - inventory weight;
  - the scroll box's desired transform and interpolation.
- Networking and replication are left out, because the model is single-threaded and local:
  - replicated properties and dirty marking;
  - authority checks;
  - world and level hooks of the instanced item (`SetWorld`, `SetWorldFromLevel`, `PostWorldCreated`, `OwnerHasAuthority`, `MarkDirtyForReplication`).
- Delegates and broadcasts appear only as the value they would carry (an update context, a status code and text, an index), because listeners are outside the model.
- `int32` overflow is not modelled; quantities, indices and sums are unbounded integers.
- Hash collisions are not modelled: a `TSet` or `TMap` lookup finds an element exactly when its key is equal.
- Engine services are parameters of the operations that use them:
  - guid generation;
  - `IsValidItem` checks;
  - data tables;
  - the inventory behind a UI;
  - the settings and config objects (None when they cannot be loaded).

Actor inventory (ActorInventoryComponent.cpp):
- Several operations are left out because they only forward to the engine, the UI or a transaction:
  - `BeginPlay` and `UpdateInventory`;
  - the layout setter and getter;
  - `ExecuteItemKeyAction`;
  - the other-inventory getter and setter, `CloseInventory` and `GetInventoryType`;
  - `TransferItem` and the transaction getters;
  - the event handles and widget pointers.
- `LoadInventoryContent` is left out, because it reads data tables.
- ActorInventory.ActorInventory.GetItemsByClass tests each item's own class, which is the corrected behaviour (see Findings). As written the test is on the static base class; GetItemsByClassAsWritten models that.
- ActorInventory.ActorInventory.SubtractItemFromInventory falls back on the item's own class, which is the corrected behaviour (see Findings). As written the fallback drains the first non-null entry; SubtractItemFromInventoryAsWritten models that.
- ActorInventory.SubtractTarget looks up the item's own class, which is the corrected behaviour (see Findings). SubtractTargetAsWritten models the lookup as written.
- ActorInventory.ActorInventory.GetItemByClass compares each item's own class, which is the corrected behaviour (see Findings). As written it compares the static base class; GetItemByClassAsWritten models that.
- ActorInventory.ActorInventory.SubtractItemsFromInventory folds the corrected SubtractTarget (see Findings), so it inherits that correction; the as-written lookup is modelled only for a single item, by SubtractItemFromInventoryAsWritten.
- ActorInventory.ActorInventory.AddItemToInventory ties the result and the stored quantities to AddTo through `Mirrors`. Of a new copy it states only that it is fresh and has the base item class; of the items array, only that each entry was there before, is the item, or is fresh.
- ActorInventory.ActorInventory.AddItemsToInventory does not model the `OnInventoryUpdated` broadcast after each item, because delegates are left out.
- The weight functions are left out, because they are floating point.
- `PostEditChangeProperty` and `IsDataValid` are left out, because they are editor validation.

Inventory manager (ActorInventoryManagerComponent.cpp):
- Several operations are left out because they only forward or configure:
  - the item calls that forward to the inventory;
  - the widget-class setters;
  - `ProcessTransaction`;
  - the plain getters;
  - `PostEditChangeChainProperty`.
- `AddParentCategory` takes its recursion bound as a parameter, which models the configured maximum depth.
- A `TSet` keeps its elements in a sparse array, and an add fills the hole the latest remove left. The model keeps the allowed sets in insertion order without holes, so after a remove the iteration order it gives can differ from the engine's. The members affected:
  - ActorInventoryManager.AddUnique: "appended, old elements in front" holds only while no remove has left a hole.
  - ActorInventoryManager.AddEachContents: the appended order holds only under the same condition.
  - ActorInventoryManager.ActorInventoryManagerComponent.AddAllowedCategory: "appended" holds only under the same condition. The contents are exact.
  - ActorInventoryManager.ActorInventoryManagerComponent.AddAllowedRarity: as for AddAllowedCategory.
- ActorInventoryManager.ActorInventoryManagerComponent.SetAllowedCategories requires a duplicate-free argument, because the source passes a `TSet`.

Advanced inventory component (MounteaInventoryComponent.cpp):
- Notifications are left out; so are `GetOwningActor`, `GetAllItems` and replication callbacks.
- The stacking that `AddItem` leaves as a TODO is not modelled. As written, `AddItem` only reports whether the item could be added and stores nothing; the model does the same.

Items (MounteaInventoryItem.cpp; MounteaInventoryInstancedItem.cpp):
- `FInventoryItem::ToString` is left out, because it is display text.
- `DestroyItem` and `SplitItem` of the instanced item are TODO stubs in the source and are left out.
- `SetValidData` is left out, because it only updates engine references.
- InventoryInstancedItem.InstancedItem.CopyFromDataTable looks the row up by exact string equality. The engine's `FName` row lookup ignores case, so a row name that differs only in case is found by the source and not by the model.

Item slots (MounteaItemHelpers.cpp):
- The pointer overload of `operator==` compares object identity and is not modelled.
- Serialization is left out.
- MounteaItemHelpers.h is not part of this model.
- ItemSlot.IsStackSizeValid requires the slot to hold an item or to have no stacks, because the source dereferences the item without a check for every stack it adds up; a slot with stacks and no item would crash there.

Item function library (MounteaInventoryItemBFL.h):
- InventoryItemBFL.SortStacks keeps stacks of equal size in their original order. The engine sort is not stable, so for equal sizes the model fixes one of the orders it may produce.
- InventoryItemBFL.FindEmptySlot takes the emptiness test of a slot as a parameter.
- InventoryItemBFL.UpdateStackLeftover is stated only for a non-negative quantity.
- `FItemSlotStack(int32, FGuid)`, the constructor the new-stack loop calls, is not part of this model. The stack guid it makes is a parameter of UpdateStacksInSlot, AppendStacks, NewStacks and MakeNewSlot: a guid source `newGuids`, of which the `j`-th new stack of a call takes `newGuids(j)`. That each new stack gets a different guid is stated under the assumption that this source never repeats.

Equipment (MounteaInventoryEquipmentBFL.cpp; MounteaEquipmentSlotBaseWidget.cpp; MounteaEquipmentConfigData.cpp; MounteaAdvancedEquipmentSettingsConfig.cpp):
- EquipmentBFL.IsValidShadow requires that every shadow cell on the grid has a slot, because the source dereferences the slot it finds without a check.
- `FItemRetrievalFilter::IsValid` is a parameter.
- The equipment slot widget header is not part of this model. The widget's GenericIssue status is declared but cannot be reached.
- EquipmentConfigData.EquipmentConfig.ValidateConfig starts from an empty set of dirty slots, since both callers pass one. The validation texts are left out.
- The config's `PostEditChangeProperty` is left out; it changes keys that are already hashed.
- In the equipment settings, slot names are `FName`s, which compare ignoring case; the model compares them exactly. `RegenerateSlotId` and the slot header data are not modelled.

Attachments (MounteaAdvancedAttachmentSlot.cpp; MounteaAttachmentContainerComponent.cpp; MounteaAttachableComponent.cpp):
- The engine's answers in an attach are inputs (`AttachEnv`): the target component, the attachable component an actor offers, the attachable's CanAttach answer, and the socket lookup. The object's class is part of what is offered (`Offered`), and the physical attach is decided from it. Replication of the slot state is left out.
- Attachable.AttachableComponent.AttachToSlot offers the attachable component to the slot as a scene component, which is the corrected behaviour (see Findings). As written it never succeeds; AttachToSlotAsWritten and TryAttachAsWritten model that.
- Attachable.AttachableComponent.AttachToContainer inherits that correction from AttachToSlot. As written it never succeeds; AttachToContainerAsWritten models that.
- AttachmentSlot.Slot.CompleteAttachment records the `AttachToSlot` call it makes, in `notices`, instead of running it. The attachable's `AttachToSlot_Implementation` is not part of this model; if it re-entered `AttachTo`, that re-entry is not captured.
- AttachmentSlot.Slot.Detach records the `SetState(Detached)` call it makes, in `notices`, instead of running it. Its effect on the attachable is not captured, because `SetState_Implementation` is not part of this model.
- AttachmentContainer.ContainerComponent.IsValidSlot reads the slot's own `IsValid()` check as object liveness. Every slot the model holds is a live object, so only the lookup itself is modelled.

Settings and flags (MounteaAdvancedInventorySettingsConfig.cpp; MounteaInventoryBaseDataTypes.cpp; MounteaSelectableInventoryItemAction.cpp; MounteaInventoryScrollBox.cpp):
- Loading the settings object is a parameter.
- InventoryTypeConfig and InventorySettings store access flags in the one-bit encoding, which is the corrected behaviour (see Findings). As declared, the enumerators are ordinals, so the default byte 5 also reads as Public and Temporary, and NPC and Loot defaults both store 7; InventoryTypeConfig.DeclaredValuesOverlap and InventorySettings.DefaultAccessAsDeclared model that.
- `ExecuteQueuedAction` of the selectable action only broadcasts and is left out. `IsActionVisible` takes the base class's answer, true. The displayable actions are a parameter.
- The scroll box's `AddChild`, `RebuildWidget` and `NativeTick` are left out, because they build widgets or animate in floating point.
- The scroll box's `BroadcastIndexChange` needs a child count, because the source reads its vertical box without a check. Its index arithmetic is stated on ScrollBox.Broadcast, which takes the child count directly.

Editor tools (SMounteaInventoryTemplateEditor.cpp; MounteaInventoryTemplateSearchFilter.h and .cpp; MounteaItemTemplatesEditorHelp.cpp; MounteaAdvancedInventoryItemTemplateEditorStatics.cpp):
- Most of the template editor is left out, because it is UI or editor services:
  - save and load, the dialogs, import and export;
  - delete and duplicate, the help modal;
  - `CheckForUnsavedChanges` and `LoadAllTemplatesForMatrix`.
- The rebuilt tree is sorted by name. The model uses a stable insertion sort for this.
- In the search filter:
  - `Construct` and `CreateFilterMenu` are left out, because they are UI;
  - the available categories and rarities (from the settings) are parameters;
  - a template's guid string is a parameter.
- In the help page:
  - the effects of a link action are left out;
  - the CSS and script contents are parameters;
  - idempotence is proved for injecting one placeholder tag (EditorHelp.InjectTagIdempotent), not for the whole of `InjectSharedAssets`;
  - `Atoi` overflow is not modelled.
- In the export:
  - the save dialog and the file write are parameters, and so are the file-type strings.
- EditorStatics.ExportTemplatesToFile takes the single-export default name from the corrected EditorStatics.SingleDefaultName (see Findings), the first template that exports, not `Templates[0]`.
- TemplateEditor.ValidateTemplateData returns the empty message on success. The source leaves its error out-parameter as the caller passed it.
- The declaration of `FTemplateDisplayInfo` is not part of this model; its members are taken to default to empty.

Items grid (MounteaAdvancedInventoryItemsGridWidget.cpp; MounteaInventoryBaseUIDataTypes.h):
- `Helper_FindEmptyGridSlotIndex` is not part of this model; ItemsGrid.ItemsGrid.FindEmptySlotIndex stands in for it as the first empty slot.
- The parent UI and its inventory are parameters.
- ItemsGrid.ItemsGrid.AddStacks bounds what it places between nothing and the shortfall only for a positive maximum stack size. With a maximum of zero or less the source itself places non-positive amounts, and the model states only the exact accounting.
- ItemsGrid.ItemsGrid.RemoveStacks bounds the fall of the item total only when no stack of the item is negative. A negative stack is cleared as "fitting" and so can raise the total.
- ItemsGrid.ItemsGrid.UpdateItemInSlot inherits both of these conditions through TotalChanged.
- ItemsGrid.ItemsGrid.AddSingles does not say which empty slots take the units (the given slot, then each first empty slot in turn). It states each slot's change, the exact accounting, the bounds and when the loop stops short.
- ItemsGrid.ItemsGrid.AddStacks does not say which stacks are topped up or which empty slots take new stacks, nor in what order. It states the same facts as AddSingles, for stacks.
- ItemsGrid.ItemsGrid.FirstStack, ItemsGrid.ItemsGrid.StacksAtGiven, ItemsGrid.ItemsGrid.StacksAtSlot, ItemsGrid.ItemsGrid.TopUpStacks and ItemsGrid.ItemsGrid.NewStacks, the parts of AddStacks, leave the choice of slot open in the same way.
- ItemsGrid.ItemsGrid.AddToTotal and ItemsGrid.ItemsGrid.ChangeTotal inherit these omissions through TotalChanged.

Distinct Array node (K2Node_DistinctArray.cpp):
- The pin-type propagation and menu registration are left out, because they are Blueprint-graph editor plumbing.
- A pin's index stands for the identity of the term it carries.
- DistinctArray.Compile computes the intended intersection of the input arrays, into an output assumed to start empty. As written, the output helper (K2Node_DistinctArray.cpp:67) and the helper for each other array (line 92) are built from the terminal's `AssociatedVarProperty`, a property descriptor, rather than from the array value, and line 92 does not check the cast. What those helpers read is engine memory outside this model.

## Findings

| source | as written | input that shows it | evidently intended | confidence | as-written member | corrected member |
|---|---|---|---|---|---|---|
| Source/MounteaAdvancedInventorySystem/Public/Definitions/MounteaInventoryBaseEnums.h:28-37 | `EInventoryFlags` is marked as bit flags, yet its values are the ordinals 0 to 5, and the default access masks are built by OR-ing them (MounteaAdvancedInventorySettingsConfig.cpp:87 and 125-127) | NPC: Private OR Lootable = 5 OR 3 = 7; Loot: Public OR Lootable OR Temporary = 1 OR 3 OR 4 = 7. Both give the same byte, and a Private-only byte (5) also reads as Public and Temporary | one bit per flag, so that each flag is set, cleared and tested on its own | high, not executed | InventoryTypeConfig.DeclaredValuesOverlap, InventorySettings.DefaultAccessAsDeclared | InventoryTypeConfig.SetFlagTouchesOnlyItsFlag, InventorySettings.DefaultAccess |
| Source/MounteaInventoryEquipment/Private/Settings/MounteaEquipmentConfigData.cpp:69-77 | `IsDataValid` keeps the parent's verdict when `ValidateConfig` returns true. `ValidateConfig` returns true when some slot is dirty (line 106) | a config with no slots is reported Invalid, and a config with two slots named "Head" keeps Valid | a dirty slot makes the config Invalid; otherwise the parent's verdict stands | high, not executed | EquipmentConfigData.IsDataValidAsWritten, EquipmentConfigData.AsWrittenRejectsCleanConfig | EquipmentConfigData.IsDataValid |
| Source/MounteaAdvancedInventorySystem/Private/Widgets/Items/MounteaAdvancedInventoryItemsGridWidget.cpp:25-33 | `AddItemToSlot` checks only `IsSlotEmpty(SlotIndex)`, which is true for an index with no slot, and then reads `GridSlots.Array()[SlotIndex]` | index equal to the number of slots (index 0 of an empty grid), or index -1 | reject an index outside the grid before reading it | high, not executed | ItemsGrid.AddItemToSlotAsWritten, ItemsGrid.AddItemToSlotReadsPastEnd | ItemsGrid.ItemsGrid.AddItemToSlot |
| Source/MounteaInventoryEquipment/Public/Helpers/MounteaInventoryItemBFL.h:148-155 | the loop that appends new stacks takes `min(remaining, MaxStackSize)` each round. A maximum stack size of zero or less means nothing is ever taken | a slot without an item (`DetermineMaxStackSize` gives 0) asked to place 1 more | stop when no stack can hold anything | medium, not executed | InventoryItemBFL.NewStackLoopNeverEnds | InventoryItemBFL.UpdateStacksInSlot |
| Source/ActorInventoryPlugin/Private/Components/ActorInventoryComponent.cpp:481-491 | `GetItemByClass` compares `UInventoryItem::StaticClass()` with the class asked for, not each item's own class (so do `GetItemsByClass` at 498 and the class fallback of `Subtract` at 340) | one stored item of a subclass: the lookup finds it for the base class and finds nothing for its own class; subtracting an item whose guid and data match nothing drains the first stored entry, of whatever class | compare each item's `GetClass()`, as `FindItemByClass` does | high, not executed | ActorInventory.ClassLookupIgnoresClass, ActorInventory.ActorInventory.GetItemByClassAsWritten, ActorInventory.ActorInventory.GetItemsByClassAsWritten, ActorInventory.SubtractAsWrittenDrainsUnrelated | ActorInventory.ActorInventory.GetItemByClass, ActorInventory.ActorInventory.GetItemsByClass, ActorInventory.SubtractTarget |
| Source/MounteaAdvancedInventorySystem/Private/Definitions/MounteaInventoryItem.cpp:139-150 | `SetAffectorSlots` checks the guid validity only of the first pair that differs, and then stops looking | current {A: 1, B: 2}, new {A: 3, B: 0}: taken, although B's guid is invalid | accept a changed map only when every guid in it is valid | medium, not executed | MounteaItem.SetAffectorSlotsAsWritten, MounteaItem.AffectorsAsWrittenTakeInvalidGuid | MounteaItem.SetAffectorSlots, MounteaItem.AcceptsKeepsGuidsValid |
| Source/MounteaAdvancedInventorySystemEditor/Private/Statics/MounteaAdvancedInventoryItemTemplateEditorStatics.cpp:154-156 | the default name for a single export is taken from `Templates[0]`, which may be null or have no JSON while a later template has JSON | [null, a template with JSON]: the export goes ahead and reads the null entry | name the file after the template whose JSON is exported | medium, not executed | EditorStatics.DefaultNameAsWrittenReadsNull | EditorStatics.SingleDefaultName |
| Source/MounteaInventoryEquipment/Public/Helpers/MounteaEquipmentHelpers.h:150-157 | `FEquipmentSlot::IsValid` requires `IsEmpty()`, although it is documented to require an item | any slot whose guid follows its item: empty slots have the empty guid, so IsValid never holds | an item with a valid guid and a valid slot tag | high, not executed | EquipmentHelpers.IsValidAsWrittenNeverHolds | EquipmentHelpers.ValidSlotHoldsItem |
| Source/MounteaAdvancedInventorySystem/Private/Components/MounteaAttachableComponent.cpp:48-59 | `AttachTo` hands `this`, a `UMounteaAttachableComponent` deriving from `UActorComponent`, to the container's `TryAttach` and so to the slot's `Attach`; `PerformPhysicalAttachment` (MounteaAdvancedAttachmentSlot.cpp:184-203) attaches only a `USceneComponent` or an `AActor` | any valid, empty component attaching to a valid, unlocked slot with a valid target: `Attach` returns false at the physical attach, so the component never attaches | the attachable is attached physically, as a scene component or through its owner | high, not executed | AttachmentContainer.AttachableComponentNeverAttaches, Attachable.AttachableComponent.AttachToSlotAsWritten | Attachable.AttachableComponent.AttachToSlot |
