// UMounteaInstancedItem: a runtime item instance built from either a
// base item asset or a data-table row. It owns a quantity, a container of
// flag tags and a config object; ConstructItem wipes the instance and
// copies the flags and config from its source.
module InventoryInstancedItem {
  import opened Common
  import opened GameplayTags

  /** EItemDataSource. */
  datatype DataSource = SourceItem | SourceTable

  /** What ConstructItem copies from a source: the config object (by id) and the flags. */
  datatype ItemDefaults = ItemDefaults(config: Option<nat>, flags: Container)

  /** A data table: its rows by row name. */
  type ItemsTable = map<string, ItemDefaults>

  class InstancedItem {
    var itemDataSource: DataSource
    /** The base item, through what its GetItemConfig and GetItemData().ItemFlags give. */
    var sourceItem: Option<ItemDefaults>
    var sourceTable: Option<ItemsTable>
    var sourceRow: string
    const instanceID: Guid
    /** GetItemData().RequiredData.ItemCategory, by its category name. */
    const category: Option<string>
    var quantity: int
    var itemFlags: Container
    var itemConfig: Option<nat>

    /** The defaults of a new instance: table source, no sources, nothing copied. */
    constructor(id: Guid, category: Option<string>)
      ensures instanceID == id && this.category == category
      ensures itemDataSource == SourceTable && sourceItem == None && sourceTable == None && sourceRow == ""
      ensures quantity == 0 && itemFlags == [] && itemConfig == None
    {
      instanceID := id;
      this.category := category;
      itemDataSource := SourceTable;
      sourceItem := None;
      sourceTable := None;
      sourceRow := "";
      quantity := 0;
      itemFlags := [];
      itemConfig := None;
    }

    predicate HasSource()
      reads this
    {
      sourceTable.Some? || sourceItem.Some?
    }

    /**
     * What the copy step of ConstructItem finds for the current data
     * source: the base item, or the row of the table; None when that
     * source is missing or the row does not exist.
     */
    function Copied(): (r: Option<ItemDefaults>)
      reads this
      ensures itemDataSource == SourceItem ==> r == sourceItem
      ensures itemDataSource == SourceTable ==>
        (r.Some? <==> sourceTable.Some? && sourceRow in sourceTable.value)
      ensures itemDataSource == SourceTable && r.Some? ==> r.value == sourceTable.value[sourceRow]
    {
      match itemDataSource
      case SourceItem => sourceItem
      case SourceTable =>
        if sourceTable.Some? && sourceRow in sourceTable.value then Some(sourceTable.value[sourceRow]) else None
    }

    method SetSourceItem(newSourceItem: Option<ItemDefaults>)
      modifies this
      ensures sourceItem == newSourceItem
      ensures itemDataSource == old(itemDataSource) && sourceTable == old(sourceTable) && sourceRow == old(sourceRow)
      ensures quantity == old(quantity) && itemFlags == old(itemFlags) && itemConfig == old(itemConfig)
    {
      sourceItem := newSourceItem;
    }

    method SetSourceTable(table: Option<ItemsTable>, rowName: string)
      modifies this
      ensures sourceTable == table && sourceRow == rowName
      ensures itemDataSource == old(itemDataSource) && sourceItem == old(sourceItem)
      ensures quantity == old(quantity) && itemFlags == old(itemFlags) && itemConfig == old(itemConfig)
    {
      sourceTable := table;
      sourceRow := rowName;
    }

    /** CleanupData: quantity zero, no config, no flags. */
    method CleanupData()
      modifies this
      ensures quantity == 0 && itemConfig == None && itemFlags == []
      ensures itemDataSource == old(itemDataSource) && sourceItem == old(sourceItem)
      ensures sourceTable == old(sourceTable) && sourceRow == old(sourceRow)
    {
      quantity := 0;
      itemConfig := None;
      itemFlags := [];
    }

    /**
     * ConstructItem: without any source it fails and changes nothing;
     * otherwise it wipes the instance and then fills config and flags from
     * the selected source, succeeding exactly when that source provides them.
     */
    method ConstructItem() returns (success: bool)
      modifies this
      ensures !old(HasSource()) ==> !success && unchanged(this)
      ensures old(HasSource()) ==> success == old(Copied()).Some? && quantity == 0
      ensures old(HasSource()) && success ==>
        itemConfig == old(Copied()).value.config && itemFlags == old(Copied()).value.flags
      ensures old(HasSource()) && !success ==> itemConfig == None && itemFlags == []
      ensures itemDataSource == old(itemDataSource) && sourceItem == old(sourceItem)
      ensures sourceTable == old(sourceTable) && sourceRow == old(sourceRow)
    {
      if sourceTable.None? && sourceItem.None? {
        return false;
      }
      CleanupData();
      match itemDataSource
      case SourceItem =>
        success := CopyFromBaseItem();
      case SourceTable =>
        success := CopyFromDataTable();
    }

    method CopyFromBaseItem() returns (success: bool)
      requires itemDataSource == SourceItem
      modifies this
      ensures success <==> sourceItem.Some?
      ensures success ==> itemConfig == sourceItem.value.config && itemFlags == sourceItem.value.flags
      ensures !success ==> itemConfig == old(itemConfig) && itemFlags == old(itemFlags)
      ensures quantity == old(quantity)
      ensures itemDataSource == old(itemDataSource) && sourceItem == old(sourceItem)
      ensures sourceTable == old(sourceTable) && sourceRow == old(sourceRow)
    {
      if sourceItem.None? {
        return false;
      }
      itemConfig := sourceItem.value.config;
      itemFlags := sourceItem.value.flags;
      return true;
    }

    method CopyFromDataTable() returns (success: bool)
      requires itemDataSource == SourceTable
      modifies this
      ensures success <==> Copied().Some?
      ensures success ==> itemConfig == Copied().value.config && itemFlags == Copied().value.flags
      ensures !success ==> itemConfig == old(itemConfig) && itemFlags == old(itemFlags)
      ensures quantity == old(quantity)
      ensures itemDataSource == old(itemDataSource) && sourceItem == old(sourceItem)
      ensures sourceTable == old(sourceTable) && sourceRow == old(sourceRow)
    {
      if sourceTable.None? {
        return false;
      }
      if sourceRow !in sourceTable.value {
        return false;
      }
      var row := sourceTable.value[sourceRow];
      itemConfig := row.config;
      itemFlags := row.flags;
      return true;
    }

    /**
     * OnItemBeginPlay: picks the table as the source when one is set, then
     * constructs; a failed construction marks the instance as garbage.
     */
    method OnItemBeginPlay() returns (markedAsGarbage: bool)
      modifies this
      ensures itemDataSource == (if old(sourceTable).Some? then SourceTable else SourceItem)
      ensures !markedAsGarbage <==> old(HasSource()) && Copied().Some?
      ensures sourceItem == old(sourceItem) && sourceTable == old(sourceTable) && sourceRow == old(sourceRow)
    {
      itemDataSource := if sourceTable.Some? then SourceTable else SourceItem;
      var ok := ConstructItem();
      markedAsGarbage := !ok;
    }

    /** UpdateQuantity: the stored quantity is never negative. */
    method UpdateQuantity(newValue: int)
      modifies this
      ensures quantity == Max(0, newValue)
      ensures quantity >= 0 && (newValue >= 0 ==> quantity == newValue)
      ensures itemFlags == old(itemFlags) && itemConfig == old(itemConfig)
      ensures itemDataSource == old(itemDataSource) && sourceItem == old(sourceItem)
      ensures sourceTable == old(sourceTable) && sourceRow == old(sourceRow)
    {
      quantity := Max(0, newValue);
    }

    /** MergeWith: refuses only a missing instance. */
    method MergeWith(other: InstancedItem?) returns (merged: bool)
      ensures merged <==> other != null
    {
      merged := other != null;
    }

    /** IsFlagSet: some explicit flag is the query tag or one of its descendants. */
    predicate IsFlagSet(query: Tag)
      reads this
      ensures IsFlagSet(query) <==> TagValid(query) && exists u :: u in itemFlags && query <= u
    {
      HasTag(itemFlags, query)
    }

    /** AreFlagsSet: any of the query flags for a simple search, all of them otherwise. */
    predicate AreFlagsSet(query: Container, simpleSearch: bool)
      reads this
      ensures simpleSearch ==> (AreFlagsSet(query, simpleSearch) <==> exists q :: q in query && IsFlagSet(q))
      ensures !simpleSearch ==> (AreFlagsSet(query, simpleSearch) <==> forall q :: q in query ==> IsFlagSet(q))
      ensures |query| == 0 ==> AreFlagsSet(query, simpleSearch) == !simpleSearch
    {
      if simpleSearch then HasAny(itemFlags, query) else HasAll(itemFlags, query)
    }

    /** AddItemFlag: a valid flag is set afterwards; every flag set before stays set. */
    method AddItemFlag(newFlag: Tag)
      modifies this
      ensures itemFlags == AddTag(old(itemFlags), newFlag)
      ensures TagValid(newFlag) ==> IsFlagSet(newFlag)
      ensures forall q :: old(IsFlagSet(q)) ==> IsFlagSet(q)
      ensures quantity == old(quantity) && itemConfig == old(itemConfig)
      ensures itemDataSource == old(itemDataSource) && sourceItem == old(sourceItem)
      ensures sourceTable == old(sourceTable) && sourceRow == old(sourceRow)
    {
      ghost var before := itemFlags;
      itemFlags := AddTag(itemFlags, newFlag);
      AddTagQuery(before, newFlag, newFlag);
      forall q | HasTag(before, q) ensures HasTag(itemFlags, q) {
        AddTagQuery(before, newFlag, q);
      }
    }

    method SetItemFlags(newFlags: Container)
      modifies this
      ensures itemFlags == newFlags
      ensures quantity == old(quantity) && itemConfig == old(itemConfig)
      ensures itemDataSource == old(itemDataSource) && sourceItem == old(sourceItem)
      ensures sourceTable == old(sourceTable) && sourceRow == old(sourceRow)
    {
      itemFlags := newFlags;
    }

    /**
     * RemoveItemFlag: drops the explicit flag when it is set. Because a
     * query also matches descendants, the flag still reads as set
     * afterwards exactly when a strict descendant of it was set.
     */
    method RemoveItemFlag(removeFlag: Tag)
      modifies this
      ensures itemFlags == (if old(IsFlagSet(removeFlag)) then RemoveTag(old(itemFlags), removeFlag) else old(itemFlags))
      ensures removeFlag !in itemFlags || !TagValid(removeFlag)
      ensures TagValid(removeFlag) ==>
        (IsFlagSet(removeFlag) <==> exists u :: u in old(itemFlags) && u != removeFlag && removeFlag <= u)
      ensures quantity == old(quantity) && itemConfig == old(itemConfig)
      ensures itemDataSource == old(itemDataSource) && sourceItem == old(sourceItem)
      ensures sourceTable == old(sourceTable) && sourceRow == old(sourceRow)
    {
      if HasTag(itemFlags, removeFlag) {
        itemFlags := RemoveTag(itemFlags, removeFlag);
        RemoveTagQuery(old(itemFlags), removeFlag);
      } else if TagValid(removeFlag) {
        forall u | u in itemFlags && removeFlag <= u ensures false {
          assert MatchesTag(u, removeFlag);
        }
      }
    }
  }

  /** A one-flag query gives the same answer to both kinds of search as IsFlagSet. */
  lemma SingleFlagQuery(item: InstancedItem, flag: Tag)
    ensures item.AreFlagsSet([flag], true) == item.IsFlagSet(flag)
    ensures item.AreFlagsSet([flag], false) == item.IsFlagSet(flag)
  {
    SingleQuery(item.itemFlags, flag);
  }

  /** A non-empty query met in full is met by the simple search as well. */
  lemma FullSearchImpliesSimple(item: InstancedItem, query: Container)
    requires |query| > 0 && item.AreFlagsSet(query, false)
    ensures item.AreFlagsSet(query, true)
  {
    AllImpliesAny(item.itemFlags, query);
  }
}
