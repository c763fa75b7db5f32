// UMounteaInventoryItemBaseWidget: the widget of one item in an inventory
// grid. It stores its root cell and its size in cells, reports the cells
// it covers, and keeps a dirty flag that a drop sets.
module InventoryItemWidget {
  import opened Common

  /** The cells of column x below the root: y = 0 .. ny - 1. */
  function Column(root: Point, x: int, ny: nat): (r: seq<Point>)
    ensures |r| == ny
    ensures forall k :: 0 <= k < ny ==> r[k] == Point(root.x + x, root.y + k)
  {
    seq(ny, k => Point(root.x + x, root.y + k))
  }

  /** The cells of an nx by ny block at root, column after column (X outer, Y inner). */
  function Cells(root: Point, nx: int, ny: int): seq<Point>
    decreases nx
  {
    if nx <= 0 then [] else Cells(root, nx - 1, ny) + Column(root, nx - 1, Max(ny, 0))
  }

  /** A cell is covered exactly when its offset from the root lies inside the block. */
  lemma {:induction false} CellsMembership(root: Point, nx: int, ny: int, p: Point)
    ensures p in Cells(root, nx, ny) <==> 0 <= p.x - root.x < nx && 0 <= p.y - root.y < ny
    decreases nx
  {
    if nx > 0 {
      CellsMembership(root, nx - 1, ny, p);
      var col := Column(root, nx - 1, Max(ny, 0));
      if p in col {
        var k :| 0 <= k < |col| && col[k] == p;
      }
      if p.x - root.x == nx - 1 && 0 <= p.y - root.y < ny {
        assert col[p.y - root.y] == p;
      }
    }
  }

  /** The block holds Dimensions.X * Dimensions.Y cells, none when a dimension is not positive. */
  lemma {:induction false} CellsLength(root: Point, nx: int, ny: int)
    ensures |Cells(root, nx, ny)| == Max(nx, 0) * Max(ny, 0)
    decreases nx
  {
    if nx > 0 {
      CellsLength(root, nx - 1, ny);
      assert Max(nx, 0) * Max(ny, 0) == Max(nx - 1, 0) * Max(ny, 0) + Max(ny, 0);
    }
  }

  /** No cell is reported twice. */
  lemma {:induction false} CellsNoDup(root: Point, nx: int, ny: int)
    ensures NoDup(Cells(root, nx, ny))
    decreases nx
  {
    if nx > 0 {
      CellsNoDup(root, nx - 1, ny);
      var prev := Cells(root, nx - 1, ny);
      var col := Column(root, nx - 1, Max(ny, 0));
      var r := prev + col;
      forall i, j | 0 <= i < j < |r| ensures r[i] != r[j] {
        if j >= |prev| && i < |prev| {
          CellsMembership(root, nx - 1, ny, r[i]);
          assert r[j] == col[j - |prev|];
        } else if i >= |prev| {
          assert r[i] == col[i - |prev|] && r[j] == col[j - |prev|];
        }
      }
    }
  }

  class ItemWidget {
    /** Whether the widget's class implements the item-widget interface (the base widget does). */
    const implementsItemInterface: bool
    /** The owning inventory UI, by id. */
    var owningInventory: Option<nat>
    /** ItemStack.SlotGuid; the stack counts as valid when its guid is. */
    var itemStackGuid: Guid
    var slotCoordinates: Point
    var slotDimensions: Point
    var isDirty: bool

    /** A spawned widget with its exposed values, after NativeConstruct: not dirty. */
    constructor(implementsItemInterface: bool, owningInventory: Option<nat>, itemStackGuid: Guid, coords: Point, dims: Point)
      ensures this.implementsItemInterface == implementsItemInterface && this.owningInventory == owningInventory
      ensures this.itemStackGuid == itemStackGuid && slotCoordinates == coords && slotDimensions == dims
      ensures !isDirty
    {
      this.implementsItemInterface := implementsItemInterface;
      this.owningInventory := owningInventory;
      this.itemStackGuid := itemStackGuid;
      slotCoordinates := coords;
      slotDimensions := dims;
      isDirty := false;
    }

    /** NativeConstruct clears the dirty flag. */
    method NativeConstruct()
      modifies this
      ensures !isDirty
      ensures owningInventory == old(owningInventory) && itemStackGuid == old(itemStackGuid)
      ensures slotCoordinates == old(slotCoordinates) && slotDimensions == old(slotDimensions)
    {
      isDirty := false;
    }

    /** SetOwningInventory: afterwards the widget belongs to the new inventory UI (a no-op when it already did). */
    method SetOwningInventory(newOwningInventory: Option<nat>)
      modifies this
      ensures owningInventory == newOwningInventory
      ensures itemStackGuid == old(itemStackGuid) && isDirty == old(isDirty)
      ensures slotCoordinates == old(slotCoordinates) && slotDimensions == old(slotDimensions)
    {
      if owningInventory == newOwningInventory {
        return;
      }
      owningInventory := newOwningInventory;
    }

    predicate IsDirty()
      reads this
    {
      isDirty
    }

    method SetDirty(newDirtyState: bool)
      modifies this
      ensures isDirty == newDirtyState
      ensures owningInventory == old(owningInventory) && itemStackGuid == old(itemStackGuid)
      ensures slotCoordinates == old(slotCoordinates) && slotDimensions == old(slotDimensions)
    {
      isDirty := newDirtyState;
    }

    /** OnDropped marks the widget dirty. */
    method OnDropped()
      modifies this
      ensures IsDirty()
      ensures owningInventory == old(owningInventory) && itemStackGuid == old(itemStackGuid)
      ensures slotCoordinates == old(slotCoordinates) && slotDimensions == old(slotDimensions)
    {
      SetDirty(true);
    }

    /**
     * GetItem().SlotGuid: the inventory behind the owning UI is searched
     * by the stack's guid; `inventory` is the set of guids that search
     * finds, None when the UI has no inventory. A failed step gives the
     * default slot, whose guid is empty.
     */
    function GetItemGuid(inventory: Option<set<Guid>>): (g: Guid)
      reads this
      ensures GuidValid(g) ==> g == itemStackGuid
      ensures GuidValid(g) <==>
        GuidValid(itemStackGuid) && owningInventory.Some? && inventory.Some? && itemStackGuid in inventory.value
    {
      if !GuidValid(itemStackGuid) then InvalidGuid
      else if owningInventory.None? then InvalidGuid
      else if inventory.None? then InvalidGuid
      else if itemStackGuid in inventory.value then itemStackGuid
      else InvalidGuid
    }

    /** SaveRootCoords: refuses the current root; otherwise stores the new one. */
    method SaveRootCoords(newCoords: Point) returns (saved: bool)
      modifies this
      ensures saved <==> newCoords != old(slotCoordinates)
      ensures slotCoordinates == newCoords
      ensures slotDimensions == old(slotDimensions) && isDirty == old(isDirty)
      ensures owningInventory == old(owningInventory) && itemStackGuid == old(itemStackGuid)
    {
      if newCoords == slotCoordinates {
        return false;
      }
      slotCoordinates := newCoords;
      return true;
    }

    /** MoveToNewCoords: refuses the current root, and leaves the root to the container either way. */
    method MoveToNewCoords(newCoords: Point) returns (moved: bool)
      ensures moved <==> newCoords != slotCoordinates
    {
      if newCoords == slotCoordinates {
        return false;
      }
      return true;
    }

    /** ReleaseOldCoords only broadcasts. */
    method ReleaseOldCoords(oldCoords: Point) returns (released: bool)
      ensures released
    {
      released := true;
    }

    /** GetOccupyingCoords: the root plus every offset (X, Y) of the item's dimensions, X outer. */
    method GetOccupyingCoords() returns (result: seq<Point>)
      ensures result == Cells(slotCoordinates, slotDimensions.x, slotDimensions.y)
    {
      var root := slotCoordinates;
      var nx := slotDimensions.x;
      var ny := slotDimensions.y;
      result := [];
      var x := 0;
      while x < nx
        invariant 0 <= x <= Max(nx, 0)
        invariant result == Cells(root, x, ny)
      {
        var y := 0;
        ghost var before := result;
        while y < ny
          invariant 0 <= y <= Max(ny, 0)
          invariant result == before + Column(root, x, y)
        {
          assert Column(root, x, y + 1) == Column(root, x, y) + [Point(root.x + x, root.y + y)];
          result := result + [Point(root.x + x, root.y + y)];
          y := y + 1;
        }
        assert y == Max(ny, 0);
        x := x + 1;
      }
      assert x == Max(nx, 0);
      assert Cells(root, Max(nx, 0), ny) == Cells(root, nx, ny);
    }

    /**
     * CanBeDragged: needs the settings, an owning inventory UI and an
     * inventory theme (`themeDragDrop`, None when the UI has none); then
     * the theme's drag-and-drop switch decides.
     */
    predicate CanBeDragged(hasSettings: bool, themeDragDrop: Option<bool>)
      reads this
      ensures CanBeDragged(hasSettings, themeDragDrop) <==>
        hasSettings && owningInventory.Some? && themeDragDrop == Some(true)
    {
      if !hasSettings then false
      else if owningInventory.None? then false
      else if themeDragDrop.None? then false
      else themeDragDrop.value
    }
  }

  /** The cells GetOccupyingCoords reports are exactly the block at the root, each once. */
  lemma OccupyingCoordsSpec(root: Point, dims: Point)
    ensures |Cells(root, dims.x, dims.y)| == Max(dims.x, 0) * Max(dims.y, 0)
    ensures NoDup(Cells(root, dims.x, dims.y))
    ensures forall p :: p in Cells(root, dims.x, dims.y) <==>
      0 <= p.x - root.x < dims.x && 0 <= p.y - root.y < dims.y
  {
    CellsLength(root, dims.x, dims.y);
    CellsNoDup(root, dims.x, dims.y);
    forall p ensures p in Cells(root, dims.x, dims.y) <==> 0 <= p.x - root.x < dims.x && 0 <= p.y - root.y < dims.y {
      CellsMembership(root, dims.x, dims.y, p);
    }
  }
}
