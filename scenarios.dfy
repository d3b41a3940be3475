/**
 * Concrete scenarios that exercise a section end to end: a drag-and-drop
 * insertion that drops a duplicate, the behaviour of a batch that repeats
 * an ID, the deferred selection write, and host reuse across updates.
 */
module SectionScenarios {
  import opened Wrappers
  import opened Bindings
  import opened Hosting
  import opened Sections
  import Collections

  /** A drag item from this app carrying `x` as its local object. */
  function Dragged(x: int): DragItem<int>
  {
    DragItem(EmptyItemProvider, Some(x))
  }

  /**
   * Items `[1, 2, 3]` (each item its own ID); inserting `[2, 4]` at 1 drops
   * the duplicate 2 and places 4 before the shifted originals.
   */
  lemma InsertExample<V>(s: Section<int, int, V>)
    requires forall x :: s.dataID(x) == x
    requires s.dragDropConfig.dropEnabled && s.dragDropConfig.dropItemProvider.None?
    ensures s.InsertingDropItems([1, 2, 3], [Dragged(2), Dragged(4)], 1) == [1, 4, 2, 3]
  {
    var ids := s.IDsOf([1, 2, 3]);
    assert [1, 2, 3][1] == 2;
    assert 2 in ids && 4 !in ids;
    assert s.ResolveDropItems([Dragged(2), Dragged(4)]) == [2, 4];
    var p := s.IDNotIn(ids);
    assert !p(2) && p(4);
    assert [2, 4][1..] == [4] && [4][1..] == [];
    assert Collections.Filter([4], p) == [4];
    assert s.ItemsToInsert([1, 2, 3], [Dragged(2), Dragged(4)]) == [4];
  }

  /** Duplicates inside one batch are not filtered: both copies of a new ID are inserted. */
  lemma InsertKeepsBatchDuplicates<V>(s: Section<int, int, V>)
    requires forall x :: s.dataID(x) == x
    requires s.dragDropConfig.dropEnabled && s.dragDropConfig.dropItemProvider.None?
    ensures s.InsertingDropItems([1, 2, 3], [Dragged(4), Dragged(4)], 3) == [1, 2, 3, 4, 4]
  {
    var ids := s.IDsOf([1, 2, 3]);
    assert 4 !in ids;
    assert s.ResolveDropItems([Dragged(4), Dragged(4)]) == [4, 4];
    var p := s.IDNotIn(ids);
    assert p(4);
    assert [4, 4][1..] == [4] && [4][1..] == [];
    assert Collections.Filter([4], p) == [4];
    assert s.ItemsToInsert([1, 2, 3], [Dragged(4), Dragged(4)]) == [4, 4];
  }

  /**
   * Two selection updates in one frame: neither is visible until the main
   * queue runs, and then the last one wins.
   */
  method SelectionLastWriteWins<Item, ItemID(==), V>(s: Section<Item, ItemID, V>, first: set<int>, second: set<int>)
    requires s.selectedItems != null && s.selectedItems.pendingWrites == []
    modifies s.selectedItems
    ensures s.selectedItems.wrappedValue == second && s.selectedItems.pendingWrites == []
    ensures forall i :: s.IsSelected(i) <==> i in second
  {
    var before := s.selectedItems.wrappedValue;
    s.UpdateSelection(first);
    s.UpdateSelection(second);
    assert s.selectedItems.wrappedValue == before;
    assert s.selectedItems.pendingWrites == [first, second];
    s.selectedItems.RunPendingWrites();
  }

  /**
   * A controller made for an item is reused, not replaced, when the item is
   * shown again; an update with the same content leaves what it shows as it was.
   */
  method HostReusedAcrossPasses<Item, ItemID(==), V>(s: Section<Item, ItemID, V>, itemID: ItemUniqueID)
    returns (hc: HostingController<V>, again: HostingController?<V>)
    requires s.GetContent(itemID).Some?
    ensures fresh(hc) && hc.contentType == s.containerType
    ensures again == hc
    ensures hc.view == s.GetContent(itemID).value
  {
    var created := s.UpdateOrCreateHostControllerForItem(itemID, null);
    hc := created;
    again := s.UpdateOrCreateHostControllerForItem(itemID, hc);
    s.UpdateForItem(hc, itemID);
  }
}
