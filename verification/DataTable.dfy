/** The table of attested memory areas, with the nonce and the prepared data of the current request. */
module DataTable {
  import opened Blocks
  import opened Bytes
  import opened Defines
  import opened Labels
  import opened Memory
  import opened Results

  class TableItem {
    const area: MemoryArea
    var next: TableItem?
    var previous: TableItem?
    ghost const position: nat

    constructor (area: MemoryArea, ghost position: nat)
      ensures this.area == area && this.position == position
    {
      this.area := area;
      this.position := position;
    }
  }

  class RaTable {
    var preparedData: Option<seq<byte>>
    var currentNonce: Option<seq<byte>>
    var head: TableItem?
    var tail: TableItem?
    var memoryAreasCount: uint16
    var appAid: Aid
    var appAttestatorNumber: uint64
    var isAidSet: bool
    var isAttestatorNumberSet: bool
    ghost var items: seq<TableItem>
    ghost var areas: seq<MemoryArea>
    ghost var repr: set<TableItem>

    ghost predicate Linked()
      reads this`head, this`tail, this`items, this`areas, this`repr, repr
    {
      && |areas| == |items|
      && (forall i :: 0 <= i < |items| ==> items[i] in repr && items[i].position == i && items[i].area == areas[i])
      && (if items == [] then head == null && tail == null else
          head == items[0] && tail == items[|items| - 1] && tail.next == null)
      && (forall i :: 0 <= i < |items| - 1 ==> items[i].next == items[i + 1])
    }

    ghost function Labels(): (labels: seq<uint16>)
      reads this`areas, areas
      ensures |labels| == |areas|
    {
      var all := areas;
      seq(|all|, i requires 0 <= i < |all| reads all => all[i].areaLabel)
    }

    /** The table's contents as a value. */
    ghost function View(): (view: seq<AreaInfo>)
      reads this`areas, areas
      ensures |view| == |areas|
    {
      var all := areas;
      seq(|all|, i requires 0 <= i < |all| reads all => AreaInfo(all[i].areaLabel, all[i].blocks))
    }

    /** The count is 16 bits wide; while it is exact, labels are unique. */
    ghost predicate Valid()
      reads this`head, this`tail, this`items, this`areas, this`repr, this`memoryAreasCount, repr, areas
    {
      && Linked()
      && memoryAreasCount == Wrap(|areas|, 0x1_0000) <= |areas|
      && (|areas| <= 0x1_0000 ==> Distinct(Labels()))
    }

    ghost predicate AreasValid()
      reads this`areas, areas, set a, o | a in areas && o in a.repr :: o
    {
      forall a :: a in areas ==> a.Valid()
    }

    constructor ()
      ensures Valid() && areas == [] && repr == {}
      ensures preparedData == None && currentNonce == None && !isAidSet
    {
      preparedData, currentNonce := None, None;
      head, tail, memoryAreasCount := null, null, 0;
      isAidSet := false;
      items, areas, repr := [], [], {};
    }

    /** The pointer part of an insertion: always at the end. */
    method Link(item: TableItem)
      requires Linked() && item.position == |areas|
      modifies this`head, this`tail, this`items, this`areas, this`repr, repr, item
      ensures Linked() && areas == old(areas) + [item.area] && repr == old(repr) + {item}
    {
      if head == null && tail == null {
        item.next, item.previous := null, null;
        head := item;
        tail := item;
      } else {
        item.previous := tail;
        item.next := null;
        tail.next := item;
        tail := item;
      }
      items, areas, repr := items + [item], areas + [item.area], repr + {item};
    }

    /** `insert_table_item`: links the item and bumps the 16-bit count. */
    method InsertTableItem(item: TableItem)
      requires Linked() && memoryAreasCount == Wrap(|areas|, 0x1_0000) && item.position == |areas|
      modifies this`memoryAreasCount, this`head, this`tail, this`items, this`areas, this`repr, repr, item
      ensures Linked() && memoryAreasCount == Wrap(|areas|, 0x1_0000)
      ensures areas == old(areas) + [item.area] && repr == old(repr) + {item}
      ensures Labels() == old(Labels()) + [item.area.areaLabel]
    {
      WrapAdd(|areas|, 1, 0x1_0000);
      memoryAreasCount := Wrap(memoryAreasCount + 1, 0x1_0000);
      Link(item);
    }

    /** `ra_is_label_defined`: looks at as many areas as the count says. */
    method IsLabelDefined(l: uint16) returns (defined: bool)
      requires Linked() && memoryAreasCount <= |areas|
      ensures defined <==> l in Labels()[..memoryAreasCount]
    {
      var i: int, iter := 0, head;
      while i < memoryAreasCount
        invariant 0 <= i <= memoryAreasCount && iter == if i < |items| then items[i] else null
        invariant forall j :: 0 <= j < i ==> areas[j].areaLabel != l
      {
        if l == iter.area.areaLabel {
          assert Labels()[..memoryAreasCount][i] == l;
          return true;
        }
        assert i + 1 < |items| ==> items[i].next == items[i + 1];
        i, iter := i + 1, iter.next;
      }
      return false;
    }

    /** The allocation and insertion that follow the checks. */
    method AddArea(area: MemoryArea)
      requires Valid() && (|areas| < 0x1_0000 ==> area.areaLabel !in Labels())
      modifies this`memoryAreasCount, this`head, this`tail, this`items, this`areas, this`repr, repr
      ensures Valid() && fresh(repr - old(repr)) && areas == old(areas) + [area]
    {
      WrapIsSmall(|areas| + 1, 0x1_0000);
      var item := new TableItem(area, |areas|);
      InsertTableItem(item);
    }

    /** `ra_insert_memory_area`: refuses a label that is already there; the count wraps at 2^16. */
    method InsertMemoryArea(area: MemoryArea?) returns (rc: RaResult)
      requires Valid()
      modifies this`memoryAreasCount, this`head, this`tail, this`items, this`areas, this`repr, repr
      ensures Valid() && fresh(repr - old(repr))
      ensures areas == if rc == Success then old(areas) + [area] else old(areas)
      ensures area == null ==> rc == ErrorMalformedMemoryArea
      ensures area != null ==>
        rc == if area.areaLabel in old(Labels()[..memoryAreasCount]) then ErrorMemoryLabelAlreadyDefined else Success
      ensures area != null && |old(areas)| < 0x1_0000 ==>
        rc == if area.areaLabel in old(Labels()) then ErrorMemoryLabelAlreadyDefined else Success
    {
      if area == null {
        return ErrorMalformedMemoryArea;
      }
      assert |areas| < 0x1_0000 ==> Labels()[..memoryAreasCount] == Labels();
      var defined := IsLabelDefined(area.areaLabel);
      if defined {
        return ErrorMemoryLabelAlreadyDefined;
      }
      AddArea(area);
      return Success;
    }

    /** `ra_get_memory_area`: the first area with the label, null if there is none. */
    method GetMemoryArea(l: uint16) returns (area: MemoryArea?)
      requires Linked()
      ensures var k := FirstFrom(Labels(), l, 0); area == if k < |areas| then areas[k] else null
    {
      var iter := head;
      ghost var k := 0;
      while iter != null
        invariant 0 <= k <= |items| && iter == if k < |items| then items[k] else null
        invariant FirstFrom(Labels(), l, 0) == FirstFrom(Labels(), l, k)
        decreases |items| - k
      {
        if iter.area.areaLabel == l {
          break;
        }
        assert k + 1 < |items| ==> items[k].next == items[k + 1];
        iter := iter.next;
        k := k + 1;
      }
      if iter == null {
        return null;
      }
      return iter.area;
    }

    /** `ra_get_labels_list`: the first `memoryAreasCount` labels, in table order. */
    method GetLabelsList(list: array<uint16>)
      requires Valid() && memoryAreasCount <= list.Length && memoryAreasCount <= |areas|
      modifies list
      ensures list[..memoryAreasCount] == Labels()[..memoryAreasCount]
    {
      var i: int, iter := 0, head;
      while i < memoryAreasCount
        invariant 0 <= i <= memoryAreasCount && iter == if i < |items| then items[i] else null
        invariant forall j :: 0 <= j < i ==> list[j] == areas[j].areaLabel
      {
        list[i] := iter.area.areaLabel;
        assert i + 1 < |items| ==> items[i].next == items[i + 1];
        i, iter := i + 1, iter.next;
      }
    }

    /** `ra_set_current_nonce`: the previous nonce is dropped. */
    method SetCurrentNonce(nonce: seq<byte>)
      modifies this`currentNonce
      ensures currentNonce == Some(nonce)
    {
      if currentNonce != None {
        currentNonce := None;
      }
      currentNonce := Some(nonce);
    }

    /** `ra_set_prepared_data`. */
    method SetPreparedData(data: seq<byte>)
      modifies this`preparedData
      ensures preparedData == Some(data)
    {
      preparedData := Some(data);
    }

    /** `ra_reset_prepared_data`. */
    method ResetPreparedData()
      modifies this`preparedData
      ensures preparedData == None
    {
      preparedData := None;
    }
  }
}
