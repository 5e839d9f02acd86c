/** The arrays of object references that libvirt's list functions return. */
module ObjectLists {
  import opened Bytes
  import opened CHeap
  import opened Text

  function PointersAt(b: Bytes, n: nat): (r: seq<Addr>)
    requires POINTER_SIZE * n <= |b|
    ensures |r| == n
  {
    seq(n, i requires 0 <= i < n => PointerAt(b, POINTER_SIZE * i))
  }

  /**
   * The references libvirt answered with, copied out of its array, which is freed once on every
   * exit, even when the list is empty. None stands for the failed call.
   */
  method NativeObjectList(heap: Heap, count: i32, list: Addr, ghost base: Blocks) returns (r: Option<seq<Addr>>)
    requires heap.Valid()
    requires if list == NULL || count < 0 then heap.blocks == base
             else list !in base && list in heap.blocks && heap.blocks == base[list := heap.blocks[list]]
                  && POINTER_SIZE * count <= |heap.blocks[list]|
    modifies heap
    ensures heap.Valid() && heap.blocks == base
    ensures r.Some? <==> count == 0 || (count > 0 && list != NULL)
    ensures r.Some? ==> r.value == if count == 0 then [] else PointersAt(old(heap.blocks)[list], count)
    ensures r.Some? ==> |r.value| == count && forall i | 0 <= i < count ::
      r.value[i] as int == FromLE(old(heap.blocks)[list][8 * i..8 * i + 8])
  {
    if count < 0 {
      return None;
    }
    r := Some([]);
    if count > 0 && list == NULL {
      r := None;
    } else if count > 0 {
      var handles: seq<Addr> := [];
      for i := 0 to count
        invariant handles == PointersAt(heap.blocks[list], count)[..i]
      {
        handles := handles + [PointerAt(heap.blocks[list], POINTER_SIZE * i)];
      }
      r := Some(handles);
    }
    if list != NULL {
      heap.Free(list);
      assert heap.blocks == base;
    }
  }
}
