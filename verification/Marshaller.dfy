/** Moving typed parameters in and out of native memory, and who owns what meanwhile. */
module Marshaller {
  import opened Bytes
  import opened CHeap
  import opened TypedParams
  import opened ParamArrays
  import opened CLayout

  // Which helpers the loaded library exports.
  datatype Helpers = Helpers(
    free: bool, clear: bool, addInt: bool, addUInt: bool, addLLong: bool, addULLong: bool,
    addDouble: bool, addBoolean: bool, addString: bool)
  {
    predicate Native() {
      free && addInt && addUInt && addLLong && addULLong && addDouble && addBoolean && addString
    }
  }

  /** The Add helper for the type of a parameter. */
  predicate HasAdd(api: Helpers, q: TypedParameter) {
    match q.value
    case Int32(_) => api.addInt
    case UInt32(_) => api.addUInt
    case Int64(_) => api.addLLong
    case UInt64(_) => api.addULLong
    case Float64(_) => api.addDouble
    case Bool(_) => api.addBoolean
    case String(_) => api.addString
    case _ => false
  }

  /** The native strategy is possible exactly when every parameter can be added and the array freed. */
  lemma NativeExact(api: Helpers)
    ensures api.Native() <==> api.free && forall q | Canonical(q) :: HasAdd(api, q)
  {
    var field: Bytes := "a";
    assert ValidField(field);
    assert Canonical(TypedParameter(field, TYPE_INT, Int32(0)));
    assert Canonical(TypedParameter(field, TYPE_UINT, UInt32(0)));
    assert Canonical(TypedParameter(field, TYPE_LLONG, Int64(0)));
    assert Canonical(TypedParameter(field, TYPE_ULLONG, UInt64(0)));
    assert Canonical(TypedParameter(field, TYPE_DOUBLE, Float64(0)));
    assert Canonical(TypedParameter(field, TYPE_BOOLEAN, Bool(true)));
    assert Canonical(TypedParameter(field, TYPE_STRING, String([])));
  }

  ghost predicate InBounds(h: Blocks, memory: Addr, n: nat) {
    memory in h && RECORD_SIZE * n <= |h[memory]|
  }

  // What releasing an array requires: it owns its first n records' strings.
  ghost predicate Releasable(h: Blocks, base: Blocks, memory: Addr, n: nat) {
    if memory == NULL then h == base
    else InBounds(h, memory, n) && Owns(h, base, memory, Cells(h[memory], n))
  }

  // ----- Release -----

  /** The manual walk over an array, freeing each string. */
  method FreeStringsByHand(heap: Heap, memory: Addr, count: nat, ghost base: Blocks)
    requires heap.Valid() && memory != NULL && Releasable(heap.blocks, base, memory, count)
    modifies heap
    ensures heap.Valid() && heap.failures == old(heap.failures) && Owns(heap.blocks, base, memory, [])
  {
    ghost var cells := Cells(heap.blocks[memory], count);
    assert cells[0..] == cells;
    for i := 0 to count
      invariant heap.Valid() && heap.failures == old(heap.failures) && InBounds(heap.blocks, memory, count)
      invariant Cells(heap.blocks[memory], count) == cells
      invariant Owns(heap.blocks, base, memory, cells[i..])
    {
      var c := ReadCell(RecordAt(heap.blocks[memory], i));
      CellsAt(heap.blocks[memory], count, i);
      ReleaseCell(heap.blocks, base, memory, cells[i..]);
      OneOwned(heap.blocks.Keys, base.Keys, memory, c.long, Strings(cells[i..]));
      assert cells[i..][1..] == cells[i + 1..];
      if c.typ == TYPE_STRING {
        var value := c.long;
        if value != NULL {
          OwnedInStrings(cells[i..], 0);
          heap.Free(value);
        }
      }
    }
  }

  /** virTypedParamsClear, libvirt's own release of the strings of an array. */
  method NativeClear(heap: Heap, api: Helpers, memory: Addr, count: nat, ghost base: Blocks)
    requires api.clear && heap.Valid() && memory != NULL && Releasable(heap.blocks, base, memory, count)
    modifies heap
    ensures heap.Valid() && heap.failures == old(heap.failures) && Owns(heap.blocks, base, memory, [])
  {
    FreeStringsByHand(heap, memory, count, base);
  }

  /** virTypedParamsFree, libvirt's own release of an array with its strings. */
  method NativeFree(heap: Heap, api: Helpers, memory: Addr, count: nat, ghost base: Blocks)
    requires api.free && heap.Valid() && memory != NULL && Releasable(heap.blocks, base, memory, count)
    modifies heap
    ensures heap.Valid() && heap.failures == old(heap.failures) && heap.blocks == base
  {
    FreeStringsByHand(heap, memory, count, base);
    FreeArray(heap, memory, base);
  }

  /** free of an array whose strings are gone. */
  method FreeArray(heap: Heap, memory: Addr, ghost base: Blocks)
    requires heap.Valid() && Owns(heap.blocks, base, memory, [])
    modifies heap
    ensures heap.Valid() && heap.failures == old(heap.failures) && heap.blocks == base
  {
    OneOwned(heap.blocks.Keys, base.Keys, memory, memory, multiset{});
    heap.Free(memory);
    assert heap.blocks.Keys == base.Keys;
  }

  method FreeTypedParameterStrings(heap: Heap, api: Helpers, memory: Addr, count: int, ghost base: Blocks)
    requires heap.Valid() && Releasable(heap.blocks, base, memory, if count < 0 then 0 else count)
    modifies heap
    ensures heap.Valid() && heap.failures == old(heap.failures)
    ensures if memory == NULL then heap.blocks == base else Owns(heap.blocks, base, memory, [])
  {
    if memory == NULL || count <= 0 {
      return;
    }
    if api.clear {
      NativeClear(heap, api, memory, count, base);
      return;
    }
    FreeStringsByHand(heap, memory, count, base);
  }

  /** Whichever helpers exist, releasing an owned array restores the heap around it. */
  method FreeTypedParameters(heap: Heap, api: Helpers, memory: Addr, count: nat, ghost base: Blocks)
    requires heap.Valid() && Releasable(heap.blocks, base, memory, count)
    modifies heap
    ensures heap.Valid() && heap.failures == old(heap.failures) && heap.blocks == base
  {
    if memory == NULL {
      return;
    }
    if api.free {
      NativeFree(heap, api, memory, count, base);
      return;
    }
    FreeTypedParameterStrings(heap, api, memory, count, base);
    FreeArray(heap, memory, base);
  }

  // ----- Encoding -----

  /** Normalizes in order and stops at the first error. */
  function NormalizeAll(params: seq<TypedParameter>): (r: Result<seq<TypedParameter>>)
    ensures r.Ok? ==> |r.value| == |params| && forall i | 0 <= i < |params| :: Normalize(params[i]) == Ok(r.value[i])
    ensures r.Err? ==> exists i :: 0 <= i < |params| && Normalize(params[i]) == Err(r.error)
  {
    if params == [] then Ok([])
    else
      match NormalizeAll(params[..|params| - 1])
      case Err(e) => Err(e)
      case Ok(qs) =>
        match Normalize(params[|params| - 1])
        case Err(e) => Err(e)
        case Ok(q) => Ok(qs + [q])
  }

  lemma {:induction false} NormalizeAllPrefix(params: seq<TypedParameter>, i: nat)
    requires i <= |params| && NormalizeAll(params[..i]).Err?
    ensures NormalizeAll(params) == NormalizeAll(params[..i])
  {
    if i < |params| {
      assert params[..|params| - 1][..i] == params[..i];
      NormalizeAllPrefix(params[..|params| - 1], i);
    } else {
      assert params[..i] == params;
    }
  }

  /** malloc of a C string: its bytes and a NUL. */
  method AllocateString(heap: Heap, text: Bytes) returns (p: Addr)
    requires heap.Valid()
    modifies heap
    ensures heap.Valid() && heap.failures >= old(heap.failures)
    ensures p == NULL ==> heap.blocks == old(heap.blocks) && heap.failures > old(heap.failures)
    ensures p != NULL ==> p !in old(heap.blocks) && heap.blocks == old(heap.blocks)[p := text + [NUL]]
  {
    p := heap.Malloc(|text| + 1);
    if p != NULL {
      ghost var was := heap.blocks;
      heap.Store(p, 0, text + [NUL]);
      assert Splice(was[p], 0, text + [NUL]) == text + [NUL];
    }
  }

  /** From params to params', record i became rec and no other record changed. */
  ghost predicate OnlyRecord(params: Bytes, params': Bytes, i: nat, rec: Bytes) {
    && RECORD_SIZE * (i + 1) <= |params| == |params'|
    && RecordAt(params', i) == rec
    && forall j | 0 <= j && RECORD_SIZE * (j + 1) <= |params| && j != i :: RecordAt(params', j) == RecordAt(params, j)
  }

  lemma StoreInRecord(params: Bytes, i: nat, off: nat, x: Bytes)
    requires off + |x| <= RECORD_SIZE && RECORD_SIZE * (i + 1) <= |params|
    ensures OnlyRecord(params, Splice(params, RECORD_SIZE * i + off, x), i, Splice(RecordAt(params, i), off, x))
  {
    var at := RECORD_SIZE * i + off;
    SpliceWithin(params, at, x, RECORD_SIZE * i, RECORD_SIZE * i + RECORD_SIZE);
    forall j | 0 <= j && RECORD_SIZE * (j + 1) <= |params| && j != i
      ensures RecordAt(Splice(params, at, x), j) == RecordAt(params, j)
    {
      SpliceSlices(params, at, x, RECORD_SIZE * j, RECORD_SIZE * j + RECORD_SIZE);
    }
  }

  method StoreHeader(heap: Heap, memory: Addr, i: nat, q: TypedParameter)
    requires heap.Valid() && InBounds(heap.blocks, memory, i + 1)
    requires Canonical(q) && RecordAt(heap.blocks[memory], i) == Zeros(RECORD_SIZE)
    modifies heap
    ensures heap.Valid() && heap.failures >= old(heap.failures)
    ensures memory in heap.blocks && heap.blocks == old(heap.blocks)[memory := heap.blocks[memory]]
    ensures OnlyRecord(old(heap.blocks)[memory], heap.blocks[memory], i, AfterType(q))
  {
    assert |q.field| < FIELD_LENGTH;
    hide Splice, RecordAt, TypeBytes, Canonical;
    StoreInRecord(heap.blocks[memory], i, 0, q.field);
    heap.Store(memory, RECORD_SIZE * i, q.field);
    StoreInRecord(heap.blocks[memory], i, TYPE_OFFSET, TypeBytes(q.typ));
    heap.Store(memory, RECORD_SIZE * i + TYPE_OFFSET, TypeBytes(q.typ));
  }

  lemma FinishedCell(h: Blocks, q: TypedParameter, text: Addr) returns (c: Cell)
    requires Canonical(q)
    requires q.value.String? ==> text != NULL && text in h && h[text] == q.value.text + [NUL]
    ensures c == ReadCell(AfterValue(q, text)) && Encodes(h, c, q)
    ensures (OwnsString(c) <==> q.value.String?) && (OwnsString(c) ==> c.long == text)
  {
    c := ReadCell(AfterValue(q, text));
    BuildEncodes(h, q, text);
    EncodesDecodes(h, c, q);
  }

  /** The value store completes the encoding of q in record i. */
  method StoreValue(heap: Heap, memory: Addr, i: nat, q: TypedParameter, text: Addr) returns (ghost c: Cell)
    requires heap.Valid() && InBounds(heap.blocks, memory, i + 1)
    requires Canonical(q) && RecordAt(heap.blocks[memory], i) == AfterType(q)
    requires if q.value.String? then
               text != NULL && text != memory && text in heap.blocks && heap.blocks[text] == q.value.text + [NUL]
             else text == NULL
    modifies heap
    ensures heap.Valid() && heap.failures >= old(heap.failures)
    ensures memory in heap.blocks && heap.blocks == old(heap.blocks)[memory := heap.blocks[memory]]
    ensures |heap.blocks[memory]| == |old(heap.blocks)[memory]|
    ensures OnlyRecord(old(heap.blocks)[memory], heap.blocks[memory], i, RecordAt(heap.blocks[memory], i))
    ensures c == ReadCell(RecordAt(heap.blocks[memory], i)) && Encodes(heap.blocks, c, q)
    ensures (OwnsString(c) <==> q.value.String?) && (OwnsString(c) ==> c.long == text)
  {
    StoreInRecord(heap.blocks[memory], i, VALUE_OFFSET, ValueBytes(q.value, text));
    heap.Store(memory, RECORD_SIZE * i + VALUE_OFFSET, ValueBytes(q.value, text));
    c := FinishedCell(heap.blocks, q, text);
  }

  /** The array at memory holds qs in its first |qs| records, and nothing else is live besides base. */
  ghost predicate ArrayHolds(h: Blocks, base: Blocks, memory: Addr, qs: seq<TypedParameter>) {
    if memory == NULL then qs == [] && h == base
    else InBounds(h, memory, |qs|) && Holds(h, base, memory, Cells(h[memory], |qs|), qs)
  }

  lemma ExtendedCells(params: Bytes, params': Bytes, i: nat, rec: Bytes)
    requires OnlyRecord(params, params', i, rec)
    ensures Cells(params', i + 1) == Cells(params, i) + [ReadCell(rec)]
  {
    SameCells(params, params', i);
  }

  /** When a string's malloc fails its record has a tag but no string, and the tail is still zero. */
  lemma RecordAbandoned(h: Blocks, h': Blocks, base: Blocks, memory: Addr, i: nat, n: nat, q: TypedParameter)
    requires memory != NULL && InBounds(h, memory, n) && i < n && Owns(h, base, memory, Cells(h[memory], i))
    requires memory in h' && h' == h[memory := h'[memory]]
    requires Canonical(q) && OnlyRecord(h[memory], h'[memory], i, AfterType(q))
    requires forall j | i < j < n :: RecordAt(h[memory], j) == Zeros(RECORD_SIZE)
    ensures Releasable(h', base, memory, n)
  {
    hide ReadCell, AfterType;
    var few, all := Cells(h[memory], i), Cells(h'[memory], n);
    BlankOwnsNothing(q);
    BlankTail(h'[memory], i, n);
    SameCells(h[memory], h'[memory], i);
    OwnedStringsStay(h, h', base, memory, few);
    assert h'.Keys == h.Keys;
    ExtendBlank(h', base, memory, few, all[i..]);
    assert few + all[i..] == all;
  }

  lemma HoldsOwns(h: Blocks, base: Blocks, memory: Addr, cells: seq<Cell>, qs: seq<TypedParameter>)
    requires Holds(h, base, memory, cells, qs)
    ensures Owns(h, base, memory, cells)
  {
  }

  /** One round of the compatible marshaller: fills zeroed record i of n with q. */
  method StoreRecord(heap: Heap, memory: Addr, i: nat, n: nat, q: TypedParameter, ghost base: Blocks,
                     ghost qs: seq<TypedParameter>)
    returns (ok: bool)
    requires heap.Valid() && memory != NULL && ArrayHolds(heap.blocks, base, memory, qs) && |qs| == i < n
    requires Canonical(q) && |heap.blocks[memory]| == RECORD_SIZE * n
    requires forall j | i <= j < n :: RecordAt(heap.blocks[memory], j) == Zeros(RECORD_SIZE)
    modifies heap
    ensures heap.Valid() && heap.failures >= old(heap.failures) && memory in heap.blocks
      && |heap.blocks[memory]| == RECORD_SIZE * n
    ensures ok ==> ArrayHolds(heap.blocks, base, memory, qs + [q])
    ensures ok ==> forall j | i < j < n :: RecordAt(heap.blocks[memory], j) == Zeros(RECORD_SIZE)
    ensures !ok ==> Releasable(heap.blocks, base, memory, n) && heap.failures > old(heap.failures)
  {
    hide ReadCell, AfterType, Holds, Owns, Encodes;
    ghost var h := heap.blocks;
    StoreHeader(heap, memory, i, q);
    var text := NULL;
    if q.value.String? {
      text := AllocateString(heap, q.value.text);
      if text == NULL {
        HoldsOwns(h, base, memory, Cells(h[memory], i), qs);
        RecordAbandoned(h, heap.blocks, base, memory, i, n, q);
        return false;
      }
    }
    ghost var tagged := heap.blocks[memory];
    ghost var c := StoreValue(heap, memory, i, q, text);
    assert OnlyRecord(h[memory], tagged, i, AfterType(q));
    ExtendedCells(h[memory], heap.blocks[memory], i, RecordAt(heap.blocks[memory], i));
    AppendCell(h, heap.blocks, base, memory, Cells(h[memory], i), qs, c, q);
    ok := true;
  }

  /** The growth step of libvirt's Add helpers: room for one more record, the records unchanged. */
  method NativeGrow(heap: Heap, memory: Addr, count: nat, ghost base: Blocks, ghost qs: seq<TypedParameter>)
    returns (grown: Addr)
    requires heap.Valid() && ArrayHolds(heap.blocks, base, memory, qs) && count == |qs|
    modifies heap
    ensures heap.Valid() && heap.failures >= old(heap.failures)
    ensures grown == NULL ==> heap.blocks == old(heap.blocks) && heap.failures > old(heap.failures)
    ensures grown != NULL ==> InBounds(heap.blocks, grown, count + 1) && ArrayHolds(heap.blocks, base, grown, qs)
  {
    hide ReadCell, AllEncode, DecodeAll, Strings, Readable;
    ghost var h := heap.blocks;
    grown := heap.Malloc(RECORD_SIZE * (count + 1));
    if grown == NULL {
      return;
    }
    if memory == NULL {
      NewArray(heap.blocks, base, grown);
      return;
    }
    var records := heap.blocks[memory][..RECORD_SIZE * count];
    heap.Store(grown, 0, records);
    forall i | 0 <= i < count ensures RecordAt(h[memory], i) == RecordAt(heap.blocks[grown], i) {
      assert RecordAt(h[memory], i) == records[RECORD_SIZE * i..RECORD_SIZE * i + RECORD_SIZE];
    }
    SameCells(h[memory], heap.blocks[grown], count);
    OneOwned(h.Keys, base.Keys, memory, memory, Strings(Cells(h[memory], count)));
    heap.Free(memory);
    MoveArray(h, heap.blocks, base, memory, grown, Cells(h[memory], count), qs);
  }

  /** libvirt filling in record i as a whole; only the record's meaning matters to its callers. */
  method NativeAssign(heap: Heap, memory: Addr, i: nat, q: TypedParameter, text: Addr) returns (ghost c: Cell)
    requires heap.Valid() && InBounds(heap.blocks, memory, i + 1) && Canonical(q)
    requires if q.value.String? then
               text != NULL && text != memory && text in heap.blocks && heap.blocks[text] == q.value.text + [NUL]
             else text == NULL
    modifies heap
    ensures heap.Valid() && heap.failures >= old(heap.failures) && InBounds(heap.blocks, memory, i + 1)
    ensures heap.blocks == old(heap.blocks)[memory := heap.blocks[memory]]
    ensures Cells(heap.blocks[memory], i + 1) == Cells(old(heap.blocks)[memory], i) + [c] && Encodes(heap.blocks, c, q)
    ensures (OwnsString(c) <==> q.value.String?) && (OwnsString(c) ==> c.long == text)
  {
    ghost var before := heap.blocks[memory];
    StoreInRecord(before, i, 0, AfterValue(q, text));
    heap.Store(memory, RECORD_SIZE * i, AfterValue(q, text));
    assert Splice(RecordAt(before, i), 0, AfterValue(q, text)) == AfterValue(q, text);
    ExtendedCells(before, heap.blocks[memory], i, AfterValue(q, text));
    c := FinishedCell(heap.blocks, q, text);
  }

  /**
   * virTypedParamsAddInt and its siblings. Callers rely on the contract only: one more
   * record, or on failure the same records, in an array that may have moved.
   */
  method NativeAdd(heap: Heap, api: Helpers, memory: Addr, count: nat, q: TypedParameter, ghost base: Blocks,
                   ghost qs: seq<TypedParameter>)
    returns (ok: bool, memory': Addr)
    requires heap.Valid() && ArrayHolds(heap.blocks, base, memory, qs) && count == |qs|
    requires Canonical(q) && HasAdd(api, q)
    modifies heap
    ensures heap.Valid() && heap.failures >= old(heap.failures)
    ensures ok ==> memory' != NULL
    ensures ArrayHolds(heap.blocks, base, memory', if ok then qs + [q] else qs)
    ensures !ok ==> heap.failures > old(heap.failures)
  {
    hide ReadCell, Holds, HasAdd, Encodes, Canonical;
    memory' := NativeGrow(heap, memory, count, base, qs);
    if memory' == NULL {
      return false, memory;
    }
    if * {
      heap.failures := heap.failures + 1;
      return false, memory';
    }
    ghost var h := heap.blocks;
    var text := NULL;
    if q.value.String? {
      text := AllocateString(heap, q.value.text);
      if text == NULL {
        return false, memory';
      }
    }
    ghost var c := NativeAssign(heap, memory', count, q, text);
    AppendCell(h, heap.blocks, base, memory', Cells(h[memory'], count), qs, c, q);
    ok := true;
  }

  datatype Encoded = Encoded(memory: Addr, count: nat)

  method NormalizeParameters(params: seq<TypedParameter>) returns (r: Result<seq<TypedParameter>>)
    ensures r == NormalizeAll(params)
    ensures r.Ok? ==> forall j | 0 <= j < |r.value| :: Canonical(r.value[j])
  {
    var normalized: seq<TypedParameter> := [];
    for i := 0 to |params|
      invariant NormalizeAll(params[..i]) == Ok(normalized)
      invariant forall j | 0 <= j < |normalized| :: Canonical(normalized[j])
    {
      var value := Normalize(params[i]);
      assert params[..i + 1][..i] == params[..i];
      if value.Err? {
        NormalizeAllPrefix(params, i + 1);
        return Err(value.error);
      }
      NormalizeExact(params[i], value.value);
      normalized := normalized + [value.value];
    }
    assert params[..|params|] == params;
    r := Ok(normalized);
  }

  /** The strategy using libvirt's Add helpers. */
  method EncodeNative(heap: Heap, api: Helpers, normalized: seq<TypedParameter>) returns (r: Result<Encoded>)
    requires heap.Valid() && api.Native()
    requires forall j | 0 <= j < |normalized| :: Canonical(normalized[j])
    modifies heap
    ensures heap.Valid() && heap.failures >= old(heap.failures)
    ensures r.Err? ==> r.error == Native && normalized != [] && heap.blocks == old(heap.blocks)
    ensures r.Err? ==> heap.failures > old(heap.failures)
    ensures r.Ok? ==> r.value.count == |normalized|
    ensures r.Ok? ==> ArrayHolds(heap.blocks, old(heap.blocks), r.value.memory, normalized)
  {
    hide ReadCell, Holds, Canonical;
    ghost var base := heap.blocks;
    var memory := NULL;
    for i := 0 to |normalized|
      invariant heap.Valid() && heap.failures >= old(heap.failures)
        && ArrayHolds(heap.blocks, base, memory, normalized[..i])
    {
      var ok;
      assert HasAdd(api, normalized[i]) by { NativeExact(api); }
      ok, memory := NativeAdd(heap, api, memory, i, normalized[i], base, normalized[..i]);
      if !ok {
        ArrayReleasable(heap.blocks, base, memory, normalized[..i]);
        FreeTypedParameters(heap, api, memory, i, base);
        return Err(Native);
      }
      assert normalized[..i] + [normalized[i]] == normalized[..i + 1];
    }
    assert normalized[..|normalized|] == normalized;
    r := Ok(Encoded(memory, |normalized|));
  }

  /** The compatible strategy for libraries lacking some helper. */
  method EncodeCompatible(heap: Heap, api: Helpers, normalized: seq<TypedParameter>) returns (r: Result<Encoded>)
    requires heap.Valid() && normalized != []
    requires forall j | 0 <= j < |normalized| :: Canonical(normalized[j])
    modifies heap
    ensures heap.Valid() && heap.failures >= old(heap.failures)
    ensures r.Err? ==> r.error == Allocation && heap.blocks == old(heap.blocks) && heap.failures > old(heap.failures)
    ensures r.Ok? ==> r.value.count == |normalized|
    ensures r.Ok? ==> ArrayHolds(heap.blocks, old(heap.blocks), r.value.memory, normalized)
  {
    hide ReadCell, Canonical, Holds;
    ghost var base := heap.blocks;
    var count := |normalized|;
    var memory := heap.Calloc(count, RECORD_SIZE);
    if memory == NULL {
      return Err(Allocation);
    }
    NewArray(heap.blocks, base, memory);
    ZeroedRecords(heap.blocks[memory], count);
    for i := 0 to count
      invariant heap.Valid() && heap.failures >= old(heap.failures)
        && ArrayHolds(heap.blocks, base, memory, normalized[..i])
      invariant memory in heap.blocks && |heap.blocks[memory]| == RECORD_SIZE * count
      invariant forall j | i <= j < count :: RecordAt(heap.blocks[memory], j) == Zeros(RECORD_SIZE)
    {
      var ok := StoreRecord(heap, memory, i, count, normalized[i], base, normalized[..i]);
      if !ok {
        FreeTypedParameters(heap, api, memory, count, base);
        return Err(Allocation);
      }
      assert normalized[..i] + [normalized[i]] == normalized[..i + 1];
    }
    assert normalized[..count] == normalized;
    r := Ok(Encoded(memory, count));
  }

  lemma ArrayReleasable(h: Blocks, base: Blocks, memory: Addr, qs: seq<TypedParameter>)
    requires ArrayHolds(h, base, memory, qs)
    ensures Releasable(h, base, memory, |qs|)
  {
  }

  /**
   * Any error leaves the heap as it was on entry. Success leaves, besides the heap on
   * entry, exactly an array that decodes to the normalized parameters and its strings.
   */
  method EncodeTypedParameters(heap: Heap, api: Helpers, params: seq<TypedParameter>) returns (r: Result<Encoded>)
    requires heap.Valid()
    modifies heap
    ensures heap.Valid() && heap.failures >= old(heap.failures)
    ensures r.Err? ==> heap.blocks == old(heap.blocks)
    ensures |params| > 0x7fff_ffff ==> r == Err(TooMany)
    ensures |params| <= 0x7fff_ffff && NormalizeAll(params).Err? ==> r == Err(NormalizeAll(params).error)
    ensures |params| <= 0x7fff_ffff && NormalizeAll(params).Ok? && r.Err? ==>
              params != [] && heap.failures > old(heap.failures) &&
              r.error == if api.Native() then Native else Allocation
    ensures r.Ok? ==> NormalizeAll(params).Ok? && r.value.count == |params|
    ensures r.Ok? ==> ArrayHolds(heap.blocks, old(heap.blocks), r.value.memory, NormalizeAll(params).value)
    ensures r.Ok? ==> CArray(heap.blocks, r.value.memory, NormalizeAll(params).value)
  {
    if |params| > 0x7fff_ffff {
      return Err(TooMany);
    }
    var normalized := NormalizeParameters(params);
    if normalized.Err? {
      return Err(normalized.error);
    }
    if |params| == 0 {
      return Ok(Encoded(NULL, 0));
    }
    if api.Native() {
      r := EncodeNative(heap, api, normalized.value);
    } else {
      r := EncodeCompatible(heap, api, normalized.value);
    }
    if r.Ok? {
      HoldsLayout(heap.blocks, old(heap.blocks), r.value.memory, normalized.value);
    }
  }

  lemma HoldsLayout(h: Blocks, base: Blocks, memory: Addr, qs: seq<TypedParameter>)
    requires ArrayHolds(h, base, memory, qs)
    ensures CArray(h, memory, qs)
  {
    if memory != NULL {
      ArrayLayout(h, memory, qs);
    }
  }

  lemma ZeroedRecords(params: Bytes, n: nat)
    requires params == Zeros(n * RECORD_SIZE)
    ensures forall j | 0 <= j < n :: RecordAt(params, j) == Zeros(RECORD_SIZE)
  {
  }
}
