/** Fetching domain statistics: libvirt's list of records, which the binding owns and releases. */
module StatsGetter {
  import opened Bytes
  import opened CHeap
  import opened TypedParams
  import opened ParamArrays
  import opened Marshaller
  import opened DomainParams
  import opened DomainStats
  import opened StatsDecoder

  // A record is its domain, the address of its parameters and their 32-bit count, padded.
  const STATS_RECORD_SIZE: nat := 24

  function ParamsOf(record: Bytes): Addr
    requires |record| == STATS_RECORD_SIZE
  {
    PointerAt(record, 8)
  }

  function CountOf(record: Bytes): i32
    requires |record| == STATS_RECORD_SIZE
  {
    FromLEBound(record[16..20]);
    Widths();
    Signed(FromLE(record[16..20]), 0x1_0000_0000)
  }

  /** The number of parameters a record can own. */
  function OwnedCount(record: Bytes): nat
    requires |record| == STATS_RECORD_SIZE
  {
    if CountOf(record) < 0 then 0 else CountOf(record)
  }

  /** A record of 24 bytes has the address of its parameters in bytes 8 to 15 and their count in bytes 16 to 19. */
  lemma RecordLayout(record: Bytes)
    requires |record| == 24
    ensures STATS_RECORD_SIZE == 24
    ensures ParamsOf(record) as int == FromLE(record[8..16])
    ensures (CountOf(record) - FromLE(record[16..20])) % 0x1_0000_0000 == 0
    ensures if CountOf(record) < 0 then OwnedCount(record) == 0 else OwnedCount(record) == CountOf(record)
  {
    FromLEBound(record[16..20]);
    Widths();
    assert record[8..8 + POINTER_SIZE] == record[8..16];
  }

  /** The heap is base and one record with everything it owns. */
  ghost predicate RecordOn(h: Blocks, base: Blocks, r: Addr) {
    && r != NULL && r !in base && r in h && |h[r]| == STATS_RECORD_SIZE
    && Releasable(h, base[r := h[r]], ParamsOf(h[r]), OwnedCount(h[r]))
  }

  /** heaps are the heaps with the first records only; the list block itself comes last. */
  ghost predicate ListOn(h: Blocks, base: Blocks, list: Addr, records: seq<Addr>, heaps: seq<Blocks>) {
    && |heaps| == |records| + 1 && heaps[0] == base && NULL !in base
    && (forall i | 0 <= i < |records| :: RecordOn(heaps[i + 1], heaps[i], records[i]))
    && list != NULL && list !in heaps[|records|] && list in h && h == heaps[|records|][list := h[list]]
    && |h[list]| == POINTER_SIZE * (|records| + 1)
    && (forall i | 0 <= i < |records| :: PointerAt(h[list], POINTER_SIZE * i) == records[i])
    && PointerAt(h[list], POINTER_SIZE * |records|) == NULL
  }

  ghost predicate Includes(h: Blocks, h': Blocks) {
    forall a | a in h :: a in h' && h'[a] == h[a]
  }

  lemma {:induction false} HeapsGrow(h: Blocks, base: Blocks, list: Addr, records: seq<Addr>, heaps: seq<Blocks>,
                                     i: nat)
    requires ListOn(h, base, list, records, heaps) && i <= |records|
    ensures Includes(heaps[i], h)
    decreases |records| - i
  {
    hide ReadCell;
    if i == |records| {
    } else {
      HeapsGrow(h, base, list, records, heaps, i + 1);
      assert RecordOn(heaps[i + 1], heaps[i], records[i]);
    }
  }

  /** virDomainStatsRecordListFree: release every record with its parameters, and the list. */
  method FreeRecordList(heap: Heap, api: Helpers, list: Addr, ghost base: Blocks, ghost records: seq<Addr>,
                        ghost heaps: seq<Blocks>)
    requires heap.Valid()
    requires if list == NULL then heap.blocks == base else ListOn(heap.blocks, base, list, records, heaps)
    modifies heap
    ensures heap.Valid() && heap.blocks == base
  {
    hide ReadCell, PointerAt;
    if list == NULL {
      return;
    }
    var pointers := heap.blocks[list];
    var n := |pointers| / POINTER_SIZE - 1;
    heap.Free(list);
    assert heap.blocks == heaps[|records|];
    while n > 0
      invariant 0 <= n <= |records| && heap.Valid() && heap.blocks == heaps[n]
      invariant |pointers| == POINTER_SIZE * (|records| + 1)
      invariant forall i | 0 <= i < |records| :: PointerAt(pointers, POINTER_SIZE * i) == records[i]
    {
      n := n - 1;
      var r := PointerAt(pointers, POINTER_SIZE * n);
      assert r == records[n] && RecordOn(heaps[n + 1], heaps[n], r);
      var record := heap.blocks[r];
      FreeTypedParameters(heap, api, ParamsOf(record), OwnedCount(record), heaps[n][r := record]);
      heap.Free(r);
      assert heap.blocks == heaps[n];
    }
  }

  /** What GetStats returns for the parameters it decoded. */
  ghost predicate Reports(r: Result<DomainStats>, decoded: Result<seq<TypedParameter>>) {
    match decoded
    case Err(e) => r == Err(e)
    case Ok(ps) => r.Ok? && Describes(r.value, ps)
  }

  /** Parameters readable in one heap read the same in a larger one. */
  lemma DecodesAlike(h: Blocks, h': Blocks, memory: Addr, n: nat)
    requires Includes(h, h') && Decodable(h, memory, n)
    ensures Decodable(h', memory, n) && DecodeArray(h', memory, n) == DecodeArray(h, memory, n)
  {
    hide ReadCell;
    if n > 0 {
      assert forall i | 0 <= i < n :: Readable(h, Cells(h[memory], n)[i]);
      DecodeFrame(h, h', Cells(h[memory], n));
    }
  }

  /**
   * GetStats after libvirt answered with count and a list. Without the function that releases
   * lists libvirt is not asked. Every exit restores the heap around the answer.
   */
  method GetStats(heap: Heap, api: Helpers, releases: bool, count: i32, list: Addr,
                  ghost base: Blocks, ghost records: seq<Addr>, ghost heaps: seq<Blocks>)
    returns (r: Result<DomainStats>)
    requires heap.Valid()
    requires if !releases || count < 0 || list == NULL then heap.blocks == base
             else ListOn(heap.blocks, base, list, records, heaps)
    modifies heap
    ensures heap.Valid() && heap.blocks == base
    ensures !releases ==> r == Err(SymbolUnavailable)
    ensures releases && count < 0 ==> r == Err(Native)
    ensures releases && count >= 0 && (count != 1 || list == NULL) ==> r == Err(RecordCount)
    ensures releases && count == 1 && list != NULL && records == [] ==> r == Err(InvalidRecord)
    ensures releases && count == 1 && list != NULL && records != [] ==>
              var h := old(heap.blocks);
              && records[0] in h && |h[records[0]]| == STATS_RECORD_SIZE
              && var memory, n := ParamsOf(h[records[0]]), CountOf(h[records[0]]);
                 if n < 0 || (n > 0 && memory == NULL) then r == Err(InvalidRecord)
                 else Decodable(h, memory, n) && Reports(r, DecodeArray(h, memory, n))
  {
    hide ReadCell, PointerAt, Describes;
    if !releases {
      return Err(SymbolUnavailable);
    }
    if count < 0 {
      return Err(Native);
    }
    if count != 1 || list == NULL {
      FreeRecordList(heap, api, list, base, records, heaps);
      return Err(RecordCount);
    }
    var record := PointerAt(heap.blocks[list], 0);
    if records == [] {
      assert record == NULL;
    } else {
      FirstRecord(heap.blocks, base, list, records, heaps);
    }
    if record == NULL {
      r := Err(InvalidRecord);
    } else {
      var memory, n := ParamsOf(heap.blocks[record]), CountOf(heap.blocks[record]);
      if n < 0 || (n > 0 && memory == NULL) {
        r := Err(InvalidRecord);
      } else {
        r := DecodeDomainStats(heap, memory, n);
      }
    }
    FreeRecordList(heap, api, list, base, records, heaps);
  }

  /** The first record of a list can be decoded inside its allocations. */
  lemma FirstRecord(h: Blocks, base: Blocks, list: Addr, records: seq<Addr>, heaps: seq<Blocks>)
    requires ListOn(h, base, list, records, heaps) && records != []
    ensures PointerAt(h[list], 0) == records[0] && records[0] in h && |h[records[0]]| == STATS_RECORD_SIZE
    ensures var memory, n := ParamsOf(h[records[0]]), CountOf(h[records[0]]);
      n >= 0 && (n > 0 ==> memory != NULL) ==> Decodable(h, memory, n)
  {
    hide ReadCell, PointerAt;
    assert PointerAt(h[list], POINTER_SIZE * 0) == records[0];
    HeapsGrow(h, base, list, records, heaps, 1);
    var h1, r := heaps[1], records[0];
    assert RecordOn(h1, heaps[0], r);
    var memory, n := ParamsOf(h[r]), CountOf(h[r]);
    if n > 0 && memory != NULL {
      ReadablePart(h1, base[r := h1[r]], memory, n, n);
      DecodesAlike(h1, h, memory, n);
    }
  }
}
