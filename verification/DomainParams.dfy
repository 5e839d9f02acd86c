/** Reading typed parameters back, and the getters and setters built on the marshaller. */
module DomainParams {
  import opened Bytes
  import opened CHeap
  import opened TypedParams
  import opened ParamArrays
  import opened CLayout
  import opened Marshaller

  /** copyCString reads up to the NUL and never past it. */
  method CopyCString(heap: Heap, p: Addr) returns (s: Bytes)
    requires p != NULL ==> Terminated(heap.blocks, p)
    ensures s == CString(heap.blocks, p)
  {
    if p == NULL {
      return [];
    }
    var length := 0;
    while heap.blocks[p][length] != NUL
      invariant length <= IndexNul(heap.blocks[p]) < |heap.blocks[p]|
      decreases |heap.blocks[p]| - length
    {
      length := length + 1;
    }
    s := heap.blocks[p][..length];
  }

  /** The records a decoder may be given: inside the allocation, with readable strings. */
  ghost predicate Decodable(h: Blocks, memory: Addr, count: nat) {
    count > 0 ==> InBounds(h, memory, count) && AllReadable(h, Cells(h[memory], count))
  }

  function DecodeArray(h: Blocks, memory: Addr, count: nat): Result<seq<TypedParameter>>
    requires Decodable(h, memory, count)
  {
    if count == 0 then Ok([]) else DecodeAll(h, Cells(h[memory], count))
  }

  lemma {:induction false} DecodeAllPrefix(h: Blocks, cells: seq<Cell>, i: nat)
    requires AllReadable(h, cells) && i <= |cells| && DecodeAll(h, cells[..i]).Err?
    ensures DecodeAll(h, cells) == DecodeAll(h, cells[..i])
  {
    if i < |cells| {
      assert cells[..|cells| - 1][..i] == cells[..i];
      DecodeAllPrefix(h, cells[..|cells| - 1], i);
    } else {
      assert cells[..i] == cells;
    }
  }

  method DecodeTypedParameters(heap: Heap, memory: Addr, count: i32) returns (r: Result<seq<TypedParameter>>)
    requires count > 0 ==> Decodable(heap.blocks, memory, count)
    ensures r == if count < 0 then Err(NegativeCount) else DecodeArray(heap.blocks, memory, count)
  {
    hide ReadCell, Decode, OwnsString;
    if count < 0 {
      return Err(NegativeCount);
    }
    if count == 0 {
      return Ok([]);
    }
    var result: seq<TypedParameter> := [];
    ghost var h := heap.blocks;
    ghost var cells := Cells(h[memory], count);
    for i := 0 to count
      invariant DecodeAll(h, cells[..i]) == Ok(result)
    {
      CellsAt(h[memory], count, i);
      assert Readable(h, cells[i]);
      assert cells[..i + 1][..i] == cells[..i];
      var param := Decode(heap.blocks, ReadCell(RecordAt(heap.blocks[memory], i)));
      if param.Err? {
        DecodeAllPrefix(h, cells, i + 1);
        return Err(param.error);
      }
      result := result + [param.value];
    }
    assert cells[..count] == cells;
    r := Ok(result);
  }

  /** An array that holds qs decodes to qs and can be released. */
  lemma ArrayDecodes(h: Blocks, base: Blocks, memory: Addr, qs: seq<TypedParameter>)
    requires ArrayHolds(h, base, memory, qs)
    ensures Releasable(h, base, memory, |qs|)
    ensures Decodable(h, memory, |qs|) && DecodeArray(h, memory, |qs|) == Ok(qs)
  {
    if memory != NULL && qs == [] {
      assert Cells(h[memory], 0) == [];
    }
  }

  /**
   * What a getter returns is a fixpoint of normalization when libvirt's fields are
   * non-empty and terminated, so setting it again encodes the very same list.
   */
  lemma {:induction false} FetchedNormalizes(h: Blocks, params: Bytes, n: nat)
    requires RECORD_SIZE * n <= |params| && AllReadable(h, Cells(params, n)) && DecodeAll(h, Cells(params, n)).Ok?
    requires forall i | 0 <= i < n :: RecordAt(params, i)[0] != NUL && NUL in RecordAt(params, i)[..FIELD_LENGTH]
    ensures NormalizeAll(DecodeAll(h, Cells(params, n)).value) == DecodeAll(h, Cells(params, n))
  {
    hide ReadCell, Decode, OwnsString, Normalize;
    if n == 0 {
    } else {
      var cells := Cells(params, n);
      assert Readable(h, cells[n - 1]);
      assert cells[..n - 1] == Cells(params, n - 1);
      DecodedIsCanonical(h, RecordAt(params, n - 1));
      FetchedNormalizes(h, params, n - 1);
    }
  }

  // ----- libvirt, and what it was asked -----

  // How a call on a domain ended: its handle was found closed and libvirt was not asked, or
  // libvirt failed, or it did as asked.
  datatype Answer = HandleClosed | Failed | Done

  // The calls made on a domain, a closed one included, each with the heap that libvirt left or
  // was to be given.
  datatype Event =
    | SizeAsked(answer: Answer, size: i32)
    | Fetched(answer: Answer, blocks: Blocks, memory: Addr, room: nat, count: i32)
    | Handed(answer: Answer, blocks: Blocks, memory: Addr, length: nat)
    | JobAsked(answer: Answer, blocks: Blocks, jobType: i32, memory: Addr, count: i32)

  function Failure(answer: Answer): Error
    requires !answer.Done?
  {
    if answer.HandleClosed? then Closed else Native
  }

  /** libvirt filling in zeroed records of its choice, from the first one on, until it stops or memory is refused. */
  method FillRecords(heap: Heap, memory: Addr, n: nat, ghost base: Blocks)
    requires heap.Valid() && memory != NULL && memory in heap.blocks && heap.blocks[memory] == Zeros(n * RECORD_SIZE)
    requires memory !in base && heap.blocks == base[memory := heap.blocks[memory]]
    modifies heap
    ensures heap.Valid() && Releasable(heap.blocks, base, memory, n)
  {
    hide ReadCell;
    NewArray(heap.blocks, base, memory);
    ZeroedRecords(heap.blocks[memory], n);
    ghost var qs: seq<TypedParameter> := [];
    var i := 0;
    while i < n
      invariant heap.Valid() && i <= n && memory in heap.blocks
      invariant |qs| == i && ArrayHolds(heap.blocks, base, memory, qs)
      invariant |heap.blocks[memory]| == RECORD_SIZE * n
      invariant forall j | i <= j < n :: RecordAt(heap.blocks[memory], j) == Zeros(RECORD_SIZE)
    {
      if * {
        break;
      }
      assert Canonical(TypedParameter("a", TYPE_BOOLEAN, Bool(true)));
      var q :| Canonical(q);
      var ok := StoreRecord(heap, memory, i, n, q, base, qs);
      if !ok {
        return;
      }
      qs := qs + [q];
      i := i + 1;
    }
    PartlyFilled(heap.blocks, base, memory, i, n);
  }

  /** A domain as libvirt serves it. Callers rely on the contracts only; the log is written nowhere else. */
  class Domain {
    ghost var log: seq<Event>

    constructor ()
      ensures log == []
    {
      log := [];
    }

    /** A getter asked without an array, for the number of its parameters. */
    method AskSize() returns (answer: Answer, size: i32)
      modifies this
      ensures log == old(log) + [SizeAsked(answer, size)]
    {
      answer, size := *, *;
      log := log + [SizeAsked(answer, size)];
    }

    /**
     * A getter filling an array of n zeroed records: whatever it reports and wherever it stops,
     * the n records own what they point to. A closed handle leaves the array alone.
     */
    method Fetch(heap: Heap, memory: Addr, n: nat, ghost base: Blocks) returns (answer: Answer, count: i32)
      requires heap.Valid() && memory != NULL && memory in heap.blocks && heap.blocks[memory] == Zeros(n * RECORD_SIZE)
      requires memory !in base && heap.blocks == base[memory := heap.blocks[memory]]
      modifies this, heap
      ensures heap.Valid() && Releasable(heap.blocks, base, memory, n)
      ensures answer.HandleClosed? ==> heap.blocks == old(heap.blocks)
      ensures log == old(log) + [Fetched(answer, heap.blocks, memory, n, count)]
    {
      answer, count := *, *;
      if answer.HandleClosed? {
        NewArray(heap.blocks, base, memory);
        ZeroedRecords(heap.blocks[memory], n);
        PartlyFilled(heap.blocks, base, memory, 0, n);
      } else {
        FillRecords(heap, memory, n, base);
      }
      log := log + [Fetched(answer, heap.blocks, memory, n, count)];
    }

    /** Job statistics come in an array that libvirt allocates and the caller then owns. */
    method AskJob(heap: Heap) returns (answer: Answer, jobType: i32, memory: Addr, count: i32)
      requires heap.Valid()
      modifies this, heap
      ensures heap.Valid()
      ensures if answer.Done? then Releasable(heap.blocks, old(heap.blocks), memory, if count < 0 then 0 else count)
              else heap.blocks == old(heap.blocks)
      ensures log == old(log) + [JobAsked(answer, heap.blocks, jobType, memory, count)]
    {
      answer, jobType, memory, count := *, *, NULL, *;
      if answer.Done? && count >= 0 {
        ghost var base := heap.blocks;
        memory := heap.Calloc(count, RECORD_SIZE);
        if memory != NULL {
          FillRecords(heap, memory, count, base);
        }
      }
      log := log + [JobAsked(answer, heap.blocks, jobType, memory, count)];
    }

    /** A setter given an array, which it only reads. */
    method Hand(heap: Heap, memory: Addr, count: nat) returns (answer: Answer)
      requires Decodable(heap.blocks, memory, count)
      modifies this
      ensures log == old(log) + [Handed(answer, heap.blocks, memory, count)]
    {
      answer := *;
      log := log + [Handed(answer, heap.blocks, memory, count)];
    }
  }

  // ----- Setters -----

  /** The event hands libvirt an array that has the normalized parameters, byte by byte, and decodes to them. */
  ghost predicate Hands(e: Event, params: seq<TypedParameter>) {
    e.Handed? && e.length == |params| && Decodable(e.blocks, e.memory, e.length)
    && DecodeArray(e.blocks, e.memory, e.length) == NormalizeAll(params)
    && NormalizeAll(params).Ok? && CArray(e.blocks, e.memory, NormalizeAll(params).value)
  }

  /** Why a list may not be handed over: the list itself, or memory was refused. */
  predicate NotEncoded(params: seq<TypedParameter>, refused: bool, e: Error) {
    if |params| > 0x7fff_ffff then e == TooMany
    else if NormalizeAll(params).Err? then e == NormalizeAll(params).error
    else params != [] && refused && e in {Allocation, Native}
  }

  /**
   * A setter: encode, hand the array to libvirt once, release. What libvirt reads there is the
   * normalized list, and its answer is the result.
   */
  method SetDomainTypedParameters(heap: Heap, api: Helpers, domain: Domain?, params: seq<TypedParameter>)
    returns (r: Result<()>)
    requires heap.Valid()
    modifies heap, domain
    ensures heap.Valid() && heap.blocks == old(heap.blocks)
    ensures domain == null ==> r == Err(Closed)
    ensures domain != null && domain.log == old(domain.log) ==>
      r.Err? && NotEncoded(params, heap.failures > old(heap.failures), r.error)
    ensures domain != null && domain.log != old(domain.log) ==>
      && |domain.log| == |old(domain.log)| + 1 && domain.log[..|old(domain.log)|] == old(domain.log)
      && var e := domain.log[|old(domain.log)|];
         Hands(e, params)
          && r == match e.answer case Done => Ok(()) case Failed => Err(Native) case HandleClosed => Err(Closed)
  {
    hide NormalizeAll, DecodeArray;
    if domain == null {
      return Err(Closed);
    }
    var encoded := EncodeTypedParameters(heap, api, params);
    if encoded.Err? {
      return Err(encoded.error);
    }
    var memory, count := encoded.value.memory, encoded.value.count;
    ArrayDecodes(heap.blocks, old(heap.blocks), memory, NormalizeAll(params).value);
    var answer := domain.Hand(heap, memory, count);
    FreeTypedParameters(heap, api, memory, count, old(heap.blocks));
    r := if answer.Done? then Ok(()) else Err(Failure(answer));
  }

  /**
   * Encode, hand over, decode the same array again, release: whichever helpers the library has, the array
   * decodes, for libvirt as for the binding, to the normalized list, in order and with duplicates,
   * and the heap comes back unchanged.
   */
  method RoundTrip(heap: Heap, api: Helpers, domain: Domain, params: seq<TypedParameter>)
    returns (r: Result<seq<TypedParameter>>)
    requires heap.Valid()
    modifies heap, domain
    ensures heap.Valid() && heap.blocks == old(heap.blocks)
    ensures domain.log == old(domain.log) ==> r.Err? && NotEncoded(params, heap.failures > old(heap.failures), r.error)
    ensures domain.log != old(domain.log) ==>
      && |domain.log| == |old(domain.log)| + 1 && domain.log[..|old(domain.log)|] == old(domain.log)
      && var e := domain.log[|old(domain.log)|];
         Hands(e, params) && r == DecodeArray(e.blocks, e.memory, e.length) == NormalizeAll(params)
  {
    hide NormalizeAll, DecodeArray;
    var encoded := EncodeTypedParameters(heap, api, params);
    if encoded.Err? {
      return Err(encoded.error);
    }
    var memory, count := encoded.value.memory, encoded.value.count;
    ArrayDecodes(heap.blocks, old(heap.blocks), memory, NormalizeAll(params).value);
    var _ := domain.Hand(heap, memory, count);
    r := DecodeTypedParameters(heap, memory, count);
    FreeTypedParameters(heap, api, memory, count, old(heap.blocks));
  }

  // ----- Getters -----

  /** An array filled so far, with a zeroed tail, can be released whole. */
  lemma PartlyFilled(h: Blocks, base: Blocks, memory: Addr, i: nat, n: nat)
    requires memory != NULL && i <= n && InBounds(h, memory, n) && Owns(h, base, memory, Cells(h[memory], i))
    requires forall j | i <= j < n :: RecordAt(h[memory], j) == Zeros(RECORD_SIZE)
    ensures Releasable(h, base, memory, n)
  {
    hide ReadCell, OwnsString;
    assert !OwnsString(ReadCell(Zeros(RECORD_SIZE))) by {
      ZerosOwnNothing();
    }
    var cells := Cells(h[memory], n);
    BlankTail(h[memory], i, n);
    ExtendBlank(h, base, memory, Cells(h[memory], i), cells[i..]);
    assert cells == cells[..i] + cells[i..];
  }

  lemma ZerosOwnNothing()
    ensures !OwnsString(ReadCell(Zeros(RECORD_SIZE)))
  {
    assert ValidField("a");
    BlankOwnsNothing(TypedParameter("a", TYPE_BOOLEAN, Bool(true)));
  }

  /** The result that one fetch into an array of n records gives. */
  ghost predicate FetchTells(n: i32, events: seq<Event>, r: Result<seq<TypedParameter>>) {
    if n < 0 then events == [] && r == Err(NegativeCount)
    else if events == [] then r == Err(Allocation)
    else
      && |events| == 1 && events[0].Fetched? && events[0].room == n
      && var e := events[0];
         match e.answer
         case HandleClosed => r == Err(Closed)
         case Failed => r == Err(Native)
         case Done =>
           if e.count < 0 || e.count > n then r == Err(CountChanged)
           else Decodable(e.blocks, e.memory, e.count) && r == DecodeArray(e.blocks, e.memory, e.count)
  }

  /** The result that the calls of a getter give: the size is asked first when the caller does not know it. */
  ghost predicate GetTells(count: i32, events: seq<Event>, r: Result<seq<TypedParameter>>) {
    if count != 0 then FetchTells(count, events, r)
    else
      && events != [] && events[0].SizeAsked?
      && match events[0].answer
         case HandleClosed => |events| == 1 && r == Err(Closed)
         case Failed => |events| == 1 && r == Err(Native)
         case Done =>
           if events[0].size == 0 then |events| == 1 && r == Ok([])
           else FetchTells(events[0].size, events[1..], r)
  }

  /**
   * A getter. count is the number of parameters the caller knows of, 0 for none. The result is what
   * libvirt answered: the array as it left it, decoded inside its allocation. Every exit restores the heap.
   */
  method GetDomainTypedParameters(heap: Heap, api: Helpers, domain: Domain, count: i32)
    returns (r: Result<seq<TypedParameter>>)
    requires heap.Valid()
    modifies heap, domain
    ensures heap.Valid() && heap.blocks == old(heap.blocks)
    ensures |old(domain.log)| <= |domain.log| && domain.log[..|old(domain.log)|] == old(domain.log)
    ensures GetTells(count, domain.log[|old(domain.log)|..], r)
    ensures r == Err(Allocation) && |domain.log| == |old(domain.log)| + (if count == 0 then 1 else 0) ==>
      heap.failures > old(heap.failures)
  {
    hide DecodeArray;
    ghost var before := domain.log;
    var n := count;
    if count == 0 {
      var answer, size := domain.AskSize();
      assert domain.log[|before|..] == [SizeAsked(answer, size)];
      if !answer.Done? {
        return Err(Failure(answer));
      }
      if size == 0 {
        return Ok([]);
      }
      n := size;
    }
    ghost var asked := domain.log;
    r := FetchTypedParameters(heap, api, domain, n);
    EventsJoin(domain.log, |before|, |asked|);
    assert count == 0 ==> domain.log[|before|..][1..] == domain.log[|asked|..];
  }

  lemma EventsJoin(log: seq<Event>, i: nat, j: nat)
    requires i <= j <= |log|
    ensures log[i..] == log[..j][i..] + log[j..] && log[..i] == log[..j][..i]
  {
  }

  /** Allocate, fetch, decode, release. */
  method FetchTypedParameters(heap: Heap, api: Helpers, domain: Domain, n: i32) returns (r: Result<seq<TypedParameter>>)
    requires heap.Valid()
    modifies heap, domain
    ensures heap.Valid() && heap.blocks == old(heap.blocks)
    ensures |old(domain.log)| <= |domain.log| && domain.log[..|old(domain.log)|] == old(domain.log)
    ensures FetchTells(n, domain.log[|old(domain.log)|..], r)
    ensures r == Err(Allocation) && domain.log == old(domain.log) ==> heap.failures > old(heap.failures)
  {
    hide DecodeArray, Releasable;
    ghost var base, before := heap.blocks, domain.log;
    if n < 0 {
      return Err(NegativeCount);
    }
    var records := heap.Calloc(n, RECORD_SIZE);
    if records == NULL {
      return Err(Allocation);
    }
    var allocatedCount := n;
    var answer, fetched := domain.Fetch(heap, records, allocatedCount, base);
    assert domain.log[|before|..] == [Fetched(answer, heap.blocks, records, n, fetched)];
    if !answer.Done? {
      r := Err(Failure(answer));
    } else if fetched < 0 || fetched > allocatedCount {
      r := Err(CountChanged);
    } else {
      ReadablePart(heap.blocks, base, records, fetched, allocatedCount);
      r := DecodeTypedParameters(heap, records, fetched);
    }
    FreeTypedParameters(heap, api, records, allocatedCount, base);
  }

  lemma ReadablePart(h: Blocks, base: Blocks, memory: Addr, i: nat, n: nat)
    requires memory != NULL && i <= n && Releasable(h, base, memory, n)
    ensures Decodable(h, memory, i)
  {
    hide ReadCell, OwnsString, Readable;
    forall j | 0 <= j < i ensures Readable(h, Cells(h[memory], i)[j]) {
      CellsAt(h[memory], i, j);
      CellsAt(h[memory], n, j);
      assert Readable(h, Cells(h[memory], n)[j]);
    }
  }
}
