/** Domain job statistics: a fold over typed parameters in which the last occurrence of a field wins. */
module DomainJob {
  import opened Bytes
  import opened CHeap
  import opened TypedParams
  import opened Marshaller
  import opened DomainParams
  import opened Text

  // The uint64 fields, by libvirt's name for each.
  function JobCounters(): set<Bytes> {
    {"time_elapsed", "time_elapsed_net", "time_remaining", "downtime", "downtime_net", "setup_time",
     "data_total", "data_processed", "data_remaining",
     "memory_total", "memory_processed", "memory_remaining", "memory_constant", "memory_normal", "memory_normal_bytes",
     "memory_bps", "memory_dirty_rate", "memory_page_size", "memory_iteration",
     "disk_total", "disk_processed", "disk_remaining", "disk_bps",
     "compression_cache", "compression_bytes", "compression_pages", "compression_cache_misses", "compression_overflow",
     "memory_postcopy_requests", "disk_temp_used", "disk_temp_total"}
  }

  const THROTTLE: Bytes := "auto_converge_throttle"
  const OPERATION: Bytes := "operation"
  const SUCCESS: Bytes := "success"
  const ERRMSG: Bytes := "errmsg"

  // A counter is in the map, and another field is Some, when its Set flag is true.
  datatype JobInfo = JobInfo(
    jobType: i32, counters: map<Bytes, u64>, throttle: Option<i32>, operation: Option<i32>,
    success: Option<bool>, error: Option<Bytes>, parameters: seq<TypedParameter>)

  /** decodeDomainJobParameter; None is its type error. */
  function DecodeJobParameter(stats: JobInfo, p: TypedParameter): Option<JobInfo> {
    if p.field in JobCounters() then
      if p.value.UInt64? then Some(stats.(counters := stats.counters[p.field := p.value.uint64])) else None
    else if p.field == THROTTLE then
      if p.value.Int32? then Some(stats.(throttle := Some(p.value.int32))) else None
    else if p.field == OPERATION then
      if p.value.Int32? then Some(stats.(operation := Some(p.value.int32))) else None
    else if p.field == SUCCESS then
      if p.value.Bool? then Some(stats.(success := Some(p.value.truth))) else None
    else if p.field == ERRMSG then
      if p.value.String? then Some(stats.(error := Some(p.value.text))) else None
    else Some(stats)
  }

  // ----- The reading -----

  function LastOf(ps: seq<TypedParameter>, field: Bytes): Option<Value> {
    if ps == [] then None
    else if ps[|ps| - 1].field == field then Some(ps[|ps| - 1].value)
    else LastOf(ps[..|ps| - 1], field)
  }

  /** A recognised field must carry its own type; other fields may carry anything. */
  predicate WellTyped(p: TypedParameter) {
    && (p.field in JobCounters() ==> p.value.UInt64?)
    && (p.field in {THROTTLE, OPERATION} ==> p.value.Int32?)
    && (p.field == SUCCESS ==> p.value.Bool?)
    && (p.field == ERRMSG ==> p.value.String?)
  }

  /** Each Set flag holds iff the field occurs, and the value is that of its last occurrence. */
  ghost predicate Tells(info: JobInfo, ps: seq<TypedParameter>) {
    TellsCounters(info, ps) && TellsOthers(info, ps)
  }

  ghost predicate TellsCounters(info: JobInfo, ps: seq<TypedParameter>) {
    && (forall n :: n in info.counters <==> n in JobCounters() && LastOf(ps, n).Some?)
    && (forall n | n in info.counters :: LastOf(ps, n) == Some(UInt64(info.counters[n])))
  }

  predicate TellsOthers(info: JobInfo, ps: seq<TypedParameter>) {
    && LastOf(ps, THROTTLE) == (if info.throttle.Some? then Some(Int32(info.throttle.value)) else None)
    && LastOf(ps, OPERATION) == (if info.operation.Some? then Some(Int32(info.operation.value)) else None)
    && LastOf(ps, SUCCESS) == (if info.success.Some? then Some(Bool(info.success.value)) else None)
    && LastOf(ps, ERRMSG) == (if info.error.Some? then Some(String(info.error.value)) else None)
  }

  // ----- The names -----

  /** Every number of each kind has its counter. */
  lemma TimeCounters()
    ensures forall what | what in {"elapsed", "elapsed_net", "remaining"} ::
      "time_" + what in JobCounters()
  {
    assert "time_" + "elapsed" == "time_elapsed";
    assert "time_" + "elapsed_net" == "time_elapsed_net";
    assert "time_" + "remaining" == "time_remaining";
  }

  lemma DataCounters()
    ensures forall what | what in {"total", "processed", "remaining"} ::
      "data_" + what in JobCounters()
  {
    assert "data_" + "total" == "data_total";
    assert "data_" + "processed" == "data_processed";
    assert "data_" + "remaining" == "data_remaining";
  }

  lemma MemoryCounters()
    ensures forall what | what in {"total", "processed", "remaining", "constant", "normal", "normal_bytes"} ::
      "memory_" + what in JobCounters()
  {
    assert "memory_" + "total" == "memory_total";
    assert "memory_" + "processed" == "memory_processed";
    assert "memory_" + "remaining" == "memory_remaining";
    assert "memory_" + "constant" == "memory_constant";
    assert "memory_" + "normal" == "memory_normal";
    assert "memory_" + "normal_bytes" == "memory_normal_bytes";
  }

  lemma PageCounters()
    ensures "memory_bps" in JobCounters() && "memory_dirty_rate" in JobCounters()
    ensures "memory_page_size" in JobCounters() && "memory_iteration" in JobCounters()
    ensures "memory_postcopy_requests" in JobCounters()
  {
  }

  lemma DiskCounters()
    ensures forall what | what in {"total", "processed", "remaining", "bps", "temp_used", "temp_total"} ::
      "disk_" + what in JobCounters()
  {
    assert "disk_" + "total" == "disk_total";
    assert "disk_" + "processed" == "disk_processed";
    assert "disk_" + "remaining" == "disk_remaining";
    assert "disk_" + "bps" == "disk_bps";
    assert "disk_" + "temp_used" == "disk_temp_used";
    assert "disk_" + "temp_total" == "disk_temp_total";
  }

  lemma CompressionCounters()
    ensures forall what | what in {"cache", "bytes", "pages", "cache_misses", "overflow"} ::
      "compression_" + what in JobCounters()
  {
    assert "compression_" + "cache" == "compression_cache";
    assert "compression_" + "bytes" == "compression_bytes";
    assert "compression_" + "pages" == "compression_pages";
    assert "compression_" + "cache_misses" == "compression_cache_misses";
    assert "compression_" + "overflow" == "compression_overflow";
  }

  lemma DowntimeCounters()
    ensures forall what: Bytes | what in {"down", "setup_"} :: what + "time" in JobCounters()
    ensures "downtime" + "_net" in JobCounters()
  {
    assert "down" + "time" == "downtime" && "setup_" + "time" == "setup_time";
    assert "downtime" + "_net" == "downtime_net";
  }

  /** The other flags, field by field. */
  lemma OthersTell(info: JobInfo, ps: seq<TypedParameter>)
    requires TellsOthers(info, ps)
    ensures forall v: i32 :: info.throttle == Some(v) <==> LastOf(ps, "auto_converge_throttle") == Some(Int32(v))
    ensures forall v: i32 :: info.operation == Some(v) <==> LastOf(ps, "operation") == Some(Int32(v))
    ensures forall v :: info.success == Some(v) <==> LastOf(ps, "success") == Some(Bool(v))
    ensures forall v :: info.error == Some(v) <==> LastOf(ps, "errmsg") == Some(String(v))
  {
  }

  /** The special fields are distinct and none is a counter. */
  lemma SpecialNames()
    ensures THROTTLE !in JobCounters() && OPERATION !in JobCounters()
    ensures SUCCESS !in JobCounters() && ERRMSG !in JobCounters()
    ensures THROTTLE != OPERATION && THROTTLE != SUCCESS && THROTTLE != ERRMSG
    ensures OPERATION != SUCCESS && OPERATION != ERRMSG && SUCCESS != ERRMSG
  {
    assert forall n | n in JobCounters() :: n[0] != 'a' && n[0] != 'o' && n[0] != 'e';
    assert forall n | n in JobCounters() :: n[1] != 'u';
    assert THROTTLE[0] == 'a' && OPERATION[0] == 'o' && SUCCESS[1] == 'u' && ERRMSG[0] == 'e';
  }

  lemma LastOfStep(ps: seq<TypedParameter>, p: TypedParameter)
    ensures forall n :: LastOf(ps + [p], n) == if p.field == n then Some(p.value) else LastOf(ps, n)
  {
    assert (ps + [p])[..|ps|] == ps;
  }

  /** The type error, and what a parameter never touches. */
  lemma StepTyped(stats: JobInfo, p: TypedParameter)
    ensures DecodeJobParameter(stats, p).Some? <==> WellTyped(p)
    ensures WellTyped(p) ==> DecodeJobParameter(stats, p).value.jobType == stats.jobType
    ensures WellTyped(p) ==> DecodeJobParameter(stats, p).value.parameters == stats.parameters
  {
    hide JobCounters;
    SpecialNames();
  }

  lemma StepTells(stats: JobInfo, ps: seq<TypedParameter>, p: TypedParameter)
    requires Tells(stats, ps) && DecodeJobParameter(stats, p).Some?
    ensures Tells(DecodeJobParameter(stats, p).value, ps + [p])
  {
    hide TellsCounters, TellsOthers;
    StepTellsCounters(stats, ps, p);
    StepTellsOthers(stats, ps, p);
  }

  lemma StepTellsCounters(stats: JobInfo, ps: seq<TypedParameter>, p: TypedParameter)
    requires TellsCounters(stats, ps) && DecodeJobParameter(stats, p).Some?
    ensures TellsCounters(DecodeJobParameter(stats, p).value, ps + [p])
  {
    hide JobCounters, LastOf;
    LastOfStep(ps, p);
  }

  lemma StepTellsOthers(stats: JobInfo, ps: seq<TypedParameter>, p: TypedParameter)
    requires TellsOthers(stats, ps) && DecodeJobParameter(stats, p).Some?
    ensures TellsOthers(DecodeJobParameter(stats, p).value, ps + [p])
  {
    hide JobCounters, LastOf;
    SpecialNames();
    LastOfStep(ps, p);
  }

  /**
   * Fails iff some recognised field carries the wrong type. Otherwise the result tells
   * the last occurrence of each field and keeps the parameters; unknown fields only
   * appear there.
   */
  method JobInfoFromParameters(jobType: i32, parameters: seq<TypedParameter>) returns (r: Option<JobInfo>)
    ensures r.Some? <==> forall p | p in parameters :: WellTyped(p)
    ensures r.Some? ==> Tells(r.value, parameters)
    ensures r.Some? ==> r.value.jobType == jobType && r.value.parameters == parameters
  {
    hide JobCounters, WellTyped, DecodeJobParameter;
    var stats := JobInfo(jobType, map[], None, None, None, None, parameters);
    for i := 0 to |parameters|
      invariant Tells(stats, parameters[..i])
      invariant forall p | p in parameters[..i] :: WellTyped(p)
      invariant stats.jobType == jobType && stats.parameters == parameters
    {
      assert parameters[..i + 1] == parameters[..i] + [parameters[i]];
      StepTyped(stats, parameters[i]);
      var next := DecodeJobParameter(stats, parameters[i]);
      if next.None? {
        assert parameters[i] in parameters;
        return None;
      }
      StepTells(stats, parameters[..i], parameters[i]);
      stats := next.value;
    }
    assert parameters[..|parameters|] == parameters;
    r := Some(stats);
  }

  /** The result is determined by the parameters. */
  lemma TellsUnique(a: JobInfo, b: JobInfo, ps: seq<TypedParameter>)
    requires Tells(a, ps) && Tells(b, ps) && a.jobType == b.jobType && a.parameters == b.parameters
    ensures a == b
  {
    hide JobCounters, LastOf;
    assert a.counters.Keys == b.counters.Keys;
    forall n | n in a.counters ensures a.counters[n] == b.counters[n] {
      assert LastOf(ps, n) == Some(UInt64(a.counters[n])) == Some(UInt64(b.counters[n]));
    }
  }

  /** The result that libvirt's answer gives. */
  ghost predicate JobTells(e: Event, r: Result<JobInfo>)
    requires e.JobAsked?
  {
    if e.answer == HandleClosed then r == Err(Closed)
    else if e.answer == Failed then r == Err(Native)
    else if e.count > 0 && e.memory == NULL then r == Err(InvalidRecord)
    else if e.count < 0 then r == Err(NegativeCount)
    else
      && Decodable(e.blocks, e.memory, e.count)
      && match DecodeArray(e.blocks, e.memory, e.count)
         case Err(error) => r == Err(error)
         case Ok(ps) =>
           if exists p | p in ps :: !WellTyped(p) then r == Err(WrongValue)
           else r.Ok? && Tells(r.value, ps) && r.value.jobType == e.jobType && r.value.parameters == ps
  }

  /**
   * GetJobStats: libvirt is asked once, and the array it answered with is decoded inside its allocation
   * and released once, whatever the decoding says.
   */
  method GetJobStats(heap: Heap, api: Helpers, domain: Domain) returns (r: Result<JobInfo>)
    requires heap.Valid()
    modifies heap, domain
    ensures heap.Valid() && heap.blocks == old(heap.blocks)
    ensures |domain.log| == |old(domain.log)| + 1 && domain.log[..|old(domain.log)|] == old(domain.log)
    ensures domain.log[|old(domain.log)|].JobAsked? && JobTells(domain.log[|old(domain.log)|], r)
  {
    hide ReadCell, Decode, DecodeArray, WellTyped, Tells, Releasable;
    ghost var base := heap.blocks;
    var answer, jobType, memory, count := domain.AskJob(heap);
    if !answer.Done? {
      return Err(Failure(answer));
    }
    if count > 0 && memory == NULL {
      NothingOwned(heap.blocks, base, count);
      return Err(InvalidRecord);
    }
    if count > 0 {
      ReadablePart(heap.blocks, base, memory, count, count);
    }
    var parameters := DecodeTypedParameters(heap, memory, count);
    FreeTypedParameters(heap, api, memory, if count < 0 then 0 else count, base);
    if parameters.Err? {
      return Err(parameters.error);
    }
    var info := JobInfoFromParameters(jobType, parameters.value);
    r := if info.Some? then Ok(info.value) else Err(WrongValue);
  }

  lemma NothingOwned(h: Blocks, base: Blocks, n: nat)
    requires Releasable(h, base, NULL, n)
    ensures h == base
  {
  }
}
