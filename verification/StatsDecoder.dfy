/** The statistics decoder, against a keyed last-write reading of the parameter list. */
module StatsDecoder {
  import opened Bytes
  import opened CHeap
  import opened TypedParams
  import opened ParamArrays
  import opened DomainParams
  import opened Text
  import opened DomainStats
  import opened Sorting

  type Params = seq<TypedParameter>

  // ----- The reading: what each key was last told -----

  function Last(ps: Params, k: Key): Counter {
    if ps == [] then UNSET
    else
      var p := ps[|ps| - 1];
      if KeyOf(p.field) == k then CounterOf(p.value) else Last(ps[..|ps| - 1], k)
  }

  /** State fields keep the last available write instead. */
  function LastState(ps: Params, name: Bytes): Option<i32> {
    if ps == [] then None
    else
      var p := ps[|ps| - 1];
      if KeyOf(p.field) == StateKey(name) && CounterOf(p.value).present then Some(Truncate(CounterOf(p.value).value))
      else LastState(ps[..|ps| - 1], name)
  }

  /** Names keep the last string write. */
  function LastName(ps: Params, k: Key): Option<Bytes> {
    if ps == [] then None
    else
      var p := ps[|ps| - 1];
      if KeyOf(p.field) == k && p.value.String? then Some(p.value.text) else LastName(ps[..|ps| - 1], k)
  }

  predicate StateSeen(ps: Params) {
    exists p | p in ps :: KeyOf(p.field).StateKey? && CounterOf(p.value).present
  }

  predicate CpuSeen(ps: Params) {
    exists p | p in ps :: KeyOf(p.field).CpuKey?
  }

  predicate BalloonSeen(ps: Params) {
    exists p | p in ps :: KeyOf(p.field).BalloonKey?
  }

  predicate DeviceSeen(ps: Params, net: bool, index: nat) {
    exists p | p in ps :: KeyOf(p.field).DeviceKey? && KeyOf(p.field).net == net && KeyOf(p.field).index == index
  }

  function StateOf(ps: Params): Option<StateStats> {
    if StateSeen(ps) then Some(StateStats(LastState(ps, STATE_STATE), LastState(ps, STATE_REASON))) else None
  }

  function CpuValues(ps: Params): Counters {
    map n | n in CpuCounters() :: Last(ps, CpuKey(n))
  }

  function CpuOf(ps: Params): Option<Counters> {
    if CpuSeen(ps) then Some(CpuValues(ps)) else None
  }

  function VcpuOf(ps: Params): Counters {
    map n | n in VcpuCounters() :: Last(ps, VcpuKey(n))
  }

  function BalloonValues(ps: Params): Counters {
    map n | n in BalloonCounters() :: Last(ps, BalloonKey(n))
  }

  function BalloonOf(ps: Params): Option<Counters> {
    if BalloonSeen(ps) then Some(BalloonValues(ps)) else None
  }

  function DeviceOf(ps: Params, net: bool, index: nat): Device {
    Device(index, LastName(ps, DeviceKey(net, index, NAME)),
           map s | s in DeviceCounters(net) :: Last(ps, DeviceKey(net, index, s)))
  }

  predicate ByIndex(a: Device, b: Device) {
    a.index < b.index
  }

  /** One entry for each index seen, none for gaps, in increasing order, each with its last writes. */
  ghost predicate DevicesOf(ps: Params, net: bool, ds: seq<Device>) {
    && StrictlyIncreasing(ds, ByIndex)
    && (forall d | d in ds :: DeviceSeen(ps, net, d.index) && d == DeviceOf(ps, net, d.index))
    && (forall i: nat | DeviceSeen(ps, net, i) :: DeviceOf(ps, net, i) in ds)
  }

  /** The statistics say exactly what the parameters say. */
  ghost predicate Describes(r: DomainStats, ps: Params) {
    && r.state == StateOf(ps) && r.cpu == CpuOf(ps) && r.vcpu == VcpuOf(ps) && r.balloon == BalloonOf(ps)
    && DevicesOf(ps, false, r.block) && DevicesOf(ps, true, r.net)
  }

  /** At most one result describes a list, so neither the maps nor the sort can be seen in it. */
  lemma DescribesUnique(r: DomainStats, r': DomainStats, ps: Params)
    requires Describes(r, ps) && Describes(r', ps)
    ensures r == r'
  {
    IncreasingUnique(r.block, r'.block, ByIndex);
    IncreasingUnique(r.net, r'.net, ByIndex);
  }

  /** Last is the last write: an index that addresses k and is followed by none. */
  lemma {:induction false} LastWriteWins(ps: Params, k: Key, i: nat)
    requires i < |ps| && KeyOf(ps[i].field) == k
    requires forall j | i < j < |ps| :: KeyOf(ps[j].field) != k
    ensures Last(ps, k) == CounterOf(ps[i].value)
  {
    hide KeyOf, CounterOf;
    if i == |ps| - 1 {
    } else {
      LastWriteWins(ps[..|ps| - 1], k, i);
    }
  }

  /** A state field keeps its last available write: the unavailable ones after it are skipped. */
  lemma {:induction false} LastAvailableWins(ps: Params, name: Bytes, i: nat)
    requires i < |ps| && KeyOf(ps[i].field) == StateKey(name) && CounterOf(ps[i].value).present
    requires forall j | i < j < |ps| :: KeyOf(ps[j].field) != StateKey(name) || !CounterOf(ps[j].value).present
    ensures LastState(ps, name) == Some(Truncate(CounterOf(ps[i].value).value))
  {
    hide KeyOf, CounterOf, Truncate;
    if i == |ps| - 1 {
    } else {
      LastAvailableWins(ps[..|ps| - 1], name, i);
    }
  }

  /** A name keeps its last string write. */
  lemma {:induction false} LastStringWins(ps: Params, k: Key, i: nat)
    requires i < |ps| && KeyOf(ps[i].field) == k && ps[i].value.String?
    requires forall j | i < j < |ps| :: KeyOf(ps[j].field) != k || !ps[j].value.String?
    ensures LastName(ps, k) == Some(ps[i].value.text)
  {
    hide KeyOf;
    if i == |ps| - 1 {
    } else {
      LastStringWins(ps[..|ps| - 1], k, i);
    }
  }

  /** Without such a write they are unset. */
  lemma {:induction false} NeverWritten(ps: Params, k: Key)
    ensures (forall p | p in ps :: KeyOf(p.field) != k) ==> Last(ps, k) == UNSET
    ensures (forall p | p in ps :: KeyOf(p.field) != k || !p.value.String?) <==> LastName(ps, k) == None
    ensures k.StateKey? ==>
      ((forall p | p in ps :: KeyOf(p.field) != k || !CounterOf(p.value).present) <==> LastState(ps, k.name) == None)
  {
    hide KeyOf, CounterOf, Truncate;
    if ps == [] {
    } else {
      var p := ps[|ps| - 1];
      assert p in ps && ps == ps[..|ps| - 1] + [p];
      NeverWritten(ps[..|ps| - 1], k);
    }
  }

  lemma {:induction false} UnsetReadsZero(ps: Params, k: Key)
    ensures Last(ps, k).present || Last(ps, k).value == 0
  {
    hide KeyOf;
    if ps == [] {
    } else {
      UnsetReadsZero(ps[..|ps| - 1], k);
    }
  }

  /** Every counter of the result whose flag is unset holds zero. */
  lemma UnsetHoldsZero(r: DomainStats, ps: Params)
    requires Describes(r, ps)
    ensures forall n | n in r.vcpu :: r.vcpu[n].present || r.vcpu[n].value == 0
    ensures r.cpu.Some? ==> forall n | n in r.cpu.value :: r.cpu.value[n].present || r.cpu.value[n].value == 0
    ensures r.balloon.Some? ==> forall n | n in r.balloon.value ::
      r.balloon.value[n].present || r.balloon.value[n].value == 0
    ensures forall d, n | d in r.block + r.net && n in d.counters :: d.counters[n].present || d.counters[n].value == 0
  {
    forall k ensures Last(ps, k).present || Last(ps, k).value == 0 {
      UnsetReadsZero(ps, k);
    }
    forall d, n | d in r.block + r.net && n in d.counters ensures d.counters[n].present || d.counters[n].value == 0 {
      if d in r.block {
        assert d == DeviceOf(ps, false, d.index);
      } else {
        assert d == DeviceOf(ps, true, d.index);
      }
    }
  }

  // ----- Order independence -----

  /** The parameters addressing key k, in order. */
  function OfKey(ps: Params, k: Key): Params {
    if ps == [] then []
    else
      var p := ps[|ps| - 1];
      OfKey(ps[..|ps| - 1], k) + if KeyOf(p.field) == k then [p] else []
  }

  lemma {:induction false} OfKeyDecides(ps: Params, k: Key)
    ensures Last(ps, k) == Last(OfKey(ps, k), k)
    ensures LastName(ps, k) == LastName(OfKey(ps, k), k)
    ensures k.StateKey? ==> LastState(ps, k.name) == LastState(OfKey(ps, k), k.name)
  {
    hide KeyOf, CounterOf, Truncate;
    if ps == [] {
    } else {
      OfKeyDecides(ps[..|ps| - 1], k);
      var p := ps[|ps| - 1];
      var of := OfKey(ps[..|ps| - 1], k);
      if KeyOf(p.field) == k {
        assert (of + [p])[..|of|] == of;
      } else {
        assert of + [] == of;
      }
    }
  }

  lemma {:induction false} OfKeyHas(ps: Params, k: Key)
    ensures forall p :: p in OfKey(ps, k) <==> p in ps && KeyOf(p.field) == k
  {
    hide KeyOf;
    if ps == [] {
    } else {
      OfKeyHas(ps[..|ps| - 1], k);
      assert ps == ps[..|ps| - 1] + [ps[|ps| - 1]];
    }
  }

  /** Lists that differ only in the order of parameters with different keys, and in keyless ones. */
  ghost predicate SamePerKey(ps: Params, qs: Params) {
    forall k | k != NoKey :: OfKey(ps, k) == OfKey(qs, k)
  }

  lemma SamePerKeySees(ps: Params, qs: Params)
    requires SamePerKey(ps, qs)
    ensures forall k | k != NoKey :: Last(ps, k) == Last(qs, k) && LastName(ps, k) == LastName(qs, k)
    ensures forall n :: LastState(ps, n) == LastState(qs, n)
    ensures forall p | p in ps && KeyOf(p.field) != NoKey :: p in qs
  {
    forall k | k != NoKey ensures Last(ps, k) == Last(qs, k) && LastName(ps, k) == LastName(qs, k) {
      OfKeyDecides(ps, k);
      OfKeyDecides(qs, k);
    }
    forall n ensures LastState(ps, n) == LastState(qs, n) {
      OfKeyDecides(ps, StateKey(n));
      OfKeyDecides(qs, StateKey(n));
    }
    forall p | p in ps && KeyOf(p.field) != NoKey ensures p in qs {
      OfKeyHas(ps, KeyOf(p.field));
      OfKeyHas(qs, KeyOf(p.field));
      assert p in OfKey(ps, KeyOf(p.field));
    }
  }

  lemma SameDevices(ps: Params, qs: Params, net: bool, ds: seq<Device>)
    requires SamePerKey(ps, qs) && DevicesOf(ps, net, ds)
    ensures DevicesOf(qs, net, ds)
  {
    hide KeyOf, CounterOf, DeviceCounters, Last, LastName, LastState;
    forall i: nat ensures DeviceOf(ps, net, i) == DeviceOf(qs, net, i) {
      SamePerKeySees(ps, qs);
    }
    forall i: nat ensures DeviceSeen(ps, net, i) <==> DeviceSeen(qs, net, i) {
      SamePerKeySees(ps, qs);
      SamePerKeySees(qs, ps);
    }
  }

  lemma SameGroups(ps: Params, qs: Params)
    requires SamePerKey(ps, qs)
    ensures StateOf(ps) == StateOf(qs) && CpuOf(ps) == CpuOf(qs)
    ensures VcpuOf(ps) == VcpuOf(qs) && BalloonOf(ps) == BalloonOf(qs)
  {
    hide KeyOf, CounterOf, CpuCounters, VcpuCounters, BalloonCounters, Last, LastName, LastState,
      StateSeen, CpuSeen, BalloonSeen;
    SamePerKeySees(ps, qs);
    SameSeen(ps, qs);
    assert CpuValues(ps) == CpuValues(qs);
    assert BalloonValues(ps) == BalloonValues(qs);
  }

  lemma SameSeen(ps: Params, qs: Params)
    requires SamePerKey(ps, qs)
    ensures StateSeen(ps) <==> StateSeen(qs)
    ensures CpuSeen(ps) <==> CpuSeen(qs)
    ensures BalloonSeen(ps) <==> BalloonSeen(qs)
  {
    hide KeyOf, CounterOf, Last, LastName, LastState;
    SamePerKeySees(ps, qs);
    SamePerKeySees(qs, ps);
  }

  /** Reordering parameters of different keys changes nothing in the result. */
  lemma OrderIndependent(ps: Params, qs: Params, r: DomainStats, r': DomainStats)
    requires SamePerKey(ps, qs) && Describes(r, ps) && Describes(r', qs)
    ensures r == r'
  {
    SameGroups(ps, qs);
    SameDevices(ps, qs, false, r.block);
    SameDevices(ps, qs, true, r.net);
    DescribesUnique(r, r', qs);
  }

  // ----- The decoder -----

  // The struct being filled, with the two index-to-position maps.
  datatype Working = Working(result: DomainStats, blocks: map<nat, nat>, networks: map<nat, nat>)

  /** The map and the slice agree: a bijection between the indices seen and the positions. */
  ghost predicate Table(positions: map<nat, nat>, ds: seq<Device>, ps: Params, net: bool) {
    && (forall i: nat :: i in positions <==> DeviceSeen(ps, net, i))
    && (forall i | i in positions :: positions[i] < |ds| && ds[positions[i]] == DeviceOf(ps, net, i))
    && (forall j: nat | j < |ds| :: ds[j].index in positions && positions[ds[j].index] == j)
  }

  ghost predicate Tracks(w: Working, ps: Params) {
    && w.result.state == StateOf(ps) && w.result.cpu == CpuOf(ps)
    && w.result.vcpu == VcpuOf(ps) && w.result.balloon == BalloonOf(ps)
    && Table(w.blocks, w.result.block, ps, false) && Table(w.networks, w.result.net, ps, true)
  }

  // Where the present and destination pointers point.
  datatype Destination =
    | Nowhere
    | CpuCounter(name: Bytes)
    | VcpuCounter(name: Bytes)
    | BalloonCounter(name: Bytes)
    | BlockCounter(position: nat, name: Bytes)
    | NetCounter(position: nat, name: Bytes)

  /** The write through the two pointers. */
  function Store(r: DomainStats, d: Destination, c: Counter): DomainStats
    requires d.CpuCounter? ==> r.cpu.Some?
    requires d.BalloonCounter? ==> r.balloon.Some?
    requires d.BlockCounter? ==> d.position < |r.block|
    requires d.NetCounter? ==> d.position < |r.net|
  {
    match d
    case Nowhere => r
    case CpuCounter(n) => r.(cpu := Some(r.cpu.value[n := c]))
    case VcpuCounter(n) => r.(vcpu := r.vcpu[n := c])
    case BalloonCounter(n) => r.(balloon := Some(r.balloon.value[n := c]))
    case BlockCounter(j, n) => r.(block := r.block[j := r.block[j].(counters := r.block[j].counters[n := c])])
    case NetCounter(j, n) => r.(net := r.net[j := r.net[j].(counters := r.net[j].counters[n := c])])
  }

  /** One more parameter changes the reading of its own key only. */
  lemma LastStep(ps: Params, p: TypedParameter)
    ensures forall k :: Last(ps + [p], k) == if KeyOf(p.field) == k then CounterOf(p.value) else Last(ps, k)
    ensures forall n :: LastState(ps + [p], n)
                     == if KeyOf(p.field) == StateKey(n) && CounterOf(p.value).present
                        then Some(Truncate(CounterOf(p.value).value)) else LastState(ps, n)
    ensures forall k :: LastName(ps + [p], k)
                     == if KeyOf(p.field) == k && p.value.String? then Some(p.value.text) else LastName(ps, k)
  {
    assert (ps + [p])[..|ps|] == ps;
  }

  /** A key never addressed still reads unset. */
  lemma {:induction false} UnseenIsUnset(ps: Params, net: bool, index: nat)
    requires !DeviceSeen(ps, net, index)
    ensures DeviceOf(ps, net, index) == Device(index, None, Zeroed(DeviceCounters(net)))
  {
    hide KeyOf, CounterOf, DeviceCounters, Updated;
    if ps == [] {
    } else {
      var init, p := ps[..|ps| - 1], ps[|ps| - 1];
      assert ps == init + [p];
      assert p in ps && !Addresses(p, net, index);
      UnseenIsUnset(init, net, index);
      DeviceStep(init, p, net, index);
    }
  }

  /** Before any parameter everything is unset. */
  lemma NothingSeen()
    ensures StateOf([]) == None && CpuOf([]) == None && BalloonOf([]) == None && VcpuOf([]) == Zeroed(VcpuCounters())
    ensures forall net, i: nat :: !DeviceSeen([], net, i)
  {
  }

  /** A group's counters after one more parameter. */
  lemma CpuStep(ps: Params, p: TypedParameter)
    ensures CpuSeen(ps + [p]) <==> CpuSeen(ps) || KeyOf(p.field).CpuKey?
    ensures !CpuSeen(ps) ==> CpuValues(ps) == Zeroed(CpuCounters())
    ensures CpuValues(ps + [p])
         == if KeyOf(p.field).CpuKey? && KeyOf(p.field).name in CpuCounters()
            then CpuValues(ps)[KeyOf(p.field).name := CounterOf(p.value)] else CpuValues(ps)
  {
    hide KeyOf, CounterOf, CpuCounters;
    LastStep(ps, p);
    if !CpuSeen(ps) {
      CpuUnseen(ps);
    }
    if CpuSeen(ps) {
      var q :| q in ps && KeyOf(q.field).CpuKey?;
      assert q in ps + [p];
    }
    assert p in ps + [p];
  }

  lemma {:induction false} CpuUnseen(ps: Params)
    requires !CpuSeen(ps)
    ensures CpuValues(ps) == Zeroed(CpuCounters())
  {
    hide KeyOf, CounterOf, CpuCounters;
    if ps == [] {
    } else {
      var p := ps[|ps| - 1];
      assert p in ps && ps == ps[..|ps| - 1] + [p];
      CpuUnseen(ps[..|ps| - 1]);
      LastStep(ps[..|ps| - 1], p);
    }
  }

  lemma BalloonStep(ps: Params, p: TypedParameter)
    ensures BalloonSeen(ps + [p]) <==> BalloonSeen(ps) || KeyOf(p.field).BalloonKey?
    ensures !BalloonSeen(ps) ==> BalloonValues(ps) == Zeroed(BalloonCounters())
    ensures BalloonValues(ps + [p])
         == if KeyOf(p.field).BalloonKey? && KeyOf(p.field).name in BalloonCounters()
            then BalloonValues(ps)[KeyOf(p.field).name := CounterOf(p.value)] else BalloonValues(ps)
  {
    hide KeyOf, CounterOf, BalloonCounters;
    LastStep(ps, p);
    if !BalloonSeen(ps) {
      BalloonUnseen(ps);
    }
    if BalloonSeen(ps) {
      var q :| q in ps && KeyOf(q.field).BalloonKey?;
      assert q in ps + [p];
    }
    assert p in ps + [p];
  }

  lemma {:induction false} BalloonUnseen(ps: Params)
    requires !BalloonSeen(ps)
    ensures BalloonValues(ps) == Zeroed(BalloonCounters())
  {
    hide KeyOf, CounterOf, BalloonCounters;
    if ps == [] {
    } else {
      var p := ps[|ps| - 1];
      assert p in ps && ps == ps[..|ps| - 1] + [p];
      BalloonUnseen(ps[..|ps| - 1]);
      LastStep(ps[..|ps| - 1], p);
    }
  }

  lemma VcpuStep(ps: Params, p: TypedParameter)
    ensures VcpuOf(ps + [p])
         == if KeyOf(p.field).VcpuKey? && KeyOf(p.field).name in VcpuCounters()
            then VcpuOf(ps)[KeyOf(p.field).name := CounterOf(p.value)] else VcpuOf(ps)
  {
    hide KeyOf, CounterOf, VcpuCounters;
    LastStep(ps, p);
  }

  function StateUpdated(s: StateStats, name: Bytes, v: u64): StateStats {
    if name == STATE_STATE then s.(state := Some(Truncate(v)))
    else if name == STATE_REASON then s.(reason := Some(Truncate(v)))
    else s
  }

  lemma StateStep(ps: Params, p: TypedParameter)
    ensures StateOf(ps + [p])
         == if KeyOf(p.field).StateKey? && CounterOf(p.value).present
            then
              var state := StateOf(ps).GetOr(StateStats(None, None));
              Some(StateUpdated(state, KeyOf(p.field).name, CounterOf(p.value).value))
            else StateOf(ps)
  {
    hide KeyOf, CounterOf, Truncate;
    assert STATE_STATE != STATE_REASON by {
      assert |STATE_STATE| != |STATE_REASON|;
    }
    LastStep(ps, p);
    if StateSeen(ps) {
      var q :| q in ps && KeyOf(q.field).StateKey? && CounterOf(q.value).present;
      assert q in ps + [p];
    } else {
      StateUnseen(ps);
    }
    assert p in ps + [p];
  }

  lemma {:induction false} StateUnseen(ps: Params)
    requires !StateSeen(ps)
    ensures forall n :: LastState(ps, n) == None
  {
    hide KeyOf, CounterOf;
    if ps == [] {
    } else {
      var p := ps[|ps| - 1];
      assert p in ps && ps == ps[..|ps| - 1] + [p];
      StateUnseen(ps[..|ps| - 1]);
      LastStep(ps[..|ps| - 1], p);
    }
  }

  function Updated(d: Device, net: bool, suffix: Bytes, value: Value): Device {
    if suffix == NAME then (if value.String? then d.(name := Some(value.text)) else d)
    else if suffix in DeviceCounters(net) then d.(counters := d.counters[suffix := CounterOf(value)])
    else d
  }

  lemma NameIsNoCounter(net: bool)
    ensures NAME !in DeviceCounters(net)
  {
    assert forall s | s in DeviceCounters(net) :: |s| != |NAME|;
  }

  predicate Addresses(p: TypedParameter, net: bool, i: nat) {
    KeyOf(p.field).DeviceKey? && KeyOf(p.field).net == net && KeyOf(p.field).index == i
  }

  /** A device after one more parameter. */
  lemma DeviceStep(ps: Params, p: TypedParameter, net: bool, i: nat)
    ensures DeviceOf(ps + [p], net, i)
         == if Addresses(p, net, i) then Updated(DeviceOf(ps, net, i), net, KeyOf(p.field).suffix, p.value)
            else DeviceOf(ps, net, i)
  {
    hide KeyOf, CounterOf, DeviceCounters;
    NameIsNoCounter(net);
    LastStep(ps, p);
  }

  lemma DeviceSeenStep(ps: Params, p: TypedParameter, net: bool, i: nat)
    ensures DeviceSeen(ps + [p], net, i) <==> DeviceSeen(ps, net, i) || Addresses(p, net, i)
  {
    hide KeyOf;
    if DeviceSeen(ps, net, i) {
      var q :| q in ps && Addresses(q, net, i);
      assert q in ps + [p];
    }
    assert p in ps + [p];
  }

  /** The table after a parameter that addresses none of its devices. */
  lemma TableSkips(positions: map<nat, nat>, ds: seq<Device>, ps: Params, p: TypedParameter, net: bool)
    requires Table(positions, ds, ps, net)
    requires !(KeyOf(p.field).DeviceKey? && KeyOf(p.field).net == net)
    ensures Table(positions, ds, ps + [p], net)
  {
    hide KeyOf, DeviceOf, DeviceSeen;
    forall i: nat
      ensures DeviceOf(ps + [p], net, i) == DeviceOf(ps, net, i)
      ensures DeviceSeen(ps + [p], net, i) <==> DeviceSeen(ps, net, i)
    {
      DeviceStep(ps, p, net, i);
      DeviceSeenStep(ps, p, net, i);
    }
  }

  /** The table after the addressed device, at its position, was updated. */
  lemma TableUpdates(positions: map<nat, nat>, ds: seq<Device>, ps: Params, p: TypedParameter, net: bool,
                     ds': seq<Device>)
    requires KeyOf(p.field).DeviceKey? && KeyOf(p.field).net == net && KeyOf(p.field).index in positions
    requires (forall i: nat :: i in positions <==> DeviceSeen(ps + [p], net, i))
    requires (forall i | i in positions :: positions[i] < |ds| && ds[positions[i]] == DeviceOf(ps, net, i))
    requires (forall j: nat | j < |ds| :: ds[j].index in positions && positions[ds[j].index] == j)
    requires var j := positions[KeyOf(p.field).index];
             ds' == ds[j := Updated(ds[j], net, KeyOf(p.field).suffix, p.value)]
    ensures Table(positions, ds', ps + [p], net)
  {
    hide KeyOf, DeviceSeen, CounterOf, DeviceCounters;
    forall i | i in positions ensures positions[i] < |ds'| && ds'[positions[i]] == DeviceOf(ps + [p], net, i) {
      DeviceStep(ps, p, net, i);
      assert ds[positions[i]].index == i;
    }
  }

  /** Finding or creating the entry of a device, then naming it or finding where its counter is. */
  method EnterDevice(positions: map<nat, nat>, ds: seq<Device>, net: bool, index: nat, suffix: Bytes, value: Value,
                     ghost ps: Params, ghost p: TypedParameter)
    returns (positions': map<nat, nat>, ds': seq<Device>, position: nat, counter: bool)
    requires Table(positions, ds, ps, net)
    requires KeyOf(p.field) == DeviceKey(net, index, suffix) && p.value == value
    ensures position < |ds'|
    ensures counter <==> suffix in DeviceCounters(net)
    ensures Table(positions',
                  if counter then
                    ds'[position := ds'[position].(counters := ds'[position].counters[suffix := CounterOf(value)])]
                  else ds',
                  ps + [p], net)
  {
    hide KeyOf, DeviceOf, DeviceSeen, DeviceCounters, CounterOf;
    positions', ds' := positions, ds;
    forall i: nat ensures DeviceSeen(ps + [p], net, i) <==> DeviceSeen(ps, net, i) || i == index {
      DeviceSeenStep(ps, p, net, i);
    }
    if index !in positions' {
      UnseenIsUnset(ps, net, index);
      positions' := positions'[index := |ds'|];
      ds' := ds' + [Device(index, None, Zeroed(DeviceCounters(net)))];
    }
    position := positions'[index];
    ghost var entered := ds';
    NameIsNoCounter(net);
    counter := false;
    if suffix == NAME {
      if value.String? {
        ds' := ds'[position := ds'[position].(name := Some(value.text))];
      }
    } else if suffix in DeviceCounters(net) {
      counter := true;
    }
    ghost var updated := entered[position := Updated(entered[position], net, suffix, value)];
    TableUpdates(positions', entered, ps, p, net, updated);
    assert updated == if counter then
        ds'[position := ds'[position].(counters := ds'[position].counters[suffix := CounterOf(value)])]
      else ds';
  }

  /** The number and whether it is available, by the dynamic type of the value. */
  method NumberOf(value: Value) returns (number: Counter)
    ensures number == CounterOf(value)
  {
    number := Counter(false, 0);
    match value {
      case UInt64(v) => number := Counter(true, v);
      case UInt32(v) => number := Counter(true, v);
      case Int64(v) =>
        if v >= 0 {
          number := Counter(true, v);
        }
      case Int32(v) =>
        if v >= 0 {
          number := Counter(true, v);
        }
      case _ =>
    }
  }

  /** One round of the decoding loop. */
  method ApplyParameter(w: Working, parameter: TypedParameter, ghost ps: Params) returns (w': Working)
    requires Tracks(w, ps)
    ensures Tracks(w', ps + [parameter])
  {
    hide Cut, Atoi, Last, LastState, LastName, CpuValues, CpuSeen, BalloonValues, BalloonSeen, StateSeen, DeviceSeen,
      DeviceOf, VcpuOf, CpuCounters, VcpuCounters, BalloonCounters, DeviceCounters, CounterOf, Table, Truncate, StateOf;
    StateStep(ps, parameter);
    CpuStep(ps, parameter);
    VcpuStep(ps, parameter);
    BalloonStep(ps, parameter);
    w' := w;
    var field := parameter.field;
    var number := NumberOf(parameter.value);
    var parts := Cut(field);
    var group := parts.before;
    var destination := Nowhere;
    var net := group == "net";
    if !KeyOf(field).DeviceKey? || net {
      TableSkips(w.blocks, w.result.block, ps, parameter, false);
    }
    if !KeyOf(field).DeviceKey? || !net {
      TableSkips(w.networks, w.result.net, ps, parameter, true);
    }
    if group == "state" {
      if !number.present {
        return;
      }
      var state := w.result.state.GetOr(StateStats(None, None));
      if field == STATE_STATE {
        state := state.(state := Some(Truncate(number.value)));
      } else if field == STATE_REASON {
        state := state.(reason := Some(Truncate(number.value)));
      }
      w' := w.(result := w.result.(state := Some(state)));
    } else if group == "cpu" {
      if w.result.cpu == None {
        w' := w.(result := w.result.(cpu := Some(Zeroed(CpuCounters()))));
      }
      if field in CpuCounters() {
        destination := CpuCounter(field);
      }
    } else if group == "vcpu" {
      if field in VcpuCounters() {
        destination := VcpuCounter(field);
      }
    } else if group == "balloon" {
      if w.result.balloon == None {
        w' := w.(result := w.result.(balloon := Some(Zeroed(BalloonCounters()))));
      }
      if field in BalloonCounters() {
        destination := BalloonCounter(field);
      }
    } else if group == "block" || net {
      var inner := Cut(parts.after);
      if !inner.found {
        return;
      }
      var index := Atoi(inner.before);
      if index.None? || index.value < 0 {
        return;
      }
      var suffix := "." + inner.after;
      if group == "block" {
        var blocks, block, position, counter :=
          EnterDevice(w.blocks, w.result.block, false, index.value, suffix, parameter.value, ps, parameter);
        w' := w.(blocks := blocks, result := w.result.(block := block));
        destination := if counter then BlockCounter(position, suffix) else Nowhere;
      } else {
        var networks, list, position, counter :=
          EnterDevice(w.networks, w.result.net, true, index.value, suffix, parameter.value, ps, parameter);
        w' := w.(networks := networks, result := w.result.(net := list));
        destination := if counter then NetCounter(position, suffix) else Nowhere;
      }
    }
    w' := w'.(result := Store(w'.result, destination, number));
  }

  /** Whatever the sort does, the sorted table is the list of devices. */
  lemma TableSorted(positions: map<nat, nat>, ds: seq<Device>, ps: Params, net: bool, sorted: seq<Device>)
    requires Table(positions, ds, ps, net)
    requires multiset(sorted) == multiset(ds) && InOrder(sorted, ByIndex)
    ensures DevicesOf(ps, net, sorted)
  {
    hide DeviceOf, DeviceSeen;
    forall d ensures d in sorted <==> d in ds {
      assert d in multiset(sorted) <==> d in multiset(ds);
    }
    forall i, j | 0 <= i < j < |ds| ensures ds[i] != ds[j] {
      assert positions[ds[i].index] == i && positions[ds[j].index] == j;
    }
    DistinctStays(ds, sorted);
    forall i, j | 0 <= i < j < |sorted| ensures sorted[i].index != sorted[j].index {
      assert sorted[i] in ds && sorted[j] in ds && sorted[i] != sorted[j];
    }
    forall i: nat | DeviceSeen(ps, net, i) ensures DeviceOf(ps, net, i) in sorted {
      assert ds[positions[i]] in ds;
    }
  }

  /**
   * The decoder fails exactly when some parameter has an unknown type; otherwise its
   * result is the one that describes the decoded parameters.
   */
  method DecodeDomainStats(heap: Heap, memory: Addr, count: nat) returns (r: Result<DomainStats>)
    requires Decodable(heap.blocks, memory, count)
    ensures r.Err? <==> DecodeArray(heap.blocks, memory, count).Err?
    ensures r.Err? ==> r.error == DecodeArray(heap.blocks, memory, count).error
    ensures r.Ok? ==> Describes(r.value, DecodeArray(heap.blocks, memory, count).value)
  {
    hide ReadCell, Decode, OwnsString, Tracks, Describes, VcpuCounters;
    var w := Working(DomainStats(None, None, Zeroed(VcpuCounters()), None, [], []), map[], map[]);
    TracksNothing(w);
    ghost var h := heap.blocks;
    ghost var cells := if count == 0 then [] else Cells(h[memory], count);
    ghost var ps: Params := [];
    for i := 0 to count
      invariant AllReadable(h, cells) && |cells| == count
      invariant DecodeAll(h, cells[..i]) == Ok(ps) && Tracks(w, ps)
    {
      CellsAt(h[memory], count, i);
      assert Readable(h, cells[i]);
      assert cells[..i + 1][..i] == cells[..i];
      var parameter := Decode(heap.blocks, ReadCell(RecordAt(heap.blocks[memory], i)));
      if parameter.Err? {
        DecodeAllPrefix(h, cells, i + 1);
        return Err(parameter.error);
      }
      w := ApplyParameter(w, parameter.value, ps);
      ps := ps + [parameter.value];
    }
    assert cells[..count] == cells;
    var block := SortFunc(w.result.block, ByIndex);
    var net := SortFunc(w.result.net, ByIndex);
    SortedDescribes(w, ps, block, net);
    r := Ok(w.result.(block := block, net := net));
  }

  lemma TracksNothing(w: Working)
    requires w == Working(DomainStats(None, None, Zeroed(VcpuCounters()), None, [], []), map[], map[])
    ensures Tracks(w, [])
  {
    hide StateOf, CpuOf, VcpuOf, BalloonOf, DeviceOf, DeviceSeen, VcpuCounters;
    NothingSeen();
  }

  lemma SortedDescribes(w: Working, ps: Params, block: seq<Device>, net: seq<Device>)
    requires Tracks(w, ps)
    requires multiset(block) == multiset(w.result.block) && multiset(net) == multiset(w.result.net)
    requires StrictWeakOrder(w.result.block, ByIndex) ==> InOrder(block, ByIndex)
    requires StrictWeakOrder(w.result.net, ByIndex) ==> InOrder(net, ByIndex)
    ensures Describes(w.result.(block := block, net := net), ps)
  {
    hide StateOf, CpuOf, VcpuOf, BalloonOf, DeviceOf, DeviceSeen;
    TableSorted(w.blocks, w.result.block, ps, false, block);
    TableSorted(w.networks, w.result.net, ps, true, net);
  }
}
