/** Which parameters make a difference to the decoded statistics, and which do not. */
module StatsReading {
  import opened Bytes
  import opened TypedParams
  import opened Text
  import opened DomainStats
  import opened StatsDecoder
  import opened Sorting

  /** The keys that some field of the statistics stands for. */
  predicate Modelled(k: Key) {
    match k
    case StateKey(n) => n in {STATE_STATE, STATE_REASON}
    case CpuKey(n) => n in CpuCounters()
    case VcpuKey(n) => n in VcpuCounters()
    case BalloonKey(n) => n in BalloonCounters()
    case DeviceKey(net, _, suffix) => suffix == NAME || suffix in DeviceCounters(net)
    case NoKey => false
  }

  predicate IsCounterKey(k: Key) {
    Modelled(k) && !k.StateKey? && !(k.DeviceKey? && k.suffix == NAME)
  }

  /** The counter of key k in the result is c. */
  predicate ReadsCounter(r: DomainStats, k: Key, c: Counter) {
    match k
    case CpuKey(n) => r.cpu.Some? && n in r.cpu.value && r.cpu.value[n] == c
    case VcpuKey(n) => n in r.vcpu && r.vcpu[n] == c
    case BalloonKey(n) => r.balloon.Some? && n in r.balloon.value && r.balloon.value[n] == c
    case DeviceKey(net, index, suffix) =>
      exists d | d in (if net then r.net else r.block) ::
        d.index == index && suffix in d.counters && d.counters[suffix] == c
    case _ => false
  }

  /**
   * The last parameter of a counter decides it in the result: the counter is set to the number that parameter
   * carries, and unset and zero when it carries none.
   */
  lemma ResultTellsLast(r: DomainStats, ps: Params, i: nat)
    requires Describes(r, ps) && i < |ps| && IsCounterKey(KeyOf(ps[i].field))
    requires forall j | i < j < |ps| :: KeyOf(ps[j].field) != KeyOf(ps[i].field)
    ensures forall n: u64 | Carries(ps[i].value, n) :: ReadsCounter(r, KeyOf(ps[i].field), Counter(true, n))
    ensures (forall n: u64 :: !Carries(ps[i].value, n)) ==> ReadsCounter(r, KeyOf(ps[i].field), Counter(false, 0))
  {
    hide KeyOf, CounterOf, Describes, IsCounterKey, ReadsCounter;
    var k := KeyOf(ps[i].field);
    LastWriteWins(ps, k, i);
    CounterOfExact(ps[i].value);
    ResultReads(r, ps, ps[i]);
  }

  lemma ResultReads(r: DomainStats, ps: Params, p: TypedParameter)
    requires Describes(r, ps) && p in ps && IsCounterKey(KeyOf(p.field))
    ensures ReadsCounter(r, KeyOf(p.field), Last(ps, KeyOf(p.field)))
  {
    hide KeyOf, CounterOf, CpuCounters, VcpuCounters, BalloonCounters, DeviceCounters, Last, StateOf;
    var k := KeyOf(p.field);
    if k.DeviceKey? {
      assert DeviceSeen(ps, k.net, k.index);
      assert DeviceOf(ps, k.net, k.index) in (if k.net then r.net else r.block);
    }
  }

  /** The last available number of a state field decides it, modulo 2^32. */
  lemma ResultTellsState(r: DomainStats, ps: Params, i: nat, n: u64)
    requires Describes(r, ps) && i < |ps| && Carries(ps[i].value, n)
    requires ps[i].field in {STATE_STATE, STATE_REASON} && KeyOf(ps[i].field) == StateKey(ps[i].field)
    requires forall j, m: u64 | i < j < |ps| && KeyOf(ps[j].field) == StateKey(ps[i].field) :: !Carries(ps[j].value, m)
    ensures r.state.Some?
    ensures var x := if ps[i].field == STATE_STATE then r.state.value.state else r.state.value.reason;
      x.Some? && (n < 0x8000_0000 ==> x.value == n) && (x.value - n) % 0x1_0000_0000 == 0
  {
    hide KeyOf, CounterOf, Truncate, CpuOf, VcpuOf, BalloonOf, DevicesOf;
    CounterOfExact(ps[i].value);
    forall j | i < j < |ps| ensures KeyOf(ps[j].field) != StateKey(ps[i].field) || !CounterOf(ps[j].value).present {
      CounterOfExact(ps[j].value);
    }
    LastAvailableWins(ps, ps[i].field, i);
    TruncateExact(n);
    assert ps[i] in ps;
  }

  /** The last string under a device's name is its name. */
  lemma ResultTellsName(r: DomainStats, ps: Params, i: nat, net: bool, index: nat)
    requires Describes(r, ps) && i < |ps| && KeyOf(ps[i].field) == DeviceKey(net, index, NAME) && ps[i].value.String?
    requires forall j | i < j < |ps| :: KeyOf(ps[j].field) != KeyOf(ps[i].field) || !ps[j].value.String?
    ensures exists d | d in (if net then r.net else r.block) :: d.index == index && d.name == Some(ps[i].value.text)
  {
    hide KeyOf, DeviceCounters, StateOf, CpuOf, VcpuOf, BalloonOf, Last, LastName;
    LastStringWins(ps, KeyOf(ps[i].field), i);
    assert ps[i] in ps && DeviceSeen(ps, net, index);
    assert DeviceOf(ps, net, index) in (if net then r.net else r.block);
  }

  /** The parameter is the first of its group, or of its device. */
  predicate Opens(ps: Params, p: TypedParameter) {
    match KeyOf(p.field)
    case StateKey(_) => CounterOf(p.value).present && !StateSeen(ps)
    case CpuKey(_) => !CpuSeen(ps)
    case VcpuKey(_) => false
    case BalloonKey(_) => !BalloonSeen(ps)
    case DeviceKey(net, index, _) => !DeviceSeen(ps, net, index)
    case NoKey => false
  }

  /** It has a field of the statistics, and tells it something it does not say already. */
  predicate Rewrites(ps: Params, p: TypedParameter) {
    var k := KeyOf(p.field);
    && Modelled(k)
    && match k
       case StateKey(n) => CounterOf(p.value).present && LastState(ps, n) != Some(Truncate(CounterOf(p.value).value))
       case DeviceKey(_, _, suffix) =>
         if suffix == NAME then p.value.String? && LastName(ps, k) != Some(p.value.text)
         else Last(ps, k) != CounterOf(p.value)
       case _ => Last(ps, k) != CounterOf(p.value)
  }

  lemma MapChanges<K, V>(m: map<K, V>, k: K, v: V)
    requires k in m
    ensures m[k := v] != m <==> m[k] != v
  {
    assert m[k := v][k] == v;
  }

  lemma StateChanges(ps: Params, p: TypedParameter)
    ensures StateOf(ps + [p]) != StateOf(ps) <==> KeyOf(p.field).StateKey? && (Opens(ps, p) || Rewrites(ps, p))
  {
    hide KeyOf, CounterOf, Truncate, StateSeen;
    StateStep(ps, p);
    assert |STATE_STATE| != |STATE_REASON|;
  }

  lemma CpuChanges(ps: Params, p: TypedParameter)
    ensures CpuOf(ps + [p]) != CpuOf(ps) <==> KeyOf(p.field).CpuKey? && (Opens(ps, p) || Rewrites(ps, p))
  {
    hide KeyOf, CounterOf, CpuCounters, CpuSeen;
    CpuStep(ps, p);
    var k := KeyOf(p.field);
    if k.CpuKey? && k.name in CpuCounters() {
      MapChanges(CpuValues(ps), k.name, CounterOf(p.value));
    }
  }

  lemma VcpuChanges(ps: Params, p: TypedParameter)
    ensures VcpuOf(ps + [p]) != VcpuOf(ps) <==> KeyOf(p.field).VcpuKey? && (Opens(ps, p) || Rewrites(ps, p))
  {
    hide KeyOf, CounterOf, VcpuCounters;
    VcpuStep(ps, p);
    var k := KeyOf(p.field);
    if k.VcpuKey? && k.name in VcpuCounters() {
      MapChanges(VcpuOf(ps), k.name, CounterOf(p.value));
    }
  }

  lemma BalloonChanges(ps: Params, p: TypedParameter)
    ensures BalloonOf(ps + [p]) != BalloonOf(ps) <==> KeyOf(p.field).BalloonKey? && (Opens(ps, p) || Rewrites(ps, p))
  {
    hide KeyOf, CounterOf, BalloonCounters, BalloonSeen;
    BalloonStep(ps, p);
    var k := KeyOf(p.field);
    if k.BalloonKey? && k.name in BalloonCounters() {
      MapChanges(BalloonValues(ps), k.name, CounterOf(p.value));
    }
  }

  lemma DevicesChange(ps: Params, p: TypedParameter, net: bool, ds: seq<Device>, ds': seq<Device>)
    requires DevicesOf(ps, net, ds) && DevicesOf(ps + [p], net, ds')
    ensures ds != ds' <==> KeyOf(p.field).DeviceKey? && KeyOf(p.field).net == net && (Opens(ps, p) || Rewrites(ps, p))
  {
    hide KeyOf, CounterOf, DeviceCounters, DeviceSeen, DeviceOf;
    forall i: nat
      ensures DeviceSeen(ps + [p], net, i) <==> DeviceSeen(ps, net, i) || Addresses(p, net, i)
      ensures Addresses(p, net, i) || DeviceOf(ps + [p], net, i) == DeviceOf(ps, net, i)
    {
      DeviceSeenStep(ps, p, net, i);
      DeviceStep(ps, p, net, i);
    }
    if KeyOf(p.field).DeviceKey? && KeyOf(p.field).net == net {
      var i := KeyOf(p.field).index;
      DeviceRewritten(ps, p, net, i);
      assert DeviceOf(ps + [p], net, i) in ds';
      assert DeviceOf(ps + [p], net, i).index == i;
    }
    if ds != ds' && DevicesOf(ps + [p], net, ds) {
      IncreasingUnique(ds, ds', ByIndex);
    }
  }

  lemma DeviceRewritten(ps: Params, p: TypedParameter, net: bool, i: nat)
    requires Addresses(p, net, i)
    ensures DeviceOf(ps + [p], net, i) != DeviceOf(ps, net, i) <==> Rewrites(ps, p)
    ensures DeviceOf(ps + [p], net, i).index == i
  {
    hide KeyOf, CounterOf, DeviceCounters;
    DeviceStep(ps, p, net, i);
    NameIsNoCounter(net);
    var suffix := KeyOf(p.field).suffix;
    if suffix in DeviceCounters(net) {
      MapChanges(DeviceOf(ps, net, i).counters, suffix, CounterOf(p.value));
    }
  }

  /** One more parameter changes the result exactly when it opens a group or a device, or rewrites a field. */
  lemma ChangesExact(ps: Params, p: TypedParameter, r: DomainStats, r': DomainStats)
    requires Describes(r, ps) && Describes(r', ps + [p])
    ensures r == r' <==> !Opens(ps, p) && !Rewrites(ps, p)
  {
    hide KeyOf, CounterOf, StateOf, CpuOf, VcpuOf, BalloonOf, DevicesOf, StateSeen, CpuSeen, BalloonSeen, DeviceSeen;
    StateChanges(ps, p);
    CpuChanges(ps, p);
    VcpuChanges(ps, p);
    BalloonChanges(ps, p);
    DevicesChange(ps, p, false, r.block, r'.block);
    DevicesChange(ps, p, true, r.net, r'.net);
  }

  /** A field that is not modelled is ignored exactly when it is not the first of its group or device. */
  lemma UnmodelledIgnoredExact(ps: Params, p: TypedParameter, r: DomainStats, r': DomainStats)
    requires !Modelled(KeyOf(p.field)) && Describes(r, ps) && Describes(r', ps + [p])
    ensures r == r' <==> !Opens(ps, p)
  {
    hide Describes;
    ChangesExact(ps, p, r, r');
  }

  /**
   * A negative or non-numeric value leaves its counter unset whatever that was before, so that the
   * result stays as it is exactly when the counter was unset and its group or device is there.
   */
  lemma UnavailableExact(ps: Params, p: TypedParameter, r: DomainStats, r': DomainStats)
    requires Describes(r, ps) && Describes(r', ps + [p])
    requires var k := KeyOf(p.field); Modelled(k) && !k.StateKey? && !(k.DeviceKey? && k.suffix == NAME)
    requires !CounterOf(p.value).present
    ensures Last(ps + [p], KeyOf(p.field)) == UNSET
    ensures r == r' <==> Last(ps, KeyOf(p.field)) == UNSET && !Opens(ps, p)
  {
    hide Describes, KeyOf;
    ChangesExact(ps, p, r, r');
    LastStep(ps, p);
  }

  /** Of a state field it is skipped. */
  lemma UnavailableStateSkipped(ps: Params, p: TypedParameter, r: DomainStats, r': DomainStats)
    requires Describes(r, ps) && Describes(r', ps + [p])
    requires KeyOf(p.field).StateKey? && !CounterOf(p.value).present
    ensures r == r'
  {
    hide Describes, KeyOf;
    ChangesExact(ps, p, r, r');
  }

  /** The result for parameters of the cpu group only. */
  lemma OfCpu(ps: Params) returns (r: DomainStats)
    requires forall p | p in ps :: KeyOf(p.field).CpuKey?
    ensures Describes(r, ps) && r.cpu == CpuOf(ps)
  {
    hide KeyOf, CpuOf, VcpuOf, BalloonOf, StateOf;
    r := DomainStats(StateOf(ps), CpuOf(ps), VcpuOf(ps), BalloonOf(ps), [], []);
  }

  lemma InCpuGroup(field: Bytes, rest: Bytes)
    requires field == "cpu." + rest
    ensures KeyOf(field) == CpuKey(field)
  {
    hide KeyOf;
    var group: Bytes := "cpu";
    assert group + "." == "cpu.";
    GroupKeyExact(field, field);
  }

  lemma CpuTime(field: Bytes)
    requires field == "cpu.time"
    ensures KeyOf(field) == CpuKey(field) && field in CpuCounters()
  {
    hide KeyOf;
    assert field == field[..4] + field[4..] && field[..4] == "cpu.";
    InCpuGroup(field, field[4..]);
  }

  lemma CpuCacheMonitors(field: Bytes)
    requires field == "cpu.cache.monitor.count"
    ensures KeyOf(field) == CpuKey(field) && field !in CpuCounters()
  {
    hide KeyOf;
    assert field == field[..4] + field[4..] && field[..4] == "cpu.";
    InCpuGroup(field, field[4..]);
    assert forall n | n in CpuCounters() :: |n| < |field|;
  }

  /** A field that is not modelled alone creates the group it is in. */
  lemma UnmodelledCreatesCpu(p: TypedParameter) returns (r: DomainStats, r': DomainStats)
    requires p.field == "cpu.cache.monitor.count"
    ensures !Modelled(KeyOf(p.field)) && Describes(r, []) && Describes(r', [p])
    ensures r.cpu == None && r'.cpu.Some?
  {
    hide KeyOf, CpuCounters, CounterOf, CpuValues, Describes;
    CpuCacheMonitors(p.field);
    r := OfCpu([]);
    r' := OfCpu([p]);
    assert p in [p];
  }

  /** A counter that was set is unset by a negative value. */
  lemma NegativeUnsets(p: TypedParameter, n: TypedParameter) returns (r: DomainStats, r': DomainStats)
    requires p.field == n.field == "cpu.time" && p.value == Int64(5) && n.value == Int64(-1)
    ensures Describes(r, [p]) && Describes(r', [p] + [n]) && r.cpu.Some? && r'.cpu.Some?
    ensures p.field in r.cpu.value && r.cpu.value[p.field] == Counter(true, 5)
    ensures p.field in r'.cpu.value && r'.cpu.value[p.field] == UNSET
  {
    hide KeyOf, CpuCounters, Describes;
    CpuTime(p.field);
    r := OfCpu([p]);
    r' := OfCpu([p] + [n]);
    LastStep([], p);
    LastStep([p], n);
    assert [] + [p] == [p] && p in [p] && p in [p] + [n];
  }
}
