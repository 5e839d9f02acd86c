/** Domain statistics: an unordered list of typed parameters decoded into sparse device lists. */
module DomainStats {
  import opened Bytes
  import opened TypedParams
  import opened Text

  // ----- The result -----

  // A counter field with its Set flag.
  datatype Counter = Counter(present: bool, value: u64)

  const UNSET := Counter(false, 0)

  // A struct of counters, by libvirt's name for each: the whole field name for the
  // domain's groups, the suffix after the index for devices.
  type Counters = map<Bytes, Counter>

  const STATE_STATE: Bytes := "state.state"
  const STATE_REASON: Bytes := "state.reason"
  const NAME: Bytes := ".name"

  function CpuCounters(): set<Bytes> {
    {"cpu.time", "cpu.user", "cpu.system"}
  }

  function VcpuCounters(): set<Bytes> {
    {"vcpu.current", "vcpu.maximum"}
  }

  function BalloonCounters(): set<Bytes> {
    {"balloon.current", "balloon.maximum", "balloon.available", "balloon.unused", "balloon.usable", "balloon.rss",
     "balloon.last-update"}
  }

  function DeviceCounters(net: bool): set<Bytes> {
    if net then {".rx.bytes", ".tx.bytes", ".rx.pkts", ".tx.pkts", ".rx.errs", ".tx.errs", ".rx.drop", ".tx.drop"}
    else
      {".rd.bytes", ".wr.bytes", ".rd.reqs", ".wr.reqs", ".rd.times", ".wr.times",
       ".allocation", ".capacity", ".physical"}
  }

  function Zeroed(names: set<Bytes>): Counters {
    map n | n in names :: UNSET
  }

  // DomainState and Reason are int32; None is an unset flag.
  datatype StateStats = StateStats(state: Option<i32>, reason: Option<i32>)

  // A DomainStatsBlock or DomainStatsNet; no name is an unset NameSet.
  datatype Device = Device(index: nat, name: Option<Bytes>, counters: Counters)

  datatype DomainStats = DomainStats(
    state: Option<StateStats>, cpu: Option<Counters>, vcpu: Counters, balloon: Option<Counters>,
    block: seq<Device>, net: seq<Device>)

  /** The counters of a domain are named by their group and what they count. */
  lemma GroupCounterNames()
    ensures STATE_STATE == "state." + "state" && STATE_REASON == "state." + "reason" && NAME == "." + "name"
    ensures CpuCounters() == set what: Bytes | what in {"time", "user", "system"} :: "cpu." + what
    ensures VcpuCounters() == set what: Bytes | what in {"current", "maximum"} :: "vcpu." + what
  {
    assert "cpu." + "time" == "cpu.time";
    assert "cpu." + "user" == "cpu.user";
    assert "cpu." + "system" == "cpu.system";
    assert "vcpu." + "current" == "vcpu.current";
    assert "vcpu." + "maximum" == "vcpu.maximum";
  }

  lemma BalloonCounterNames()
    ensures BalloonCounters() ==
      set what: Bytes | what in {"current", "maximum", "available", "unused", "usable", "rss", "last-update"} ::
        "balloon." + what
  {
    assert "balloon." + "current" == "balloon.current";
    assert "balloon." + "maximum" == "balloon.maximum";
    assert "balloon." + "available" == "balloon.available";
    assert "balloon." + "unused" == "balloon.unused";
    assert "balloon." + "usable" == "balloon.usable";
    assert "balloon." + "rss" == "balloon.rss";
    assert "balloon." + "last-update" == "balloon.last-update";
  }

  /** Those of a network card by the direction and what they count. */
  lemma NetCounterNames()
    ensures DeviceCounters(true) ==
      (set what: Bytes | what in {"bytes", "pkts", "errs", "drop"} :: ".rx." + what) +
      (set what: Bytes | what in {"bytes", "pkts", "errs", "drop"} :: ".tx." + what)
  {
    assert ".rx." + "bytes" == ".rx.bytes";
    assert ".rx." + "pkts" == ".rx.pkts";
    assert ".rx." + "errs" == ".rx.errs";
    assert ".rx." + "drop" == ".rx.drop";
    assert ".tx." + "bytes" == ".tx.bytes";
    assert ".tx." + "pkts" == ".tx.pkts";
    assert ".tx." + "errs" == ".tx.errs";
    assert ".tx." + "drop" == ".tx.drop";
  }

  lemma BlockCounterNames()
    ensures DeviceCounters(false) ==
      (set what: Bytes | what in {"bytes", "reqs", "times"} :: ".rd." + what) +
      (set what: Bytes | what in {"bytes", "reqs", "times"} :: ".wr." + what) +
      (set what: Bytes | what in {"allocation", "capacity", "physical"} :: "." + what)
  {
    assert ".rd." + "bytes" == ".rd.bytes";
    assert ".rd." + "reqs" == ".rd.reqs";
    assert ".rd." + "times" == ".rd.times";
    assert ".wr." + "bytes" == ".wr.bytes";
    assert ".wr." + "reqs" == ".wr.reqs";
    assert ".wr." + "times" == ".wr.times";
    assert "." + "allocation" == ".allocation";
    assert "." + "capacity" == ".capacity";
    assert "." + "physical" == ".physical";
  }

  // ----- What a parameter says -----

  /** The number a parameter carries; negative and non-numeric values are unavailable. */
  function CounterOf(value: Value): Counter {
    match value
    case UInt64(v) => Counter(true, v)
    case UInt32(v) => Counter(true, v)
    case Int64(v) => if v >= 0 then Counter(true, v) else UNSET
    case Int32(v) => if v >= 0 then Counter(true, v) else UNSET
    case _ => UNSET
  }

  /** Go's conversion of a uint64 to int32. */
  function Truncate(v: u64): i32 {
    Signed(v % 0x1_0000_0000, 0x1_0000_0000)
  }

  /** The value is the number n, in one of the four integer types a parameter can have. */
  predicate Carries(value: Value, n: u64) {
    || (value.UInt64? && value.uint64 == n)
    || (value.UInt32? && value.uint32 == n)
    || (value.Int64? && value.int64 == n)
    || (value.Int32? && value.int32 == n)
  }

  /** A counter is set to exactly the number its parameter carries, and otherwise unset and zero. */
  lemma CounterOfExact(value: Value)
    ensures forall n: u64 :: CounterOf(value) == Counter(true, n) <==> Carries(value, n)
    ensures (forall n: u64 :: !Carries(value, n)) <==> CounterOf(value) == Counter(false, 0)
  {
    if CounterOf(value).present {
      assert Carries(value, CounterOf(value).value);
    }
  }

  /** The conversion keeps small numbers, and every number modulo 2^32. */
  lemma TruncateExact(v: u64)
    ensures v < 0x8000_0000 ==> Truncate(v) == v
    ensures (Truncate(v) - v) % 0x1_0000_0000 == 0
  {
    var m := v / 0x1_0000_0000;
    assert v == m * 0x1_0000_0000 + v % 0x1_0000_0000;
    assert Truncate(v) - v == -m * 0x1_0000_0000 || Truncate(v) - v == (-m - 1) * 0x1_0000_0000;
  }

  // What a field name addresses. Domain groups keep the whole field as the name.
  datatype Key =
    | StateKey(name: Bytes)
    | CpuKey(name: Bytes)
    | VcpuKey(name: Bytes)
    | BalloonKey(name: Bytes)
    | DeviceKey(net: bool, index: nat, suffix: Bytes)
    | NoKey

  function DeviceKeyOf(net: bool, rest: Bytes): Key {
    var parts := Cut(rest);
    var index := Atoi(parts.before);
    if parts.found && index.Some? && index.value >= 0 then DeviceKey(net, index.value, "." + parts.after) else NoKey
  }

  function KeyOf(field: Bytes): Key {
    var parts := Cut(field);
    if parts.before == "state" then StateKey(field)
    else if parts.before == "cpu" then CpuKey(field)
    else if parts.before == "vcpu" then VcpuKey(field)
    else if parts.before == "balloon" then BalloonKey(field)
    else if parts.before == "block" then DeviceKeyOf(false, parts.after)
    else if parts.before == "net" then DeviceKeyOf(true, parts.after)
    else NoKey
  }

  function DevicePrefix(net: bool): Bytes {
    if net then "net" else "block"
  }

  /**
   * A device's key is read from exactly the fields "block.N.suffix" and "net.N.suffix", N any spelling Atoi
   * accepts.
   */
  lemma DeviceKeyExact(field: Bytes, net: bool, index: nat, suffix: Bytes)
    ensures KeyOf(field) == DeviceKey(net, index, suffix)
       <==> exists t: Bytes, s: Bytes :: Spells(field, net, index, suffix, t, s)
  {
    if KeyOf(field) == DeviceKey(net, index, suffix) {
      var parts := Cut(field);
      var inner := Cut(parts.after);
      CutExact(field, parts.before, parts.after);
      CutExact(parts.after, inner.before, inner.after);
      assert Spells(field, net, index, suffix, inner.before, inner.after);
    }
    if t: Bytes, s: Bytes :| Spells(field, net, index, suffix, t, s) {
      SpelledKey(field, net, index, suffix, t, s);
    }
  }

  predicate Spells(field: Bytes, net: bool, index: nat, suffix: Bytes, t: Bytes, s: Bytes) {
    && '.' !in t && Atoi(t) == Some(index) && suffix == "." + s
    && field == DevicePrefix(net) + "." + (t + "." + s)
  }

  lemma SpelledKey(field: Bytes, net: bool, index: nat, suffix: Bytes, t: Bytes, s: Bytes)
    requires Spells(field, net, index, suffix, t, s)
    ensures KeyOf(field) == DeviceKey(net, index, suffix)
  {
    hide Cut, Atoi;
    CutExact(field, DevicePrefix(net), t + "." + s);
    CutExact(t + "." + s, t, s);
  }

  /** In particular the names libvirt prints address the index they print. */
  lemma PrintedDeviceKey(net: bool, index: i64, s: Bytes)
    requires index >= 0
    ensures KeyOf(DevicePrefix(net) + "." + (Itoa(index) + "." + s)) == DeviceKey(net, index, "." + s)
  {
    AtoiOfItoa(index);
    SpelledKey(DevicePrefix(net) + "." + (Itoa(index) + "." + s), net, index, "." + s, Itoa(index), s);
  }

  predicate InGroup(field: Bytes, group: Bytes) {
    field == group || group + "." <= field
  }

  lemma CutGroup(field: Bytes, group: Bytes)
    requires '.' !in group
    ensures Cut(field).before == group <==> InGroup(field, group)
  {
    if group + "." <= field {
      var rest := field[|group| + 1..];
      assert field == group + "." + rest;
      CutExact(field, group, rest);
    } else if Cut(field).before == group {
      CutExact(field, group, Cut(field).after);
    }
  }

  /** A field of a domain group is addressed by its whole name; "vcpu.0.time" is not in group "cpu". */
  lemma GroupKeyExact(field: Bytes, name: Bytes)
    ensures KeyOf(field) == StateKey(name) <==> name == field && InGroup(field, "state")
    ensures KeyOf(field) == CpuKey(name) <==> name == field && InGroup(field, "cpu")
    ensures KeyOf(field) == VcpuKey(name) <==> name == field && InGroup(field, "vcpu")
    ensures KeyOf(field) == BalloonKey(name) <==> name == field && InGroup(field, "balloon")
  {
    hide Cut;
    CutGroup(field, "state");
    CutGroup(field, "cpu");
    CutGroup(field, "vcpu");
    CutGroup(field, "balloon");
  }
}
