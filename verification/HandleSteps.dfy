/**
 * Handles: RWMutex-guarded native pointers, the references they own, and the references
 * still on their way from libvirt into a handle, under every interleaving of goroutines.
 * A handle is a nativeObject (shared by all copies of its wrapper), a Domain or a Connect.
 */
module HandleSteps {
  import opened Text

  type Ptr = nat
  type Handle = nat
  type Routine = nat
  type Array = nat

  // What a handle's ptr field holds. Released: libvirt has taken the reference back, but
  // the field still has the pointer. A borrowed handle was made for a callback, without a
  // reference of its own.
  datatype Slot =
    | Open(ptr: Ptr, borrowed: bool)
    | Released(ptr: Ptr, borrowed: bool)
    | Nil(borrowed: bool)

  // How a goroutine's last call ended.
  datatype Ending = Returned | ErrClosed | SymbolUnavailable | NativeError

  // Where a goroutine stands. Entering, Calling and Returning hold read locks, the last three a write lock.
  datatype Pc =
    | Idle(last: Ending)
    | Entering(todo: seq<Handle>, held: set<Handle>)
    | Calling(held: set<Handle>)
    | Returning(held: set<Handle>, refs: seq<Ptr>, list: Option<Array>)
    | Locked(handle: Handle)
    | Freeing(handle: Handle)
    | Clearing(handle: Handle)

  // refs has the references libvirt handed to the binding and the binding gave back through the
  // handles that owned them; debt has those given back through borrowed handles, which libvirt
  // cannot tell apart; lent has the objects of the callbacks that are running. fault: a native call saw
  // a dead object. late: one was made with a borrowed handle after its callback.
  datatype State = State(
    slots: seq<Slot>, routines: seq<Pc>, refs: multiset<Ptr>, debt: multiset<Ptr>, lent: multiset<Ptr>,
    arrays: multiset<Array>, freed: seq<Handle>, listsMade: nat, listsFreed: nat,
    fault: bool, late: bool, doubleFree: bool)

  // What a native call returned: nothing owned, a further reference to a receiver, a
  // reference to some object, or an array of references.
  datatype Outcome =
    | Missing
    | Failed
    | Plain
    | Ref(handle: Handle)
    | Fetched(ptr: Ptr)
    | Listed(ptrs: seq<Ptr>, block: Array)

  datatype FreeOutcome = FreeMissing | FreeFailed | FreeDone

  datatype Step =
    | Begin(g: Routine, handles: seq<Handle>)
    | ReadLock(g: Routine)
    | CheckOpen(g: Routine)
    | Call(g: Routine, outcome: Outcome)
    | Wrap(g: Routine)
    | FreeList(g: Routine)
    | Unlock(g: Routine)
    | Finish(g: Routine)
    | WriteLock(g: Routine, handle: Handle)
    | CheckFree(g: Routine)
    | CallFree(g: Routine, result: FreeOutcome)
    | Clear(g: Routine)
    | Lend(g: Routine, ptr: Ptr)                      // a callback gets a handle for its object
    | Unlend(g: Routine, ptr: Ptr)                    // and returns

  function Init(routines: nat): State {
    var idle := seq(routines, _ => Idle(Returned));
    State([], idle, multiset{}, multiset{}, multiset{}, multiset{}, [], 0, 0, false, false, false)
  }

  /** The handle's pointer field is nil. */
  predicate IsNil(s: State, h: Handle) {
    h < |s.slots| && s.slots[h].Nil?
  }

  predicate Reads(pc: Pc, h: Handle) {
    (pc.Entering? || pc.Calling? || pc.Returning?) && h in pc.held
  }

  predicate Writes(pc: Pc, h: Handle) {
    (pc.Locked? || pc.Freeing? || pc.Clearing?) && pc.handle == h
  }

  predicate CanRead(s: State, h: Handle) {
    forall g | 0 <= g < |s.routines| :: !Writes(s.routines[g], h)
  }

  predicate CanWrite(s: State, h: Handle) {
    forall g | 0 <= g < |s.routines| :: !Writes(s.routines[g], h) && !Reads(s.routines[g], h)
  }

  /** What libvirt counts for the binding. */
  function Count(s: State, p: Ptr): int {
    s.refs[p] as int - s.debt[p] as int
  }

  predicate Live(s: State, p: Ptr) {
    Count(s, p) + s.lent[p] > 0
  }

  /** A native call may only see live objects. */
  predicate AllLive(s: State, held: set<Handle>) {
    forall h | h in held :: h < |s.slots| && !s.slots[h].Nil? && Live(s, s.slots[h].ptr)
  }

  /** A borrowed handle is good until its callback returns. */
  predicate Late(s: State, h: Handle) {
    h < |s.slots| && !s.slots[h].Nil? && s.slots[h].borrowed && s.slots[h].ptr !in s.lent
  }

  predicate AnyLate(s: State, held: set<Handle>) {
    exists h | h in held :: Late(s, h)
  }

  predicate Fits(s: State, handles: seq<Handle>) {
    forall i | 0 <= i < |handles| :: handles[i] < |s.slots|
  }

  function At(s: State, g: Routine, pc: Pc): State
    requires g < |s.routines|
  {
    s.(routines := s.routines[g := pc])
  }

  // ----- The steps; None when a step is not possible -----

  function DoBegin(s: State, g: Routine, handles: seq<Handle>): Option<State>
    requires g < |s.routines|
  {
    if !s.routines[g].Idle? || !Fits(s, handles) then None else Some(At(s, g, Entering(handles, {})))
  }

  function DoReadLock(s: State, g: Routine): Option<State>
    requires g < |s.routines|
  {
    var pc := s.routines[g];
    if !pc.Entering? || pc.todo == [] || !CanRead(s, pc.todo[0]) then None
    else Some(At(s, g, Entering(pc.todo[1..], pc.held + {pc.todo[0]})))
  }

  /** A nil pointer ends the call with ErrClosed. */
  function DoCheckOpen(s: State, g: Routine): Option<State>
    requires g < |s.routines|
  {
    var pc := s.routines[g];
    if !pc.Entering? || pc.todo != [] then None
    else if exists h :: h in pc.held && IsNil(s, h) then Some(At(s, g, Idle(ErrClosed)))
    else Some(At(s, g, Calling(pc.held)))
  }

  function DoCall(s: State, g: Routine, outcome: Outcome): Option<State>
    requires g < |s.routines|
  {
    if !s.routines[g].Calling? then None
    else
      var held := s.routines[g].held;
      var s1 :=
        if outcome.Missing? then s else s.(fault := s.fault || !AllLive(s, held), late := s.late || AnyLate(s, held));
      match outcome
      case Ref(h) =>
        if h !in held || h >= |s.slots| || s.slots[h].Nil? then None
        else Some(At(s1.(refs := s.refs + multiset{s.slots[h].ptr}), g, Returning(held, [s.slots[h].ptr], None)))
      case Fetched(p) => Some(At(s1.(refs := s.refs + multiset{p}), g, Returning(held, [p], None)))
      case Listed(ps, a) =>
        if a in s.arrays then None
        else
          Some(At(s1.(refs := s.refs + multiset(ps), arrays := s.arrays + multiset{a}, listsMade := s.listsMade + 1),
                  g, Returning(held, ps, Some(a))))
      case Missing => Some(At(s1, g, Idle(SymbolUnavailable)))
      case Failed => Some(At(s1, g, Idle(NativeError)))
      case Plain => Some(At(s1, g, Returning(held, [], None)))
  }

  /** A reference in flight gets its handle. */
  function DoWrap(s: State, g: Routine): Option<State>
    requires g < |s.routines|
  {
    var pc := s.routines[g];
    if !pc.Returning? || pc.refs == [] then None
    else Some(At(s.(slots := s.slots + [Open(pc.refs[0], false)]), g, pc.(refs := pc.refs[1..])))
  }

  function DoFreeList(s: State, g: Routine): Option<State>
    requires g < |s.routines|
  {
    var pc := s.routines[g];
    if !pc.Returning? || pc.list.None? then None
    else
      Some(At(s.(arrays := s.arrays - multiset{pc.list.value}, listsFreed := s.listsFreed + 1,
                 doubleFree := s.doubleFree || pc.list.value !in s.arrays),
              g, pc.(list := None)))
  }

  function DoUnlock(s: State, g: Routine): Option<State>
    requires g < |s.routines|
  {
    if !s.routines[g].Returning? then None else Some(At(s, g, s.routines[g].(held := {})))
  }

  function DoFinish(s: State, g: Routine): Option<State>
    requires g < |s.routines|
  {
    if s.routines[g] != Returning({}, [], None) then None else Some(At(s, g, Idle(Returned)))
  }

  function DoWriteLock(s: State, g: Routine, h: Handle): Option<State>
    requires g < |s.routines|
  {
    if !s.routines[g].Idle? || h >= |s.slots| || !CanWrite(s, h) then None else Some(At(s, g, Locked(h)))
  }

  /** A nil pointer ends Free with ErrClosed. */
  function DoCheckFree(s: State, g: Routine): Option<State>
    requires g < |s.routines|
  {
    if !s.routines[g].Locked? then None
    else if IsNil(s, s.routines[g].handle) then Some(At(s, g, Idle(ErrClosed)))
    else Some(At(s, g, Freeing(s.routines[g].handle)))
  }

  function DoCallFree(s: State, g: Routine, outcome: FreeOutcome): Option<State>
    requires g < |s.routines|
  {
    if !s.routines[g].Freeing? || s.routines[g].handle >= |s.slots| || s.slots[s.routines[g].handle].Nil? then None
    else
      var h := s.routines[g].handle;
      var p := s.slots[h].ptr;
      var s1 := s.(fault := s.fault || !Live(s, p), late := s.late || Late(s, h));
      match outcome
      case FreeMissing => Some(At(s, g, Idle(SymbolUnavailable)))
      case FreeFailed => Some(At(s1, g, Idle(NativeError)))
      case FreeDone => Some(At(GiveBack(s1, h), g, Clearing(h)))
  }

  /** libvirt takes a reference back, whether the handle owned one or not. */
  function GiveBack(s: State, h: Handle): State
    requires h < |s.slots| && !s.slots[h].Nil?
  {
    var slot := s.slots[h];
    var s1 := s.(slots := s.slots[h := Released(slot.ptr, slot.borrowed)]);
    if slot.borrowed then s1.(debt := s.debt + multiset{slot.ptr}) else s1.(refs := s.refs - multiset{slot.ptr})
  }

  function DoClear(s: State, g: Routine): Option<State>
    requires g < |s.routines|
  {
    if !s.routines[g].Clearing? || s.routines[g].handle >= |s.slots| then None
    else
      var h := s.routines[g].handle;
      Some(At(s.(slots := s.slots[h := Nil(s.slots[h].borrowed)], freed := s.freed + [h]), g, Idle(Returned)))
  }

  function DoLend(s: State, p: Ptr): Option<State> {
    Some(s.(slots := s.slots + [Open(p, true)], lent := s.lent + multiset{p}))
  }

  function DoUnlend(s: State, p: Ptr): Option<State> {
    if p !in s.lent then None else Some(s.(lent := s.lent - multiset{p}))
  }

  function Next(s: State, e: Step): Option<State> {
    if e.g >= |s.routines| then None
    else
      match e
      case Begin(g, hs) => DoBegin(s, g, hs)
      case ReadLock(g) => DoReadLock(s, g)
      case CheckOpen(g) => DoCheckOpen(s, g)
      case Call(g, outcome) => DoCall(s, g, outcome)
      case Wrap(g) => DoWrap(s, g)
      case FreeList(g) => DoFreeList(s, g)
      case Unlock(g) => DoUnlock(s, g)
      case Finish(g) => DoFinish(s, g)
      case WriteLock(g, h) => DoWriteLock(s, g, h)
      case CheckFree(g) => DoCheckFree(s, g)
      case CallFree(g, outcome) => DoCallFree(s, g, outcome)
      case Clear(g) => DoClear(s, g)
      case Lend(_, p) => DoLend(s, p)
      case Unlend(_, p) => DoUnlend(s, p)
  }

  /** The state n goroutines reach by a run, None when some step was not possible. */
  function Run(n: nat, es: seq<Step>): Option<State> {
    if es == [] then Some(Init(n))
    else
      match Run(n, es[..|es| - 1])
      case None => None
      case Some(s) => Next(s, es[|es| - 1])
  }
}
