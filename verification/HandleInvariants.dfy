/** What every step on handles keeps: locks that exclude, references that are counted, arrays that are freed once. */
module HandleInvariants {
  import opened Text
  import opened HandleSteps

  // ----- Counting references -----

  function Total<T>(f: T -> multiset<nat>, xs: seq<T>): multiset<nat> {
    if xs == [] then multiset{} else Total(f, xs[..|xs| - 1]) + f(xs[|xs| - 1])
  }

  lemma {:induction false} TotalUpdate<T>(f: T -> multiset<nat>, xs: seq<T>, i: nat, x: T)
    requires i < |xs|
    ensures forall v :: Total(f, xs[i := x])[v] + f(xs[i])[v] == Total(f, xs)[v] + f(x)[v]
  {
    var n := |xs| - 1;
    if i < n {
      var front := xs[..n];
      TotalUpdate(f, front, i, x);
      assert xs[i := x][..n] == front[i := x];
    } else {
      assert xs[i := x][..n] == xs[..n];
    }
  }

  lemma TotalSnoc<T>(f: T -> multiset<nat>, xs: seq<T>, x: T)
    ensures forall v :: Total(f, xs + [x])[v] == Total(f, xs)[v] + f(x)[v]
  {
    assert (xs + [x])[..|xs|] == xs;
  }

  lemma {:induction false} TotalHas<T>(f: T -> multiset<nat>, xs: seq<T>, i: nat)
    requires i < |xs|
    ensures forall v :: f(xs[i])[v] <= Total(f, xs)[v]
  {
    if i == |xs| - 1 {
    } else {
      TotalHas(f, xs[..|xs| - 1], i);
    }
  }

  lemma {:induction false} TotalEmpty<T>(f: T -> multiset<nat>, xs: seq<T>)
    requires forall i | 0 <= i < |xs| :: f(xs[i]) == multiset{}
    ensures Total(f, xs) == multiset{}
  {
    if xs == [] {
    } else {
      TotalEmpty(f, xs[..|xs| - 1]);
    }
  }

  function OwnedBySlot(slot: Slot): multiset<Ptr> {
    if slot.Open? && !slot.borrowed then multiset{slot.ptr} else multiset{}
  }

  function InFlight(pc: Pc): multiset<Ptr> {
    if pc.Returning? then multiset(pc.refs) else multiset{}
  }

  function ListOf(pc: Pc): multiset<Array> {
    if pc.Returning? && pc.list.Some? then multiset{pc.list.value} else multiset{}
  }

  /** Every reference is owned by one handle, or in flight in one goroutine. */
  ghost predicate RefsOk(s: State) {
    forall p :: s.refs[p] == Total(OwnedBySlot, s.slots)[p] + Total(InFlight, s.routines)[p]
  }

  /** Something is owed exactly when a borrowed handle was freed. */
  ghost predicate DebtOk(s: State) {
    s.debt == multiset{} <==> NoneFreed(s.slots)
  }

  predicate NoneFreed(slots: seq<Slot>) {
    forall h | 0 <= h < |slots| && slots[h].borrowed :: slots[h].Open?
  }

  /** Every array is in the hands of one goroutine. */
  ghost predicate ArraysOk(s: State) {
    && (forall a :: s.arrays[a] == Total(ListOf, s.routines)[a])
    && s.listsFreed + |s.arrays| == s.listsMade && !s.doubleFree
  }

  // ----- Locks and slots -----

  ghost predicate Excluded(s: State) {
    forall g, k, h | 0 <= g < |s.routines| && 0 <= k < |s.routines| && g != k && Writes(s.routines[g], h) ::
      !Writes(s.routines[k], h) && !Reads(s.routines[k], h)
  }

  ghost predicate PcOk(s: State, g: Routine)
    requires g < |s.routines|
  {
    match s.routines[g]
    case Idle(_) => true
    case Entering(todo, held) => Fits(s, todo) && forall h | h in held :: h < |s.slots|
    case Calling(held) => forall h | h in held :: h < |s.slots| && s.slots[h].Open?
    case Returning(held, _, _) => true
    case Locked(h) => h < |s.slots|
    case Freeing(h) => h < |s.slots| && s.slots[h].Open?
    case Clearing(h) => h < |s.slots| && s.slots[h].Released?
  }

  ghost predicate PcsOk(s: State) {
    forall g | 0 <= g < |s.routines| :: PcOk(s, g)
  }

  /** A pointer libvirt has taken back is still in its field only while its Free holds the lock. */
  ghost predicate SlotsOk(s: State) {
    forall h | 0 <= h < |s.slots| && s.slots[h].Released? ::
      exists g :: 0 <= g < |s.routines| && s.routines[g] == Clearing(h)
  }

  ghost predicate FreedOk(s: State) {
    && (forall i | 0 <= i < |s.freed| :: IsNil(s, s.freed[i]))
    && (forall h | IsNil(s, h) :: h in s.freed)
    && (forall i, j | 0 <= i < j < |s.freed| :: s.freed[i] != s.freed[j])
  }

  // ----- What one step may change -----

  /** Only goroutine g moves, and it changes only slots it may write. */
  ghost predicate Moves(s: State, s': State, g: Routine)
    requires g < |s.routines|
  {
    && |s'.routines| == |s.routines|
    && s'.routines == s.routines[g := s'.routines[g]]
    && |s.slots| <= |s'.slots|
    && (forall h | 0 <= h < |s.slots| && s'.slots[h] != s.slots[h] :: Writes(s.routines[g], h))
    && (forall h | |s.slots| <= h < |s'.slots| :: s'.slots[h].Open?)
  }

  /** It takes a lock only when that is free. */
  ghost predicate Locks(s: State, pc: Pc, pc': Pc) {
    && (forall h | Writes(pc', h) :: Writes(pc, h) || CanWrite(s, h))
    && (forall h | Reads(pc', h) :: Reads(pc, h) || CanRead(s, h))
  }

  /** The steps that touch nothing but their goroutine's locks. */
  predicate OnlyLocks(e: Step) {
    e.Begin? || e.ReadLock? || e.CheckOpen? || e.Unlock? || e.Finish? || e.WriteLock? || e.CheckFree?
  }

  /** They leave what is in flight alone. */
  predicate SameLoad(pc: Pc, pc': Pc) {
    if pc'.Returning? then pc.Returning? && pc'.refs == pc.refs && pc'.list == pc.list
    else pc.Returning? ==> pc.refs == [] && pc.list == None
  }

  /** What such a step makes of its goroutine, and of nothing else. */
  ghost predicate Relocks(s: State, pc: Pc, pc': Pc) {
    SameLoad(pc, pc') && Locks(s, pc, pc')
  }

  lemma OnlyAt(s: State, e: Step) returns (pc: Pc)
    requires OnlyLocks(e) && Next(s, e).Some?
    ensures e.g < |s.routines| && Next(s, e) == Some(At(s, e.g, pc)) && Relocks(s, s.routines[e.g], pc)
  {
    hide CanRead, CanWrite, Fits, DoCheckOpen, DoCheckFree, DoReadLock, DoUnlock;
    match e
    case Begin(g, hs) => pc := Entering(hs, {});
    case ReadLock(g) => pc := ReadLockAt(s, g);
    case CheckOpen(g) => pc := CheckOpenAt(s, g);
    case Unlock(g) => pc := UnlockAt(s, g);
    case Finish(g) => pc := Idle(Returned);
    case WriteLock(g, h) => pc := Locked(h);
    case CheckFree(g) => pc := CheckFreeAt(s, g);
  }

  lemma ReadLockAt(s: State, g: Routine) returns (pc: Pc)
    requires g < |s.routines| && DoReadLock(s, g).Some?
    ensures DoReadLock(s, g) == Some(At(s, g, pc)) && Relocks(s, s.routines[g], pc)
  {
    hide CanRead, CanWrite;
    pc := Entering(s.routines[g].todo[1..], s.routines[g].held + {s.routines[g].todo[0]});
  }

  lemma CheckOpenAt(s: State, g: Routine) returns (pc: Pc)
    requires g < |s.routines| && DoCheckOpen(s, g).Some?
    ensures DoCheckOpen(s, g) == Some(At(s, g, pc)) && Relocks(s, s.routines[g], pc)
  {
    hide CanRead, CanWrite, IsNil;
    pc := if exists h :: h in s.routines[g].held && IsNil(s, h) then Idle(ErrClosed) else Calling(s.routines[g].held);
  }

  lemma UnlockAt(s: State, g: Routine) returns (pc: Pc)
    requires g < |s.routines| && DoUnlock(s, g).Some?
    ensures DoUnlock(s, g) == Some(At(s, g, pc)) && Relocks(s, s.routines[g], pc)
  {
    hide CanRead, CanWrite;
    pc := Returning({}, s.routines[g].refs, s.routines[g].list);
  }

  lemma CheckFreeAt(s: State, g: Routine) returns (pc: Pc)
    requires g < |s.routines| && DoCheckFree(s, g).Some?
    ensures DoCheckFree(s, g) == Some(At(s, g, pc)) && Relocks(s, s.routines[g], pc)
  {
    hide CanRead, CanWrite, IsNil;
    var h := s.routines[g].handle;
    pc := if IsNil(s, h) then Idle(ErrClosed) else Freeing(h);
  }

  /** A callback's beginning and end change no goroutine, and make at most one borrowed handle. */
  predicate Lends(e: Step) {
    e.Lend? || e.Unlend?
  }

  ghost predicate SameButLent(s: State, s': State) {
    && s'.routines == s.routines && s'.refs == s.refs && s'.debt == s.debt
    && s'.arrays == s.arrays && s'.freed == s.freed
    && s'.listsMade == s.listsMade && s'.listsFreed == s.listsFreed && s'.doubleFree == s.doubleFree
    && s'.fault == s.fault && s'.late == s.late
    && (s'.slots == s.slots || exists p :: s'.slots == s.slots + [Open(p, true)])
  }

  lemma LendsLittle(s: State, e: Step)
    requires Lends(e) && Next(s, e).Some?
    ensures SameButLent(s, Next(s, e).value)
  {
    if e.Lend? {
      assert Next(s, e).value.slots == s.slots + [Open(e.ptr, true)];
    }
  }

  lemma StepMoves(s: State, e: Step)
    requires Next(s, e).Some?
    ensures e.g < |s.routines| && Moves(s, Next(s, e).value, e.g)
  {
    hide DoBegin, DoReadLock, DoCheckOpen, DoCall, DoWrap, DoFreeList,
         DoUnlock, DoFinish, DoWriteLock, DoCheckFree, DoCallFree, DoClear, DoLend, DoUnlend;
    hide SameButLent, Relocks;
    if OnlyLocks(e) {
      var pc := OnlyAt(s, e);
    } else if Lends(e) {
      LendsLittle(s, e);
      LendMoves(s, Next(s, e).value, e.g);
    } else {
      match e
      case Call(g, outcome) => CallMoves(s, g, outcome);
      case Wrap(g) => WrapMoves(s, g);
      case FreeList(g) => FreeListMoves(s, g);
      case CallFree(g, result) => CallFreeMoves(s, g, result);
      case Clear(g) => ClearMoves(s, g);
    }
  }

  lemma LendMoves(s: State, s': State, g: Routine)
    requires SameButLent(s, s') && g < |s.routines|
    ensures Moves(s, s', g)
  {
  }

  lemma ClearMoves(s: State, g: Routine)
    requires g < |s.routines| && DoClear(s, g).Some?
    ensures Moves(s, DoClear(s, g).value, g)
  {
  }

  lemma CallMoves(s: State, g: Routine, outcome: Outcome)
    requires g < |s.routines| && DoCall(s, g, outcome).Some?
    ensures Moves(s, DoCall(s, g, outcome).value, g)
  {
    hide AllLive, AnyLate;
  }

  /** What the native call of Free changes. */
  ghost predicate FreesAs(s: State, s': State, g: Routine, done: bool)
    requires g < |s.routines| && s.routines[g].Freeing? && s.routines[g].handle < |s.slots|
  {
    var h := s.routines[g].handle;
    && !s.slots[h].Nil?
    && s'.arrays == s.arrays && s'.listsMade == s.listsMade && s'.listsFreed == s.listsFreed
    && s'.doubleFree == s.doubleFree && s'.freed == s.freed && s'.lent == s.lent
    && if done then
         && s'.routines == s.routines[g := Clearing(h)]
         && s'.slots == s.slots[h := Released(s.slots[h].ptr, s.slots[h].borrowed)]
         && s'.refs == GiveBack(s, h).refs && s'.debt == GiveBack(s, h).debt
       else
         && |s'.routines| == |s.routines| && s'.routines[g].Idle? && s'.routines == s.routines[g := s'.routines[g]]
         && s'.slots == s.slots && s'.refs == s.refs && s'.debt == s.debt
  }

  lemma CallFreeDoes(s: State, g: Routine, result: FreeOutcome)
    requires g < |s.routines| && DoCallFree(s, g, result).Some?
    ensures s.routines[g].Freeing? && s.routines[g].handle < |s.slots|
    ensures FreesAs(s, DoCallFree(s, g, result).value, g, result.FreeDone?)
  {
    hide Live, Late, GiveBack, FreesAs;
    if result.FreeDone? {
      var h := s.routines[g].handle;
      var s1 := s.(fault := s.fault || !Live(s, s.slots[h].ptr), late := s.late || Late(s, h));
      GivesBack(s, h);
      GivesBack(s1, h);
      Frees(s, GiveBack(s1, h), g);
    } else {
      FreesNothing(s, DoCallFree(s, g, result).value, g);
    }
  }

  lemma Frees(s: State, s1: State, g: Routine)
    requires g < |s.routines| && s.routines[g].Freeing? && s.routines[g].handle < |s.slots|
    requires !s.slots[s.routines[g].handle].Nil?
    requires var b := GiveBack(s, s.routines[g].handle);
      && s1.routines == s.routines && s1.slots == b.slots && s1.refs == b.refs && s1.debt == b.debt
      && s1.arrays == s.arrays && s1.listsMade == s.listsMade && s1.listsFreed == s.listsFreed
      && s1.doubleFree == s.doubleFree && s1.freed == s.freed && s1.lent == s.lent
    ensures FreesAs(s, At(s1, g, Clearing(s.routines[g].handle)), g, true)
  {
  }

  lemma FreesNothing(s: State, s': State, g: Routine)
    requires g < |s.routines| && s.routines[g].Freeing? && s.routines[g].handle < |s.slots|
    requires !s.slots[s.routines[g].handle].Nil? && |s'.routines| == |s.routines| && s'.routines[g].Idle?
    requires s' == s.(routines := s.routines[g := s'.routines[g]], fault := s'.fault, late := s'.late)
    ensures FreesAs(s, s', g, false)
  {
  }

  lemma GivesBack(s: State, h: Handle)
    requires h < |s.slots| && !s.slots[h].Nil?
    ensures var slot, b := s.slots[h], GiveBack(s, h);
      && b == s.(slots := s.slots[h := Released(slot.ptr, slot.borrowed)], refs := b.refs, debt := b.debt)
      && b.refs == (if slot.borrowed then s.refs else s.refs - multiset{slot.ptr})
      && b.debt == (if slot.borrowed then s.debt + multiset{slot.ptr} else s.debt)
  {
  }

  lemma CallFreeMoves(s: State, g: Routine, result: FreeOutcome)
    requires g < |s.routines| && DoCallFree(s, g, result).Some?
    ensures Moves(s, DoCallFree(s, g, result).value, g)
  {
    hide DoCallFree, GiveBack;
    CallFreeDoes(s, g, result);
  }

  lemma FreeListMoves(s: State, g: Routine)
    requires g < |s.routines| && DoFreeList(s, g).Some?
    ensures Moves(s, DoFreeList(s, g).value, g)
  {
  }

  lemma WrapMoves(s: State, g: Routine)
    requires g < |s.routines| && DoWrap(s, g).Some?
    ensures Moves(s, DoWrap(s, g).value, g)
  {
  }

  lemma StepLocks(s: State, e: Step)
    requires Next(s, e).Some? && |Next(s, e).value.routines| == |s.routines|
    ensures Locks(s, s.routines[e.g], Next(s, e).value.routines[e.g])
  {
    hide DoBegin, DoReadLock, DoCheckOpen, DoCall, DoWrap, DoFreeList,
         DoUnlock, DoFinish, DoWriteLock, DoCheckFree, DoCallFree, DoClear, DoLend, DoUnlend;
    hide CanRead, CanWrite, SameLoad;
    if OnlyLocks(e) {
      var pc := OnlyAt(s, e);
    } else if Lends(e) {
      LendsLittle(s, e);
    } else {
      match e
      case Call(g, outcome) => CallReturns(s, g, outcome);
      case Wrap(g) => WrapLocks(s, g);
      case FreeList(g) => FreeListLocks(s, g);
      case CallFree(g, result) => CallFreeLocks(s, g, result);
      case Clear(g) => ClearLocks(s, g);
    }
  }

  lemma WrapLocks(s: State, g: Routine)
    requires g < |s.routines| && DoWrap(s, g).Some?
    ensures Locks(s, s.routines[g], DoWrap(s, g).value.routines[g])
  {
    hide CanRead, CanWrite;
  }

  lemma FreeListLocks(s: State, g: Routine)
    requires g < |s.routines| && DoFreeList(s, g).Some?
    ensures Locks(s, s.routines[g], DoFreeList(s, g).value.routines[g])
  {
    hide CanRead, CanWrite;
  }

  lemma CallFreeLocks(s: State, g: Routine, result: FreeOutcome)
    requires g < |s.routines| && DoCallFree(s, g, result).Some?
    ensures var s' := DoCallFree(s, g, result).value;
      g < |s'.routines| && Locks(s, s.routines[g], s'.routines[g])
  {
    hide CanRead, CanWrite, DoCallFree, GiveBack;
    CallFreeDoes(s, g, result);
  }

  lemma ClearLocks(s: State, g: Routine)
    requires g < |s.routines| && DoClear(s, g).Some?
    ensures Locks(s, s.routines[g], DoClear(s, g).value.routines[g])
  {
    hide CanRead, CanWrite;
  }

  lemma CallReturns(s: State, g: Routine, outcome: Outcome)
    requires g < |s.routines| && DoCall(s, g, outcome).Some?
    ensures var s' := DoCall(s, g, outcome).value;
      && |s'.routines| == |s.routines| && s.routines[g].Calling?
      && (s'.routines[g].Idle? || (s'.routines[g].Returning? && s'.routines[g].held == s.routines[g].held))
      && s'.slots == s.slots && s'.freed == s.freed && s'.debt == s.debt
  {
    hide AllLive, AnyLate;
  }

  lemma ExcludedStays(s: State, s': State, g: Routine)
    requires Excluded(s) && g < |s.routines| && Moves(s, s', g) && Locks(s, s.routines[g], s'.routines[g])
    ensures Excluded(s')
  {
  }

  lemma OthersStayOk(s: State, s': State, g: Routine, k: Routine)
    requires Excluded(s) && PcsOk(s) && g < |s.routines| && Moves(s, s', g) && k < |s.routines| && k != g
    ensures PcOk(s', k)
  {
    assert PcOk(s, k);
  }

  lemma RestStays(s: State, e: Step)
    requires OnlyLocks(e) && Next(s, e).Some?
    ensures var s' := Next(s, e).value;
      && s'.slots == s.slots && s'.refs == s.refs && s'.debt == s.debt && s'.lent == s.lent && s'.arrays == s.arrays
      && s'.freed == s.freed && s'.listsMade == s.listsMade && s'.listsFreed == s.listsFreed
      && s'.fault == s.fault && s'.late == s.late && s'.doubleFree == s.doubleFree
  {
    hide Next;
    var pc := OnlyAt(s, e);
  }

  lemma LendKeepsPc(s: State, s': State, g: Routine)
    requires SameButLent(s, s') && g < |s.routines| && PcOk(s, g)
    ensures PcOk(s', g)
  {
  }

  lemma LendKeepsSlots(s: State, s': State)
    requires SameButLent(s, s') && SlotsOk(s)
    ensures SlotsOk(s')
  {
  }

  lemma LendKeepsFreed(s: State, s': State)
    requires SameButLent(s, s') && FreedOk(s)
    ensures FreedOk(s')
  {
    assert forall h :: IsNil(s', h) <==> IsNil(s, h);
    hide IsNil;
  }

  lemma LendKeepsRefs(s: State, s': State)
    requires SameButLent(s, s') && RefsOk(s)
    ensures RefsOk(s')
  {
    if s'.slots != s.slots {
      var p :| s'.slots == s.slots + [Open(p, true)];
      TotalSnoc(OwnedBySlot, s.slots, Open(p, true));
    }
  }

  lemma LendKeepsDebt(s: State, s': State)
    requires SameButLent(s, s') && DebtOk(s)
    ensures DebtOk(s')
  {
    assert forall h | 0 <= h < |s.slots| :: s'.slots[h] == s.slots[h];
    assert forall h | |s.slots| <= h < |s'.slots| :: s'.slots[h].Open?;
  }

  lemma LoadStays(s: State, e: Step)
    requires OnlyLocks(e) && Next(s, e).Some? && |Next(s, e).value.routines| == |s.routines|
    ensures SameLoad(s.routines[e.g], Next(s, e).value.routines[e.g])
  {
    hide Next, SameLoad;
    var pc := OnlyAt(s, e);
  }

  lemma SameLoadInFlight(pc: Pc, pc': Pc)
    requires SameLoad(pc, pc')
    ensures InFlight(pc') == InFlight(pc) && ListOf(pc') == ListOf(pc)
  {
  }

  lemma OwnStaysOk(s: State, e: Step)
    requires Excluded(s) && PcsOk(s) && SlotsOk(s) && Next(s, e).Some?
    requires |Next(s, e).value.routines| == |s.routines|
    ensures PcOk(Next(s, e).value, e.g)
  {
    if OnlyLocks(e) {
      hide Next, PcOk;
      LockingOk(s, e);
    } else if Lends(e) {
      hide CanRead, CanWrite, Excluded, SlotsOk, PcsOk, PcOk, DoLend, DoUnlend;
      AllOk(s, e.g);
      LendsLittle(s, e);
      LendKeepsPc(s, Next(s, e).value, e.g);
    } else {
      hide CanRead, CanWrite, Excluded, SlotsOk, PcsOk, Next, PcOk;
      ReturningOk(s, e);
    }
  }

  lemma LockingOk(s: State, e: Step)
    requires Excluded(s) && PcsOk(s) && SlotsOk(s) && OnlyLocks(e) && Next(s, e).Some?
    requires |Next(s, e).value.routines| == |s.routines|
    ensures PcOk(Next(s, e).value, e.g)
  {
    hide DoBegin, DoReadLock, DoCheckOpen, DoUnlock, DoFinish, DoWriteLock, DoCheckFree, PcOk, Excluded, SlotsOk, PcsOk;
    AllOk(s, e.g);
    match e
    case Begin(g, hs) => BeginOk(s, g, hs);
    case ReadLock(g) => ReadLockOk(s, g);
    case CheckOpen(g) => CheckOpenOk(s, g);
    case Unlock(g) => UnlockOk(s, g);
    case Finish(g) => FinishOk(s, g);
    case WriteLock(g, h) => WriteLockOk(s, g, h);
    case CheckFree(g) => CheckFreeOk(s, g);
  }

  lemma BeginOk(s: State, g: Routine, hs: seq<Handle>)
    requires g < |s.routines| && DoBegin(s, g, hs).Some?
    ensures PcOk(DoBegin(s, g, hs).value, g)
  {
  }

  lemma ReadLockOk(s: State, g: Routine)
    requires g < |s.routines| && PcOk(s, g) && DoReadLock(s, g).Some?
    ensures PcOk(DoReadLock(s, g).value, g)
  {
    hide CanRead;
  }

  lemma CheckOpenOk(s: State, g: Routine)
    requires Excluded(s) && SlotsOk(s) && g < |s.routines| && PcOk(s, g) && DoCheckOpen(s, g).Some?
    ensures PcOk(DoCheckOpen(s, g).value, g)
  {
    hide Excluded, SlotsOk;
    MineIsOpen(s, g);
  }

  lemma UnlockOk(s: State, g: Routine)
    requires g < |s.routines| && DoUnlock(s, g).Some?
    ensures PcOk(DoUnlock(s, g).value, g)
  {
  }

  lemma FinishOk(s: State, g: Routine)
    requires g < |s.routines| && DoFinish(s, g).Some?
    ensures PcOk(DoFinish(s, g).value, g)
  {
  }

  lemma WriteLockOk(s: State, g: Routine, h: Handle)
    requires g < |s.routines| && DoWriteLock(s, g, h).Some?
    ensures PcOk(DoWriteLock(s, g, h).value, g)
  {
    hide CanWrite;
  }

  lemma CheckFreeOk(s: State, g: Routine)
    requires Excluded(s) && SlotsOk(s) && g < |s.routines| && PcOk(s, g) && DoCheckFree(s, g).Some?
    ensures PcOk(DoCheckFree(s, g).value, g)
  {
    hide Excluded, SlotsOk;
    MineIsOpen(s, g);
  }

  /** The other steps end in a state that promises little. */
  lemma ReturningOk(s: State, e: Step)
    requires !OnlyLocks(e) && !Lends(e) && PcsOk(s) && Next(s, e).Some?
    requires |Next(s, e).value.routines| == |s.routines|
    ensures PcOk(Next(s, e).value, e.g)
  {
    hide DoBegin, DoReadLock, DoCheckOpen, DoCall, DoWrap, DoFreeList,
         DoUnlock, DoFinish, DoWriteLock, DoCheckFree, DoCallFree, DoClear, DoLend, DoUnlend;
    hide PcsOk;
    match e
    case Call(g, outcome) => CallReturns(s, g, outcome);
    case Wrap(g) => WrapOk(s, g);
    case FreeList(g) => FreeListOk(s, g);
    case CallFree(g, result) => CallFreeOk(s, g, result);
    case Clear(g) => ClearOk(s, g);
  }

  lemma WrapOk(s: State, g: Routine)
    requires g < |s.routines| && DoWrap(s, g).Some?
    ensures PcOk(DoWrap(s, g).value, g)
  {
  }

  lemma FreeListOk(s: State, g: Routine)
    requires g < |s.routines| && DoFreeList(s, g).Some?
    ensures PcOk(DoFreeList(s, g).value, g)
  {
  }

  lemma CallFreeOk(s: State, g: Routine, result: FreeOutcome)
    requires g < |s.routines| && DoCallFree(s, g, result).Some?
    ensures var s' := DoCallFree(s, g, result).value;
      g < |s'.routines| && PcOk(s', g)
  {
    hide DoCallFree, GiveBack;
    CallFreeDoes(s, g, result);
  }

  lemma ClearOk(s: State, g: Routine)
    requires g < |s.routines| && DoClear(s, g).Some?
    ensures PcOk(DoClear(s, g).value, g)
  {
  }

  lemma AllOk(s: State, g: Routine)
    requires PcsOk(s) && g < |s.routines|
    ensures PcOk(s, g)
  {
  }

  /** A pointer libvirt has taken back is not seen under a lock. */
  lemma MineIsOpen(s: State, g: Routine)
    requires Excluded(s) && SlotsOk(s) && g < |s.routines| && (s.routines[g].Entering? || s.routines[g].Locked?)
    ensures forall h | 0 <= h < |s.slots| && (Reads(s.routines[g], h) || Writes(s.routines[g], h)) ::
      !s.slots[h].Released?
  {
  }

  lemma SlotsStayOk(s: State, e: Step)
    requires SlotsOk(s) && Next(s, e).Some?
    ensures SlotsOk(Next(s, e).value)
  {
    hide CanRead, CanWrite, AllLive, AnyLate, IsNil, Fits, SlotsOk, DoCall;
    StepMoves(s, e);
    if e.CallFree? {
      CallFreeReleases(s, e.g, e.result);
    } else if e.Clear? {
      ClearClears(s, e.g);
    } else if Lends(e) {
      LendsLittle(s, e);
      LendKeepsSlots(s, Next(s, e).value);
    } else {
      if OnlyLocks(e) {
        RestStays(s, e);
      } else if e.Call? {
        CallReturns(s, e.g, e.outcome);
      }
      NothingReleased(s, Next(s, e).value, e.g);
    }
  }

  lemma CallFreeReleases(s: State, g: Routine, result: FreeOutcome)
    requires SlotsOk(s) && g < |s.routines| && DoCallFree(s, g, result).Some?
    ensures SlotsOk(DoCallFree(s, g, result).value)
  {
    hide DoCallFree, GiveBack;
    CallFreeDoes(s, g, result);
    var s' := DoCallFree(s, g, result).value;
    forall h | 0 <= h < |s'.slots| && s'.slots[h].Released?
      ensures exists k :: 0 <= k < |s'.routines| && s'.routines[k] == Clearing(h)
    {
      if s'.slots[h] == s.slots[h] {
        var k :| 0 <= k < |s.routines| && s.routines[k] == Clearing(h);
        assert s'.routines[k] == Clearing(h);
      } else {
        assert s'.routines[g] == Clearing(h);
      }
    }
  }

  lemma ClearClears(s: State, g: Routine)
    requires SlotsOk(s) && g < |s.routines| && DoClear(s, g).Some?
    ensures SlotsOk(DoClear(s, g).value)
  {
    var s' := DoClear(s, g).value;
    forall h | 0 <= h < |s'.slots| && s'.slots[h].Released?
      ensures exists k :: 0 <= k < |s'.routines| && s'.routines[k] == Clearing(h)
    {
      var k :| 0 <= k < |s.routines| && s.routines[k] == Clearing(h);
      assert s'.routines[k] == Clearing(h);
    }
  }

  lemma NothingReleased(s: State, s': State, g: Routine)
    requires SlotsOk(s) && g < |s.routines| && Moves(s, s', g) && !s.routines[g].Clearing?
    requires |s.slots| <= |s'.slots| && s'.slots[..|s.slots|] == s.slots
    ensures SlotsOk(s')
  {
    forall h | 0 <= h < |s'.slots| && s'.slots[h].Released?
      ensures exists k :: 0 <= k < |s'.routines| && s'.routines[k] == Clearing(h)
    {
      assert h < |s.slots| && s'.slots[..|s.slots|][h] == s.slots[h];
      var k :| 0 <= k < |s.routines| && s.routines[k] == Clearing(h);
      assert s'.routines[k] == Clearing(h);
    }
  }

  lemma FreedStaysOk(s: State, e: Step)
    requires FreedOk(s) && PcsOk(s) && Next(s, e).Some?
    ensures FreedOk(Next(s, e).value)
  {
    if OnlyLocks(e) {
      hide Next, PcsOk;
      RestStays(s, e);
    } else if e.Call? {
      hide PcsOk, AllLive, AnyLate;
      CallReturns(s, e.g, e.outcome);
    } else if e.Clear? {
      hide PcsOk;
      AllOk(s, e.g);
      ClearFrees(s, e.g);
    } else if Lends(e) {
      hide PcsOk, FreedOk, IsNil;
      LendsLittle(s, e);
      LendKeepsFreed(s, Next(s, e).value);
    } else {
      hide PcsOk, FreedOk, IsNil;
      AllOk(s, e.g);
      NilStays(s, e);
      SameFreed(s, Next(s, e).value);
    }
  }

  lemma NilStays(s: State, e: Step)
    requires (e.Wrap? || e.FreeList? || e.CallFree?) && Next(s, e).Some? && e.g < |s.routines| && PcOk(s, e.g)
    ensures Next(s, e).value.freed == s.freed && forall h :: IsNil(Next(s, e).value, h) <==> IsNil(s, h)
  {
    hide DoWrap, DoFreeList, DoCallFree, IsNil, PcOk;
    match e
    case Wrap(g) => WrapNil(s, g);
    case FreeList(g) => FreeListNil(s, g);
    case CallFree(g, result) => CallFreeNil(s, g, result);
  }

  lemma WrapNil(s: State, g: Routine)
    requires g < |s.routines| && DoWrap(s, g).Some?
    ensures DoWrap(s, g).value.freed == s.freed && forall h :: IsNil(DoWrap(s, g).value, h) <==> IsNil(s, h)
  {
  }

  lemma FreeListNil(s: State, g: Routine)
    requires g < |s.routines| && DoFreeList(s, g).Some?
    ensures DoFreeList(s, g).value.freed == s.freed && forall h :: IsNil(DoFreeList(s, g).value, h) <==> IsNil(s, h)
  {
  }

  lemma CallFreeNil(s: State, g: Routine, result: FreeOutcome)
    requires g < |s.routines| && DoCallFree(s, g, result).Some?
    ensures var s' := DoCallFree(s, g, result).value; s'.freed == s.freed && forall h :: IsNil(s', h) <==> IsNil(s, h)
  {
    hide DoCallFree, GiveBack;
    CallFreeDoes(s, g, result);
  }

  lemma SameFreed(s: State, s': State)
    requires FreedOk(s) && s'.freed == s.freed && forall h :: IsNil(s', h) <==> IsNil(s, h)
    ensures FreedOk(s')
  {
  }

  lemma ClearFrees(s: State, g: Routine)
    requires FreedOk(s) && g < |s.routines| && PcOk(s, g) && DoClear(s, g).Some?
    ensures FreedOk(DoClear(s, g).value)
  {
    var h := s.routines[g].handle;
    assert !IsNil(s, h) && h !in s.freed;
    var s' := DoClear(s, g).value;
    assert forall k | IsNil(s', k) :: k == h || IsNil(s, k);
    assert forall k | IsNil(s, k) :: IsNil(s', k);
  }

  // ----- References and arrays -----

  lemma RefsStayOk(s: State, e: Step)
    requires RefsOk(s) && PcsOk(s) && Next(s, e).Some?
    ensures RefsOk(Next(s, e).value)
  {
    hide DoBegin, DoReadLock, DoCheckOpen, DoCall, DoWrap, DoFreeList,
         DoUnlock, DoFinish, DoWriteLock, DoCheckFree, DoCallFree, DoClear, DoLend, DoUnlend;
    hide RefsOk, PcsOk;
    StepMoves(s, e);
    if OnlyLocks(e) {
      RestStays(s, e);
      LoadStays(s, e);
      SameLoadInFlight(s.routines[e.g], Next(s, e).value.routines[e.g]);
      SameRefs(s, Next(s, e).value, e.g);
    } else if Lends(e) {
      LendsLittle(s, e);
      LendKeepsRefs(s, Next(s, e).value);
    } else {
      AllOk(s, e.g);
      match e
      case Call(g, outcome) => CallKeepsRefs(s, g, outcome);
      case Wrap(g) => WrapKeepsRefs(s, g);
      case FreeList(g) => FreeListKeepsRefs(s, g);
      case CallFree(g, result) => CallFreeKeepsRefs(s, g, result);
      case Clear(g) => ClearKeepsRefs(s, g);
    }
  }

  lemma SameRefs(s: State, s': State, g: Routine)
    requires RefsOk(s) && g < |s.routines| && Moves(s, s', g)
    requires s'.refs == s.refs && s'.slots == s.slots && InFlight(s'.routines[g]) == InFlight(s.routines[g])
    ensures RefsOk(s')
  {
    TotalUpdate(InFlight, s.routines, g, s'.routines[g]);
  }

  lemma CallKeepsRefs(s: State, g: Routine, outcome: Outcome)
    requires RefsOk(s) && g < |s.routines| && DoCall(s, g, outcome).Some?
    ensures RefsOk(DoCall(s, g, outcome).value)
  {
    hide DoCall;
    CallTakes(s, g, outcome);
    var s' := DoCall(s, g, outcome).value;
    TotalUpdate(InFlight, s.routines, g, s'.routines[g]);
  }

  /** The references a call takes are in flight. */
  lemma CallTakes(s: State, g: Routine, outcome: Outcome)
    requires g < |s.routines| && DoCall(s, g, outcome).Some?
    ensures var s' := DoCall(s, g, outcome).value;
      && |s'.routines| == |s.routines| && s'.routines == s.routines[g := s'.routines[g]] && s'.slots == s.slots
      && InFlight(s.routines[g]) == multiset{}
      && forall p :: s'.refs[p] == s.refs[p] + InFlight(s'.routines[g])[p]
  {
    hide AllLive, AnyLate;
  }

  lemma WrapKeepsRefs(s: State, g: Routine)
    requires RefsOk(s) && g < |s.routines| && DoWrap(s, g).Some?
    ensures RefsOk(DoWrap(s, g).value)
  {
    var s' := DoWrap(s, g).value;
    TotalUpdate(InFlight, s.routines, g, s'.routines[g]);
    TotalSnoc(OwnedBySlot, s.slots, Open(s.routines[g].refs[0], false));
    FirstOf(s.routines[g].refs);
  }

  lemma FirstOf(refs: seq<Ptr>)
    requires refs != []
    ensures forall p :: multiset(refs)[p] == multiset{refs[0]}[p] + multiset(refs[1..])[p]
  {
    assert refs == [refs[0]] + refs[1..];
  }

  lemma FreeListKeepsRefs(s: State, g: Routine)
    requires RefsOk(s) && g < |s.routines| && DoFreeList(s, g).Some?
    ensures RefsOk(DoFreeList(s, g).value)
  {
    TotalUpdate(InFlight, s.routines, g, DoFreeList(s, g).value.routines[g]);
  }

  lemma CallFreeKeepsRefs(s: State, g: Routine, result: FreeOutcome)
    requires RefsOk(s) && g < |s.routines| && PcOk(s, g) && DoCallFree(s, g, result).Some?
    ensures RefsOk(DoCallFree(s, g, result).value)
  {
    hide RefsOk, DoCallFree, GiveBack;
    CallFreeDoes(s, g, result);
    if result.FreeDone? {
      FreeDoneKeepsRefs(s, DoCallFree(s, g, result).value, g);
    } else {
      SameRefs(s, DoCallFree(s, g, result).value, g);
    }
  }

  lemma FreeDoneKeepsRefs(s: State, s': State, g: Routine)
    requires RefsOk(s) && g < |s.routines| && s.routines[g].Freeing? && PcOk(s, g) && FreesAs(s, s', g, true)
    ensures RefsOk(s')
  {
    hide GiveBack;
    var h := s.routines[g].handle;
    TotalUpdate(InFlight, s.routines, g, Clearing(h));
    ReleaseKeepsTotal(s, h);
    assert GiveBack(s, h).slots == s'.slots by { GivesBack(s, h); }
  }

  lemma ReleaseKeepsTotal(s: State, h: Handle)
    requires RefsOk(s) && h < |s.slots| && s.slots[h].Open?
    ensures var s' := GiveBack(s, h);
      forall p :: s'.refs[p] == Total(OwnedBySlot, s'.slots)[p] + Total(InFlight, s.routines)[p]
  {
    TotalUpdate(OwnedBySlot, s.slots, h, Released(s.slots[h].ptr, s.slots[h].borrowed));
    TotalHas(OwnedBySlot, s.slots, h);
  }

  lemma ClearKeepsRefs(s: State, g: Routine)
    requires RefsOk(s) && g < |s.routines| && PcOk(s, g) && DoClear(s, g).Some?
    ensures RefsOk(DoClear(s, g).value)
  {
    var s' := DoClear(s, g).value;
    var h := s.routines[g].handle;
    TotalUpdate(InFlight, s.routines, g, s'.routines[g]);
    TotalUpdate(OwnedBySlot, s.slots, h, s'.slots[h]);
  }

  lemma ArraysStayOk(s: State, e: Step)
    requires ArraysOk(s) && Next(s, e).Some?
    ensures ArraysOk(Next(s, e).value)
  {
    hide DoBegin, DoReadLock, DoCheckOpen, DoCall, DoWrap, DoFreeList,
         DoUnlock, DoFinish, DoWriteLock, DoCheckFree, DoCallFree, DoClear, DoLend, DoUnlend;
    hide ArraysOk;
    StepMoves(s, e);
    if OnlyLocks(e) {
      RestStays(s, e);
      LoadStays(s, e);
      SameLoadInFlight(s.routines[e.g], Next(s, e).value.routines[e.g]);
      SameArrays(s, Next(s, e).value, e.g);
    } else {
      if e.Call? {
        CallKeepsArrays(s, e.g, e.outcome);
      } else if e.FreeList? {
        FreeListKeepsArrays(s, e.g);
      } else if Lends(e) {
        LendsLittle(s, e);
        SameArrays(s, Next(s, e).value, e.g);
      } else {
        OthersKeepArrays(s, e);
        SameArrays(s, Next(s, e).value, e.g);
      }
    }
  }

  lemma SameArrays(s: State, s': State, g: Routine)
    requires ArraysOk(s) && g < |s.routines| && Moves(s, s', g) && ListOf(s'.routines[g]) == ListOf(s.routines[g])
    requires s'.arrays == s.arrays && s'.listsMade == s.listsMade && s'.listsFreed == s.listsFreed
    requires s'.doubleFree == s.doubleFree
    ensures ArraysOk(s')
  {
    TotalUpdate(ListOf, s.routines, g, s'.routines[g]);
  }

  lemma OthersKeepArrays(s: State, e: Step)
    requires (e.Wrap? || e.CallFree? || e.Clear?) && Next(s, e).Some?
    requires |Next(s, e).value.routines| == |s.routines|
    ensures var s' := Next(s, e).value;
      && s'.arrays == s.arrays && s'.doubleFree == s.doubleFree
      && s'.listsMade == s.listsMade && s'.listsFreed == s.listsFreed
      && ListOf(s'.routines[e.g]) == ListOf(s.routines[e.g])
  {
    hide DoWrap, DoCallFree, DoClear, ListOf;
    match e
    case Wrap(g) => WrapKeepsList(s, g);
    case CallFree(g, result) => CallFreeKeepsList(s, g, result);
    case Clear(g) => ClearKeepsList(s, g);
  }

  ghost predicate SameLists(s: State, s': State, g: Routine) {
    && g < |s.routines| == |s'.routines|
    && s'.arrays == s.arrays && s'.doubleFree == s.doubleFree
    && s'.listsMade == s.listsMade && s'.listsFreed == s.listsFreed
    && ListOf(s'.routines[g]) == ListOf(s.routines[g])
  }

  lemma WrapKeepsList(s: State, g: Routine)
    requires g < |s.routines| && DoWrap(s, g).Some?
    ensures SameLists(s, DoWrap(s, g).value, g)
  {
    hide ListOf;
    SameList(s.routines[g], DoWrap(s, g).value.routines[g]);
  }

  lemma CallFreeKeepsList(s: State, g: Routine, result: FreeOutcome)
    requires g < |s.routines| && DoCallFree(s, g, result).Some?
    ensures SameLists(s, DoCallFree(s, g, result).value, g)
  {
    hide ListOf, DoCallFree, GiveBack;
    CallFreeDoes(s, g, result);
    NoList(s.routines[g], DoCallFree(s, g, result).value.routines[g]);
  }

  lemma ClearKeepsList(s: State, g: Routine)
    requires g < |s.routines| && DoClear(s, g).Some?
    ensures SameLists(s, DoClear(s, g).value, g)
  {
    hide ListOf;
    NoList(s.routines[g], DoClear(s, g).value.routines[g]);
  }

  lemma SameList(pc: Pc, pc': Pc)
    requires pc.Returning? && pc'.Returning? && pc'.list == pc.list
    ensures ListOf(pc') == ListOf(pc)
  {
  }

  lemma NoList(pc: Pc, pc': Pc)
    requires !pc.Returning? && !pc'.Returning?
    ensures ListOf(pc') == ListOf(pc)
  {
  }

  lemma CallKeepsArrays(s: State, g: Routine, outcome: Outcome)
    requires ArraysOk(s) && g < |s.routines| && DoCall(s, g, outcome).Some?
    ensures ArraysOk(DoCall(s, g, outcome).value)
  {
    hide DoCall;
    CallTakesArray(s, g, outcome);
    var s' := DoCall(s, g, outcome).value;
    TotalUpdate(ListOf, s.routines, g, s'.routines[g]);
  }

  lemma CallTakesArray(s: State, g: Routine, outcome: Outcome)
    requires g < |s.routines| && DoCall(s, g, outcome).Some?
    ensures TakesArray(s, DoCall(s, g, outcome).value, g)
  {
    hide TakesArray, DoCall;
    if outcome.Listed? {
      ListedTakes(s, g, outcome);
    } else {
      OthersTakeNone(s, g, outcome);
    }
  }

  ghost predicate TakesArray(s: State, s': State, g: Routine) {
    && g < |s.routines| == |s'.routines| && s'.routines == s.routines[g := s'.routines[g]]
    && s'.arrays == s.arrays + ListOf(s'.routines[g]) && ListOf(s.routines[g]) == multiset{}
    && s'.listsFreed == s.listsFreed && s'.listsMade == s.listsMade + |ListOf(s'.routines[g])|
    && s'.doubleFree == s.doubleFree
  }

  lemma ListedTakes(s: State, g: Routine, outcome: Outcome)
    requires g < |s.routines| && outcome.Listed? && DoCall(s, g, outcome).Some?
    ensures TakesArray(s, DoCall(s, g, outcome).value, g)
  {
    hide AllLive, AnyLate;
  }

  lemma OthersTakeNone(s: State, g: Routine, outcome: Outcome)
    requires g < |s.routines| && !outcome.Listed? && DoCall(s, g, outcome).Some?
    ensures TakesArray(s, DoCall(s, g, outcome).value, g)
  {
    hide AllLive, AnyLate;
  }

  lemma FreeListKeepsArrays(s: State, g: Routine)
    requires ArraysOk(s) && g < |s.routines| && DoFreeList(s, g).Some?
    ensures ArraysOk(DoFreeList(s, g).value)
  {
    var pc := s.routines[g];
    ListIsLive(s, g);
    OneLess(s, g, pc.(list := None));
  }

  /** A goroutine's array leaves with the goroutine's claim to it. */
  lemma OneLess(s: State, g: Routine, pc: Pc)
    requires ArraysOk(s) && g < |s.routines| && s.routines[g].Returning? && s.routines[g].list.Some?
    requires s.routines[g].list.value in s.arrays && ListOf(pc) == multiset{}
    ensures var a := s.routines[g].list.value; var rest := s.arrays - multiset{a};
      && |rest| + 1 == |s.arrays|
      && forall b :: rest[b] == Total(ListOf, s.routines[g := pc])[b]
  {
    var a := s.routines[g].list.value;
    assert s.arrays == (s.arrays - multiset{a}) + multiset{a};
    TotalUpdate(ListOf, s.routines, g, pc);
    assert ListOf(s.routines[g]) == multiset{a};
  }

  lemma OpenIsCounted(s: State, h: Handle)
    requires RefsOk(s) && h < |s.slots| && s.slots[h].Open? && !s.slots[h].borrowed
    ensures s.slots[h].ptr in s.refs
  {
    TotalHas(OwnedBySlot, s.slots, h);
    assert s.slots[h].ptr in OwnedBySlot(s.slots[h]);
  }

  /** With nothing owed, an open handle that is not late is on a live object. */
  lemma OpenIsLive(s: State, h: Handle)
    requires RefsOk(s) && s.debt == multiset{} && h < |s.slots| && s.slots[h].Open? && !Late(s, h)
    ensures Live(s, s.slots[h].ptr)
  {
    if !s.slots[h].borrowed {
      OpenIsCounted(s, h);
    }
  }

  ghost predicate FaultOk(s: State) {
    s.fault ==> s.debt != multiset{} || s.late
  }

  lemma FaultStaysOk(s: State, e: Step)
    requires RefsOk(s) && PcsOk(s) && FaultOk(s) && Next(s, e).Some?
    ensures FaultOk(Next(s, e).value)
  {
    hide DoBegin, DoReadLock, DoCheckOpen, DoCall, DoWrap, DoFreeList,
         DoUnlock, DoFinish, DoWriteLock, DoCheckFree, DoCallFree, DoClear, DoLend, DoUnlend;
    hide RefsOk, PcsOk;
    AllOk(s, e.g);
    if OnlyLocks(e) {
      RestStays(s, e);
    } else if Lends(e) {
      LendsLittle(s, e);
    } else {
      match e
      case Call(g, outcome) => CallFaults(s, g, outcome);
      case CallFree(g, result) => CallFreeFaults(s, g, result);
      case _ => NoNewFault(s, e);
    }
  }

  lemma NoNewFault(s: State, e: Step)
    requires (e.Wrap? || e.FreeList? || e.Clear?) && Next(s, e).Some?
    ensures var s' := Next(s, e).value; s'.fault == s.fault && s'.late == s.late && s'.debt == s.debt
  {
  }

  lemma CallFaults(s: State, g: Routine, outcome: Outcome)
    requires RefsOk(s) && FaultOk(s) && g < |s.routines| && PcOk(s, g) && DoCall(s, g, outcome).Some?
    ensures FaultOk(DoCall(s, g, outcome).value)
  {
    hide RefsOk, Live, Late;
    var held := s.routines[g].held;
    if s.debt == multiset{} && !AnyLate(s, held) {
      forall h | h in held ensures Live(s, s.slots[h].ptr) {
        assert !Late(s, h);
        OpenIsLive(s, h);
      }
    }
  }

  lemma CallFreeFaults(s: State, g: Routine, result: FreeOutcome)
    requires RefsOk(s) && FaultOk(s) && g < |s.routines| && PcOk(s, g) && DoCallFree(s, g, result).Some?
    ensures FaultOk(DoCallFree(s, g, result).value)
  {
    hide RefsOk, Live, Late;
    var h := s.routines[g].handle;
    if s.debt == multiset{} && !Late(s, h) {
      OpenIsLive(s, h);
    }
  }

  lemma DebtStaysOk(s: State, e: Step)
    requires DebtOk(s) && PcsOk(s) && Next(s, e).Some?
    ensures DebtOk(Next(s, e).value)
  {
    hide DoBegin, DoReadLock, DoCheckOpen, DoCall, DoWrap, DoFreeList,
         DoUnlock, DoFinish, DoWriteLock, DoCheckFree, DoCallFree, DoClear, DoLend, DoUnlend;
    hide PcsOk;
    AllOk(s, e.g);
    if OnlyLocks(e) {
      RestStays(s, e);
    } else if Lends(e) {
      LendsLittle(s, e);
      LendKeepsDebt(s, Next(s, e).value);
    } else if e.Call? {
      CallReturns(s, e.g, e.outcome);
    } else if e.CallFree? {
      CallFreeOwes(s, e.g, e.result);
    } else if e.Clear? {
      ClearOwes(s, e.g);
    } else {
      NoNewDebt(s, e);
    }
  }

  lemma NoNewDebt(s: State, e: Step)
    requires DebtOk(s) && (e.Wrap? || e.FreeList?) && Next(s, e).Some?
    ensures DebtOk(Next(s, e).value)
  {
    var s' := Next(s, e).value;
    assert s'.debt == s.debt && s'.slots[..|s.slots|] == s.slots;
    assert forall h | |s.slots| <= h < |s'.slots| :: s'.slots[h].Open?;
    assert forall h | 0 <= h < |s.slots| :: s'.slots[h] == s.slots[h];
  }

  lemma CallFreeOwes(s: State, g: Routine, result: FreeOutcome)
    requires DebtOk(s) && g < |s.routines| && PcOk(s, g) && DoCallFree(s, g, result).Some?
    ensures DebtOk(DoCallFree(s, g, result).value)
  {
    hide DoCallFree;
    CallFreeDoes(s, g, result);
    var s', h := DoCallFree(s, g, result).value, s.routines[g].handle;
    if result.FreeDone? {
      if s.slots[h].borrowed {
        assert s.slots[h].ptr in s'.debt && !s'.slots[h].Open?;
      } else {
        assert s'.debt == s.debt;
        assert forall k | 0 <= k < |s.slots| && k != h :: s'.slots[k] == s.slots[k];
      }
    }
  }

  lemma ClearOwes(s: State, g: Routine)
    requires DebtOk(s) && g < |s.routines| && PcOk(s, g) && DoClear(s, g).Some?
    ensures DebtOk(DoClear(s, g).value)
  {
    var s', h := DoClear(s, g).value, s.routines[g].handle;
    assert s'.slots[h].borrowed == s.slots[h].borrowed && !s'.slots[h].Open? && !s.slots[h].Open?;
    assert forall k | 0 <= k < |s.slots| && k != h :: s'.slots[k] == s.slots[k];
  }

  lemma ListIsLive(s: State, g: Routine)
    requires ArraysOk(s) && g < |s.routines| && s.routines[g].Returning? && s.routines[g].list.Some?
    ensures s.routines[g].list.value in s.arrays
  {
    TotalHas(ListOf, s.routines, g);
    assert s.routines[g].list.value in ListOf(s.routines[g]);
  }
}
