/**
 * The native call protocol: lock the goroutine to its thread, clear the thread's error slot,
 * call, and read the slot on failure. Goroutines migrate between threads except while locked.
 */
module NativeCall {
  import opened Text

  type Routine = nat
  type Thread = nat
  type CallId = nat

  // An error record knows who wrote it: a native call of a goroutine, or foreign code.
  datatype Record = By(g: Routine, call: CallId, code: int) | Foreign(code: int)

  datatype Phase = Entered | Native | Failed

  // A nativeCall under way; wrote is the last record it wrote, nested says that since then
  // another nativeCall ran inside it, from a callback that libvirt made, and left is the record
  // the last such call left behind.
  datatype Frame = Frame(call: CallId, phase: Phase, wrote: Option<Record>, nested: bool, left: Option<Record>)

  // What a failing nativeCall returned, and its frame.
  datatype Failure = Failure(g: Routine, record: Option<Record>, frame: Frame)

  // The optional symbols of the loaded library.
  datatype Library = Library(reset: bool, lastError: bool)

  // on has the thread of every running goroutine; a goroutine with frames is locked to its thread.
  datatype State = State(
    on: map<Routine, Thread>, stacks: map<Routine, seq<Frame>>, slots: map<Thread, Record>,
    calls: CallId, failures: seq<Failure>)

  datatype Step =
    | Dispatch(g: Routine, t: Thread)
    | Park(g: Routine)
    | Enter(g: Routine)
    | Reset(g: Routine)
    | Write(g: Routine, code: int)
    | Succeed(g: Routine)
    | Fail(g: Routine)
    | ReadError(g: Routine)
    | WriteOutside(t: Thread, code: int)

  const INIT := State(map[], map[], map[], 0, [])

  function Stack(s: State, g: Routine): seq<Frame> {
    if g in s.stacks then s.stacks[g] else []
  }

  function Top(s: State, g: Routine): Frame
    requires Stack(s, g) != []
  {
    Stack(s, g)[|Stack(s, g)| - 1]
  }

  function Below(s: State, g: Routine): seq<Frame>
    requires Stack(s, g) != []
  {
    Stack(s, g)[..|Stack(s, g)| - 1]
  }

  /** The record a call leaves behind: that of the last call inside it, or else its own. */
  function Leaves(frame: Frame): Option<Record> {
    if frame.nested then frame.left else frame.wrote
  }

  /** The calls that remain; the one around sees what the finished call left. */
  function Popped(frames: seq<Frame>): seq<Frame>
    requires frames != []
  {
    var n := |frames| - 1;
    if n == 0 then [] else frames[..n - 1] + [frames[n - 1].(left := Leaves(frames[n]))]
  }

  function WithTop(s: State, g: Routine, frame: Frame): State
    requires Stack(s, g) != []
  {
    s.(stacks := s.stacks[g := Below(s, g) + [frame]])
  }

  predicate Running(s: State, g: Routine, phase: Phase) {
    g in s.on && Stack(s, g) != [] && Top(s, g).phase == phase
  }

  function SlotOf(s: State, t: Thread): Option<Record> {
    if t in s.slots then Some(s.slots[t]) else None
  }

  // ----- The steps; None when a step is not possible -----

  /** The scheduler moves a goroutine to a free thread, unless it is locked to its own. */
  function DoDispatch(s: State, g: Routine, t: Thread): Option<State> {
    if Stack(s, g) != [] || t in s.on.Values then None else Some(s.(on := s.on[g := t]))
  }

  function DoPark(s: State, g: Routine): Option<State> {
    if Stack(s, g) != [] then None else Some(s.(on := s.on - {g}))
  }

  /** nativeCall begins; inside another one only from a callback libvirt makes during that call. */
  function DoEnter(s: State, g: Routine): Option<State> {
    if g !in s.on || (Stack(s, g) != [] && Top(s, g).phase != Native) then None
    else
      var frame := Frame(s.calls, Entered, None, false, None);
      var outer := if Stack(s, g) == [] then [] else Below(s, g) + [Top(s, g).(nested := true)];
      Some(s.(stacks := s.stacks[g := outer + [frame]], calls := s.calls + 1))
  }

  function DoReset(lib: Library, s: State, g: Routine): Option<State> {
    if !Running(s, g, Entered) then None
    else
      var s1 := if lib.reset then s.(slots := s.slots - {s.on[g]}) else s;
      Some(WithTop(s1, g, Top(s, g).(phase := Native)))
  }

  /** libvirt reports an error on the thread of the call. */
  function DoWrite(s: State, g: Routine, code: int): Option<State> {
    if !Running(s, g, Native) then None
    else
      var record := By(g, Top(s, g).call, code);
      Some(WithTop(s.(slots := s.slots[s.on[g] := record]), g, Top(s, g).(wrote := Some(record), nested := false)))
  }

  function DoSucceed(s: State, g: Routine): Option<State> {
    if !Running(s, g, Native) then None else Some(s.(stacks := s.stacks[g := Popped(Stack(s, g))]))
  }

  function DoFail(s: State, g: Routine): Option<State> {
    if !Running(s, g, Native) then None else Some(WithTop(s, g, Top(s, g).(phase := Failed)))
  }

  function DoReadError(lib: Library, s: State, g: Routine): Option<State> {
    if !Running(s, g, Failed) then None
    else
      var frame := Top(s, g);
      var record := if lib.lastError then SlotOf(s, s.on[g]) else None;
      Some(s.(stacks := s.stacks[g := Popped(Stack(s, g))], failures := s.failures + [Failure(g, record, frame)]))
  }

  /** A native call outside nativeCall, or libvirt's own thread: never on a thread some goroutine is locked to. */
  function DoWriteOutside(s: State, t: Thread, code: int): Option<State> {
    if exists g :: g in s.on && s.on[g] == t && Stack(s, g) != [] then None
    else Some(s.(slots := s.slots[t := Foreign(code)]))
  }

  function Next(lib: Library, s: State, e: Step): Option<State> {
    match e
    case Dispatch(g, t) => DoDispatch(s, g, t)
    case Park(g) => DoPark(s, g)
    case Enter(g) => DoEnter(s, g)
    case Reset(g) => DoReset(lib, s, g)
    case Write(g, code) => DoWrite(s, g, code)
    case Succeed(g) => DoSucceed(s, g)
    case Fail(g) => DoFail(s, g)
    case ReadError(g) => DoReadError(lib, s, g)
    case WriteOutside(t, code) => DoWriteOutside(s, t, code)
  }

  function Run(lib: Library, es: seq<Step>): Option<State> {
    if es == [] then Some(INIT)
    else
      match Run(lib, es[..|es| - 1])
      case None => None
      case Some(s) => Next(lib, s, es[|es| - 1])
  }

  // ----- Whose error a thread holds -----

  ghost predicate Apart(s: State) {
    && (forall g, k | g in s.on && k in s.on && s.on[g] == s.on[k] :: g == k)
    && (forall g | Stack(s, g) != [] :: g in s.on)
  }

  /** Outer calls are in their native call, and began earlier. */
  ghost predicate FramesOk(frames: seq<Frame>, calls: CallId) {
    && (forall i | 0 <= i < |frames| :: frames[i].call < calls)
    && (forall i, j | 0 <= i < j < |frames| :: frames[i].call < frames[j].call)
    && (forall i | 0 <= i < |frames| - 1 :: frames[i].phase == Native && frames[i].nested)
  }

  ghost predicate StackOk(s: State, g: Routine) {
    FramesOk(Stack(s, g), s.calls)
  }

  /** A record that call may return: written by that very call or by one nested in it. */
  predicate WithinCall(record: Option<Record>, g: Routine, call: CallId) {
    record.Some? ==> record.value.By? && record.value.g == g && call <= record.value.call
  }

  predicate OwnRecord(record: Option<Record>, g: Routine, call: CallId) {
    record.Some? ==> record.value.By? && record.value.g == g && record.value.call == call
  }

  predicate NestedRecord(record: Option<Record>, g: Routine, call: CallId) {
    record.Some? ==> record.value.By? && record.value.g == g && call < record.value.call
  }

  ghost predicate FrameOk(frame: Frame, g: Routine) {
    && OwnRecord(frame.wrote, g, frame.call) && NestedRecord(frame.left, g, frame.call)
    && (frame.phase == Entered ==> frame.wrote == None && !frame.nested)
  }

  /** While calls are under way their thread's slot is what the innermost one that has begun would leave. */
  ghost predicate SlotFits(frames: seq<Frame>, slot: Option<Record>, g: Routine) {
    && (forall i | 0 <= i < |frames| :: FrameOk(frames[i], g))
    && (frames != [] && frames[|frames| - 1].phase != Entered ==> slot == Leaves(frames[|frames| - 1]))
  }

  ghost predicate SlotOk(s: State, g: Routine) {
    g in s.on ==> SlotFits(Stack(s, g), SlotOf(s, s.on[g]), g)
  }

  ghost predicate Inv(s: State) {
    Apart(s) && forall g :: StackOk(s, g) && SlotOk(s, g)
  }

  /** A failing call returns what it leaves, when the library can tell. */
  ghost predicate Attributed(lib: Library, f: Failure) {
    && FrameOk(f.frame, f.g)
    && f.record == if lib.lastError then Leaves(f.frame) else None
  }

  lemma ApartStays(lib: Library, s: State, e: Step)
    requires Apart(s) && Next(lib, s, e).Some?
    ensures Apart(Next(lib, s, e).value)
  {
  }

  lemma TopReplaced(frames: seq<Frame>, calls: CallId, frame: Frame)
    requires FramesOk(frames, calls) && frames != [] && frame.call == frames[|frames| - 1].call
    ensures FramesOk(frames[..|frames| - 1] + [frame], calls)
  {
  }

  lemma PoppedOk(frames: seq<Frame>, calls: CallId)
    requires FramesOk(frames, calls) && frames != []
    ensures FramesOk(Popped(frames), calls)
  {
  }

  lemma Pushed(frames: seq<Frame>, calls: CallId, frame: Frame)
    requires FramesOk(frames, calls) && frame.call == calls
    requires frames != [] ==> frames[|frames| - 1].phase == Native && frames[|frames| - 1].nested
    ensures FramesOk(frames + [frame], calls + 1)
  {
  }

  lemma StackStaysOk(lib: Library, s: State, e: Step, g: Routine)
    requires StackOk(s, g) && Next(lib, s, e).Some?
    ensures StackOk(Next(lib, s, e).value, g)
  {
    hide FramesOk;
    var frames, s' := Stack(s, g), Next(lib, s, e).value;
    if e.Enter? && e.g == g {
      EnterPushes(s, g);
    } else if (e.Succeed? || e.ReadError?) && e.g == g {
      PoppedOk(frames, s.calls);
    } else if (e.Reset? || e.Write? || e.Fail?) && e.g == g {
      TopReplaced(frames, s.calls, Top(s', g));
      assert Stack(s', g) == frames[..|frames| - 1] + [Top(s', g)];
    } else {
      MoreCalls(frames, s.calls);
    }
  }

  lemma EnterPushes(s: State, g: Routine)
    requires StackOk(s, g) && DoEnter(s, g).Some?
    ensures StackOk(DoEnter(s, g).value, g)
  {
    hide FramesOk;
    var frames, frame := Stack(s, g), Frame(s.calls, Entered, None, false, None);
    if frames == [] {
      Pushed([], s.calls, frame);
    } else {
      var top := Top(s, g).(nested := true);
      TopReplaced(frames, s.calls, top);
      Pushed(Below(s, g) + [top], s.calls, frame);
    }
  }

  lemma MoreCalls(frames: seq<Frame>, calls: CallId)
    requires FramesOk(frames, calls)
    ensures FramesOk(frames, calls + 1)
  {
  }

  lemma SlotStaysOk(lib: Library, s: State, e: Step, g: Routine)
    requires lib.reset && Apart(s) && StackOk(s, g) && SlotOk(s, g) && Next(lib, s, e).Some?
    ensures SlotOk(Next(lib, s, e).value, g)
  {
    hide SlotFits, FramesOk;
    if e.WriteOutside? || e.g != g || e.Dispatch? || e.Park? {
      OthersKeepSlot(lib, s, e, g);
    } else if e.Write? {
      WriteFills(s, g, e.code);
    } else if e.Reset? {
      ResetClears(lib, s, g);
    } else {
      RestFits(lib, s, e, g);
    }
  }

  lemma OthersKeepSlot(lib: Library, s: State, e: Step, g: Routine)
    requires Apart(s) && SlotOk(s, g) && Next(lib, s, e).Some?
    requires e.WriteOutside? || e.g != g || e.Dispatch? || e.Park?
    ensures SlotOk(Next(lib, s, e).value, g)
  {
    var s' := Next(lib, s, e).value;
    assert Stack(s', g) == Stack(s, g);
    if Stack(s, g) != [] {
      assert s'.on[g] == s.on[g];
      assert SlotOf(s', s.on[g]) == SlotOf(s, s.on[g]);
    }
  }

  lemma WriteFills(s: State, g: Routine, code: int)
    requires StackOk(s, g) && SlotOk(s, g) && DoWrite(s, g, code).Some?
    ensures SlotOk(DoWrite(s, g, code).value, g)
  {
  }

  lemma ResetClears(lib: Library, s: State, g: Routine)
    requires lib.reset && StackOk(s, g) && SlotOk(s, g) && DoReset(lib, s, g).Some?
    ensures SlotOk(DoReset(lib, s, g).value, g)
  {
  }

  lemma RestFits(lib: Library, s: State, e: Step, g: Routine)
    requires StackOk(s, g) && SlotOk(s, g) && Next(lib, s, e).Some? && !e.WriteOutside? && e.g == g
    requires e.Enter? || e.Succeed? || e.Fail? || e.ReadError?
    ensures SlotOk(Next(lib, s, e).value, g)
  {
    if e.Succeed? || e.ReadError? {
      hide FramesOk, SlotFits, Popped;
      if g in s.on {
        PopFits(Stack(s, g), SlotOf(s, s.on[g]), g, s.calls);
      }
    } else {
      hide FramesOk;
    }
  }

  /** The call around a finished one sees what that left. */
  lemma PopFits(frames: seq<Frame>, slot: Option<Record>, g: Routine, calls: CallId)
    requires FramesOk(frames, calls) && frames != [] && SlotFits(frames, slot, g)
    requires frames[|frames| - 1].phase != Entered
    ensures SlotFits(Popped(frames), slot, g)
  {
    var n := |frames| - 1;
    if n > 0 {
      assert FrameOk(frames[n], g) && FrameOk(frames[n - 1], g);
      assert frames[n - 1].call < frames[n].call && frames[n - 1].nested;
    }
  }

  lemma FailuresAttributed(lib: Library, s: State, e: Step)
    requires Inv(s) && Next(lib, s, e).Some?
    requires forall i | 0 <= i < |s.failures| :: Attributed(lib, s.failures[i])
    ensures forall i | 0 <= i < |Next(lib, s, e).value.failures| :: Attributed(lib, Next(lib, s, e).value.failures[i])
  {
    if e.ReadError? {
      var g := e.g;
      assert StackOk(s, g) && SlotOk(s, g);
      var frames := Stack(s, g);
      assert frames[|frames| - 1] == Top(s, g);
    }
  }

  lemma InvAtInit()
    ensures Inv(INIT)
  {
  }

  lemma InvStep(lib: Library, s: State, e: Step)
    requires lib.reset && Inv(s) && Next(lib, s, e).Some?
    ensures Inv(Next(lib, s, e).value)
  {
    hide Next, Apart, StackOk, SlotOk;
    ApartStays(lib, s, e);
    forall g ensures StackOk(Next(lib, s, e).value, g) && SlotOk(Next(lib, s, e).value, g) {
      StackStaysOk(lib, s, e, g);
      SlotStaysOk(lib, s, e, g);
    }
  }

  lemma {:induction false} AllAttributed(lib: Library, es: seq<Step>)
    requires lib.reset && Run(lib, es).Some?
    ensures Inv(Run(lib, es).value)
    ensures forall i | 0 <= i < |Run(lib, es).value.failures| :: Attributed(lib, Run(lib, es).value.failures[i])
  {
    hide Inv, Next, Attributed;
    if es == [] {
      InvAtInit();
    } else {
      AllAttributed(lib, es[..|es| - 1]);
      var s := Run(lib, es[..|es| - 1]).value;
      InvStep(lib, s, es[|es| - 1]);
      FailuresAttributed(lib, s, es[|es| - 1]);
    }
  }

  /**
   * With virResetLastError present, in every run: a failing call returns a record written by itself or by a
   * call nested in it, never a stale one or another goroutine's. It returns the last record it wrote
   * itself, or none when it wrote none, exactly when no call ran inside it after that write, or
   * it wrote none and the last call inside it left none.
   */
  lemma ErrorAttribution(lib: Library, es: seq<Step>, i: nat)
    requires lib.reset && Run(lib, es).Some? && i < |Run(lib, es).value.failures|
    ensures var f := Run(lib, es).value.failures[i];
      && WithinCall(f.record, f.g, f.frame.call) && OwnRecord(f.frame.wrote, f.g, f.frame.call)
      && (!lib.lastError ==> f.record == None)
      && (lib.lastError ==>
            (f.record == f.frame.wrote <==> !f.frame.nested || (f.frame.wrote == None && f.frame.left == None)))
  {
    hide Run, Inv;
    AllAttributed(lib, es);
    assert Attributed(lib, Run(lib, es).value.failures[i]);
  }

  /** No failing call of any run returns a record from before it began, or another goroutine's. */
  ghost predicate NoStaleError(lib: Library) {
    forall es, i | Run(lib, es).Some? && 0 <= i < |Run(lib, es).value.failures| ::
      var f := Run(lib, es).value.failures[i]; WithinCall(f.record, f.g, f.frame.call)
  }

  /** That is so exactly for libraries that can clear the error slot, or cannot be asked for it. */
  lemma NoStaleErrorExact(lib: Library)
    ensures NoStaleError(lib) <==> lib.reset || !lib.lastError
  {
    hide Run;
    forall es, i | Run(lib, es).Some? && 0 <= i < |Run(lib, es).value.failures| && (lib.reset || !lib.lastError)
      ensures var f := Run(lib, es).value.failures[i]; WithinCall(f.record, f.g, f.frame.call)
    {
      if lib.reset {
        ErrorAttribution(lib, es, i);
      } else {
        NothingRead(lib, es);
      }
    }
    if !lib.reset && lib.lastError {
      var es := StaleErrorWithoutReset(0);
      assert lib == Library(false, true);
    }
  }

  lemma {:induction false} NothingRead(lib: Library, es: seq<Step>)
    requires !lib.lastError && Run(lib, es).Some?
    ensures forall i | 0 <= i < |Run(lib, es).value.failures| :: Run(lib, es).value.failures[i].record == None
  {
    if es == [] {
    } else {
      NothingRead(lib, es[..|es| - 1]);
    }
  }

  // ----- A call from its beginning to its end -----

  /** The frames around a call that is beginning: the innermost of them now has a call inside. */
  function Around(s: State, g: Routine): seq<Frame> {
    if Stack(s, g) == [] then [] else Below(s, g) + [Top(s, g).(nested := true)]
  }

  lemma Continues(lib: Library, es: seq<Step>, e: Step)
    requires Run(lib, es).Some?
    ensures Run(lib, es + [e]) == Next(lib, Run(lib, es).value, e)
  {
    assert (es + [e])[..|es|] == es;
  }

  /**
   * A goroutine on a thread can begin a call whenever it is in none, or in libvirt; the thread's slot is then
   * empty, if the library can clear it, and nothing else changes.
   */
  lemma CallBegins(lib: Library, es: seq<Step>, g: Routine)
    requires Run(lib, es).Some? && g in Run(lib, es).value.on
    requires var s := Run(lib, es).value; Stack(s, g) == [] || Top(s, g).phase == Native
    ensures var s := Run(lib, es).value;
      Run(lib, es + [Enter(g)] + [Reset(g)]) ==
        Some(s.(stacks := s.stacks[g := Around(s, g) + [Frame(s.calls, Native, None, false, None)]],
                slots := if lib.reset then s.slots - {s.on[g]} else s.slots, calls := s.calls + 1))
  {
    hide Run;
    var s := Run(lib, es).value;
    Continues(lib, es, Enter(g));
    Continues(lib, es + [Enter(g)], Reset(g));
    var s1 := Next(lib, s, Enter(g)).value;
    assert Stack(s1, g) == Around(s, g) + [Frame(s.calls, Entered, None, false, None)];
    assert Below(s1, g) == Around(s, g);
    assert s1.stacks[g := Around(s, g) + [Frame(s.calls, Native, None, false, None)]] ==
      s.stacks[g := Around(s, g) + [Frame(s.calls, Native, None, false, None)]];
  }

  /**
   * A call that succeeds reports nothing, and one that fails reports exactly one error: the record in its thread's
   * slot, if there is one and the library can be asked for it. Both leave the slots alone and go back to the call
   * around, which sees what the finished one left.
   */
  lemma CallEnds(lib: Library, es: seq<Step>, g: Routine)
    requires Run(lib, es).Some? && g in Run(lib, es).value.on && Stack(Run(lib, es).value, g) != []
    requires Top(Run(lib, es).value, g).phase == Native
    ensures var s := Run(lib, es).value; var n := |s.stacks[g]| - 1;
      var frame := s.stacks[g][n];
      var around := if n == 0 then [] else
        s.stacks[g][..n - 1] + [s.stacks[g][n - 1].(left := if frame.nested then frame.left else frame.wrote)];
      var record := if lib.lastError && s.on[g] in s.slots then Some(s.slots[s.on[g]]) else None;
      && Run(lib, es + [Succeed(g)]) == Some(s.(stacks := s.stacks[g := around]))
      && Run(lib, es + [Fail(g)] + [ReadError(g)]) ==
           Some(s.(stacks := s.stacks[g := around],
                   failures := s.failures + [Failure(g, record, frame.(phase := Failed))]))
  {
    hide Run, Next, Popped;
    var s := Run(lib, es).value;
    PoppedIs(s.stacks[g]);
    Succeeds(lib, s, g);
    FailsAndReads(lib, s, g);
    Continues(lib, es, Succeed(g));
    Continues(lib, es, Fail(g));
    Continues(lib, es + [Fail(g)], ReadError(g));
  }

  lemma PoppedIs(frames: seq<Frame>)
    requires frames != []
    ensures var n := |frames| - 1; var frame := frames[n];
      Popped(frames) == if n == 0 then [] else
        frames[..n - 1] + [frames[n - 1].(left := if frame.nested then frame.left else frame.wrote)]
  {
  }

  lemma Succeeds(lib: Library, s: State, g: Routine)
    requires g in s.on && Stack(s, g) != [] && Top(s, g).phase == Native
    ensures Next(lib, s, Succeed(g)) == Some(s.(stacks := s.stacks[g := Popped(s.stacks[g])]))
  {
    hide Popped;
  }

  lemma FailsAndReads(lib: Library, s: State, g: Routine)
    requires g in s.on && Stack(s, g) != [] && Top(s, g).phase == Native
    ensures var record := if lib.lastError && s.on[g] in s.slots then Some(s.slots[s.on[g]]) else None;
      var s1 := WithTop(s, g, Top(s, g).(phase := Failed));
      && Next(lib, s, Fail(g)) == Some(s1)
      && Next(lib, s1, ReadError(g)) ==
           Some(s.(stacks := s.stacks[g := Popped(s.stacks[g])],
                   failures := s.failures + [Failure(g, record, Top(s, g).(phase := Failed))]))
  {
    hide Popped;
    var failed := Top(s, g).(phase := Failed);
    var s1 := WithTop(s, g, failed);
    assert Stack(s1, g) == Below(s, g) + [failed] && Top(s1, g) == failed;
    PoppedAlike(s.stacks[g], Stack(s1, g));
    assert s1.stacks[g := Popped(s.stacks[g])] == s.stacks[g := Popped(s.stacks[g])];
  }

  /** What is left does not depend on how the finished call ended. */
  lemma PoppedAlike(frames: seq<Frame>, others: seq<Frame>)
    requires frames != [] && |others| == |frames|
    requires var n := |frames| - 1;
      others[..n] == frames[..n] && Leaves(others[n]) == Leaves(frames[n])
    ensures Popped(others) == Popped(frames)
  {
    var n := |frames| - 1;
    if n > 0 {
      assert others[n - 1] == others[..n][n - 1] == frames[..n][n - 1];
      assert others[..n - 1] == others[..n][..n - 1] == frames[..n][..n - 1] == frames[..n - 1];
    }
  }

  /** What libvirt reports in a call is the last thing in its thread's slot; earlier calls inside no longer matter. */
  lemma ReportStays(lib: Library, es: seq<Step>, g: Routine, code: int)
    requires Run(lib, es).Some? && g in Run(lib, es).value.on && Stack(Run(lib, es).value, g) != []
    requires Top(Run(lib, es).value, g).phase == Native
    ensures var s := Run(lib, es).value; var frame := Top(s, g); var record := By(g, frame.call, code);
      Run(lib, es + [Write(g, code)]) ==
        Some(s.(slots := s.slots[s.on[g] := record],
                stacks := s.stacks[g := Below(s, g) + [frame.(wrote := Some(record), nested := false)]]))
  {
    Continues(lib, es, Write(g, code));
  }

  /** While a goroutine is in a call it keeps its thread, and nobody outside reports on that thread. */
  lemma LockedToThread(lib: Library, es: seq<Step>, g: Routine, t: Thread, code: int)
    requires Run(lib, es).Some? && Stack(Run(lib, es).value, g) != []
    ensures Run(lib, es + [Dispatch(g, t)]) == None && Run(lib, es + [Park(g)]) == None
    ensures g in Run(lib, es).value.on ==> Run(lib, es + [WriteOutside(Run(lib, es).value.on[g], code)]) == None
  {
    Continues(lib, es, Dispatch(g, t));
    Continues(lib, es, Park(g));
    if g in Run(lib, es).value.on {
      Continues(lib, es, WriteOutside(Run(lib, es).value.on[g], code));
    }
  }

  /** The error reads of a run, in order. */
  function ErrorReads(es: seq<Step>): seq<Routine> {
    if es == [] then []
    else
      var last := es[|es| - 1];
      ErrorReads(es[..|es| - 1]) + if last.ReadError? then [last.g] else []
  }

  /** In every run exactly the failing calls report an error, one each, in the order of their error reads. */
  lemma {:induction false} OneFailureEach(lib: Library, es: seq<Step>)
    requires Run(lib, es).Some?
    ensures var failures := Run(lib, es).value.failures;
      |failures| == |ErrorReads(es)| && forall i | 0 <= i < |failures| :: failures[i].g == ErrorReads(es)[i]
  {
    if es == [] {
    } else {
      OneFailureEach(lib, es[..|es| - 1]);
    }
  }

  // ----- What fails without these conditions -----

  lemma Then(lib: Library, es: seq<Step>, s: State, e: Step) returns (es': seq<Step>, s': State)
    requires Run(lib, es) == Some(s) && Next(lib, s, e).Some?
    ensures es' == es + [e] && Next(lib, s, e) == Some(s') == Run(lib, es')
  {
    es', s' := es + [e], Next(lib, s, e).value;
    assert es'[..|es|] == es;
  }

  /** A nested call that succeeds clears the record of the call around it. */
  lemma NestedCallLosesError()
    ensures exists es :: var end := Run(Library(true, true), es);
      end.Some? && |end.value.failures| == 1 && end.value.failures[0].frame.wrote.Some?
        && end.value.failures[0].record == None
  {
    var lib := Library(true, true);
    hide Run, Next;
    var es, s := Dispatched(lib);
    es, s := Begun(lib, es, s);
    es, s := Wrote(lib, es, s, Top(s, 0));
    es, s := NestedRuns(lib, es, s, Top(s, 0));
    es, s := ItFails(lib, es, s, Top(s, 0));
  }

  lemma ItFails(lib: Library, es0: seq<Step>, s0: State, frame: Frame) returns (es: seq<Step>, s: State)
    requires lib.lastError && Run(lib, es0) == Some(s0) && 0 in s0.on && Stack(s0, 0) == [frame]
      && frame.phase == Native
    ensures Run(lib, es) == Some(s)
    ensures s.failures == s0.failures + [Failure(0, SlotOf(s0, s0.on[0]), frame.(phase := Failed))]
  {
    hide Run;
    es, s := Then(lib, es0, s0, Fail(0));
    assert Stack(s, 0) == [frame.(phase := Failed)];
    es, s := Then(lib, es, s, ReadError(0));
  }

  lemma Started(lib: Library) returns (es: seq<Step>, s: State)
    ensures Run(lib, es) == Some(s) && s == INIT
  {
    es, s := [], INIT;
  }

  lemma Dispatched(lib: Library) returns (es: seq<Step>, s: State)
    ensures Run(lib, es) == Some(s) && s == INIT.(on := map[0 := 0])
  {
    es, s := Started(lib);
    es, s := Then(lib, es, s, Dispatch(0, 0));
  }

  lemma Begun(lib: Library, es0: seq<Step>, s0: State) returns (es: seq<Step>, s: State)
    requires Run(lib, es0) == Some(s0) && 0 in s0.on && Stack(s0, 0) == []
    ensures Run(lib, es) == Some(s) && s.on == s0.on && s.failures == s0.failures
    ensures Stack(s, 0) == [Frame(s0.calls, Native, None, false, None)] && (!lib.reset ==> s.slots == s0.slots)
  {
    hide Run;
    es, s := Then(lib, es0, s0, Enter(0));
    assert Stack(s, 0) == [Frame(s0.calls, Entered, None, false, None)];
    es, s := Then(lib, es, s, Reset(0));
  }

  lemma Wrote(lib: Library, es0: seq<Step>, s0: State, frame: Frame) returns (es: seq<Step>, s: State)
    requires Run(lib, es0) == Some(s0) && 0 in s0.on && Stack(s0, 0) == [frame] && frame.phase == Native
    ensures Run(lib, es) == Some(s) && s.on == s0.on && s.failures == s0.failures
    ensures Stack(s, 0) == [frame.(wrote := Some(By(0, frame.call, 1)), nested := false)]
  {
    hide Run;
    es, s := Then(lib, es0, s0, Write(0, 1));
  }

  lemma NestedRuns(lib: Library, es0: seq<Step>, s0: State, frame: Frame) returns (es: seq<Step>, s: State)
    requires lib.reset && Run(lib, es0) == Some(s0) && 0 in s0.on
    requires Stack(s0, 0) == [frame] && frame.phase == Native
    ensures Run(lib, es) == Some(s) && s.on == s0.on && s.failures == s0.failures
    ensures Stack(s, 0) == [frame.(nested := true, left := None)] && s.on[0] !in s.slots
  {
    hide Run;
    es, s := Then(lib, es0, s0, Enter(0));
    assert Stack(s, 0) == [frame.(nested := true), Frame(s0.calls, Entered, None, false, None)];
    es, s := Then(lib, es, s, Reset(0));
    assert Stack(s, 0) == [frame.(nested := true), Frame(s0.calls, Native, None, false, None)];
    es, s := Then(lib, es, s, Succeed(0));
  }

  /** Without virResetLastError a call that wrote no record returns a stale one. */
  lemma StaleErrorWithoutReset(code: int) returns (es: seq<Step>)
    ensures var end := Run(Library(false, true), es);
      && end.Some? && |end.value.failures| == 1
      && end.value.failures[0].frame.wrote == None && end.value.failures[0].record == Some(Foreign(code))
  {
    var lib := Library(false, true);
    hide Run, Next;
    var s;
    es, s := Dispatched(lib);
    es, s := WroteOutside(lib, es, s, code);
    es, s := Begun(lib, es, s);
    es, s := ItFails(lib, es, s, Top(s, 0));
  }

  lemma WroteOutside(lib: Library, es0: seq<Step>, s0: State, code: int) returns (es: seq<Step>, s: State)
    requires Run(lib, es0) == Some(s0) && 0 in s0.on && s0.on.Keys == {0} && Stack(s0, 0) == []
    ensures Run(lib, es) == Some(s) && s == s0.(slots := s0.slots[s0.on[0] := Foreign(code)])
  {
    hide Run;
    es, s := Then(lib, es0, s0, WriteOutside(s0.on[0], code));
  }
}
