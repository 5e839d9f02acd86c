/**
 * Callback tokens: one malloc'ed byte per registration, a process-wide table from
 * tokens to Go records, and libvirt's deferred free callback, under every interleaving.
 */
module Callbacks {
  import opened Text

  type Token = nat
  type Record = nat
  type Thread = nat
  type Conn = nat

  // A registration's number also names the handle returned for it.
  type Reg = nat

  // Domain events are deregistered by their callback ID; the close callback of a
  // connection is deregistered by connection and function pointer. Node-device events have no
  // handle: their callback ID is returned to the caller, who deregisters it as a number.
  datatype Kind = ById | ByConn(conn: Conn) | ByNumber

  // What a goroutine or a libvirt thread is in the middle of.
  datatype Pc =
    | Allocated(token: Token, kind: Kind)             // malloc returned
    | Stored(token: Token, record: Record, kind: Kind) // the record is in the table
    | Refused(token: Token)                           // libvirt refused the registration
    | Discarded(token: Token)                         // the record was deleted again
    | FreeEntered(token: Token, reg: Reg)             // libvirt runs the free callback of a registration
    | FreeLoaded(token: Token)                        // which took the record out
    | Delivering(reg: Reg)                            // libvirt delivers an event
    | Delivered(reg: Reg, record: Record)             // which found a record to call
    | Unregistering(handle: Reg)                      // Close found the record and holds its mutex

  datatype Registration = Registration(
    token: Token, record: Record, kind: Kind, closed: bool, deregistered: bool, released: bool)

  datatype Removal = Removal(handle: Reg, target: Reg)

  // dropped has the registrations of close callbacks that libvirt gave up by itself;
  // removals logs which registration each successful Close removed.
  datatype State = State(
    live: set<Token>, records: map<Token, Record>, nextRecord: Record, threads: map<Thread, Pc>,
    regs: map<Reg, Registration>, current: map<Conn, Reg>, disposed: set<Conn>, dropped: set<Reg>,
    removals: seq<Removal>, mallocs: nat, frees: nat, badFree: bool)

  datatype Step =
    | Malloc(t: Thread, token: Token, kind: Kind)
    | StoreRecord(t: Thread)
    | Accept(t: Thread, reg: Reg)
    | Refuse(t: Thread)
    | Delete(t: Thread)
    | Free(t: Thread)
    | EnterFree(t: Thread, reg: Reg)
    | LoadAndDelete(t: Thread)
    | Deliver(t: Thread, reg: Reg)
    | Load(t: Thread)
    | Finish(t: Thread)
    | CheckActive(t: Thread, handle: Reg)
    | Unregister(t: Thread, ok: bool)
    | Drop(reg: Reg)                                  // libvirt gives up a close callback by itself
    | Dispose(conn: Conn)                             // the last reference to a connection went
    | Deregister(reg: Reg)                            // a node-device event, by its number

  const INIT := State({}, map[], 0, map[], map[], map[], {}, {}, [], 0, 0, false)

  function At(s: State, t: Thread, pc: Pc): State {
    s.(threads := s.threads[t := pc])
  }

  function Done(s: State, t: Thread): State {
    s.(threads := s.threads - {t})
  }

  /** The registration libvirt would remove for this handle, if any. */
  function Target(s: State, handle: Reg): Option<Reg>
    requires handle in s.regs
  {
    match s.regs[handle].kind
    case ById =>
      if s.regs[handle].deregistered || s.regs[handle].released then None else Some(handle)
    case ByConn(c) =>
      if c in s.current && c !in s.disposed then Some(s.current[c]) else None
    case ByNumber => None
  }

  // ----- The steps; None when a step is not possible -----

  function DoMalloc(s: State, t: Thread, token: Token, kind: Kind): Option<State> {
    if t in s.threads || token in s.live then None
    else Some(At(s.(live := s.live + {token}, mallocs := s.mallocs + 1), t, Allocated(token, kind)))
  }

  function DoStoreRecord(s: State, t: Thread): Option<State> {
    if t !in s.threads || !s.threads[t].Allocated? then None
    else
      var pc := s.threads[t];
      Some(At(s.(records := s.records[pc.token := s.nextRecord], nextRecord := s.nextRecord + 1),
              t, Stored(pc.token, s.nextRecord, pc.kind)))
  }

  function DoAccept(s: State, t: Thread, reg: Reg): Option<State> {
    if t !in s.threads || !s.threads[t].Stored? || reg in s.regs then None
    else
      var kind := s.threads[t].kind;
      if !kind.ByConn? then Some(Accepted(s, t, reg))
      else if kind.conn in s.current || kind.conn in s.disposed then None
      else Some(Accepted(s, t, reg).(current := s.current[kind.conn := reg]))
  }

  function Accepted(s: State, t: Thread, reg: Reg): State
    requires t in s.threads && s.threads[t].Stored?
  {
    var pc := s.threads[t];
    Done(s.(regs := s.regs[reg := Registration(pc.token, pc.record, pc.kind, false, false, false)]), t)
  }

  function DoRefuse(s: State, t: Thread): Option<State> {
    if t !in s.threads || !s.threads[t].Stored? then None
    else Some(At(s, t, Refused(s.threads[t].token)))
  }

  function DoDelete(s: State, t: Thread): Option<State> {
    if t !in s.threads || !s.threads[t].Refused? then None
    else Some(At(s.(records := s.records - {s.threads[t].token}), t, Discarded(s.threads[t].token)))
  }

  function DoFree(s: State, t: Thread): Option<State> {
    if t !in s.threads || !(s.threads[t].Discarded? || s.threads[t].FreeLoaded?) then None
    else
      var token := s.threads[t].token;
      Some(Done(s.(live := s.live - {token}, frees := s.frees + 1, badFree := s.badFree || token !in s.live), t))
  }

  /** libvirt starts a registration's free callback: at most once, and not while a close callback is installed. */
  function DoEnterFree(s: State, t: Thread, reg: Reg): Option<State> {
    if t in s.threads || reg !in s.regs || s.regs[reg].released || Installed(s, reg) then None
    else Some(At(s.(regs := s.regs[reg := s.regs[reg].(released := true)]), t, FreeEntered(s.regs[reg].token, reg)))
  }

  predicate Installed(s: State, reg: Reg)
    requires reg in s.regs
  {
    s.regs[reg].kind.ByConn? && s.regs[reg].kind.conn in s.current && s.current[s.regs[reg].kind.conn] == reg
  }

  function DoLoadAndDelete(s: State, t: Thread): Option<State> {
    if t !in s.threads || !s.threads[t].FreeEntered? then None
    else
      var token := s.threads[t].token;
      if token in s.records then Some(At(s.(records := s.records - {token}), t, FreeLoaded(token)))
      else Some(Done(s, t))
  }

  /** libvirt starts a delivery, never after it started the free callback. */
  function DoDeliver(s: State, t: Thread, reg: Reg): Option<State> {
    if t in s.threads || reg !in s.regs || s.regs[reg].released then None
    else Some(At(s, t, Delivering(reg)))
  }

  function DoLoad(s: State, t: Thread): Option<State> {
    if t !in s.threads || !s.threads[t].Delivering? || s.threads[t].reg !in s.regs then None
    else
      var reg := s.threads[t].reg;
      var token := s.regs[reg].token;
      if token in s.records then Some(At(s, t, Delivered(reg, s.records[token]))) else Some(Done(s, t))
  }

  function DoFinish(s: State, t: Thread): Option<State> {
    if t !in s.threads || !s.threads[t].Delivered? then None else Some(Done(s, t))
  }

  /** Close up to its look at the table; a handle no longer active is closed without a call. */
  function DoCheckActive(s: State, t: Thread, handle: Reg): Option<State> {
    if t in s.threads || handle !in s.regs || s.regs[handle].closed || s.regs[handle].kind.ByNumber? then None
    else if exists u | u in s.threads :: s.threads[u] == Unregistering(handle) then None
    else if s.regs[handle].token in s.records then Some(At(s, t, Unregistering(handle)))
    else Some(s.(regs := s.regs[handle := s.regs[handle].(closed := true)]))
  }

  /** Close's native call; on failure the handle stays open. */
  function DoUnregister(s: State, t: Thread, ok: bool): Option<State> {
    if t !in s.threads || !s.threads[t].Unregistering? || s.threads[t].handle !in s.regs then None
    else if !ok then Some(Done(s, t))
    else
      var handle := s.threads[t].handle;
      var target := Target(s, handle);
      if target.None? || target.value !in s.regs then None
      else
        var regs := s.regs[target.value := s.regs[target.value].(deregistered := true)];
        var kind := s.regs[handle].kind;
        Some(Done(s.(regs := regs[handle := regs[handle].(closed := true)],
                     removals := s.removals + [Removal(handle, target.value)],
                     current := if kind.ByConn? then s.current - {kind.conn} else s.current), t))
  }

  function DoDrop(s: State, reg: Reg): Option<State> {
    if reg !in s.regs || !Installed(s, reg) then None
    else
      var conn := s.regs[reg].kind.conn;
      Some(s.(current := s.current - {conn}, dropped := s.dropped + {reg}))
  }

  function DoDispose(s: State, c: Conn): Option<State> {
    if c in s.disposed then None else Some(s.(disposed := s.disposed + {c}, current := s.current - {c}))
  }

  /** The native call alone, without a handle or a look at the table. */
  function DoDeregister(s: State, reg: Reg): Option<State> {
    if reg !in s.regs || !s.regs[reg].kind.ByNumber? || s.regs[reg].deregistered || s.regs[reg].released then None
    else Some(s.(regs := s.regs[reg := s.regs[reg].(deregistered := true)]))
  }

  function Next(s: State, e: Step): Option<State> {
    match e
    case Malloc(t, token, kind) => DoMalloc(s, t, token, kind)
    case StoreRecord(t) => DoStoreRecord(s, t)
    case Accept(t, reg) => DoAccept(s, t, reg)
    case Refuse(t) => DoRefuse(s, t)
    case Delete(t) => DoDelete(s, t)
    case Free(t) => DoFree(s, t)
    case EnterFree(t, reg) => DoEnterFree(s, t, reg)
    case LoadAndDelete(t) => DoLoadAndDelete(s, t)
    case Deliver(t, reg) => DoDeliver(s, t, reg)
    case Load(t) => DoLoad(s, t)
    case Finish(t) => DoFinish(s, t)
    case CheckActive(t, handle) => DoCheckActive(s, t, handle)
    case Unregister(t, ok) => DoUnregister(s, t, ok)
    case Drop(reg) => DoDrop(s, reg)
    case Dispose(c) => DoDispose(s, c)
    case Deregister(reg) => DoDeregister(s, reg)
  }

  /** The state after a run, None when some step was not possible. */
  function Run(es: seq<Step>): Option<State> {
    if es == [] then Some(INIT)
    else
      match Run(es[..|es| - 1])
      case None => None
      case Some(s) => Next(s, es[|es| - 1])
  }

  // ----- Ownership of tokens -----

  datatype Owner = ByThread(t: Thread) | ByReg(reg: Reg)

  /** The token an activity is responsible for; a delivery is responsible for none. */
  function Held(pc: Pc): Option<Token> {
    match pc
    case Allocated(token, _) => Some(token)
    case Stored(token, _, _) => Some(token)
    case Refused(token) => Some(token)
    case Discarded(token) => Some(token)
    case FreeEntered(token, _) => Some(token)
    case FreeLoaded(token) => Some(token)
    case _ => None
  }

  /** Between malloc and Store, and between taking the record out and free. */
  predicate Unlisted(pc: Pc) {
    pc.Allocated? || pc.Discarded? || pc.FreeLoaded?
  }

  predicate Listed(s: State, o: Owner) {
    o.ByThread? ==> o.t in s.threads && !Unlisted(s.threads[o.t])
  }

  /** own names the one owner of each live token. */
  ghost predicate OwnedBy(s: State, own: map<Token, Owner>) {
    && own.Keys == s.live
    && ThreadsOwn(s, own)
    && RegistrationsOwn(s, own)
    && (forall token | token in own :: OwnerHolds(s, own[token], token))
    && (forall token :: token in s.records <==> token in own && Listed(s, own[token]))
  }

  ghost predicate ThreadsOwn(s: State, own: map<Token, Owner>) {
    forall t | t in s.threads && Held(s.threads[t]).Some? ::
      Held(s.threads[t]).value in own && own[Held(s.threads[t]).value] == ByThread(t)
  }

  ghost predicate RegistrationsOwn(s: State, own: map<Token, Owner>) {
    forall r | r in s.regs && !s.regs[r].released :: s.regs[r].token in own && own[s.regs[r].token] == ByReg(r)
  }

  predicate OwnerHolds(s: State, o: Owner, token: Token) {
    match o
    case ByThread(t) => t in s.threads && Held(s.threads[t]) == Some(token)
    case ByReg(r) => r in s.regs && !s.regs[r].released && s.regs[r].token == token
  }

  /** Whoever is to find a record under a token finds its own. */
  ghost predicate RecordsMatch(s: State) {
    && (forall t | t in s.threads && s.threads[t].Stored? ::
          s.threads[t].token in s.records && s.records[s.threads[t].token] == s.threads[t].record)
    && (forall r | r in s.regs && !s.regs[r].released ::
          s.regs[r].token in s.records && s.records[s.regs[r].token] == s.regs[r].record)
  }

  /** libvirt's free callback for this registration has not taken the record out yet. */
  predicate Freeing(s: State, r: Reg) {
    exists t | t in s.threads :: s.threads[t].FreeEntered? && s.threads[t].reg == r
  }

  /** No record is under two tokens or of two registrations, and one that was taken out never comes back. */
  ghost predicate RecordsUnique(s: State) {
    && (forall a, b | a in s.records && b in s.records && s.records[a] == s.records[b] :: a == b)
    && (forall a | a in s.records :: s.records[a] < s.nextRecord)
    && (forall r | r in s.regs :: s.regs[r].record < s.nextRecord)
    && (forall r, q | r in s.regs && q in s.regs && s.regs[r].record == s.regs[q].record :: r == q)
    && (forall r | r in s.regs && s.regs[r].released && !Freeing(s, r) ::
          forall a | a in s.records :: s.records[a] != s.regs[r].record)
  }

  ghost predicate FreeingOk(s: State) {
    forall t | t in s.threads && s.threads[t].FreeEntered? ::
      s.threads[t].reg in s.regs && IsBeingFreed(s, s.threads[t].token, s.threads[t].reg)
  }

  predicate IsBeingFreed(s: State, token: Token, r: Reg)
    requires r in s.regs
  {
    && s.regs[r].released && s.regs[r].token == token
    && token in s.records && s.records[token] == s.regs[r].record
  }

  ghost predicate Counted(s: State) {
    !s.badFree && s.frees + |s.live| == s.mallocs
  }

  // ----- Each step passes ownership on -----

  /** s' holds the same tokens as s, in the same hands. */
  ghost predicate SameTokens(s: State, s': State) {
    && s'.live == s.live && s'.records == s.records
    && (forall t | t in s.threads && Held(s.threads[t]).Some? :: t in s'.threads && s'.threads[t] == s.threads[t])
    && (forall t | t in s'.threads && Held(s'.threads[t]).Some? :: t in s.threads && s'.threads[t] == s.threads[t])
    && s'.regs.Keys == s.regs.Keys
    && (forall r | r in s.regs :: s'.regs[r].token == s.regs[r].token && s'.regs[r].released == s.regs[r].released
                               && s'.regs[r].record == s.regs[r].record)
  }

  lemma SameTokensPass(s: State, s': State, own: map<Token, Owner>)
    requires OwnedBy(s, own) && SameTokens(s, s')
    ensures OwnedBy(s', own)
  {
  }

  lemma MallocPasses(s: State, own: map<Token, Owner>, t: Thread, token: Token, kind: Kind)
    requires OwnedBy(s, own) && DoMalloc(s, t, token, kind).Some?
    ensures OwnedBy(DoMalloc(s, t, token, kind).value, own[token := ByThread(t)])
  {
  }

  lemma StorePasses(s: State, own: map<Token, Owner>, t: Thread)
    requires OwnedBy(s, own) && DoStoreRecord(s, t).Some?
    ensures OwnedBy(DoStoreRecord(s, t).value, own)
  {
  }

  lemma AcceptPasses(s: State, own: map<Token, Owner>, t: Thread, reg: Reg)
    requires OwnedBy(s, own) && DoAccept(s, t, reg).Some?
    ensures OwnedBy(DoAccept(s, t, reg).value, own[s.threads[t].token := ByReg(reg)])
  {
    AcceptedPasses(s, own, t, reg);
    SameTokensPass(Accepted(s, t, reg), DoAccept(s, t, reg).value, own[s.threads[t].token := ByReg(reg)]);
  }

  lemma AcceptedPasses(s: State, own: map<Token, Owner>, t: Thread, reg: Reg)
    requires OwnedBy(s, own) && t in s.threads && s.threads[t].Stored? && reg !in s.regs
    ensures OwnedBy(Accepted(s, t, reg), own[s.threads[t].token := ByReg(reg)])
  {
    var s', own' := Accepted(s, t, reg), own[s.threads[t].token := ByReg(reg)];
    assert ThreadsOwn(s', own') && RegistrationsOwn(s', own') by { AcceptedHands(s, own, t, reg); }
    hide ThreadsOwn, RegistrationsOwn;
    AcceptedListed(s, own, t, reg);
  }

  lemma AcceptedHands(s: State, own: map<Token, Owner>, t: Thread, reg: Reg)
    requires OwnedBy(s, own) && t in s.threads && s.threads[t].Stored? && reg !in s.regs
    ensures var s', own' := Accepted(s, t, reg), own[s.threads[t].token := ByReg(reg)];
      && ThreadsOwn(s', own') && RegistrationsOwn(s', own')
      && forall token | token in own' :: OwnerHolds(s', own'[token], token)
  {
    hide Listed;
  }

  lemma AcceptedListed(s: State, own: map<Token, Owner>, t: Thread, reg: Reg)
    requires OwnedBy(s, own) && t in s.threads && s.threads[t].Stored? && reg !in s.regs
    ensures var s', own' := Accepted(s, t, reg), own[s.threads[t].token := ByReg(reg)];
      && own'.Keys == s'.live
      && (forall token | token in own' :: OwnerHolds(s', own'[token], token))
      && (forall token :: token in s'.records <==> token in own' && Listed(s', own'[token]))
  {
    AcceptedHands(s, own, t, reg);
    hide RegistrationsOwn;
  }

  lemma RefusePasses(s: State, own: map<Token, Owner>, t: Thread)
    requires OwnedBy(s, own) && DoRefuse(s, t).Some?
    ensures OwnedBy(DoRefuse(s, t).value, own)
  {
  }

  lemma DeletePasses(s: State, own: map<Token, Owner>, t: Thread)
    requires OwnedBy(s, own) && DoDelete(s, t).Some?
    ensures OwnedBy(DoDelete(s, t).value, own)
  {
  }

  lemma FreePasses(s: State, own: map<Token, Owner>, t: Thread)
    requires OwnedBy(s, own) && DoFree(s, t).Some?
    ensures OwnedBy(DoFree(s, t).value, own - {s.threads[t].token})
  {
    var s', own' := DoFree(s, t).value, own - {s.threads[t].token};
    assert ThreadsOwn(s', own') && RegistrationsOwn(s', own') by { FreeHands(s, own, t); }
    hide RegistrationsOwn;
    assert own[s.threads[t].token] == ByThread(t) by { assert Held(s.threads[t]) == Some(s.threads[t].token); }
  }

  lemma FreeHands(s: State, own: map<Token, Owner>, t: Thread)
    requires OwnedBy(s, own) && DoFree(s, t).Some?
    ensures var s', own' := DoFree(s, t).value, own - {s.threads[t].token};
      ThreadsOwn(s', own') && RegistrationsOwn(s', own')
  {
    hide Listed, OwnerHolds;
  }

  lemma EnterFreePasses(s: State, own: map<Token, Owner>, t: Thread, reg: Reg)
    requires OwnedBy(s, own) && DoEnterFree(s, t, reg).Some?
    ensures OwnedBy(DoEnterFree(s, t, reg).value, own[s.regs[reg].token := ByThread(t)])
  {
    var s', own' := DoEnterFree(s, t, reg).value, own[s.regs[reg].token := ByThread(t)];
    assert ThreadsOwn(s', own') && RegistrationsOwn(s', own') by { EnterFreeHands(s, own, t, reg); }
    hide ThreadsOwn, RegistrationsOwn, Installed;
    EnterFreeListed(s, own, t, reg);
  }

  lemma EnterFreeHands(s: State, own: map<Token, Owner>, t: Thread, reg: Reg)
    requires OwnedBy(s, own) && DoEnterFree(s, t, reg).Some?
    ensures var s', own' := DoEnterFree(s, t, reg).value, own[s.regs[reg].token := ByThread(t)];
      && ThreadsOwn(s', own') && RegistrationsOwn(s', own')
      && forall token | token in own' :: OwnerHolds(s', own'[token], token)
  {
    hide Listed, Installed;
  }

  lemma EnterFreeListed(s: State, own: map<Token, Owner>, t: Thread, reg: Reg)
    requires OwnedBy(s, own) && DoEnterFree(s, t, reg).Some?
    ensures var s', own' := DoEnterFree(s, t, reg).value, own[s.regs[reg].token := ByThread(t)];
      && own'.Keys == s'.live
      && (forall token | token in own' :: OwnerHolds(s', own'[token], token))
      && (forall token :: token in s'.records <==> token in own' && Listed(s', own'[token]))
  {
    EnterFreeHands(s, own, t, reg);
    hide ThreadsOwn, Installed;
  }

  lemma LoadAndDeletePasses(s: State, own: map<Token, Owner>, t: Thread)
    requires OwnedBy(s, own) && DoLoadAndDelete(s, t).Some?
    ensures OwnedBy(DoLoadAndDelete(s, t).value, own)
  {
  }

  ghost predicate TokensOk(s: State) {
    (exists own :: OwnedBy(s, own)) && RecordsMatch(s) && FreeingOk(s) && RecordsUnique(s) && Counted(s)
  }

  /** The owners after a step. */
  function Passed(s: State, e: Step, own: map<Token, Owner>): map<Token, Owner>
    requires Next(s, e).Some?
  {
    match e
    case Malloc(t, token, _) => own[token := ByThread(t)]
    case Accept(t, reg) => own[s.threads[t].token := ByReg(reg)]
    case Free(t) => own - {s.threads[t].token}
    case EnterFree(t, reg) => own[s.regs[reg].token := ByThread(t)]
    case _ => own
  }

  /** The steps of a delivery, of Close and of a connection move no token. */
  predicate MovesNoToken(e: Step) {
    e.Deliver? || e.Load? || e.Finish? || e.CheckActive? || e.Unregister? || e.Drop? || e.Dispose?
    || e.Deregister?
  }

  lemma TokensStay(s: State, e: Step)
    requires MovesNoToken(e) && Next(s, e).Some?
    ensures SameTokens(s, Next(s, e).value)
  {
    hide DoUnregister, DoCheckActive, DoLoad;
    if e.Unregister? {
      UnregisterMovesNoToken(s, e.t, e.ok);
    } else if e.CheckActive? {
      CheckActiveMovesNoToken(s, e.t, e.handle);
    } else if e.Load? {
      LoadMovesNoToken(s, e.t);
    }
  }

  lemma CheckActiveMovesNoToken(s: State, t: Thread, handle: Reg)
    requires DoCheckActive(s, t, handle).Some?
    ensures SameTokens(s, DoCheckActive(s, t, handle).value)
  {
  }

  lemma LoadMovesNoToken(s: State, t: Thread)
    requires DoLoad(s, t).Some?
    ensures SameTokens(s, DoLoad(s, t).value)
  {
  }

  lemma UnregisterMovesNoToken(s: State, t: Thread, ok: bool)
    requires DoUnregister(s, t, ok).Some?
    ensures SameTokens(s, DoUnregister(s, t, ok).value)
  {
  }

  lemma OwnersPass(s: State, own: map<Token, Owner>, e: Step)
    requires OwnedBy(s, own) && Next(s, e).Some?
    ensures OwnedBy(Next(s, e).value, Passed(s, e, own))
  {
    hide OwnedBy, SameTokens, DoCheckActive, DoUnregister, DoDrop, DoDispose, DoDeregister, DoDeliver, DoLoad, DoFinish;
    match e
    case Malloc(t, token, kind) => MallocPasses(s, own, t, token, kind);
    case StoreRecord(t) => StorePasses(s, own, t);
    case Accept(t, reg) => AcceptPasses(s, own, t, reg);
    case Refuse(t) => RefusePasses(s, own, t);
    case Delete(t) => DeletePasses(s, own, t);
    case Free(t) => FreePasses(s, own, t);
    case EnterFree(t, reg) => EnterFreePasses(s, own, t, reg);
    case LoadAndDelete(t) => LoadAndDeletePasses(s, own, t);
    case _ =>
      TokensStay(s, e);
      SameTokensPass(s, Next(s, e).value, own);
  }

  lemma RecordsStillMatch(s: State, own: map<Token, Owner>, e: Step)
    requires OwnedBy(s, own) && RecordsMatch(s) && Next(s, e).Some?
    ensures RecordsMatch(Next(s, e).value)
  {
    hide DoCheckActive, DoUnregister, DoDrop, DoDispose, DoDeregister, DoDeliver, DoLoad, DoFinish, DoDelete,
      DoLoadAndDelete;
    if MovesNoToken(e) {
      TokensStay(s, e);
    } else if e.Delete? {
      RecordsMatchDelete(s, own, e.t);
    } else if e.LoadAndDelete? {
      RecordsMatchLoadAndDelete(s, own, e.t);
    }
  }

  lemma RecordsMatchDelete(s: State, own: map<Token, Owner>, t: Thread)
    requires OwnedBy(s, own) && RecordsMatch(s) && DoDelete(s, t).Some?
    ensures RecordsMatch(DoDelete(s, t).value)
  {
    hide Listed, OwnerHolds;
  }

  lemma RecordsMatchLoadAndDelete(s: State, own: map<Token, Owner>, t: Thread)
    requires OwnedBy(s, own) && RecordsMatch(s) && DoLoadAndDelete(s, t).Some?
    ensures RecordsMatch(DoLoadAndDelete(s, t).value)
  {
    hide Listed, OwnerHolds;
  }

  lemma StillCounted(s: State, own: map<Token, Owner>, e: Step)
    requires OwnedBy(s, own) && Counted(s) && Next(s, e).Some?
    ensures Counted(Next(s, e).value)
  {
    if e.Free? {
      hide DoFree, OwnedBy;
      FreeCounted(s, own, e.t);
    } else if MovesNoToken(e) {
      hide OwnedBy, SameTokens, DoCheckActive, DoUnregister, DoLoad, DoDeliver, DoFinish;
      CountsStay(s, e);
    } else {
      hide OwnedBy, DoFree;
    }
  }

  lemma FreeCounted(s: State, own: map<Token, Owner>, t: Thread)
    requires OwnedBy(s, own) && Counted(s) && DoFree(s, t).Some?
    ensures Counted(DoFree(s, t).value)
  {
    HeldIsLive(s, own, t);
    hide OwnedBy;
  }

  lemma CountsStay(s: State, e: Step)
    requires MovesNoToken(e) && Next(s, e).Some?
    ensures var s' := Next(s, e).value;
      s'.live == s.live && s'.mallocs == s.mallocs && s'.frees == s.frees && s'.badFree == s.badFree
  {
  }

  lemma HeldIsLive(s: State, own: map<Token, Owner>, t: Thread)
    requires OwnedBy(s, own) && t in s.threads && Held(s.threads[t]).Some?
    ensures Held(s.threads[t]).value in s.live
  {
  }

  lemma FreeingStaysOk(s: State, own: map<Token, Owner>, e: Step)
    requires OwnedBy(s, own) && RecordsMatch(s) && FreeingOk(s) && Next(s, e).Some?
    ensures FreeingOk(Next(s, e).value)
  {
    hide DoCheckActive, DoUnregister, DoDrop, DoDispose, DoDeregister, DoDeliver, DoLoad, DoFinish;
    if MovesNoToken(e) {
      TokensStay(s, e);
    }
  }

  /** Nothing about records changes. */
  ghost predicate SameRecords(s: State, s': State) {
    && s'.records == s.records && s'.nextRecord == s.nextRecord && s'.regs.Keys == s.regs.Keys
    && (forall r | r in s.regs :: s'.regs[r].record == s.regs[r].record && s'.regs[r].released == s.regs[r].released)
    && (forall r :: Freeing(s', r) <==> Freeing(s, r))
  }

  /** The same free callbacks are running. */
  lemma FreeingFollows(s: State, s': State)
    requires forall t | t in s.threads && s.threads[t].FreeEntered? :: t in s'.threads && s'.threads[t] == s.threads[t]
    requires forall t | t in s'.threads && s'.threads[t].FreeEntered? :: t in s.threads && s'.threads[t] == s.threads[t]
    ensures forall r :: Freeing(s', r) <==> Freeing(s, r)
  {
    forall r | Freeing(s, r) ensures Freeing(s', r) {
      var t :| t in s.threads && s.threads[t].FreeEntered? && s.threads[t].reg == r;
      assert s'.threads[t] == s.threads[t];
    }
    forall r | Freeing(s', r) ensures Freeing(s, r) {
      var t :| t in s'.threads && s'.threads[t].FreeEntered? && s'.threads[t].reg == r;
      assert s'.threads[t] == s.threads[t];
    }
  }

  lemma SameRecordsUnique(s: State, s': State)
    requires RecordsUnique(s) && SameRecords(s, s')
    ensures RecordsUnique(s')
  {
    hide Freeing;
  }

  lemma QuietRecords(s: State, e: Step)
    requires (MovesNoToken(e) || e.Malloc? || e.Refuse? || e.Free?) && Next(s, e).Some?
    ensures SameRecords(s, Next(s, e).value)
  {
    hide Freeing;
    if MovesNoToken(e) {
      hide DoCheckActive, DoUnregister, DoDrop, DoDispose, DoDeregister, DoDeliver, DoLoad, DoFinish;
      TokensStay(s, e);
      NoNewRecord(s, e);
    }
    FreeingFollows(s, Next(s, e).value);
  }

  lemma NoNewRecord(s: State, e: Step)
    requires MovesNoToken(e) && Next(s, e).Some?
    ensures Next(s, e).value.nextRecord == s.nextRecord
  {
  }

  lemma RecordsStayUnique(s: State, own: map<Token, Owner>, e: Step)
    requires OwnedBy(s, own) && RecordsMatch(s) && FreeingOk(s) && RecordsUnique(s) && Next(s, e).Some?
    ensures RecordsUnique(Next(s, e).value)
  {
    hide OwnedBy, RecordsMatch, FreeingOk, RecordsUnique, SameRecords, DoMalloc, DoStoreRecord, DoAccept, DoRefuse,
      DoDelete, DoFree, DoEnterFree, DoLoadAndDelete, DoDeliver, DoLoad, DoFinish, DoCheckActive, DoUnregister,
      DoDrop, DoDispose, DoDeregister;
    match e
    case StoreRecord(t) => StoreKeepsUnique(s, t);
    case Accept(t, reg) => AcceptKeepsUnique(s, own, t, reg);
    case Delete(t) => DeleteKeepsUnique(s, t);
    case EnterFree(t, reg) => EnterFreeKeepsUnique(s, t, reg);
    case LoadAndDelete(t) => LoadAndDeleteKeepsUnique(s, t);
    case _ =>
      QuietRecords(s, e);
      SameRecordsUnique(s, Next(s, e).value);
  }

  lemma StoreKeepsUnique(s: State, t: Thread)
    requires RecordsUnique(s) && DoStoreRecord(s, t).Some?
    ensures RecordsUnique(DoStoreRecord(s, t).value)
  {
    hide Freeing;
    FreeingFollows(s, DoStoreRecord(s, t).value);
  }

  lemma AcceptKeepsUnique(s: State, own: map<Token, Owner>, t: Thread, reg: Reg)
    requires OwnedBy(s, own) && RecordsMatch(s) && FreeingOk(s) && RecordsUnique(s) && DoAccept(s, t, reg).Some?
    ensures RecordsUnique(DoAccept(s, t, reg).value)
  {
    hide OwnedBy, Freeing, FreeingOk, RecordsUnique;
    forall r | r in s.regs ensures s.regs[r].record != s.threads[t].record {
      FreshRecord(s, own, t, r);
    }
    FreeingFollows(s, DoAccept(s, t, reg).value);
    FreshKeepsUnique(s, t, reg);
  }

  lemma FreshKeepsUnique(s: State, t: Thread, reg: Reg)
    requires RecordsMatch(s) && RecordsUnique(s) && DoAccept(s, t, reg).Some?
    requires forall r | r in s.regs :: s.regs[r].record != s.threads[t].record
    requires forall r :: Freeing(DoAccept(s, t, reg).value, r) <==> Freeing(s, r)
    ensures RecordsUnique(DoAccept(s, t, reg).value)
  {
    hide Freeing;
  }

  /** A record stored for a new registration is no earlier registration's. */
  lemma FreshRecord(s: State, own: map<Token, Owner>, t: Thread, r: Reg)
    requires OwnedBy(s, own) && RecordsMatch(s) && FreeingOk(s) && RecordsUnique(s)
    requires t in s.threads && s.threads[t].Stored? && r in s.regs
    ensures s.regs[r].record != s.threads[t].record
  {
    assert own[s.threads[t].token] == ByThread(t) by { assert Held(s.threads[t]) == Some(s.threads[t].token); }
    if u :| u in s.threads && s.threads[u].FreeEntered? && s.threads[u].reg == r {
      assert Held(s.threads[u]) == Some(s.threads[u].token);
      assert IsBeingFreed(s, s.threads[u].token, r);
    } else {
      assert !Freeing(s, r);
    }
  }

  lemma DeleteKeepsUnique(s: State, t: Thread)
    requires RecordsUnique(s) && DoDelete(s, t).Some?
    ensures RecordsUnique(DoDelete(s, t).value)
  {
    hide Freeing;
    FreeingFollows(s, DoDelete(s, t).value);
  }

  lemma EnterFreeKeepsUnique(s: State, t: Thread, reg: Reg)
    requires RecordsUnique(s) && DoEnterFree(s, t, reg).Some?
    ensures RecordsUnique(DoEnterFree(s, t, reg).value)
  {
    var s' := DoEnterFree(s, t, reg).value;
    assert Freeing(s', reg) by { assert s'.threads[t].FreeEntered?; }
    forall r | Freeing(s, r) ensures Freeing(s', r) {
      var u :| u in s.threads && s.threads[u].FreeEntered? && s.threads[u].reg == r;
      assert s'.threads[u] == s.threads[u];
    }
    hide Freeing;
  }

  /** The record that leaves the table is that of the registration being freed. */
  lemma LoadAndDeleteKeepsUnique(s: State, t: Thread)
    requires FreeingOk(s) && RecordsUnique(s) && DoLoadAndDelete(s, t).Some?
    ensures RecordsUnique(DoLoadAndDelete(s, t).value)
  {
    var s', reg := DoLoadAndDelete(s, t).value, s.threads[t].reg;
    assert IsBeingFreed(s, s.threads[t].token, reg);
    forall r | Freeing(s, r) && r != reg ensures Freeing(s', r) {
      var u :| u in s.threads && s.threads[u].FreeEntered? && s.threads[u].reg == r;
      assert s'.threads[u] == s.threads[u];
    }
    hide Freeing, FreeingOk;
  }

  lemma TokensStayOk(s: State, e: Step)
    requires TokensOk(s) && Next(s, e).Some?
    ensures TokensOk(Next(s, e).value)
  {
    hide Next, OwnedBy, RecordsMatch, FreeingOk, RecordsUnique, Counted;
    var own :| OwnedBy(s, own);
    OwnersPass(s, own, e);
    RecordsStillMatch(s, own, e);
    FreeingStaysOk(s, own, e);
    RecordsStayUnique(s, own, e);
    StillCounted(s, own, e);
  }

  // ----- Handles and what their Close removes -----

  /** Each close callback of a live connection is installed until it is removed or given up. */
  ghost predicate CurrentOk(s: State) {
    && (forall c | c in s.current ::
          c !in s.disposed && s.current[c] in s.regs && s.regs[s.current[c]].kind == ByConn(c)
          && !s.regs[s.current[c]].deregistered && !s.regs[s.current[c]].released && s.current[c] !in s.dropped)
    && (forall r | r in s.regs && s.regs[r].kind.ByConn? ::
          Installed(s, r) || s.regs[r].deregistered || s.regs[r].kind.conn in s.disposed || r in s.dropped)
    && (forall r | r in s.dropped :: r in s.regs && s.regs[r].kind.ByConn?)
  }

  /** A handle being closed is open, and only one Close at a time holds its mutex; a delivery is some registration's. */
  ghost predicate ClosingOk(s: State) {
    && (forall t | t in s.threads && s.threads[t].Unregistering? ::
          s.threads[t].handle in s.regs && !s.regs[s.threads[t].handle].closed
          && (forall u | u in s.threads && s.threads[u] == s.threads[t] :: u == t))
    && (forall t | t in s.threads && s.threads[t].Delivering? :: s.threads[t].reg in s.regs)
  }

  ghost predicate ClosedOk(s: State) {
    forall h | h in s.regs ::
      && (s.regs[h].closed ==> s.regs[h].deregistered || s.regs[h].released || h in s.dropped)
      && (s.regs[h].kind.ById? && s.regs[h].deregistered ==> s.regs[h].closed)
  }

  predicate RemovedIn(removals: seq<Removal>, r: Reg) {
    exists removal | removal in removals :: removal.target == r
  }

  /** Removal i is of the handle's own registration unless that was dropped, or removed before. */
  predicate RemovesOwn(removals: seq<Removal>, dropped: set<Reg>, i: nat)
    requires i < |removals|
  {
    var h := removals[i].handle;
    removals[i].target == h <==> h !in dropped && !RemovedIn(removals[..i], h)
  }

  ghost predicate LogOk(removals: seq<Removal>, dropped: set<Reg>) {
    && (forall i, j | 0 <= i < j < |removals| ::
          removals[i].handle != removals[j].handle && removals[i].target != removals[j].target)
    && (forall i | 0 <= i < |removals| :: RemovesOwn(removals, dropped, i))
  }

  /** The log has a closed handle and a registration that is gone, and misses no registration that is. */
  ghost predicate LogFits(s: State) {
    && (forall removal | removal in s.removals ::
          removal.handle in s.regs && s.regs[removal.handle].closed
          && removal.target in s.regs && s.regs[removal.target].deregistered)
    && (forall r | r in s.regs && s.regs[r].deregistered && !s.regs[r].kind.ByNumber? :: RemovedIn(s.removals, r))
  }

  ghost predicate RemovalsOk(s: State) {
    LogOk(s.removals, s.dropped) && LogFits(s)
  }

  /** The steps that change neither a handle nor what is installed. */
  predicate MovesNoHandle(e: Step) {
    e.Malloc? || e.StoreRecord? || e.Refuse? || e.Delete? || e.Free? || e.LoadAndDelete?
    || e.Deliver? || e.Load? || e.Finish?
  }

  lemma HandlesStay(s: State, e: Step)
    requires MovesNoHandle(e) && Next(s, e).Some?
    ensures var s' := Next(s, e).value;
      && s'.regs == s.regs && s'.current == s.current && s'.disposed == s.disposed
      && s'.dropped == s.dropped && s'.removals == s.removals
  {
  }

  lemma CurrentStaysOk(s: State, e: Step)
    requires CurrentOk(s) && ClosingOk(s) && Next(s, e).Some?
    ensures CurrentOk(Next(s, e).value)
  {
    if MovesNoHandle(e) {
      hide Next;
      HandlesStay(s, e);
    } else if e.Accept? {
      AcceptInstalls(s, e.t, e.reg);
    } else if e.Unregister? {
      UnregisterUninstalls(s, e.t, e.ok);
    } else {
      OtherCurrent(s, e);
    }
  }

  lemma AcceptInstalls(s: State, t: Thread, reg: Reg)
    requires CurrentOk(s) && DoAccept(s, t, reg).Some?
    ensures CurrentOk(DoAccept(s, t, reg).value)
  {
    hide CurrentOk;
    if s.threads[t].kind.ByConn? {
      AcceptsClose(s, t, reg);
    } else {
      AcceptsOther(s, t, reg);
    }
  }

  lemma AcceptsClose(s: State, t: Thread, reg: Reg)
    requires CurrentOk(s) && DoAccept(s, t, reg).Some? && s.threads[t].kind.ByConn?
    ensures CurrentOk(DoAccept(s, t, reg).value)
  {
  }

  lemma AcceptsOther(s: State, t: Thread, reg: Reg)
    requires CurrentOk(s) && DoAccept(s, t, reg).Some? && !s.threads[t].kind.ByConn?
    ensures CurrentOk(DoAccept(s, t, reg).value)
  {
    assert DoAccept(s, t, reg).value == Accepted(s, t, reg);
  }

  lemma UnregisterUninstalls(s: State, t: Thread, ok: bool)
    requires CurrentOk(s) && ClosingOk(s) && DoUnregister(s, t, ok).Some?
    ensures CurrentOk(DoUnregister(s, t, ok).value)
  {
    hide ClosingOk;
    if ok {
      UninstallsCurrent(s, t);
    }
  }

  lemma UninstallsCurrent(s: State, t: Thread)
    requires CurrentOk(s) && DoUnregister(s, t, true).Some?
    ensures CurrentOk(DoUnregister(s, t, true).value)
  {
  }

  /** A registration keeps its kind, and what was done to it. */
  predicate Follows(r: Registration, r': Registration) {
    && r'.kind == r.kind && r'.token == r.token && r'.record == r.record
    && (r.closed ==> r'.closed) && (r.deregistered ==> r'.deregistered) && (r.released ==> r'.released)
  }

  /** Only one registration is marked, and neither installed nor removed. */
  ghost predicate Marks(s: State, s': State, reg: Reg) {
    && reg in s.regs && reg in s'.regs && s'.regs == s.regs[reg := s'.regs[reg]]
    && Follows(s.regs[reg], s'.regs[reg])
    && (s'.regs[reg].deregistered == s.regs[reg].deregistered || s.regs[reg].kind.ByNumber?)
    && (s'.regs[reg].released == s.regs[reg].released || !Installed(s, reg))
    && s'.current == s.current && s'.disposed == s.disposed && s'.dropped == s.dropped && s'.removals == s.removals
  }

  lemma EnterFreeMarks(s: State, t: Thread, reg: Reg)
    requires DoEnterFree(s, t, reg).Some?
    ensures Marks(s, DoEnterFree(s, t, reg).value, reg)
  {
  }

  lemma CheckActiveMarks(s: State, t: Thread, handle: Reg)
    requires DoCheckActive(s, t, handle).Some?
    ensures Marks(s, DoCheckActive(s, t, handle).value, handle)
  {
  }

  lemma DeregisterMarks(s: State, reg: Reg)
    requires DoDeregister(s, reg).Some?
    ensures Marks(s, DoDeregister(s, reg).value, reg)
  {
  }

  lemma OtherCurrent(s: State, e: Step)
    requires CurrentOk(s) && Next(s, e).Some?
    requires e.EnterFree? || e.CheckActive? || e.Drop? || e.Dispose? || e.Deregister?
    ensures CurrentOk(Next(s, e).value)
  {
    hide DoDrop, DoDispose, DoEnterFree, DoCheckActive, DoDeregister, Marks, CurrentOk;
    var s' := Next(s, e).value;
    match e
    case EnterFree(t, reg) => EnterFreeMarks(s, t, reg); MarkKeepsCurrent(s, s', reg);
    case CheckActive(t, handle) => CheckActiveMarks(s, t, handle); MarkKeepsCurrent(s, s', handle);
    case Drop(reg) => DropUninstalls(s, reg);
    case Dispose(c) => DisposeUninstalls(s, c);
    case Deregister(reg) => DeregisterMarks(s, reg); MarkKeepsCurrent(s, s', reg);
  }

  lemma MarkKeepsCurrent(s: State, s': State, reg: Reg)
    requires CurrentOk(s) && Marks(s, s', reg)
    ensures CurrentOk(s')
  {
  }

  lemma MarkKeepsLog(s: State, s': State, reg: Reg)
    requires LogFits(s) && Marks(s, s', reg)
    ensures LogFits(s')
  {
    hide RemovedIn;
  }

  lemma DropUninstalls(s: State, reg: Reg)
    requires CurrentOk(s) && DoDrop(s, reg).Some?
    ensures CurrentOk(DoDrop(s, reg).value)
  {
  }

  lemma DisposeUninstalls(s: State, c: Conn)
    requires CurrentOk(s) && DoDispose(s, c).Some?
    ensures CurrentOk(DoDispose(s, c).value)
  {
  }

  /** No Close begins, and no delivery. */
  ghost predicate NothingBegins(s: State, s': State) {
    && (forall t | t in s'.threads && (s'.threads[t].Unregistering? || s'.threads[t].Delivering?) ::
          t in s.threads && s'.threads[t] == s.threads[t])
    && (forall r | r in s.regs :: r in s'.regs && s'.regs[r].closed == s.regs[r].closed)
  }

  lemma NothingBegun(s: State, e: Step)
    requires !e.Deliver? && !e.CheckActive? && !e.Unregister? && Next(s, e).Some?
    ensures NothingBegins(s, Next(s, e).value)
  {
    hide DoAccept, DoEnterFree;
    if e.Accept? {
      AcceptBegins(s, e.t, e.reg);
    } else if e.EnterFree? {
      EnterFreeBegins(s, e.t, e.reg);
    }
  }

  lemma AcceptBegins(s: State, t: Thread, reg: Reg)
    requires DoAccept(s, t, reg).Some?
    ensures NothingBegins(s, DoAccept(s, t, reg).value)
  {
  }

  lemma EnterFreeBegins(s: State, t: Thread, reg: Reg)
    requires DoEnterFree(s, t, reg).Some?
    ensures NothingBegins(s, DoEnterFree(s, t, reg).value)
  {
  }

  lemma ClosingStaysOk(s: State, e: Step)
    requires ClosingOk(s) && Next(s, e).Some?
    ensures ClosingOk(Next(s, e).value)
  {
    hide DoCheckActive, DoUnregister, DoDeliver, ClosingOk, NothingBegins;
    if e.CheckActive? {
      CheckBeginsClosing(s, e.t, e.handle);
    } else if e.Unregister? {
      UnregisterEndsClosing(s, e.t, e.ok);
    } else if e.Deliver? {
      DeliverBegins(s, e.t, e.reg);
    } else {
      hide Next;
      NothingBegun(s, e);
      StillClosing(s, Next(s, e).value);
    }
  }

  lemma StillClosing(s: State, s': State)
    requires ClosingOk(s) && NothingBegins(s, s')
    ensures ClosingOk(s')
  {
  }

  lemma UnregisterEndsClosing(s: State, t: Thread, ok: bool)
    requires ClosingOk(s) && DoUnregister(s, t, ok).Some?
    ensures ClosingOk(DoUnregister(s, t, ok).value)
  {
  }

  lemma DeliverBegins(s: State, t: Thread, reg: Reg)
    requires ClosingOk(s) && DoDeliver(s, t, reg).Some?
    ensures ClosingOk(DoDeliver(s, t, reg).value)
  {
  }

  lemma CheckBeginsClosing(s: State, t: Thread, handle: Reg)
    requires ClosingOk(s) && DoCheckActive(s, t, handle).Some?
    ensures ClosingOk(DoCheckActive(s, t, handle).value)
  {
  }

  lemma ClosedStaysOk(s: State, e: Step)
    requires CurrentOk(s) && ClosingOk(s) && ClosedOk(s) && RecordsMatch(s) && Next(s, e).Some?
    ensures ClosedOk(Next(s, e).value)
  {
    if MovesNoHandle(e) {
      hide Next;
      HandlesStay(s, e);
    } else if e.Unregister? {
      UnregisterCloses(s, e.t, e.ok);
    }
  }

  lemma UnregisterCloses(s: State, t: Thread, ok: bool)
    requires CurrentOk(s) && ClosingOk(s) && ClosedOk(s) && DoUnregister(s, t, ok).Some?
    ensures ClosedOk(DoUnregister(s, t, ok).value)
  {
  }

  lemma LogAppends(removals: seq<Removal>, dropped: set<Reg>, removal: Removal)
    requires LogOk(removals, dropped)
    requires forall entry | entry in removals :: entry.handle != removal.handle && entry.target != removal.target
    requires removal.target == removal.handle <==> removal.handle !in dropped && !RemovedIn(removals, removal.handle)
    ensures LogOk(removals + [removal], dropped)
  {
    var more, n := removals + [removal], |removals|;
    assert more[..n] == removals;
    forall i | 0 <= i < n ensures RemovesOwn(more, dropped, i) {
      assert more[..i] == removals[..i] && RemovesOwn(removals, dropped, i);
    }
  }

  /** A registration never removed can be dropped without contradicting a removal. */
  lemma LogDrops(removals: seq<Removal>, dropped: set<Reg>, reg: Reg)
    requires LogOk(removals, dropped) && reg !in dropped && !RemovedIn(removals, reg)
    ensures LogOk(removals, dropped + {reg})
  {
    forall i | 0 <= i < |removals| ensures RemovesOwn(removals, dropped + {reg}, i) {
      assert RemovesOwn(removals, dropped, i) && removals[i] in removals;
      assert forall entry | entry in removals[..i] :: entry in removals;
    }
  }

  lemma RemovalsStayOk(s: State, e: Step)
    requires CurrentOk(s) && ClosingOk(s) && RemovalsOk(s) && Next(s, e).Some?
    ensures RemovalsOk(Next(s, e).value)
  {
    if MovesNoHandle(e) {
      hide Next;
      HandlesStay(s, e);
    } else if e.Unregister? {
      UnregisterRemoves(s, e.t, e.ok);
    } else if e.Drop? {
      DropRemoves(s, e.reg);
    } else {
      OtherRemovals(s, e);
    }
  }

  lemma OtherRemovals(s: State, e: Step)
    requires RemovalsOk(s) && Next(s, e).Some?
    requires e.Accept? || e.EnterFree? || e.CheckActive? || e.Dispose? || e.Deregister?
    ensures RemovalsOk(Next(s, e).value)
  {
    hide DoAccept, DoDispose, DoEnterFree, DoCheckActive, DoDeregister, LogOk, LogFits;
    var s' := Next(s, e).value;
    match e
    case Accept(t, reg) => AcceptKeepsLog(s, t, reg);
    case EnterFree(t, reg) => EnterFreeMarks(s, t, reg); MarkKeepsLog(s, s', reg);
    case CheckActive(t, handle) => CheckActiveMarks(s, t, handle); MarkKeepsLog(s, s', handle);
    case Dispose(c) => DisposeKeepsLog(s, c);
    case Deregister(reg) => DeregisterMarks(s, reg); MarkKeepsLog(s, s', reg);
  }

  lemma AcceptKeepsLog(s: State, t: Thread, reg: Reg)
    requires LogFits(s) && DoAccept(s, t, reg).Some?
    ensures var s' := DoAccept(s, t, reg).value; LogFits(s') && s'.removals == s.removals && s'.dropped == s.dropped
  {
    hide RemovedIn;
  }

  lemma DisposeKeepsLog(s: State, c: Conn)
    requires LogFits(s) && DoDispose(s, c).Some?
    ensures var s' := DoDispose(s, c).value; LogFits(s') && s'.removals == s.removals && s'.dropped == s.dropped
  {
    hide RemovedIn;
  }

  lemma DropRemoves(s: State, reg: Reg)
    requires CurrentOk(s) && RemovalsOk(s) && DoDrop(s, reg).Some?
    ensures RemovalsOk(DoDrop(s, reg).value)
  {
    hide LogOk;
    LogDrops(s.removals, s.dropped, reg);
  }

  /** What a successful native call of Close removes. */
  lemma UnregisterTarget(s: State, t: Thread)
    requires CurrentOk(s) && ClosingOk(s) && LogFits(s) && DoUnregister(s, t, true).Some?
    ensures var h := s.threads[t].handle;
      Target(s, h).value == h <==> h !in s.dropped && !RemovedIn(s.removals, h)
  {
    var h := s.threads[t].handle;
    assert RemovedIn(s.removals, h) <==> s.regs[h].deregistered;
  }

  lemma UnregisterRemoves(s: State, t: Thread, ok: bool)
    requires CurrentOk(s) && ClosingOk(s) && RemovalsOk(s) && DoUnregister(s, t, ok).Some?
    ensures RemovalsOk(DoUnregister(s, t, ok).value)
  {
    hide LogOk;
    if ok {
      var h := s.threads[t].handle;
      UnregisterTarget(s, t);
      assert !s.regs[Target(s, h).value].deregistered && !s.regs[h].closed;
      LogAppends(s.removals, s.dropped, Removal(h, Target(s, h).value));
      UnregisterLogs(s, t);
    }
  }

  lemma UnregisterLogs(s: State, t: Thread)
    requires LogFits(s) && DoUnregister(s, t, true).Some?
    ensures LogFits(DoUnregister(s, t, true).value)
  {
    var s', h := DoUnregister(s, t, true).value, s.threads[t].handle;
    var removal := Removal(h, Target(s, h).value);
    assert s'.removals == s.removals + [removal] && removal in s'.removals;
    forall r | r in s'.regs && s'.regs[r].deregistered && !s'.regs[r].kind.ByNumber? ensures RemovedIn(s'.removals, r) {
      if r != removal.target {
        var entry :| entry in s.removals && entry.target == r;
        assert entry in s'.removals;
      }
    }
  }

  // ----- Every run -----

  ghost predicate Inv(s: State) {
    TokensOk(s) && CurrentOk(s) && ClosingOk(s) && ClosedOk(s) && RemovalsOk(s)
  }

  lemma InvAtInit()
    ensures Inv(INIT)
  {
    assert OwnedBy(INIT, map[]);
  }

  lemma InvStep(s: State, e: Step)
    requires Inv(s) && Next(s, e).Some?
    ensures Inv(Next(s, e).value)
  {
    hide Next, OwnedBy, Counted, RecordsMatch, FreeingOk, RecordsUnique, CurrentOk, ClosingOk, ClosedOk, RemovalsOk;
    TokensStayOk(s, e);
    CurrentStaysOk(s, e);
    ClosingStaysOk(s, e);
    ClosedStaysOk(s, e);
    RemovalsStayOk(s, e);
  }

  lemma {:induction false} InvRun(es: seq<Step>)
    requires Run(es).Some?
    ensures Inv(Run(es).value)
  {
    hide Inv, Next;
    if es == [] {
      InvAtInit();
    } else {
      InvRun(es[..|es| - 1]);
      InvStep(Run(es[..|es| - 1]).value, es[|es| - 1]);
    }
  }

  /**
   * After any run: no token was freed twice, every malloc is matched by a free or a live token,
   * every key of the table is a live token, and a live token outside the table is in the hands of
   * exactly one thread, between malloc and Store or between taking the record out and free.
   */
  lemma TokenSafety(es: seq<Step>)
    requires Run(es).Some?
    ensures var s := Run(es).value;
      && !s.badFree
      && s.frees + |s.live| == s.mallocs
      && s.records.Keys <= s.live
      && (forall token | token in s.live && token !in s.records ::
            exists t :: t in s.threads && Unlisted(s.threads[t]) && Held(s.threads[t]) == Some(token))
      && (forall t, u | t in s.threads && u in s.threads && Held(s.threads[t]).Some? ::
            Held(s.threads[t]) == Held(s.threads[u]) ==> t == u)
      && (forall t, r | t in s.threads && r in s.regs && !s.regs[r].released ::
            Held(s.threads[t]) != Some(s.regs[r].token))
      && (forall t | t in s.threads && Held(s.threads[t]).Some? :: Held(s.threads[t]).value in s.live)
  {
    hide Run, CurrentOk, ClosingOk, ClosedOk, RemovalsOk, RecordsMatch;
    InvRun(es);
    var s := Run(es).value;
    var own :| OwnedBy(s, own);
    forall token | token in s.live && token !in s.records
      ensures exists t :: t in s.threads && Unlisted(s.threads[t]) && Held(s.threads[t]) == Some(token)
    {
      assert OwnerHolds(s, own[token], token);
    }
  }

  /** Once no thread is busy, the live tokens are those of the registrations libvirt still holds. */
  lemma NothingLeaks(es: seq<Step>)
    requires Run(es).Some? && Run(es).value.threads == map[]
    ensures var s := Run(es).value;
      && s.records.Keys == s.live == (set r | r in s.regs && !s.regs[r].released :: s.regs[r].token)
      && (forall r, q | r in s.regs && q in s.regs && !s.regs[r].released && !s.regs[q].released ::
            s.regs[r].token == s.regs[q].token ==> r == q)
      && ((forall r | r in s.regs :: s.regs[r].released) ==> s.live == {} && s.frees == s.mallocs)
  {
    hide Run, CurrentOk, ClosingOk, ClosedOk, RemovalsOk, RecordsMatch;
    InvRun(es);
    var s := Run(es).value;
    var own :| OwnedBy(s, own);
    forall token | token in s.live
      ensures token in s.records && exists r :: r in s.regs && !s.regs[r].released && s.regs[r].token == token
    {
      assert OwnerHolds(s, own[token], token);
    }
  }

  /**
   * A delivery's look-up finds its own record exactly when libvirt has not started the free
   * callback, or that has not taken the record out yet.
   */
  lemma DeliveryFindsItsOwn(es: seq<Step>, t: Thread)
    requires Run(es).Some? && t in Run(es).value.threads && Run(es).value.threads[t].Delivering?
    ensures var s := Run(es).value; var r := s.threads[t].reg;
      && r in s.regs
      && (Run(es + [Load(t)]) == Some(At(s, t, Delivered(r, s.regs[r].record))) <==>
            !s.regs[r].released || Freeing(s, r))
    ensures var s := Run(es).value;
      forall r, q | r in s.regs && q in s.regs && r != q :: s.regs[r].record != s.regs[q].record
  {
    hide Run, OwnedBy, Counted, CurrentOk, ClosedOk, RemovalsOk;
    InvRun(es);
    var s := Run(es).value;
    LoadFinds(s, t);
    var es', s' := After(es, s, Load(t));
  }

  lemma LoadFinds(s: State, t: Thread)
    requires RecordsMatch(s) && FreeingOk(s) && RecordsUnique(s)
    requires t in s.threads && s.threads[t].Delivering? && s.threads[t].reg in s.regs
    ensures var r := s.threads[t].reg;
      DoLoad(s, t) == Some(At(s, t, Delivered(r, s.regs[r].record))) <==> !s.regs[r].released || Freeing(s, r)
  {
    var r := s.threads[t].reg;
    assert At(s, t, Delivered(r, s.regs[r].record)).threads[t] == Delivered(r, s.regs[r].record);
    assert t !in Done(s, t).threads;
    if u :| u in s.threads && s.threads[u].FreeEntered? && s.threads[u].reg == r {
      assert IsBeingFreed(s, s.threads[u].token, r);
    }
  }

  /** After that it may find another registration's record. */
  lemma DeliveryMayFindAnother()
    ensures exists es, t, r ::
      && Run(es).Some? && t in Run(es).value.threads && r in Run(es).value.regs
      && Run(es).value.threads[t].Delivered? && Run(es).value.threads[t].reg == r
      && Run(es).value.threads[t].record != Run(es).value.regs[r].record
  {
    hide Next;
    var es, s := Registered([], INIT, 7, 0, ById);
    es, s := Delivery(es, s, 2, 0);
    es, s := Released(es, s, 0);
    es, s := Registered(es, s, 7, 1, ById);
    es, s := Looked(es, s, 2);
  }

  lemma Delivery(es: seq<Step>, s: State, t: Thread, reg: Reg) returns (es': seq<Step>, s': State)
    requires Run(es) == Some(s) && t !in s.threads && reg in s.regs && !s.regs[reg].released
    ensures Run(es') == Some(s') && s' == At(s, t, Delivering(reg))
  {
    hide Run;
    es', s' := After(es, s, Deliver(t, reg));
  }

  lemma Looked(es: seq<Step>, s: State, t: Thread) returns (es': seq<Step>, s': State)
    requires Run(es) == Some(s) && t in s.threads && s.threads[t].Delivering? && s.threads[t].reg in s.regs
    requires s.regs[s.threads[t].reg].token in s.records
    ensures Run(es') == Some(s')
    ensures s' == At(s, t, Delivered(s.threads[t].reg, s.records[s.regs[s.threads[t].reg].token]))
  {
    hide Run;
    es', s' := After(es, s, Load(t));
  }

  /** A whole registration on thread 0. */
  lemma Registered(es: seq<Step>, s: State, token: Token, reg: Reg, kind: Kind) returns (es': seq<Step>, s': State)
    requires Run(es) == Some(s) && 0 !in s.threads && token !in s.live && reg !in s.regs
    requires kind.ByConn? ==> kind.conn !in s.current && kind.conn !in s.disposed
    ensures Run(es') == Some(s')
    ensures s' == s.(live := s.live + {token}, records := s.records[token := s.nextRecord],
                     nextRecord := s.nextRecord + 1,
                     regs := s.regs[reg := Registration(token, s.nextRecord, kind, false, false, false)],
                     current := if kind.ByConn? then s.current[kind.conn := reg] else s.current,
                     mallocs := s.mallocs + 1)
  {
    hide Run;
    es', s' := RecordStored(es, s, token, kind);
    es', s' := After(es', s', Accept(0, reg));
    assert s'.threads == s.threads;
  }

  lemma RecordStored(es: seq<Step>, s: State, token: Token, kind: Kind) returns (es': seq<Step>, s': State)
    requires Run(es) == Some(s) && 0 !in s.threads && token !in s.live
    ensures Run(es') == Some(s')
    ensures s' == s.(live := s.live + {token}, records := s.records[token := s.nextRecord],
                     nextRecord := s.nextRecord + 1,
                     threads := s.threads[0 := Stored(token, s.nextRecord, kind)], mallocs := s.mallocs + 1)
  {
    hide Run;
    es', s' := After(es, s, Malloc(0, token, kind));
    es', s' := After(es', s', StoreRecord(0));
  }

  /** A whole run of the free callback on thread 0. */
  lemma Released(es: seq<Step>, s: State, reg: Reg) returns (es': seq<Step>, s': State)
    requires Run(es) == Some(s) && 0 !in s.threads && reg in s.regs && !s.regs[reg].released && s.regs[reg].kind.ById?
    requires s.regs[reg].token in s.records && s.regs[reg].token in s.live
    ensures Run(es') == Some(s')
    ensures s' == s.(live := s.live - {s.regs[reg].token}, records := s.records - {s.regs[reg].token},
                     regs := s.regs[reg := s.regs[reg].(released := true)], frees := s.frees + 1)
  {
    hide Run;
    es', s' := After(es, s, EnterFree(0, reg));
    es', s' := After(es', s', LoadAndDelete(0));
    es', s' := After(es', s', Free(0));
    assert s'.threads == s.threads;
  }

  /** One more step of a run. */
  lemma After(es: seq<Step>, s: State, e: Step) returns (es': seq<Step>, s': State)
    requires Run(es) == Some(s) && Next(s, e).Some?
    ensures es' == es + [e] && Some(s') == Next(s, e) == Run(es')
  {
    es', s' := es + [e], Next(s, e).value;
    assert es'[..|es|] == es;
  }

  /**
   * What Close guarantees after any run: each handle removed at most one registration and each
   * registration was removed at most once; a handle removed its own registration exactly when libvirt
   * had not dropped it and no other handle had removed it; and a closed handle's registration is gone.
   */
  lemma CloseSafety(es: seq<Step>)
    requires Run(es).Some?
    ensures var s := Run(es).value;
      && (forall i, j | 0 <= i < j < |s.removals| ::
            s.removals[i].handle != s.removals[j].handle && s.removals[i].target != s.removals[j].target)
      && (forall i | 0 <= i < |s.removals| ::
            var h := s.removals[i].handle;
            s.removals[i].target == h <==> h !in s.dropped && !RemovedIn(s.removals[..i], h))
      && (forall h | h in s.regs && s.regs[h].closed :: s.regs[h].deregistered || s.regs[h].released || h in s.dropped)
      && (forall h | h in s.regs && s.regs[h].deregistered && !s.regs[h].kind.ByNumber? :: RemovedIn(s.removals, h))
  {
    hide Run, TokensOk, CurrentOk, ClosingOk;
    InvRun(es);
    var s := Run(es).value;
    forall i | 0 <= i < |s.removals|
      ensures var h := s.removals[i].handle;
        s.removals[i].target == h <==> h !in s.dropped && !RemovedIn(s.removals[..i], h)
    {
      assert RemovesOwn(s.removals, s.dropped, i);
    }
  }

  /** Every Close of a run removed its own registration exactly when none of them was of a dropped one. */
  lemma NoWrongRemoval(es: seq<Step>)
    requires Run(es).Some?
    ensures var s := Run(es).value;
      (forall i | 0 <= i < |s.removals| :: s.removals[i].target == s.removals[i].handle)
      <==> (forall i | 0 <= i < |s.removals| :: s.removals[i].handle !in s.dropped)
  {
    hide Run, Inv;
    CloseSafety(es);
    var s := Run(es).value;
    if forall i | 0 <= i < |s.removals| :: s.removals[i].handle !in s.dropped {
      forall i | 0 <= i < |s.removals| ensures s.removals[i].target == s.removals[i].handle {
        OwnUpTo(s, i);
      }
    }
  }

  lemma {:induction false} OwnUpTo(s: State, i: nat)
    requires i < |s.removals|
    requires forall i, j | 0 <= i < j < |s.removals| :: s.removals[i].handle != s.removals[j].handle
    requires forall i | 0 <= i < |s.removals| ::
      RemovesOwn(s.removals, s.dropped, i) && s.removals[i].handle !in s.dropped
    ensures s.removals[i].target == s.removals[i].handle
  {
    assert RemovesOwn(s.removals, s.dropped, i);
    if removal :| removal in s.removals[..i] && removal.target == s.removals[i].handle {
      var j :| 0 <= j < i && s.removals[j] == removal;
      OwnUpTo(s, j);
    }
  }

  /**
   * A successful native call of Close logs one removal, of the handle's own registration exactly when
   * libvirt never dropped that and no Close removed it before; no other registration is touched.
   */
  lemma RemovesItsOwn(es: seq<Step>, t: Thread)
    requires Run(es).Some? && t in Run(es).value.threads && Run(es).value.threads[t].Unregistering?
    requires Run(es + [Unregister(t, true)]).Some?
    ensures var s, s' := Run(es).value, Run(es + [Unregister(t, true)]).value;
      var h := s.threads[t].handle;
      && h in s.regs && |s'.removals| == |s.removals| + 1 && s'.removals[..|s.removals|] == s.removals
      && s'.removals[|s.removals|].handle == h
      && (s'.removals[|s.removals|].target == h <==> h !in s.dropped && !RemovedIn(s.removals, h))
      && forall r | r in s.regs && r != s'.removals[|s.removals|].target && r != h ::
        r in s'.regs && s'.regs[r] == s.regs[r]
  {
    hide Run, TokensOk, ClosedOk;
    InvRun(es);
    var s := Run(es).value;
    var es', s' := Extended(es, s, Unregister(t, true));
    UnregisterTarget(s, t);
  }

  lemma Extended(es: seq<Step>, s: State, e: Step) returns (es': seq<Step>, s': State)
    requires Run(es) == Some(s) && Run(es + [e]).Some?
    ensures es' == es + [e] && Next(s, e) == Some(s') == Run(es')
  {
    es' := es + [e];
    assert es'[..|es|] == es;
    s' := Run(es').value;
  }

  /** After a drop one handle's Close can remove the close callback registered after it. */
  lemma MayRemoveAnother()
    ensures exists es :: Run(es).Some? && |Run(es).value.removals| == 1
                         && Run(es).value.removals[0].target != Run(es).value.removals[0].handle
  {
    hide Next;
    var es, s := Registered([], INIT, 7, 0, ByConn(5));
    es, s := Checked(es, s, 2, 0);
    es, s := Dropped(es, s, 0);
    es, s := Registered(es, s, 8, 1, ByConn(5));
    es, s := Removed(es, s, 2);
  }

  lemma Checked(es: seq<Step>, s: State, t: Thread, handle: Reg) returns (es': seq<Step>, s': State)
    requires Run(es) == Some(s) && s.threads == map[] && handle in s.regs && !s.regs[handle].closed
    requires !s.regs[handle].kind.ByNumber?
    requires s.regs[handle].token in s.records
    ensures Run(es') == Some(s') && s' == At(s, t, Unregistering(handle))
  {
    hide Run;
    es', s' := After(es, s, CheckActive(t, handle));
  }

  lemma Dropped(es: seq<Step>, s: State, reg: Reg) returns (es': seq<Step>, s': State)
    requires Run(es) == Some(s) && reg in s.regs && Installed(s, reg)
    ensures Run(es') == Some(s')
    ensures s' == s.(current := s.current - {s.regs[reg].kind.conn}, dropped := s.dropped + {reg})
  {
    hide Run;
    es', s' := After(es, s, Drop(reg));
  }

  lemma Removed(es: seq<Step>, s: State, t: Thread) returns (es': seq<Step>, s': State)
    requires Run(es) == Some(s) && t in s.threads && s.threads[t].Unregistering? && s.threads[t].handle in s.regs
    requires Target(s, s.threads[t].handle).Some? && Target(s, s.threads[t].handle).value in s.regs
    ensures Run(es') == Some(s')
    ensures s'.removals == s.removals + [Removal(s.threads[t].handle, Target(s, s.threads[t].handle).value)]
  {
    hide Run;
    es', s' := After(es, s, Unregister(t, true));
  }

  /**
   * Closing an open handle of a domain event that libvirt still has removes that registration and closes the
   * handle.
   */
  lemma CloseWorks(es: seq<Step>, t: Thread, h: Reg)
    requires Run(es).Some? && t !in Run(es).value.threads && h in Run(es).value.regs
    requires var s := Run(es).value;
      && s.regs[h].kind.ById? && !s.regs[h].closed && !s.regs[h].released
      && forall u | u in s.threads :: s.threads[u] != Unregistering(h)
    ensures var s := Run(es).value; var end := Run(es + [CheckActive(t, h)] + [Unregister(t, true)]);
      && end.Some? && end.value.removals == s.removals + [Removal(h, h)]
      && h in end.value.regs && end.value.regs[h].closed && end.value.regs[h].deregistered
      && end.value.threads == s.threads && end.value.records == s.records
  {
    hide Run, TokensOk, CurrentOk, ClosingOk, ClosedOk, RemovalsOk;
    InvRun(es);
    var s := Run(es).value;
    assert s.regs[h].token in s.records && !s.regs[h].deregistered by { StillThere(s, h); }
    var s' := ChecksAndRemoves(s, t, h);
    var es', _ := After(es, s, CheckActive(t, h));
    var es'', _ := After(es', s', Unregister(t, true));
  }

  lemma StillThere(s: State, h: Reg)
    requires Inv(s) && h in s.regs && s.regs[h].kind.ById? && !s.regs[h].closed && !s.regs[h].released
    ensures s.regs[h].token in s.records && !s.regs[h].deregistered
  {
  }

  lemma ChecksAndRemoves(s: State, t: Thread, h: Reg) returns (s': State)
    requires t !in s.threads && h in s.regs && s.regs[h].token in s.records && s.regs[h].kind.ById?
    requires !s.regs[h].closed && !s.regs[h].released && !s.regs[h].deregistered
    requires forall u | u in s.threads :: s.threads[u] != Unregistering(h)
    ensures Next(s, CheckActive(t, h)) == Some(s')
    ensures var end := Next(s', Unregister(t, true));
      && end.Some? && end.value.removals == s.removals + [Removal(h, h)]
      && h in end.value.regs && end.value.regs[h].closed && end.value.regs[h].deregistered
      && end.value.threads == s.threads && end.value.records == s.records
  {
    s' := At(s, t, Unregistering(h));
  }

  /**
   * Where malloc reuses the token of a released registration, its open handle takes another
   * registration for its own: Close calls libvirt, which refuses, so that it returns an error.
   */
  lemma ReusedTokenMisleadsClose()
    ensures exists es, h :: Run(es).Some? && h in Run(es).value.regs && Run(es).value.regs[h].released
                            && Misled(es, Run(es).value, h)
  {
    hide Next;
    var es, s := Registered([], INIT, 7, 0, ById);
    es, s := Released(es, s, 0);
    es, s := Registered(es, s, 7, 1, ById);
    es, s := Checked(es, s, 2, 0);
    NoSuchRegistration(es, s, 2, 0);
    assert Misled(es, s, 0);
  }

  /** Some thread closes h by a native call, which cannot succeed. */
  predicate Misled(es: seq<Step>, s: State, h: Reg) {
    exists t | t in s.threads :: s.threads[t] == Unregistering(h) && Run(es + [Unregister(t, true)]) == None
  }

  /** libvirt finds nothing to remove for the handle of a released domain event registration. */
  lemma NoSuchRegistration(es: seq<Step>, s: State, t: Thread, h: Reg)
    requires Run(es) == Some(s) && t in s.threads && s.threads[t] == Unregistering(h)
    requires h in s.regs && s.regs[h].released && s.regs[h].kind.ById?
    ensures Run(es + [Unregister(t, true)]) == None
  {
    assert (es + [Unregister(t, true)])[..|es|] == es;
  }

  /** A closed handle stays closed. */
  lemma ClosedForever(es: seq<Step>, more: seq<Step>, h: Reg)
    requires Run(es).Some? && Run(es + more).Some?
    requires h in Run(es).value.regs && Run(es).value.regs[h].closed
    ensures h in Run(es + more).value.regs && Run(es + more).value.regs[h].closed
  {
    Forever(es, more, h);
  }

  lemma {:induction false} Forever(es: seq<Step>, more: seq<Step>, h: Reg)
    requires Run(es).Some? && Run(es + more).Some? && h in Run(es).value.regs
    ensures h in Run(es + more).value.regs && Follows(Run(es).value.regs[h], Run(es + more).value.regs[h])
    decreases |more|
  {
    hide Next;
    if more == [] {
      assert es + more == es;
    } else {
      var fewer, e := more[..|more| - 1], more[|more| - 1];
      assert es + more == (es + fewer) + [e];
      assert (es + more)[..|es + more| - 1] == es + fewer;
      Forever(es, fewer, h);
      StepFollows(Run(es + fewer).value, e, h);
    }
  }

  lemma StepFollows(s: State, e: Step, h: Reg)
    requires Next(s, e).Some? && h in s.regs
    ensures h in Next(s, e).value.regs && Follows(s.regs[h], Next(s, e).value.regs[h])
  {
    if MovesNoHandle(e) {
      hide Next;
      HandlesStay(s, e);
    } else {
      hide DoEnterFree, DoCheckActive, DoDeregister, DoUnregister;
      match e
      case Accept(_, _) =>
      case EnterFree(t, reg) => EnterFreeMarks(s, t, reg);
      case CheckActive(t, handle) => CheckActiveMarks(s, t, handle);
      case Unregister(t, ok) => UnregisterFollows(s, t, ok, h);
      case Drop(_) =>
      case Dispose(_) =>
      case Deregister(reg) => DeregisterMarks(s, reg);
    }
  }

  lemma UnregisterFollows(s: State, t: Thread, ok: bool, h: Reg)
    requires DoUnregister(s, t, ok).Some? && h in s.regs
    ensures h in DoUnregister(s, t, ok).value.regs && Follows(s.regs[h], DoUnregister(s, t, ok).value.regs[h])
  {
  }

  /**
   * Closing the open handle of a registration that libvirt has released: it is closed without a native call
   * exactly when no record is under its token. Otherwise, in every continuation, the native call
   * can succeed exactly when it is of a close callback and its connection has another one by then,
   * which it removes.
   */
  lemma CloseOfReleased(es: seq<Step>, t: Thread, h: Reg)
    requires Run(es).Some? && t !in Run(es).value.threads && h in Run(es).value.regs
    requires var s := Run(es).value;
      && !s.regs[h].kind.ByNumber? && s.regs[h].released && !s.regs[h].closed
      && forall u | u in s.threads :: s.threads[u] != Unregistering(h)
    ensures var s := Run(es).value; var checked := es + [CheckActive(t, h)];
      && Run(checked).Some?
      && (s.regs[h].token !in s.records <==>
            Run(checked).value == s.(regs := s.regs[h := s.regs[h].(closed := true)]))
      && (s.regs[h].token in s.records ==>
            && Run(checked).value == At(s, t, Unregistering(h))
            && forall more | ClosesStill(checked + more, t, h) ::
              RemovesSuccessor(checked + more, t, h, s.regs[h].kind))
  {
    hide Next, Inv;
    var s := Run(es).value;
    CheckOfReleased(s, t, h);
    var checked, s' := After(es, s, CheckActive(t, h));
    if s.regs[h].token in s.records {
      forall more | ClosesStill(checked + more, t, h) ensures RemovesSuccessor(checked + more, t, h, s.regs[h].kind) {
        Forever(es, [CheckActive(t, h)], h);
        Forever(checked, more, h);
        CurrentOnRun(checked + more);
        SuccessorRemoved(checked + more, Run(checked + more).value, t, h);
      }
    }
  }

  lemma CurrentOnRun(es: seq<Step>)
    requires Run(es).Some?
    ensures CurrentOk(Run(es).value)
  {
    hide Run, TokensOk, CurrentOk, ClosingOk, ClosedOk, RemovalsOk;
    InvRun(es);
  }

  lemma CheckOfReleased(s: State, t: Thread, h: Reg)
    requires t !in s.threads && h in s.regs && !s.regs[h].kind.ByNumber? && !s.regs[h].closed
    requires forall u | u in s.threads :: s.threads[u] != Unregistering(h)
    ensures Next(s, CheckActive(t, h)) ==
      Some(if s.regs[h].token in s.records then At(s, t, Unregistering(h))
           else s.(regs := s.regs[h := s.regs[h].(closed := true)]))
    ensures s.(regs := s.regs[h := s.regs[h].(closed := true)]) != At(s, t, Unregistering(h))
  {
    assert t in At(s, t, Unregistering(h)).threads;
  }

  predicate ClosesStill(es: seq<Step>, t: Thread, h: Reg) {
    Run(es).Some? && t in Run(es).value.threads && Run(es).value.threads[t] == Unregistering(h)
  }

  /**
   * The native call fails for a domain event, and for a connection without a close callback; else it removes
   * that one.
   */
  predicate RemovesSuccessor(es: seq<Step>, t: Thread, h: Reg, kind: Kind)
    requires ClosesStill(es, t, h)
  {
    var s, end := Run(es).value, Run(es + [Unregister(t, true)]);
    if kind.ByConn? && kind.conn in s.current then
      s.current[kind.conn] != h && end.Some? && end.value.removals == s.removals + [Removal(h, s.current[kind.conn])]
    else end == None
  }

  lemma SuccessorRemoved(es: seq<Step>, s: State, t: Thread, h: Reg)
    requires Run(es) == Some(s) && CurrentOk(s) && ClosesStill(es, t, h)
    requires h in s.regs && s.regs[h].released && !s.regs[h].kind.ByNumber?
    ensures RemovesSuccessor(es, t, h, s.regs[h].kind)
  {
    assert (es + [Unregister(t, true)])[..|es|] == es;
  }
}
