/**
 The lock skeletons of the backend's entry points and of the threads that run
 them: realtime loop, service loop, owner (startup, activate, stop) and any
 number of SDO/FoE/PDO callers, over any list of devices.
 */
module BackendLocks {
  import opened LockProtocol
  import opened LockRuns

  const NOTHING := Block([])

  function Optionally(code: Code): Code { Choice([NOTHING, code]) }

  // `for (auto& device : devices_) body(device)`
  function ForEach(devices: seq<nat>, body: nat -> Code): Code {
    Block(seq(|devices|, i requires 0 <= i < |devices| => body(devices[i])))
  }

  // ---- mailbox -----------------------------------------------------------------------------

  const REPORT_EVENT := Guard(MailboxStatus, NOTHING)
  const DRAIN := Loop(REPORT_EVENT)
  const DRAIN_ATTRIBUTING := Loop(Optionally(REPORT_EVENT))

  // State and device checks, opening drain, ecx_SDO*, attributing drain, timeout report, size check.
  const SDO_ACCESS :=
    Guard(Mailbox, Block([MayThrow, DRAIN, DRAIN_ATTRIBUTING, Optionally(REPORT_EVENT), MayThrow]))
  const FOE_ACCESS :=
    Guard(Mailbox, Block([MayThrow, DRAIN, DRAIN_ATTRIBUTING, Optionally(REPORT_EVENT), Optionally(REPORT_EVENT)]))
  const READ_OD := Block([MayThrow, Guard(Mailbox, MayThrow)])

  // ---- process data ------------------------------------------------------------------------

  const BUS_PDO_ACCESS := Block([MayThrow, Guard(BusPdo, NOTHING)])

  function GenericPdoAccess(device: nat): Code { Block([MayThrow, Guard(DevicePdo(device), NOTHING)]) }

  // EthercatDevice::update_write / update_read: the device mutex, then the bus PDO mutex.
  function DeviceDispatch(device: nat): Code { Guard(DevicePdo(device), BUS_PDO_ACCESS) }

  // ---- device states and diagnostics ------------------------------------------------------

  const STATE_ACCESS := Guard(State, NOTHING)
  const CHANGE_DEVICE_STATE := Block([STATE_ACCESS, Optionally(STATE_ACCESS)])
  const UPDATE_DIAGNOSTICS_FAST := Optionally(TryGuard(Diagnostics, NOTHING))
  const UPDATE_DIAGNOSTICS_SLOW := Guard(Diagnostics, NOTHING)
  const DIAGNOSTICS_CALL :=
    Block([MayThrow,
           Choice([Block([UPDATE_DIAGNOSTICS_FAST, UPDATE_DIAGNOSTICS_SLOW]), Guard(Diagnostics, NOTHING)]),
           Guard(MailboxStatus, NOTHING)])

  // ---- calls available to any thread, to hooks and to callbacks ---------------------------

  function PublicCall(devices: seq<nat>): Code {
    Choice([SDO_ACCESS, FOE_ACCESS, READ_OD, BUS_PDO_ACCESS, CHANGE_DEVICE_STATE, DIAGNOSTICS_CALL, MayThrow]
           + seq(|devices|, i requires 0 <= i < |devices| => GenericPdoAccess(devices[i])))
  }

  function Hook(devices: seq<nat>): Code { UserCode(Loop(PublicCall(devices))) }

  // The "async" SDO variants run the access and then the callback, with the mutex already released.
  function AsyncCall(devices: seq<nat>): Code { Block([SDO_ACCESS, Hook(devices)]) }

  // ---- lifecycle ---------------------------------------------------------------------------

  function ForEachHook(devices: seq<nat>): Code { ForEach(devices, d => Hook(devices)) }

  const TRIPLE_LOCK := ScopedLock({BusPdo, State, Mailbox}, NOTHING)

  function Shutdown(devices: seq<nat>): Code {
    Choice([NOTHING, TRIPLE_LOCK, MayThrow,
            Block([ForEachHook(devices), STATE_ACCESS, STATE_ACCESS, TRIPLE_LOCK, ForEachHook(devices)])])
  }

  function ShutdownAndThrow(devices: seq<nat>): Code { Block([Shutdown(devices), MayThrow]) }

  function Startup(devices: seq<nat>): Code {
    Block([MayThrow, ForEachHook(devices), Optionally(ShutdownAndThrow(devices)), ForEachHook(devices)])
  }

  function RequestState(devices: seq<nat>): Code {
    ForEach(devices, d => Block([STATE_ACCESS, Optionally(ShutdownAndThrow(devices))]))
  }

  function Activate(devices: seq<nat>): Code {
    Block([MayThrow, ForEachHook(devices), RequestState(devices), RequestState(devices), ForEachHook(devices)])
  }

  // ---- cyclic work -------------------------------------------------------------------------

  function UpdateRt(devices: seq<nat>): Code {
    Block([MayThrow,
           ForEach(devices, (d: nat) => DeviceDispatch(d)),
           Guard(BusPdo, NOTHING),
           ForEach(devices, (d: nat) => DeviceDispatch(d)),
           Optionally(UPDATE_DIAGNOSTICS_FAST)])
  }

  function UpdateService(devices: seq<nat>): Code {
    Block([MayThrow,
           TryGuard(Mailbox, DRAIN),
           Choice([ShutdownAndThrow(devices),
                   Block([ForEach(devices, d => STATE_ACCESS), STATE_ACCESS, ForEach(devices, d => STATE_ACCESS)]),
                   Optionally(Block([STATE_ACCESS, Optionally(UPDATE_DIAGNOSTICS_SLOW)]))])])
  }

  // ---- threads -------------------------------------------------------------------------------

  const RT_THREAD: nat := 0
  const SERVICE_THREAD: nat := 1

  function Stop(devices: seq<nat>): Code { Block([Join(RT_THREAD), Join(SERVICE_THREAD), Shutdown(devices)]) }

  function Owner(devices: seq<nat>): Code {
    Block([TryCatch(Loop(Choice([Startup(devices), Activate(devices), PublicCall(devices)]))), Stop(devices)])
  }

  function Caller(devices: seq<nat>): Code {
    TryCatch(Loop(Choice([PublicCall(devices), AsyncCall(devices)])))
  }

  function Programs(devices: seq<nat>, callers: nat): seq<Code> {
    [TryCatch(Loop(UpdateRt(devices))), TryCatch(Loop(UpdateService(devices))), Owner(devices)]
    + seq(callers, i => Caller(devices))
  }

  // ---- every skeleton keeps the discipline -------------------------------------------------

  predicate Good(code: Code, held: set<Lock>, self: nat) { Ordered(code, held) && JoinsBelow(code, self) }

  // One constructor at a time.
  lemma BlockGood(ss: seq<Code>, held: set<Lock>, self: nat)
    requires forall s | s in ss :: Good(s, held, self)
    ensures Good(Block(ss), held, self)
  {
  }

  lemma ChoiceGood(bs: seq<Code>, held: set<Lock>, self: nat)
    requires bs != [] && forall b | b in bs :: Good(b, held, self)
    ensures Good(Choice(bs), held, self)
  {
  }

  lemma OptionallyGood(code: Code, held: set<Lock>, self: nat)
    requires Good(code, held, self)
    ensures Good(Optionally(code), held, self)
  {
    BlockGood([], held, self);
    ChoiceGood([NOTHING, code], held, self);
  }

  lemma GuardGood(l: Lock, body: Code, held: set<Lock>, self: nat)
    requires (forall h | h in held :: Rank(h) < Rank(l)) && Good(body, {l} + held, self)
    ensures Good(Guard(l, body), held, self) && Good(TryGuard(l, body), held, self)
  {
  }

  lemma ShortGuardGood(l: Lock, held: set<Lock>, self: nat)
    requires forall h | h in held :: Rank(h) < Rank(l)
    ensures Good(Guard(l, NOTHING), held, self) && Good(TryGuard(l, NOTHING), held, self)
  {
    BlockGood([], {l} + held, self);
    GuardGood(l, NOTHING, held, self);
  }

  lemma LoopGood(body: Code, held: set<Lock>, self: nat)
    requires Good(body, held, self)
    ensures Good(Loop(body), held, self) && Good(TryCatch(Loop(body)), held, self)
  {
    assert Good(Loop(body), held, self);
  }

  lemma ForEachGood(devices: seq<nat>, body: nat -> Code, self: nat)
    requires forall d: nat :: Good(body(d), {}, self)
    ensures Good(ForEach(devices, body), {}, self)
  {
  }

  lemma MailboxGood(self: nat)
    ensures Good(SDO_ACCESS, {}, self) && Good(FOE_ACCESS, {}, self) && Good(READ_OD, {}, self)
    ensures Good(TryGuard(Mailbox, DRAIN), {}, self)
  {
    var held := {Mailbox} + {};
    ShortGuardGood(MailboxStatus, held, self);
    LoopGood(REPORT_EVENT, held, self);
    OptionallyGood(REPORT_EVENT, held, self);
    LoopGood(Optionally(REPORT_EVENT), held, self);
    assert Good(MayThrow, held, self);
    BlockGood([MayThrow, DRAIN, DRAIN_ATTRIBUTING, Optionally(REPORT_EVENT), MayThrow], held, self);
    BlockGood([MayThrow, DRAIN, DRAIN_ATTRIBUTING, Optionally(REPORT_EVENT), Optionally(REPORT_EVENT)], held, self);
    GuardGood(Mailbox, SDO_ACCESS.body, {}, self);
    GuardGood(Mailbox, FOE_ACCESS.body, {}, self);
    GuardGood(Mailbox, DRAIN, {}, self);
    GuardGood(Mailbox, MayThrow, {}, self);
    BlockGood(READ_OD.stmts, {}, self);
  }

  lemma StatesGood(self: nat)
    ensures Good(STATE_ACCESS, {}, self) && Good(CHANGE_DEVICE_STATE, {}, self)
    ensures Good(UPDATE_DIAGNOSTICS_FAST, {}, self) && Good(UPDATE_DIAGNOSTICS_SLOW, {}, self)
    ensures Good(DIAGNOSTICS_CALL, {}, self)
  {
    ShortGuardGood(State, {}, self);
    ShortGuardGood(Diagnostics, {}, self);
    ShortGuardGood(MailboxStatus, {}, self);
    OptionallyGood(STATE_ACCESS, {}, self);
    BlockGood(CHANGE_DEVICE_STATE.stmts, {}, self);
    OptionallyGood(TryGuard(Diagnostics, NOTHING), {}, self);
    BlockGood([UPDATE_DIAGNOSTICS_FAST, UPDATE_DIAGNOSTICS_SLOW], {}, self);
    ChoiceGood([Block([UPDATE_DIAGNOSTICS_FAST, UPDATE_DIAGNOSTICS_SLOW]), Guard(Diagnostics, NOTHING)], {}, self);
    BlockGood(DIAGNOSTICS_CALL.stmts, {}, self);
  }

  lemma PdoGood(self: nat)
    ensures Good(BUS_PDO_ACCESS, {}, self) && Good(Guard(BusPdo, NOTHING), {}, self)
    ensures forall d: nat :: Good(GenericPdoAccess(d), {}, self) && Good(DeviceDispatch(d), {}, self)
  {
    ShortGuardGood(BusPdo, {}, self);
    BlockGood(BUS_PDO_ACCESS.stmts, {}, self);
    forall d: nat ensures Good(GenericPdoAccess(d), {}, self) && Good(DeviceDispatch(d), {}, self) {
      ShortGuardGood(DevicePdo(d), {}, self);
      BlockGood(GenericPdoAccess(d).stmts, {}, self);
      ShortGuardGood(BusPdo, {DevicePdo(d)} + {}, self);
      BlockGood(BUS_PDO_ACCESS.stmts, {DevicePdo(d)} + {}, self);
      GuardGood(DevicePdo(d), BUS_PDO_ACCESS, {}, self);
    }
  }

  lemma CallsGood(devices: seq<nat>, self: nat)
    ensures Good(PublicCall(devices), {}, self) && Good(Hook(devices), {}, self)
    ensures Good(AsyncCall(devices), {}, self) && Good(ForEachHook(devices), {}, self)
  {
    MailboxGood(self);
    StatesGood(self);
    PdoGood(self);
    ChoiceGood(PublicCall(devices).branches, {}, self);
    LoopGood(PublicCall(devices), {}, self);
    assert Good(Hook(devices), {}, self);
    BlockGood([SDO_ACCESS, Hook(devices)], {}, self);
    ForEachGood(devices, d => Hook(devices), self);
  }

  lemma LifecycleGood(devices: seq<nat>, self: nat)
    ensures Good(Shutdown(devices), {}, self) && Good(ShutdownAndThrow(devices), {}, self)
    ensures Good(Startup(devices), {}, self) && Good(Activate(devices), {}, self)
  {
    CallsGood(devices, self);
    StatesGood(self);
    BlockGood([], {}, self);
    BlockGood([], {BusPdo, State, Mailbox}, self);
    assert Good(TRIPLE_LOCK, {}, self);
    BlockGood([ForEachHook(devices), STATE_ACCESS, STATE_ACCESS, TRIPLE_LOCK, ForEachHook(devices)], {}, self);
    ChoiceGood(Shutdown(devices).branches, {}, self);
    BlockGood([Shutdown(devices), MayThrow], {}, self);
    OptionallyGood(ShutdownAndThrow(devices), {}, self);
    BlockGood(Startup(devices).stmts, {}, self);
    BlockGood([STATE_ACCESS, Optionally(ShutdownAndThrow(devices))], {}, self);
    ForEachGood(devices, d => Block([STATE_ACCESS, Optionally(ShutdownAndThrow(devices))]), self);
    BlockGood(Activate(devices).stmts, {}, self);
  }

  lemma CyclesGood(devices: seq<nat>, self: nat)
    ensures Good(UpdateRt(devices), {}, self) && Good(UpdateService(devices), {}, self)
  {
    MailboxGood(self);
    StatesGood(self);
    PdoGood(self);
    LifecycleGood(devices, self);
    ForEachGood(devices, (d: nat) => DeviceDispatch(d), self);
    OptionallyGood(UPDATE_DIAGNOSTICS_FAST, {}, self);
    BlockGood(UpdateRt(devices).stmts, {}, self);
    var states := ForEach(devices, d => STATE_ACCESS);
    ForEachGood(devices, d => STATE_ACCESS, self);
    BlockGood([states, STATE_ACCESS, states], {}, self);
    OptionallyGood(UPDATE_DIAGNOSTICS_SLOW, {}, self);
    BlockGood([STATE_ACCESS, Optionally(UPDATE_DIAGNOSTICS_SLOW)], {}, self);
    OptionallyGood(Block([STATE_ACCESS, Optionally(UPDATE_DIAGNOSTICS_SLOW)]), {}, self);
    ChoiceGood(UpdateService(devices).stmts[2].branches, {}, self);
    BlockGood(UpdateService(devices).stmts, {}, self);
  }

  lemma ThreadGood(devices: seq<nat>, callers: nat, t: nat)
    requires t < |Programs(devices, callers)|
    ensures Good(Programs(devices, callers)[t], {}, t)
  {
    CyclesGood(devices, t);
    LifecycleGood(devices, t);
    CallsGood(devices, t);
    LoopGood(UpdateRt(devices), {}, t);
    LoopGood(UpdateService(devices), {}, t);
    if t == 2 {
      BlockGood(Stop(devices).stmts, {}, t);
      ChoiceGood([Startup(devices), Activate(devices), PublicCall(devices)], {}, t);
      LoopGood(Choice([Startup(devices), Activate(devices), PublicCall(devices)]), {}, t);
      BlockGood(Owner(devices).stmts, {}, t);
    } else if t > 2 {
      ChoiceGood([PublicCall(devices), AsyncCall(devices)], {}, t);
      LoopGood(Choice([PublicCall(devices), AsyncCall(devices)]), {}, t);
    }
  }

  lemma ProgramsDisciplined(devices: seq<nat>, callers: nat)
    ensures Disciplined(Programs(devices, callers))
  {
    forall t | 0 <= t < |Programs(devices, callers)| ensures Good(Programs(devices, callers)[t], {}, t) {
      ThreadGood(devices, callers, t);
    }
  }

  // ---- which mutexes the entry points take -----------------------------------------------------

  predicate Takes(code: Code, locks: set<Lock>, nested: set<(Lock, Lock)>) {
    Taken(code) == locks && Nested(code) == nested
  }

  lemma ReportTakes()
    ensures Takes(REPORT_EVENT, {MailboxStatus}, {}) && Takes(DRAIN, {MailboxStatus}, {})
    ensures Takes(Optionally(REPORT_EVENT), {MailboxStatus}, {}) && Takes(DRAIN_ATTRIBUTING, {MailboxStatus}, {})
  {
    assert Takes(NOTHING, {}, {});
    assert REPORT_EVENT in Optionally(REPORT_EVENT).branches;
  }

  lemma ThrowingFirst(code: Code)
    ensures Takes(Block([MayThrow, code]), Taken(code), Nested(code))
  {
    var block := Block([MayThrow, code]);
    assert code in block.stmts;
    assert forall l :: l in Taken(block) <==> l in Taken(code);
    assert forall p :: p in Nested(block) <==> p in Nested(code);
  }

  // Transfers report under the status mutex while holding the mailbox mutex, and take nothing else.
  lemma TransfersTake()
    ensures Takes(SDO_ACCESS, {Mailbox, MailboxStatus}, {(Mailbox, MailboxStatus)})
    ensures Takes(FOE_ACCESS, {Mailbox, MailboxStatus}, {(Mailbox, MailboxStatus)})
    ensures Takes(READ_OD, {Mailbox}, {})
  {
    ReportTakes();
    assert DRAIN in SDO_ACCESS.body.stmts && DRAIN in FOE_ACCESS.body.stmts;
    assert Takes(SDO_ACCESS.body, {MailboxStatus}, {}) && Takes(FOE_ACCESS.body, {MailboxStatus}, {});
    ThrowingFirst(Guard(Mailbox, MayThrow));
  }

  // Process data is copied under the bus mutex, a device's buffers under its own, and a dispatch takes
  // the bus mutex inside the device's.
  lemma CopiesTake(device: nat)
    ensures Takes(BUS_PDO_ACCESS, {BusPdo}, {}) && Takes(GenericPdoAccess(device), {DevicePdo(device)}, {})
    ensures Takes(DeviceDispatch(device), {DevicePdo(device), BusPdo}, {(DevicePdo(device), BusPdo)})
  {
    assert Takes(NOTHING, {}, {});
    ThrowingFirst(Guard(BusPdo, NOTHING));
    ThrowingFirst(Guard(DevicePdo(device), NOTHING));
  }

  lemma ShutdownTakes()
    ensures Takes(STATE_ACCESS, {State}, {}) && Takes(TRIPLE_LOCK, {BusPdo, State, Mailbox}, {})
  {
    assert Takes(NOTHING, {}, {});
  }

  // ---- main results --------------------------------------------------------------------------

  // For any devices, any number of calling threads and any interleaving.
  lemma BackendNeverDeadlocks(devices: seq<nat>, callers: nat, c: Config, s: set<nat>)
    requires Reached(Programs(devices, callers), c)
    ensures !Deadlocked(c, s)
    ensures (exists t :: Unfinished(c, t)) ==> exists c' :: SomeStep(c, c')
  {
    ProgramsDisciplined(devices, callers);
    NeverDeadlocked(Programs(devices, callers), c, s);
    if t :| Unfinished(c, t) { SomeThreadCanAct(Programs(devices, callers), c, t); }
  }

  lemma HooksRunWithoutLocks(devices: seq<nat>, callers: nat, c: Config, t: nat, body: Code, rest: Stack, l: Lock)
    requires Reached(Programs(devices, callers), c)
    ensures EntersUserCode(c, t, body, rest) && l in c.owner ==> c.owner[l] != t
  {
    ProgramsDisciplined(devices, callers);
    UserCodeHoldsNothing(Programs(devices, callers), c, t, body, rest, l);
  }

  // Dispatching a device while already holding the bus PDO mutex, which update_rt avoids by
  // locking it only between the two dispatch loops, reaches a deadlocked state.
  lemma DispatchUnderBusLockDeadlocks(device: nat)
    ensures var programs := [Guard(BusPdo, DeviceDispatch(device))];
            exists c :: Reached(programs, c) && Deadlocked(c, {0})
  {
    var inner := Guard(BusPdo, NOTHING);
    var programs := [Guard(BusPdo, DeviceDispatch(device))];
    var bus := Push(Release({BusPdo}), Empty);
    var both := Push(Release({DevicePdo(device)}), bus);
    var rest := Push(Run(Block([inner])), both);
    var owner := map[BusPdo := 0, DevicePdo(device) := 0];
    var c0 := Start(programs);
    var c1 := Config(map[BusPdo := 0], [Thread(Push(Run(DeviceDispatch(device)), bus), false)]);
    var c2 := Config(owner, [Thread(Push(Run(BUS_PDO_ACCESS), both), false)]);
    var c3 := Config(owner, [Thread(Push(Run(MayThrow), rest), false)]);
    var c4 := Config(owner, [Thread(rest, false)]);
    var c5 := Config(owner, [Thread(Push(Run(inner), Push(Run(Block([])), both)), false)]);
    assert IsRun(programs, [c0]);
    assert Reached(programs, c0);
    ReachedStep(programs, c0, 0, c1);
    ReachedStep(programs, c1, 0, c2);
    assert BUS_PDO_ACCESS.stmts[1..] == [inner];
    ReachedStep(programs, c2, 0, c3);
    ReachedStep(programs, c3, 0, c4);
    assert [inner][1..] == [];
    ReachedStep(programs, c4, 0, c5);
    SelfWait(c5, BusPdo);
  }

  lemma SelfWait(c: Config, l: Lock)
    requires BlockedOn(c, 0, l) && c.owner[l] == 0
    ensures Deadlocked(c, {0})
  {
    assert WaitsFor(c, 0, 0);
  }
}
