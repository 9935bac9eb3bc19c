/**
 Process data under concurrency: any number of threads copy PDO values byte by byte between
 the buffers of any number of devices. Every copy runs under the mutexes of the buffers it
 touches (the device's, then the bus's), so no buffer is ever seen with parts of two values.
 SOEM's regions do not overlap, so each is a buffer of its own here.
 */
module PdoAtomicity {
  import LockProtocol
  import opened Options
  import opened PdoRegions

  datatype Buffer =
    | Rx(d: nat) | Tx(d: nat)              // EthercatDevice::rx_pdo_, tx_pdo_
    | Out(d: nat) | In(d: nat)             // the slave's regions in the IO map
    | Wire(d: nat)                         // the slave's part of the frame being sent
    | Local(t: nat, d: nat, toDevice: bool)  // a caller's own memory

  type Lock = LockProtocol.Lock

  datatype Source = Value(v: Bytes) | From(b: Buffer)

  // One memcpy.
  datatype Op = Op(src: Source, dst: Buffer)

  datatype Pc =
    | Rest
    | Taking(op: Op, n: nat)     // has the first n locks of the operation
    | Copying(op: Op, k: nat)    // has all of them, and has copied k bytes
    | Leaving(op: Op, n: nat)    // has the first n locks still

  // whole(b): the value most recently copied to b from beginning to end.
  datatype World = World(mem: Buffer -> Bytes, whole: Buffer -> Bytes, owner: Lock -> Option<nat>, pc: seq<Pc>)

  // Data for one device in one direction stays on its channel.
  function Channel(b: Buffer): (nat, bool) {
    match b
    case Rx(d) => (d, true)
    case Out(d) => (d, true)
    case Wire(d) => (d, true)
    case Tx(d) => (d, false)
    case In(d) => (d, false)
    case Local(_, d, toDevice) => (d, toDevice)
  }

  predicate OnBus(b: Buffer) { b.Out? || b.In? || b.Wire? }

  predicate OnDevice(b: Buffer) { b.Rx? || b.Tx? }

  predicate Touches(op: Op, b: Buffer) { b == op.dst || op.src == From(b) }

  // The mutex of a buffer that is not a caller's own.
  function Guard(b: Buffer): Lock { if OnBus(b) then LockProtocol.BusPdo else LockProtocol.DevicePdo(Channel(b).0) }

  // The locks of an operation, in the order they are taken.
  function Locks(op: Op): seq<Lock> {
    var device := LockProtocol.DevicePdo(Channel(op.dst).0);
    (if OnDevice(op.dst) || (op.src.From? && OnDevice(op.src.b)) then [device] else [])
    + (if OnBus(op.dst) || (op.src.From? && OnBus(op.src.b)) then [LockProtocol.BusPdo] else [])
  }

  // The copies that exist.
  predicate Allowed(t: nat, op: Op) {
    match op
    case Op(Value(_), dst) => dst.Rx? || dst.Out? || dst.In?     // set_generic_rx_pdo, write_rx_pdo, a received frame
    case Op(From(src), dst) =>
      && Channel(src) == Channel(dst)
      && match dst
         case Out(_) => src.Rx?                                   // update_write
         case Tx(_) => src.In?                                    // update_read
         case Wire(_) => src.Out?                                 // ecx_send_processdata
         case Local(u, _, _) => u == t && !src.Local?             // the getters, read_rx_pdo, read_tx_pdo
         case _ => false
  }

  function Contents(src: Source, mem: Buffer -> Bytes): Bytes {
    match src
    case Value(v) => v
    case From(b) => mem(b)
  }

  function Held(pc: Pc): seq<Lock> {
    match pc
    case Rest => []
    case Taking(op, n) => if n <= |Locks(op)| then Locks(op)[..n] else []
    case Copying(op, _) => Locks(op)
    case Leaving(op, n) => if n <= |Locks(op)| then Locks(op)[..n] else []
  }

  // ---- steps -------------------------------------------------------------------------------------

  ghost predicate Frame(w: World, w': World, t: nat, pc: Pc)
    requires t < |w.pc|
  {
    w'.pc == w.pc[t := pc]
  }

  ghost predicate SameData(w: World, w': World) { forall b :: w'.mem(b) == w.mem(b) && w'.whole(b) == w.whole(b) }

  ghost predicate SameLocks(w: World, w': World) { forall l :: w'.owner(l) == w.owner(l) }

  ghost predicate OwnerSet(w: World, w': World, l: Lock, o: Option<nat>) {
    forall m :: w'.owner(m) == if m == l then o else w.owner(m)
  }

  // The size checks precede locking; sizes are fixed once PDOs are configured.
  ghost predicate Starts(w: World, w': World, t: nat, op: Op)
    requires t < |w.pc|
  {
    && w.pc[t].Rest? && Allowed(t, op) && |Contents(op.src, w.mem)| == |w.mem(op.dst)|
    && Frame(w, w', t, Taking(op, 0)) && SameData(w, w') && SameLocks(w, w')
  }

  ghost predicate LockStep(w: World, w': World, t: nat)
    requires t < |w.pc|
  {
    && SameData(w, w')
    && match w.pc[t]
       case Taking(op, n) =>
         if n < |Locks(op)| then
           w.owner(Locks(op)[n]) == None && OwnerSet(w, w', Locks(op)[n], Some(t)) && Frame(w, w', t, Taking(op, n + 1))
         else SameLocks(w, w') && Frame(w, w', t, Copying(op, 0))
       case Leaving(op, n) =>
         if 0 < n <= |Locks(op)| then
           OwnerSet(w, w', Locks(op)[n - 1], None) && Frame(w, w', t, Leaving(op, n - 1))
         else SameLocks(w, w') && Frame(w, w', t, Rest)
       case _ => false
  }

  ghost predicate ByteStep(w: World, w': World, t: nat)
    requires t < |w.pc|
  {
    w.pc[t].Copying? &&
    var (op, k) := (w.pc[t].op, w.pc[t].k);
    && k < |Contents(op.src, w.mem)| && k < |w.mem(op.dst)| && SameLocks(w, w')
    && Frame(w, w', t, Copying(op, k + 1))
    && forall b :: w'.whole(b) == w.whole(b)
                   && w'.mem(b) == if b == op.dst then w.mem(b)[k := Contents(op.src, w.mem)[k]] else w.mem(b)
  }

  ghost predicate Completes(w: World, w': World, t: nat)
    requires t < |w.pc|
  {
    w.pc[t].Copying? &&
    var (op, k) := (w.pc[t].op, w.pc[t].k);
    && k == |Contents(op.src, w.mem)| && SameLocks(w, w') && Frame(w, w', t, Leaving(op, |Locks(op)|))
    && forall b :: w'.mem(b) == w.mem(b) && w'.whole(b) == if b == op.dst then w.mem(b) else w.whole(b)
  }

  ghost predicate StepOf(w: World, w': World, t: nat)
    requires t < |w.pc|
  {
    (exists op :: Starts(w, w', t, op)) || LockStep(w, w', t) || ByteStep(w, w', t) || Completes(w, w', t)
  }

  ghost predicate Step(w: World, w': World) { exists t | 0 <= t < |w.pc| :: StepOf(w, w', t) }

  // ---- invariant ---------------------------------------------------------------------------------

  predicate WellPlaced(t: nat, pc: Pc) {
    pc.Rest? || (Allowed(t, pc.op) && (pc.Copying? || pc.n <= |Locks(pc.op)|))
  }

  ghost predicate LockInv(w: World) {
    forall t | 0 <= t < |w.pc| ::
      WellPlaced(t, w.pc[t]) && forall l | l in Held(w.pc[t]) :: w.owner(l) == Some(t)
  }

  predicate Writes(w: World, t: nat, b: Buffer) { t < |w.pc| && w.pc[t].Copying? && w.pc[t].op.dst == b }

  ghost predicate BeingWritten(w: World, b: Buffer) { exists t: nat :: Writes(w, t, b) }

  ghost predicate Sized(w: World) { forall b :: |w.mem(b)| == |w.whole(b)| }

  // Every buffer not being written to holds a whole value.
  ghost predicate Untorn(w: World) { forall b :: BeingWritten(w, b) || w.mem(b) == w.whole(b) }

  // The size checks made before taking the locks still hold.
  ghost predicate SizesMatch(w: World) {
    forall t | 0 <= t < |w.pc| && !w.pc[t].Rest? ::
      |Contents(w.pc[t].op.src, w.whole)| == |w.whole(w.pc[t].op.dst)|
  }

  // A buffer being written to has the new bytes in front and the old value's behind.
  ghost predicate CopiesPartial(w: World) {
    forall t | 0 <= t < |w.pc| && w.pc[t].Copying? :: Partial(w, w.pc[t].op, w.pc[t].k)
  }

  ghost predicate DataInv(w: World) { Sized(w) && Untorn(w) && SizesMatch(w) && CopiesPartial(w) }

  ghost predicate Partial(w: World, op: Op, k: nat) {
    var v := Contents(op.src, w.whole);
    && k <= |v| == |w.whole(op.dst)|
    && w.mem(op.dst) == v[..k] + w.whole(op.dst)[k..]
  }

  ghost predicate Inv(w: World) { LockInv(w) && DataInv(w) }

  // Two threads never copy to, or one to and one from, the same buffer.
  lemma Exclusive(w: World, t: nat, u: nat, b: Buffer)
    requires LockInv(w) && t < |w.pc| && u < |w.pc|
    requires Writes(w, t, b) && w.pc[u].Copying? && Touches(w.pc[u].op, b)
    ensures t == u && b == w.pc[u].op.dst
  {
    if !b.Local? {
      assert Guard(b) in Held(w.pc[t]) && Guard(b) in Held(w.pc[u]);
    }
  }

  // The source of a copy in progress holds a whole value.
  lemma SourceWhole(w: World, t: nat)
    requires Inv(w) && t < |w.pc| && w.pc[t].Copying?
    ensures Contents(w.pc[t].op.src, w.mem) == Contents(w.pc[t].op.src, w.whole)
  {
    var op := w.pc[t].op;
    if op.src.From? {
      if u: nat :| Writes(w, u, op.src.b) { Exclusive(w, u, t, op.src.b); }
    }
  }

  lemma StartsKeepsInv(w: World, w': World, t: nat, op: Op)
    requires Inv(w) && t < |w.pc| && Starts(w, w', t, op)
    ensures Inv(w')
  {
    assert Held(w'.pc[t]) == [];
    forall u | 0 <= u < |w'.pc| && w'.pc[u].Copying? ensures Partial(w', w'.pc[u].op, w'.pc[u].k) {
      assert Partial(w, w.pc[u].op, w.pc[u].k);
    }
    StillUntorn(w, w', t);
  }

  lemma LocksKeepLockInv(w: World, w': World, t: nat)
    requires LockInv(w) && t < |w.pc| && LockStep(w, w', t)
    ensures LockInv(w')
  {
    var pc, pc' := w.pc[t], w'.pc[t];
    forall u, l | 0 <= u < |w'.pc| && l in Held(w'.pc[u]) ensures w'.owner(l) == Some(u) {
      LocksAscend(pc.op);
      if u != t { assert l in Held(w.pc[u]); }
    }
  }

  // They are taken in the order that excludes deadlock.
  lemma LocksAscend(op: Op)
    ensures forall i, j | 0 <= i < j < |Locks(op)| :: LockProtocol.Rank(Locks(op)[i]) < LockProtocol.Rank(Locks(op)[j])
  {
  }

  // Nobody else is writing to the buffer a thread is about to copy to.
  lemma CopyBegins(w: World, w': World, t: nat)
    requires Inv(w) && LockInv(w') && t < |w.pc| && LockStep(w, w', t) && w'.pc[t].Copying?
    ensures Partial(w', w'.pc[t].op, 0)
  {
    var dst := w'.pc[t].op.dst;
    if u: nat :| Writes(w, u, dst) {
      assert Writes(w', u, dst) && Writes(w', t, dst);
      Exclusive(w', u, t, dst);
    }
    assert w.mem(dst) == w.whole(dst);
  }

  lemma LocksKeepSizes(w: World, w': World, t: nat)
    requires Sized(w) && SizesMatch(w) && t < |w.pc| && LockStep(w, w', t)
    ensures Sized(w') && SizesMatch(w')
  {
    forall u | 0 <= u < |w'.pc| && !w'.pc[u].Rest?
      ensures |Contents(w'.pc[u].op.src, w'.whole)| == |w'.whole(w'.pc[u].op.dst)|
    {
      assert w'.pc[u].op == w.pc[u].op;
    }
  }

  lemma LocksKeepDataInv(w: World, w': World, t: nat)
    requires Inv(w) && LockInv(w') && t < |w.pc| && LockStep(w, w', t)
    ensures DataInv(w')
  {
    StillUntorn(w, w', t);
    LocksKeepSizes(w, w', t);
    forall u | 0 <= u < |w'.pc| && w'.pc[u].Copying? ensures Partial(w', w'.pc[u].op, w'.pc[u].k) {
      if u == t { CopyBegins(w, w', t); } else { assert Partial(w, w.pc[u].op, w.pc[u].k); }
    }
  }

  lemma NoLockKeepsLockInv(w: World, w': World, t: nat)
    requires LockInv(w) && t < |w.pc| && (ByteStep(w, w', t) || Completes(w, w', t))
    ensures LockInv(w')
  {
    assert Held(w'.pc[t]) == Locks(w.pc[t].op) == Held(w.pc[t]);
  }

  lemma OneMoreByte(v: Bytes, was: Bytes, k: nat)
    requires k < |v| == |was|
    ensures (v[..k] + was[k..])[k := v[k]] == v[..k + 1] + was[k + 1..]
  {
  }

  lemma ByteKeepsPartial(w: World, w': World, t: nat, u: nat)
    requires Inv(w) && t < |w.pc| && ByteStep(w, w', t) && u < |w'.pc| && w'.pc[u].Copying?
    ensures Partial(w', w'.pc[u].op, w'.pc[u].k)
  {
    var op := w.pc[u].op;
    assert w'.pc[u].op == op && Partial(w, op, w.pc[u].k);
    assert Contents(op.src, w'.whole) == Contents(op.src, w.whole);
    if u == t {
      SourceWhole(w, t);
      OneMoreByte(Contents(op.src, w.whole), w.whole(op.dst), w.pc[t].k);
    } else if op.dst == w.pc[t].op.dst {
      Exclusive(w, t, u, op.dst);
    }
  }

  // Writers go on writing the same buffers unless they complete.
  lemma StillUntorn(w: World, w': World, t: nat)
    requires Untorn(w) && t < |w.pc| && StepOf(w, w', t) && !w.pc[t].Copying?
    ensures Untorn(w')
  {
    forall b | !BeingWritten(w', b) ensures w'.mem(b) == w'.whole(b) {
      if u: nat :| Writes(w, u, b) { assert Writes(w', u, b); }
    }
  }

  lemma ByteKeepsUntorn(w: World, w': World, t: nat)
    requires Untorn(w) && t < |w.pc| && ByteStep(w, w', t)
    ensures Untorn(w')
  {
    assert Writes(w', t, w.pc[t].op.dst);
    forall b | !BeingWritten(w', b) ensures w'.mem(b) == w'.whole(b) {
      if u: nat :| Writes(w, u, b) { assert Writes(w', u, b); }
    }
  }

  lemma ByteKeepsSizes(w: World, w': World, t: nat)
    requires Sized(w) && SizesMatch(w) && t < |w.pc| && ByteStep(w, w', t)
    ensures Sized(w') && SizesMatch(w')
  {
    forall u | 0 <= u < |w'.pc| && !w'.pc[u].Rest?
      ensures |Contents(w'.pc[u].op.src, w'.whole)| == |w'.whole(w'.pc[u].op.dst)|
    {
      assert w'.pc[u].op == w.pc[u].op;
    }
  }

  lemma ByteKeepsInv(w: World, w': World, t: nat)
    requires Inv(w) && t < |w.pc| && ByteStep(w, w', t)
    ensures Inv(w')
  {
    NoLockKeepsLockInv(w, w', t);
    ByteKeepsUntorn(w, w', t);
    ByteKeepsSizes(w, w', t);
    forall u | 0 <= u < |w'.pc| && w'.pc[u].Copying? ensures Partial(w', w'.pc[u].op, w'.pc[u].k) {
      ByteKeepsPartial(w, w', t, u);
    }
  }

  lemma CompletesCopy(w: World, w': World, t: nat)
    requires Inv(w) && t < |w.pc| && Completes(w, w', t)
    ensures w'.whole(w.pc[t].op.dst) == w.mem(w.pc[t].op.dst) == Contents(w.pc[t].op.src, w.whole)
  {
    SourceWhole(w, t);
    assert Partial(w, w.pc[t].op, w.pc[t].k);
  }

  lemma CompletesKeepsPartial(w: World, w': World, t: nat, u: nat)
    requires Inv(w) && t < |w.pc| && Completes(w, w', t) && u < |w'.pc| && w'.pc[u].Copying?
    ensures Partial(w', w'.pc[u].op, w'.pc[u].k)
  {
    assert Partial(w, w.pc[u].op, w.pc[u].k);
    if Touches(w.pc[u].op, w.pc[t].op.dst) { Exclusive(w, t, u, w.pc[t].op.dst); }
  }

  lemma CompletesKeepsUntorn(w: World, w': World, t: nat)
    requires Untorn(w) && t < |w.pc| && Completes(w, w', t)
    ensures Untorn(w')
  {
    forall b | !BeingWritten(w', b) ensures w'.mem(b) == w'.whole(b) {
      if b != w.pc[t].op.dst {
        if u: nat :| Writes(w, u, b) { assert Writes(w', u, b); }
      }
    }
  }

  lemma CompletesKeepsSizes(w: World, w': World, t: nat)
    requires Sized(w) && SizesMatch(w) && t < |w.pc| && Completes(w, w', t)
    ensures Sized(w') && SizesMatch(w')
  {
    forall b ensures |w'.whole(b)| == |w.whole(b)| == |w'.mem(b)| { assert |w.mem(b)| == |w.whole(b)|; }
    forall u | 0 <= u < |w'.pc| && !w'.pc[u].Rest?
      ensures |Contents(w'.pc[u].op.src, w'.whole)| == |w'.whole(w'.pc[u].op.dst)|
    {
      assert w'.pc[u].op == w.pc[u].op;
    }
  }

  lemma CompletesKeepsInv(w: World, w': World, t: nat)
    requires Inv(w) && t < |w.pc| && Completes(w, w', t)
    ensures Inv(w')
  {
    NoLockKeepsLockInv(w, w', t);
    CompletesKeepsUntorn(w, w', t);
    CompletesKeepsSizes(w, w', t);
    forall u | 0 <= u < |w'.pc| && w'.pc[u].Copying? ensures Partial(w', w'.pc[u].op, w'.pc[u].k) {
      CompletesKeepsPartial(w, w', t, u);
    }
  }

  lemma StepKeepsInv(w: World, w': World)
    requires Inv(w) && Step(w, w')
    ensures Inv(w')
  {
    var t :| 0 <= t < |w.pc| && StepOf(w, w', t);
    if LockStep(w, w', t) {
      LocksKeepLockInv(w, w', t);
      LocksKeepDataInv(w, w', t);
    } else if ByteStep(w, w', t) {
      ByteKeepsInv(w, w', t);
    } else if Completes(w, w', t) {
      CompletesKeepsInv(w, w', t);
    } else {
      var op :| Starts(w, w', t, op);
      StartsKeepsInv(w, w', t, op);
    }
  }

  // A copy that has its mutexes can always go on, byte by byte, and complete.
  lemma CopyProgresses(w: World, t: nat) returns (w': World)
    requires Inv(w) && t < |w.pc| && w.pc[t].Copying?
    ensures ByteStep(w, w', t) || Completes(w, w', t)
  {
    var (op, k) := (w.pc[t].op, w.pc[t].k);
    assert Partial(w, op, k);
    SourceWhole(w, t);
    if k < |Contents(op.src, w.mem)| {
      var bytes := w.mem(op.dst)[k := Contents(op.src, w.mem)[k]];
      w' := w.(pc := w.pc[t := Copying(op, k + 1)], mem := (b: Buffer) => if b == op.dst then bytes else w.mem(b));
    } else {
      var bytes := w.mem(op.dst);
      w' := w.(pc := w.pc[t := Leaving(op, |Locks(op)|)],
               whole := (b: Buffer) => if b == op.dst then bytes else w.whole(b));
    }
  }

  // ---- whole runs --------------------------------------------------------------------------------

  ghost predicate Initial(w: World) {
    && (forall t | 0 <= t < |w.pc| :: w.pc[t].Rest?)
    && (forall b :: w.mem(b) == w.whole(b))
  }

  ghost predicate StepAt(run: seq<World>, i: nat)
    requires i + 1 < |run|
  {
    Step(run[i], run[i + 1])
  }

  ghost predicate IsRun(run: seq<World>) {
    && run != [] && Initial(run[0])
    && forall i: nat | i + 1 < |run| :: StepAt(run, i)
  }

  lemma {:induction false} RunInv(run: seq<World>, n: nat)
    requires IsRun(run) && n < |run|
    ensures Inv(run[n])
    decreases n
  {
    if n > 0 {
      RunInv(run, n - 1);
      assert StepAt(run, n - 1);
      StepKeepsInv(run[n - 1], run[n]);
    }
  }

  ghost predicate LockedByWriter(w: World, b: Buffer) {
    exists t: nat :: Writes(w, t, b) && w.owner(Guard(b)) == Some(t)
  }

  // A buffer is torn only while the thread writing it holds its mutex, so whoever else takes that
  // mutex sees a whole value.
  lemma NoTornValue(run: seq<World>, n: nat, b: Buffer)
    requires IsRun(run) && n < |run| && !b.Local?
    ensures run[n].mem(b) == run[n].whole(b) || LockedByWriter(run[n], b)
  {
    RunInv(run, n);
    if t: nat :| Writes(run[n], t, b) {
      WriterHoldsGuard(run[n], t, b);
    }
  }

  lemma WriterHoldsGuard(w: World, t: nat, b: Buffer)
    requires LockInv(w) && Writes(w, t, b) && !b.Local?
    ensures w.owner(Guard(b)) == Some(t)
  {
    assert Guard(b) in Held(w.pc[t]);
  }

  // Thread t is copying the value v, handed in by its caller, to the channel.
  predicate HandsIn(w: World, t: nat, channel: (nat, bool), v: Bytes) {
    t < |w.pc| && w.pc[t].Copying? && w.pc[t].op.src == Value(v) && Channel(w.pc[t].op.dst) == channel
  }

  ghost predicate StartsWith(w: World, channel: (nat, bool), v: Bytes) {
    exists b :: Channel(b) == channel && w.mem(b) == v
  }

  // v was there from the beginning, or was handed in for this device and direction before step n.
  ghost predicate Offered(run: seq<World>, n: nat, channel: (nat, bool), v: Bytes)
    requires run != []
  {
    StartsWith(run[0], channel, v) || exists i: nat, t: nat :: i < n && i < |run| && HandsIn(run[i], t, channel, v)
  }

  // Whole values are never mixed up: what any buffer holds was handed in for the same device and direction.
  lemma {:induction false} ValuesAreOffered(run: seq<World>, n: nat, b: Buffer)
    requires IsRun(run) && n < |run|
    ensures Offered(run, n, Channel(b), run[n].whole(b))
    decreases n
  {
    if n == 0 {
      assert StartsWith(run[0], Channel(b), run[0].mem(b));
    } else {
      var w, w' := run[n - 1], run[n];
      assert StepAt(run, n - 1);
      RunInv(run, n - 1);
      if w'.whole(b) == w.whole(b) {
        ValuesAreOffered(run, n - 1, b);
      } else {
        var t := Changed(w, w', b);
        var src := w.pc[t].op.src;
        if src.Value? {
          assert HandsIn(run[n - 1], t, Channel(b), src.v);
        } else {
          ValuesAreOffered(run, n - 1, src.b);
        }
      }
    }
  }

  // Only completing a copy to b changes what b holds as a whole: it is then the source's value.
  lemma Changed(w: World, w': World, b: Buffer) returns (t: nat)
    requires Inv(w) && Step(w, w') && w'.whole(b) != w.whole(b)
    ensures t < |w.pc| && Writes(w, t, b) && Completes(w, w', t)
    ensures w'.whole(b) == Contents(w.pc[t].op.src, w.whole)
  {
    t :| 0 <= t < |w.pc| && StepOf(w, w', t);
    CompletesCopy(w, w', t);
  }

  // While a copy is going on its source does not change.
  lemma SourceFixed(w: World, w': World, t: nat)
    requires Inv(w) && Step(w, w') && t < |w.pc| && w.pc[t].Copying? && w.pc[t].op.src.From?
    ensures w'.mem(w.pc[t].op.src.b) == w.mem(w.pc[t].op.src.b)
  {
    var b := w.pc[t].op.src.b;
    var u :| 0 <= u < |w.pc| && StepOf(w, w', u);
    if u != t && Writes(w, u, b) { Exclusive(w, u, t, b); }
  }

  predicate Copies(w: World, t: nat, op: Op) { t < |w.pc| && w.pc[t].Copying? && w.pc[t].op == op }

  // Thread t copies from src to dst from step i on and completes the copy in step j.
  ghost predicate CopyRuns(run: seq<World>, i: nat, j: nat, t: nat, src: Buffer, dst: Buffer)
    requires i <= j && j + 1 < |run|
  {
    (forall m | i <= m <= j :: Copies(run[m], t, Op(From(src), dst))) && Completes(run[j], run[j + 1], t)
  }

  // A copy from one buffer to another (update_write, update_read, sending, the getters) delivers
  // exactly the value the source had from its beginning to its end.
  lemma {:induction false} CopyDelivers(run: seq<World>, i: nat, j: nat, t: nat, src: Buffer, dst: Buffer)
    requires IsRun(run) && i <= j && j + 1 < |run|
    ensures CopyRuns(run, i, j, t, src, dst) ==> run[j + 1].mem(dst) == run[i].mem(src) == run[i].whole(src)
    decreases j - i
  {
    if CopyRuns(run, i, j, t, src, dst) {
      RunInv(run, i);
      assert Copies(run[i], t, Op(From(src), dst));
      SourceWhole(run[i], t);
      if i == j {
        CompletesCopy(run[j], run[j + 1], t);
      } else {
        assert StepAt(run, i);
        SourceFixed(run[i], run[i + 1], t);
        assert CopyRuns(run, i + 1, j, t, src, dst);
        CopyDelivers(run, i + 1, j, t, src, dst);
      }
    }
  }
}
