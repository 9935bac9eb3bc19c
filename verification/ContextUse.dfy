/**
 Who uses SOEM's context while it is open: the lifecycle (one thread at a time) opens and closes it,
 any number of threads do SDO and FoE transfers and OD reads. Every read of the bus state, every
 lock and every use is an action of its own.
 */
module ContextUse {
  import opened BusStates

  datatype Pc =
    | Rest
    | FirstRead | SecondRead         // an SDO or FoE access, holding mailbox_mutex_: its two state reads
    | Transferring                   // ... has passed them and uses the context
    | OdFirstRead | OdSecondRead     // an OD read, without the mutex: its two state reads
    | OdPassed                       // ... has passed them and waits for the mutex
    | OdReading                      // ... holds it and uses the context

  // Inside shutdown(): under the three mutexes the context is closed and Shutdown written.
  datatype Closer = NotClosing | Locked | ContextClosed | StateWritten | BothDone | Done | NeverInitialized

  datatype Holder = Nobody | AccessBy(t: nat) | ByCloser

  datatype World = World(bus: BusState, open: bool, mailbox: Holder, closer: Closer, threads: seq<Pc>)

  predicate Start(w: World) {
    && w.bus == PreInit && !w.open && w.mailbox == Nobody && w.closer == NotClosing
    && forall t | 0 <= t < |w.threads| :: w.threads[t] == Rest
  }

  // ---- actions -----------------------------------------------------------------------------------

  predicate Running(bus: BusState) { Rank(PreInit) < Rank(bus) < Rank(Shutdown) }

  // initialize(), startup(), activate(), update_service() and shutdown().
  ghost predicate LifecycleAct(w: World, w': World) {
    match w.closer
    case NotClosing =>
      || (w.bus == PreInit && w' == w.(open := true))                              // ecx_init
      || (exists s :: w.open && Rank(w.bus) < Rank(s) && Running(s) && w' == w.(bus := s))
      || (w.bus == PreInit && w' == w.(bus := Shutdown, closer := NeverInitialized))
      || (Running(w.bus) && w.mailbox == Nobody && w' == w.(mailbox := ByCloser, closer := Locked))
    case Locked =>
      || w' == w.(open := false, closer := ContextClosed)                          // ecx_close
      || w' == w.(bus := Shutdown, closer := StateWritten)
    case ContextClosed => w' == w.(bus := Shutdown, closer := BothDone)
    case StateWritten => w' == w.(open := false, closer := BothDone)
    case BothDone => w' == w.(mailbox := Nobody, closer := Done)
    case Done => false
    case NeverInitialized => false
  }

  predicate Moves(w: World, w': World, t: nat, pc: Pc, mailbox: Holder)
    requires t < |w.threads|
  {
    w' == w.(threads := w.threads[t := pc], mailbox := mailbox)
  }

  predicate AccessAct(w: World, w': World, t: nat)
    requires t < |w.threads|
  {
    match w.threads[t]
    case Rest =>
      || (w.mailbox == Nobody && Moves(w, w', t, FirstRead, AccessBy(t)))
      || Moves(w, w', t, OdFirstRead, w.mailbox)
    case FirstRead => if w.bus == PreInit then Moves(w, w', t, Rest, Nobody) else Moves(w, w', t, SecondRead, w.mailbox)
    case SecondRead =>
      if w.bus == Shutdown then Moves(w, w', t, Rest, Nobody)
      else Moves(w, w', t, Transferring, w.mailbox) || Moves(w, w', t, Rest, Nobody)   // or: not on the bus
    case Transferring => Moves(w, w', t, Rest, Nobody)
    case OdFirstRead => Moves(w, w', t, if w.bus == PreInit then Rest else OdSecondRead, w.mailbox)
    case OdSecondRead => Moves(w, w', t, if w.bus == Shutdown then Rest else OdPassed, w.mailbox)
    case OdPassed => w.mailbox == Nobody && Moves(w, w', t, OdReading, AccessBy(t))
    case OdReading => Moves(w, w', t, Rest, Nobody)
  }

  ghost predicate Act(w: World, w': World) {
    LifecycleAct(w, w') || exists t: nat :: t < |w.threads| && AccessAct(w, w', t)
  }

  // ---- invariant ---------------------------------------------------------------------------------

  predicate Holds(pc: Pc) { pc.FirstRead? || pc.SecondRead? || pc.Transferring? || pc.OdReading? }

  // Threads that have seen a state other than PreInit, and then one other than Shutdown.
  predicate PassedFirst(pc: Pc) { pc.SecondRead? || pc.OdSecondRead? || PassedBoth(pc) }

  predicate PassedBoth(pc: Pc) { pc.Transferring? || pc.OdPassed? || pc.OdReading? }

  predicate CloserInv(w: World) {
    match w.closer
    case NotClosing => (w.bus == PreInit || (Running(w.bus) && w.open)) && w.mailbox != ByCloser
    case Locked => Running(w.bus) && w.open && w.mailbox == ByCloser
    case ContextClosed => Running(w.bus) && !w.open && w.mailbox == ByCloser
    case StateWritten => w.bus == Shutdown && w.open && w.mailbox == ByCloser
    case BothDone => w.bus == Shutdown && !w.open && w.mailbox == ByCloser
    case Done => w.bus == Shutdown && !w.open && w.mailbox != ByCloser
    case NeverInitialized => w.bus == Shutdown && w.mailbox != ByCloser
  }

  predicate ThreadInv(w: World, t: nat)
    requires t < |w.threads|
  {
    && (Holds(w.threads[t]) <==> w.mailbox == AccessBy(t))
    && (PassedFirst(w.threads[t]) ==> w.bus != PreInit)
    && (PassedBoth(w.threads[t]) ==> w.closer != NeverInitialized)
    && (w.threads[t].Transferring? ==> w.bus != Shutdown)
  }

  predicate Inv(w: World) { CloserInv(w) && forall t: nat | t < |w.threads| :: ThreadInv(w, t) }

  lemma LifecycleKeepsInv(w: World, w': World)
    requires Inv(w) && LifecycleAct(w, w')
    ensures Inv(w')
  {
    forall t: nat | t < |w'.threads| ensures ThreadInv(w', t) { assert ThreadInv(w, t); }
  }

  lemma AccessKeepsInv(w: World, w': World, t: nat)
    requires Inv(w) && t < |w.threads| && AccessAct(w, w', t)
    ensures Inv(w')
  {
    assert ThreadInv(w, t);
    forall u: nat | u < |w'.threads| ensures ThreadInv(w', u) { assert ThreadInv(w, u); }
  }

  // ---- whole runs --------------------------------------------------------------------------------

  ghost predicate StepAt(run: seq<World>, i: nat)
    requires i + 1 < |run|
  {
    Act(run[i], run[i + 1])
  }

  ghost predicate IsRun(run: seq<World>) {
    && run != [] && Start(run[0])
    && forall i: nat | i + 1 < |run| :: StepAt(run, i)
  }

  lemma {:induction false} RunInv(run: seq<World>, n: nat)
    requires IsRun(run) && n < |run|
    ensures Inv(run[n])
    decreases n
  {
    if n > 0 {
      RunInv(run, n - 1);
      assert StepAt(run, n - 1);
      var (w, w') := (run[n - 1], run[n]);
      if LifecycleAct(w, w') {
        LifecycleKeepsInv(w, w');
      } else {
        var t: nat :| t < |w.threads| && AccessAct(w, w', t);
        AccessKeepsInv(w, w', t);
      }
    }
  }

  // What the triple lock is for: an SDO or FoE transfer always runs on an open context.
  lemma TransfersUseOpenContext(run: seq<World>, n: nat, t: nat)
    requires IsRun(run) && n < |run| && t < |run[n].threads|
    ensures run[n].threads[t].Transferring? ==> run[n].open
  {
    RunInv(run, n);
    assert ThreadInv(run[n], t);
  }

  // An OD read checks before it locks: it runs on an open context if and only if the bus is not in
  // Shutdown when it has the mutex, that is, if a check made then would have passed.
  lemma OdReadUsesOpenContextIff(run: seq<World>, n: nat, t: nat)
    requires IsRun(run) && n < |run| && t < |run[n].threads|
    ensures run[n].threads[t].OdReading? ==> (run[n].open <==> run[n].bus != Shutdown)
  {
    RunInv(run, n);
    assert ThreadInv(run[n], t);
  }

  // Transfers do take place: an access on an initialized bus reaches its transfer.
  lemma TransferHappens() returns (run: seq<World>)
    ensures IsRun(run) && run[|run| - 1].threads == [Transferring]
  {
    run := [
      World(PreInit, false, Nobody, NotClosing, [Rest]),
      World(PreInit, true, Nobody, NotClosing, [Rest]),
      World(Initialized, true, Nobody, NotClosing, [Rest]),
      World(Initialized, true, AccessBy(0), NotClosing, [FirstRead]),
      World(Initialized, true, AccessBy(0), NotClosing, [SecondRead]),
      World(Initialized, true, AccessBy(0), NotClosing, [Transferring])];
    forall i: nat | i + 1 < |run| ensures StepAt(run, i) {
      assert Rank(run[i].bus) < Rank(Initialized) ==> Running(Initialized);
      assert AccessAct(run[i], run[i + 1], 0) || LifecycleAct(run[i], run[i + 1]);
    }
  }

  // A run in which it is not: the bus is shut down between the check and the lock.
  lemma OdReadAfterClose() returns (run: seq<World>)
    ensures IsRun(run) && run[|run| - 1].threads == [OdReading] && !run[|run| - 1].open
  {
    run := [
      World(PreInit, false, Nobody, NotClosing, [Rest]),
      World(PreInit, true, Nobody, NotClosing, [Rest]),
      World(Initialized, true, Nobody, NotClosing, [Rest]),
      World(Initialized, true, Nobody, NotClosing, [OdFirstRead]),
      World(Initialized, true, Nobody, NotClosing, [OdSecondRead]),
      World(Initialized, true, Nobody, NotClosing, [OdPassed]),
      World(Initialized, true, ByCloser, Locked, [OdPassed]),
      World(Shutdown, true, ByCloser, StateWritten, [OdPassed]),
      World(Shutdown, false, ByCloser, BothDone, [OdPassed]),
      World(Shutdown, false, Nobody, Done, [OdPassed]),
      World(Shutdown, false, AccessBy(0), Done, [OdReading])];
    forall i: nat | i + 1 < |run| ensures StepAt(run, i) {
      assert Rank(run[i].bus) < Rank(Initialized) ==> Running(Initialized);
      assert AccessAct(run[i], run[i + 1], 0) || LifecycleAct(run[i], run[i + 1]);
    }
  }
}
