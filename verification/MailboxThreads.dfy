/**
 Any number of threads doing SDO and FoE accesses, the service thread's drain and
 OD reads share SOEM's error list under mailbox_mutex_. One action is one lock, one
 popped record, one report or one return; records may be pushed, or dropped from a
 full list, between any two actions.
 */
module MailboxThreads {
  import opened Options
  import opened MailboxEvents

  // A record on SOEM's error list, with its push number.
  datatype Pending = Pending(stamp: nat, raw: RawError)

  // Which event: the one a record denotes, or the n-th one made up by an access.
  datatype Item =
    | Popped(stamp: nat, event: MailboxEvent)
    | MadeUp(serial: nat, event: MailboxEvent)

  // What the thread holding mailbox_mutex_ is doing.
  datatype Pc =
    | Opening(acc: Access, foe: bool)                                      // opening drain
    | InCall(acc: Access, foe: bool, since: nat)                           // inside ecx_SDO* / ecx_FOE*
    | Closing(acc: Access, foe: bool, since: nat, wkc: int, kept: Option<Item>)
    | Finishing(acc: Access, foe: bool, since: nat, wkc: int, kept: Option<Item>)
    | Returning(acc: Access, foe: bool, since: nat, wkc: int, event: Option<Item>, failed: bool)
    | Draining                                                             // service thread
    | ReadingOd                                                            // no drain at all

  datatype Mutex = Free | HeldBy(thread: nat, pc: Pc)

  // What a caller was given: its access, when that access had emptied the list, its working counter,
  // how many records had been popped when it returned, and the outcome.
  datatype Outcome = Outcome(
    thread: nat, acc: Access, foe: bool, since: nat, wkc: int, upTo: nat, event: Option<Item>, failed: bool)

  datatype World = World(
    queue: seq<Pending>, clock: nat, status: MailboxStatus, mutex: Mutex,
    // bookkeeping, in order of occurrence
    popped: seq<Pending>, counted: seq<Item>, madeUp: seq<MailboxEvent>, outcomes: seq<Outcome>)

  const ZERO := MailboxStatus(0, 0, 0)
  const START := World([], 0, ZERO, Free, [], [], [], [])

  // ---- actions -------------------------------------------------------------------------------

  function ItemOf(p: Pending): Item { Popped(p.stamp, EventOf(p.raw)) }

  function Goes(w: World, pc: Pc): World
    requires w.mutex.HeldBy?
  {
    w.(mutex := HeldBy(w.mutex.thread, pc))
  }

  function Reports(w: World, item: Item): World {
    w.(status := Counted(w.status, item.event), counted := w.counted + [item])
  }

  function Pops(w: World): World
    requires w.queue != []
  {
    w.(queue := w.queue[1..], popped := w.popped + [w.queue[0]])
  }

  // A timeout or FoE event is made up, counted, and about to be returned.
  function MakesUp(w: World, ev: MailboxEvent): World
    requires w.mutex.HeldBy? && w.mutex.pc.Finishing?
  {
    var item := MadeUp(|w.madeUp|, ev);
    var pc := w.mutex.pc;
    Goes(Reports(w.(madeUp := w.madeUp + [ev]), item), Returning(pc.acc, pc.foe, pc.since, pc.wkc, Some(item), true))
  }

  function Returns(w: World): World
    requires w.mutex.HeldBy? && w.mutex.pc.Returning?
  {
    var Returning(acc, foe, since, wkc, event, failed) := w.mutex.pc;
    var outcome := Outcome(w.mutex.thread, acc, foe, since, wkc, |w.popped|, event, failed);
    w.(mutex := Free, outcomes := w.outcomes + [outcome])
  }

  function Pushes(w: World, raw: RawError): World {
    w.(queue := w.queue + [Pending(w.clock, raw)], clock := w.clock + 1)
  }

  ghost predicate EnvAct(w: World, w': World) {
    || (exists raw :: w' == Pushes(w, raw))
    || (w.queue != [] && w' == w.(queue := w.queue[1..]))
  }

  ghost predicate LockAct(w: World, w': World) {
    && w.mutex.Free?
    && exists t, pc :: w' == w.(mutex := HeldBy(t, pc)) && (pc.Opening? || pc.Draining? || pc.ReadingOd?)
  }

  ghost predicate HolderAct(w: World, w': World)
    requires w.mutex.HeldBy?
  {
    match w.mutex.pc
    case Opening(acc, foe) =>
      if w.queue != [] then w' == Reports(Pops(w), ItemOf(w.queue[0])) else w' == Goes(w, InCall(acc, foe, w.clock))
    case InCall(acc, foe, since) => exists wkc :: w' == Goes(w, Closing(acc, foe, since, wkc, None))
    case Closing(acc, foe, since, wkc, kept) =>
      if w.queue == [] then w' == Goes(w, Finishing(acc, foe, since, wkc, kept))
      else if kept == None && BelongsTo(EventOf(w.queue[0].raw), acc)
      then w' == Goes(Pops(w), Closing(acc, foe, since, wkc, Some(ItemOf(w.queue[0]))))
      else w' == Reports(Pops(w), ItemOf(w.queue[0]))
    case Finishing(acc, foe, since, wkc, kept) =>
      if wkc > 0 || (!foe && kept.Some?)
      then
        var failed := wkc <= 0 || (kept.Some? && kept.value.event.severity == Error);
        w' == Goes(w, Returning(acc, foe, since, wkc, kept, failed))
      else if kept.Some? then w' == Goes(Reports(w, kept.value), Finishing(acc, foe, since, wkc, None))
      else if foe then exists types :: w' == MakesUp(w, FoeEvent(acc.deviceId, wkc, types))
      else w' == MakesUp(w, TimeoutEvent(acc))
    case Returning(_, _, _, _, _, _) => w' == Returns(w)
    case Draining => if w.queue != [] then w' == Reports(Pops(w), ItemOf(w.queue[0])) else w' == w.(mutex := Free)
    case ReadingOd => w' == w.(mutex := Free)
  }

  ghost predicate Act(w: World, w': World) {
    EnvAct(w, w') || LockAct(w, w') || (w.mutex.HeldBy? && HolderAct(w, w'))
  }

  ghost predicate StepAt(run: seq<World>, i: nat)
    requires i + 1 < |run|
  {
    Act(run[i], run[i + 1])
  }

  ghost predicate IsRun(run: seq<World>) {
    && run != [] && run[0] == START
    && forall i: nat | i + 1 < |run| :: StepAt(run, i)
  }

  // ---- freshness -----------------------------------------------------------------------------

  // Records are popped in the order they were pushed.
  predicate InPushOrder(ps: seq<Pending>, clock: nat) {
    && (forall i, j | 0 <= i < j < |ps| :: ps[i].stamp < ps[j].stamp)
    && (forall i | 0 <= i < |ps| :: ps[i].stamp < clock)
  }

  predicate AllSince(ps: seq<Pending>, since: nat) {
    forall i | 0 <= i < |ps| :: ps[i].stamp >= since
  }

  // Pushed after the access had emptied the list, solicited, and from its device; or made up for it.
  predicate FreshFor(item: Item, acc: Access, since: nat) {
    && item.event.severity == Error && item.event.kind != Emergency && item.event.deviceId == acc.deviceId
    && (item.Popped? ==> item.stamp >= since && BelongsTo(item.event, acc))
  }

  predicate OutcomeOk(acc: Access, since: nat, event: Option<Item>, failed: bool) {
    (failed <==> event.Some?) && (event.Some? ==> FreshFor(event.value, acc, since))
  }

  predicate KeptOk(acc: Access, since: nat, kept: Option<Item>) {
    kept.Some? ==> kept.value.Popped? && FreshFor(kept.value, acc, since)
  }

  predicate PcFresh(pc: Pc, queue: seq<Pending>, clock: nat) {
    match pc
    case InCall(_, _, since) => since <= clock && AllSince(queue, since)
    case Closing(acc, _, since, _, kept) => since <= clock && AllSince(queue, since) && KeptOk(acc, since, kept)
    case Finishing(acc, _, since, _, kept) => KeptOk(acc, since, kept)
    case Returning(acc, _, since, _, event, failed) => OutcomeOk(acc, since, event, failed)
    case _ => true
  }

  predicate FreshInv(w: World) {
    && InPushOrder(w.popped + w.queue, w.clock)
    && (w.mutex.HeldBy? ==> PcFresh(w.mutex.pc, w.queue, w.clock))
    && forall o | o in w.outcomes :: OutcomeOk(o.acc, o.since, o.event, o.failed)
  }

  lemma EnvKeepsFresh(w: World, w': World)
    requires FreshInv(w) && EnvAct(w, w')
    ensures FreshInv(w')
  {
    if raw :| w' == Pushes(w, raw) {
      assert w'.popped + w'.queue == (w.popped + w.queue) + [Pending(w.clock, raw)];
    } else {
      var n := |w.popped|;
      assert w'.popped + w'.queue == (w.popped + w.queue)[..n] + (w.popped + w.queue)[n + 1..];
    }
  }

  lemma HolderKeepsFresh(w: World, w': World)
    requires FreshInv(w) && w.mutex.HeldBy? && HolderAct(w, w')
    ensures FreshInv(w')
  {
    assert w'.popped + w'.queue == w.popped + w.queue;
    if w.queue != [] && w.mutex.pc.Closing? && BelongsTo(EventOf(w.queue[0].raw), w.mutex.pc.acc) {
      SolicitedIsError(w.queue[0].raw, w.mutex.pc.acc);
    }
  }

  // ---- attribution ---------------------------------------------------------------------------

  // A record popped for the access that had emptied the list at `since`, and solicited by it.
  predicate Answers(p: Pending, since: nat, acc: Access) { p.stamp >= since && BelongsTo(EventOf(p.raw), acc) }

  // The first such record, if any.
  function FirstAnswer(ps: seq<Pending>, since: nat, acc: Access): Option<Item> {
    if ps == [] then None
    else
      var n := |ps| - 1;
      var before := FirstAnswer(ps[..n], since, acc);
      if before.Some? then before else if Answers(ps[n], since, acc) then Some(ItemOf(ps[n])) else None
  }

  lemma {:induction false} FirstAnswerIs(ps: seq<Pending>, since: nat, acc: Access)
    ensures var f := FirstAnswer(ps, since, acc);
            if f.Some? then IsFirstAnswer(ps, since, acc, f.value) else Unanswered(ps, since, acc)
  {
    if ps != [] {
      var n := |ps| - 1;
      FirstAnswerIs(ps[..n], since, acc);
      var f := FirstAnswer(ps[..n], since, acc);
      if f.Some? {
        var k :| 0 <= k < n && f.value == ItemOf(ps[k]) && Answers(ps[k], since, acc)
                 && forall j | 0 <= j < k :: !Answers(ps[..n][j], since, acc);
        assert forall j | 0 <= j < k :: ps[j] == ps[..n][j];
      } else {
        assert forall j | 0 <= j < n :: ps[j] == ps[..n][j];
      }
    }
  }

  ghost predicate Unanswered(ps: seq<Pending>, since: nat, acc: Access) {
    forall k | 0 <= k < |ps| :: !Answers(ps[k], since, acc)
  }

  ghost predicate IsFirstAnswer(ps: seq<Pending>, since: nat, acc: Access, item: Item) {
    exists k :: 0 <= k < |ps| && item == ItemOf(ps[k]) && Answers(ps[k], since, acc)
                && forall j | 0 <= j < k :: !Answers(ps[j], since, acc)
  }

  ghost predicate IsFoeEvent(item: Item, acc: Access, wkc: int) {
    exists types :: item.event == FoeEvent(acc.deviceId, wkc, types)
  }

  // What an access hands over, given what has been popped.
  ghost predicate Attributed(ps: seq<Pending>, acc: Access, foe: bool, since: nat, wkc: int, event: Option<Item>,
                             failed: bool) {
    var first := FirstAnswer(ps, since, acc);
    && (failed <==> wkc <= 0 || first.Some?)
    && (!failed ==> event == None)
    && (failed && (wkc > 0 || (!foe && first.Some?)) ==> event == first)
    && (wkc <= 0 && !foe && first == None ==>
          event.Some? && event.value.MadeUp? && event.value.event == TimeoutEvent(acc))
    && (wkc <= 0 && foe ==> event.Some? && event.value.MadeUp? && IsFoeEvent(event.value, acc, wkc))
  }

  ghost predicate PcAttributes(pc: Pc, popped: seq<Pending>) {
    match pc
    case InCall(_, _, since) => forall k | 0 <= k < |popped| :: popped[k].stamp < since
    case Closing(acc, _, since, _, kept) => kept == FirstAnswer(popped, since, acc)
    case Finishing(acc, foe, since, wkc, kept) =>
      kept == FirstAnswer(popped, since, acc) || (kept == None && foe && wkc <= 0)
    case Returning(acc, foe, since, wkc, event, failed) => Attributed(popped, acc, foe, since, wkc, event, failed)
    case _ => true
  }

  ghost predicate OutcomeAttributed(o: Outcome, popped: seq<Pending>) {
    o.upTo <= |popped| && Attributed(popped[..o.upTo], o.acc, o.foe, o.since, o.wkc, o.event, o.failed)
  }

  ghost predicate AttributionInv(w: World) {
    && (w.mutex.HeldBy? ==> PcAttributes(w.mutex.pc, w.popped))
    && forall o | o in w.outcomes :: OutcomeAttributed(o, w.popped)
  }

  lemma {:induction false} NothingSince(ps: seq<Pending>, since: nat, acc: Access)
    requires forall k | 0 <= k < |ps| :: ps[k].stamp < since
    ensures FirstAnswer(ps, since, acc) == None
  {
    if ps != [] { NothingSince(ps[..|ps| - 1], since, acc); }
  }

  // Outcomes speak about a prefix of what has been popped, which never changes.
  lemma OutcomesStay(w: World, w': World)
    requires forall o | o in w.outcomes :: OutcomeAttributed(o, w.popped)
    requires w.popped <= w'.popped
    ensures forall o | o in w.outcomes :: OutcomeAttributed(o, w'.popped)
  {
    forall o | o in w.outcomes ensures OutcomeAttributed(o, w'.popped) {
      assert w'.popped[..o.upTo] == w.popped[..o.upTo];
    }
  }

  lemma PopAttributes(w: World, w': World)
    requires FreshInv(w) && AttributionInv(w) && w.mutex.HeldBy? && w.mutex.pc.Closing? && HolderAct(w, w')
    ensures w'.mutex.HeldBy? && PcAttributes(w'.mutex.pc, w'.popped)
  {
    var Closing(acc, foe, since, wkc, kept) := w.mutex.pc;
    if w.queue != [] {
      assert w'.popped[..|w.popped|] == w.popped && w'.popped[|w.popped|] == w.queue[0];
      assert w.queue[0].stamp >= since;
    }
  }

  lemma FinishAttributes(w: World, w': World)
    requires FreshInv(w) && AttributionInv(w) && w.mutex.HeldBy? && w.mutex.pc.Finishing? && HolderAct(w, w')
    ensures w'.mutex.HeldBy? && PcAttributes(w'.mutex.pc, w'.popped) && w'.popped == w.popped
  {
    var Finishing(acc, foe, since, wkc, kept) := w.mutex.pc;
    if foe && wkc <= 0 && kept == None {
      var types :| w' == MakesUp(w, FoeEvent(acc.deviceId, wkc, types));
      assert IsFoeEvent(w'.mutex.pc.event.value, acc, wkc);
    }
  }

  lemma ReturnAttributes(w: World, w': World)
    requires AttributionInv(w) && w.mutex.HeldBy? && w.mutex.pc.Returning? && HolderAct(w, w')
    ensures AttributionInv(w')
  {
    assert w.popped[..|w.popped|] == w.popped;
    assert forall o | o in w'.outcomes :: o in w.outcomes || o == w'.outcomes[|w.outcomes|];
  }

  lemma HolderKeepsAttribution(w: World, w': World)
    requires FreshInv(w) && AttributionInv(w) && w.mutex.HeldBy? && HolderAct(w, w')
    ensures AttributionInv(w')
  {
    match w.mutex.pc {
      case Returning(_, _, _, _, _, _) => ReturnAttributes(w, w');
      case Closing(_, _, _, _, _) => PopAttributes(w, w'); OutcomesStay(w, w');
      case Finishing(_, _, _, _, _) => FinishAttributes(w, w');
      case InCall(acc, foe, since) => NothingSince(w.popped, since, acc);
      case Opening(acc, foe) =>
        OutcomesStay(w, w');
        assert forall k | 0 <= k < |w.popped| :: (w.popped + w.queue)[k] == w.popped[k];
      case _ => OutcomesStay(w, w');
    }
  }

  // Every drain goes on until the list is empty.
  lemma DrainsEmptyTheList(w: World, w': World)
    requires w.mutex.HeldBy? && HolderAct(w, w')
    requires w.mutex.pc.Opening? || w.mutex.pc.Closing? || w.mutex.pc.Draining?
    ensures if w.queue == [] then w'.popped == w.popped && w'.mutex != w.mutex
            else w'.popped == w.popped + [w.queue[0]] && w'.queue == w.queue[1..] && w'.mutex.HeldBy?
                 && w'.mutex.pc.Opening? == w.mutex.pc.Opening? && w'.mutex.pc.Closing? == w.mutex.pc.Closing?
                 && w'.mutex.pc.Draining? == w.mutex.pc.Draining?
  {
  }

  // ---- conservation --------------------------------------------------------------------------

  function Items(popped: seq<Pending>): seq<Item> {
    seq(|popped|, i requires 0 <= i < |popped| => ItemOf(popped[i]))
  }

  function MadeUpItems(madeUp: seq<MailboxEvent>): seq<Item> {
    seq(|madeUp|, i requires 0 <= i < |madeUp| => MadeUp(i, madeUp[i]))
  }

  function ItemEvents(items: seq<Item>): seq<MailboxEvent> {
    seq(|items|, i requires 0 <= i < |items| => items[i].event)
  }

  // The event the mutex holder has taken and not yet counted or returned.
  function InFlight(m: Mutex): Option<Item> {
    match m
    case HeldBy(_, Closing(_, _, _, _, kept)) => kept
    case HeldBy(_, Finishing(_, _, _, _, kept)) => kept
    case HeldBy(_, Returning(_, _, _, _, event, _)) => event
    case _ => None
  }

  function Same(o: Option<Item>, x: Item): nat { if o == Some(x) then 1 else 0 }

  // How often x occurs.
  function Count(s: seq<Item>, x: Item): nat {
    if s == [] then 0 else Count(s[..|s| - 1], x) + Same(Some(s[|s| - 1]), x)
  }

  function HandedCount(outcomes: seq<Outcome>, x: Item): nat {
    if outcomes == [] then 0
    else HandedCount(outcomes[..|outcomes| - 1], x) + Same(outcomes[|outcomes| - 1].event, x)
  }

  // How many outcomes carry a made-up event, or one that was popped.
  function HandedTotal(outcomes: seq<Outcome>, madeUp: bool): nat {
    if outcomes == [] then 0
    else HandedTotal(outcomes[..|outcomes| - 1], madeUp) + Carries(outcomes[|outcomes| - 1].event, madeUp)
  }

  function Carries(o: Option<Item>, madeUp: bool): nat { if o.Some? && o.value.MadeUp? == madeUp then 1 else 0 }

  lemma CountNext(s: seq<Item>, y: Item, x: Item)
    ensures Count(s + [y], x) == Count(s, x) + Same(Some(y), x)
  {
    assert (s + [y])[..|s|] == s;
  }

  predicate StatusInv(w: World) { w.status == CountedAll(ZERO, ItemEvents(w.counted)) }

  // The places an item has been put: counted, in flight, handed over.
  function Places(w: World, x: Item): nat {
    Count(w.counted, x) + Same(InFlight(w.mutex), x) + HandedCount(w.outcomes, x)
  }

  // Everything popped is in one place; what is made up is counted as well as handed over.
  predicate BalanceAt(w: World, x: Item) {
    Places(w, x) == Count(Items(w.popped), x) + 2 * Count(MadeUpItems(w.madeUp), x)
  }

  // A made-up event is counted exactly when it is made up.
  predicate MadeUpInv(w: World, x: Item) {
    x.MadeUp? ==> Count(w.counted, x) == Count(MadeUpItems(w.madeUp), x)
  }

  // Popped records are counted, in flight or handed over; made-up events are counted, and also in
  // flight or handed over.
  predicate TotalInv(w: World) {
    && |w.counted| + Carries(InFlight(w.mutex), false) + HandedTotal(w.outcomes, false) == |w.popped| + |w.madeUp|
    && Carries(InFlight(w.mutex), true) + HandedTotal(w.outcomes, true) == |w.madeUp|
  }

  // What an access has kept from its drain is a popped record.
  predicate KeptIsPopped(m: Mutex) {
    m.HeldBy? && (m.pc.Closing? || m.pc.Finishing?) && m.pc.kept.Some? ==> m.pc.kept.value.Popped?
  }

  lemma ReportKeepsStatus(w: World, item: Item)
    requires StatusInv(w)
    ensures StatusInv(Reports(w, item))
  {
    assert ItemEvents(w.counted + [item]) == ItemEvents(w.counted) + [item.event];
    CountedNext(ZERO, ItemEvents(w.counted), item.event);
  }

  lemma HolderKeepsStatus(w: World, w': World)
    requires StatusInv(w) && w.mutex.HeldBy? && HolderAct(w, w')
    ensures StatusInv(w')
  {
    if item :| w'.counted == w.counted + [item] && w'.status == Counted(w.status, item.event) {
      ReportKeepsStatus(w, item);
    } else {
      assert w'.status == w.status && w'.counted == w.counted;
    }
  }

  lemma PopBalance(w: World, x: Item)
    requires BalanceAt(w, x) && w.queue != []
    ensures BalanceAt(Reports(Pops(w), ItemOf(w.queue[0])), x)
    ensures Count(Items(Pops(w).popped), x) == Count(Items(w.popped), x) + Same(Some(ItemOf(w.queue[0])), x)
  {
    var item := ItemOf(w.queue[0]);
    CountNext(w.counted, item, x);
    CountNext(Items(w.popped), item, x);
    assert Items(w.popped + [w.queue[0]]) == Items(w.popped) + [item];
  }

  lemma MakeUpCounts(w: World, ev: MailboxEvent, x: Item)
    requires w.mutex.HeldBy? && w.mutex.pc.Finishing?
    ensures var (w', new_) := (MakesUp(w, ev), Same(Some(MadeUp(|w.madeUp|, ev)), x));
            && Count(w'.counted, x) == Count(w.counted, x) + new_
            && Count(MadeUpItems(w'.madeUp), x) == Count(MadeUpItems(w.madeUp), x) + new_
  {
    CountNext(w.counted, MadeUp(|w.madeUp|, ev), x);
    MadeUpNext(w.madeUp, ev, x);
  }

  lemma MadeUpNext(madeUp: seq<MailboxEvent>, ev: MailboxEvent, x: Item)
    ensures Count(MadeUpItems(madeUp + [ev]), x) == Count(MadeUpItems(madeUp), x) + Same(Some(MadeUp(|madeUp|, ev)), x)
  {
    CountNext(MadeUpItems(madeUp), MadeUp(|madeUp|, ev), x);
    assert MadeUpItems(madeUp + [ev]) == MadeUpItems(madeUp) + [MadeUp(|madeUp|, ev)];
  }

  lemma MakeUpBalance(w: World, ev: MailboxEvent, x: Item)
    requires BalanceAt(w, x) && w.mutex.HeldBy? && w.mutex.pc.Finishing? && w.mutex.pc.kept == None
    ensures BalanceAt(MakesUp(w, ev), x)
  {
    MakeUpCounts(w, ev, x);
  }

  lemma FinishBalance(w: World, w': World, x: Item)
    requires BalanceAt(w, x) && w.mutex.HeldBy? && w.mutex.pc.Finishing? && HolderAct(w, w')
    ensures BalanceAt(w', x)
  {
    var Finishing(acc, foe, since, wkc, kept) := w.mutex.pc;
    if wkc > 0 || (!foe && kept.Some?) {
      assert InFlight(w'.mutex) == kept && w'.counted == w.counted;
    } else if kept.Some? {
      CountNext(w.counted, kept.value, x);
    } else if foe {
      var types :| w' == MakesUp(w, FoeEvent(acc.deviceId, wkc, types));
      MakeUpBalance(w, FoeEvent(acc.deviceId, wkc, types), x);
    } else {
      MakeUpBalance(w, TimeoutEvent(acc), x);
    }
  }

  lemma ClosingBalance(w: World, w': World, x: Item)
    requires BalanceAt(w, x) && w.mutex.HeldBy? && w.mutex.pc.Closing? && HolderAct(w, w')
    ensures BalanceAt(w', x)
  {
    if w.queue != [] { PopBalance(w, x); }
  }

  lemma ReturnBalance(w: World, x: Item)
    requires BalanceAt(w, x) && w.mutex.HeldBy? && w.mutex.pc.Returning?
    ensures BalanceAt(Returns(w), x)
  {
    assert Returns(w).outcomes[..|w.outcomes|] == w.outcomes;
  }

  lemma HolderKeepsBalance(w: World, w': World, x: Item)
    requires BalanceAt(w, x) && w.mutex.HeldBy? && HolderAct(w, w')
    ensures BalanceAt(w', x)
  {
    match w.mutex.pc {
      case Finishing(_, _, _, _, _) => FinishBalance(w, w', x);
      case Closing(_, _, _, _, _) => ClosingBalance(w, w', x);
      case Returning(_, _, _, _, _, _) => ReturnBalance(w, x);
      case Opening(_, _) => if w.queue != [] { PopBalance(w, x); }
      case Draining => if w.queue != [] { PopBalance(w, x); }
      case _ =>
    }
  }

  lemma HolderKeepsMadeUp(w: World, w': World, x: Item)
    requires MadeUpInv(w, x) && KeptIsPopped(w.mutex) && w.mutex.HeldBy? && HolderAct(w, w')
    ensures MadeUpInv(w', x)
  {
    if ev :| w.mutex.pc.Finishing? && w' == MakesUp(w, ev) {
      MakeUpCounts(w, ev, x);
    } else if item :| w'.counted == w.counted + [item] && item.Popped? {
      assert w'.madeUp == w.madeUp;
      CountNext(w.counted, item, x);
    } else {
      assert w'.madeUp == w.madeUp && w'.counted == w.counted;
    }
  }

  lemma ReturnTotal(w: World)
    requires TotalInv(w) && w.mutex.HeldBy? && w.mutex.pc.Returning?
    ensures TotalInv(Returns(w))
  {
    assert Returns(w).outcomes[..|w.outcomes|] == w.outcomes;
  }

  lemma FinishTotal(w: World, w': World)
    requires TotalInv(w) && KeptIsPopped(w.mutex) && w.mutex.HeldBy? && w.mutex.pc.Finishing? && HolderAct(w, w')
    ensures TotalInv(w')
  {
  }

  lemma HolderKeepsTotal(w: World, w': World)
    requires TotalInv(w) && KeptIsPopped(w.mutex) && w.mutex.HeldBy? && HolderAct(w, w')
    ensures TotalInv(w')
  {
    match w.mutex.pc {
      case Returning(_, _, _, _, _, _) => ReturnTotal(w);
      case Finishing(_, _, _, _, _) => FinishTotal(w, w');
      case _ => assert w'.outcomes == w.outcomes && w'.madeUp == w.madeUp;
    }
  }

  // ---- whole runs -----------------------------------------------------------------------------

  lemma {:induction false} RunFresh(run: seq<World>, n: nat)
    requires IsRun(run) && n < |run|
    ensures FreshInv(run[n])
    decreases n
  {
    if n > 0 {
      var (w, w') := (run[n - 1], run[n]);
      RunFresh(run, n - 1);
      assert StepAt(run, n - 1);
      if EnvAct(w, w') { EnvKeepsFresh(w, w'); }
      else if w.mutex.HeldBy? { HolderKeepsFresh(w, w'); }
    }
  }

  lemma {:induction false} RunAttribution(run: seq<World>, n: nat)
    requires IsRun(run) && n < |run|
    ensures AttributionInv(run[n])
    decreases n
  {
    if n > 0 {
      var (w, w') := (run[n - 1], run[n]);
      RunAttribution(run, n - 1);
      RunFresh(run, n - 1);
      assert StepAt(run, n - 1);
      if EnvAct(w, w') { assert w'.popped == w.popped && w'.mutex == w.mutex && w'.outcomes == w.outcomes; }
      else if w.mutex.HeldBy? { HolderKeepsAttribution(w, w'); }
    }
  }

  lemma StepKeepsTotals(w: World, w': World)
    requires StatusInv(w) && TotalInv(w) && KeptIsPopped(w.mutex) && Act(w, w')
    ensures StatusInv(w') && TotalInv(w')
  {
    if !EnvAct(w, w') && w.mutex.HeldBy? { HolderKeepsStatus(w, w'); HolderKeepsTotal(w, w'); }
  }

  lemma {:induction false} RunTotals(run: seq<World>, n: nat)
    requires IsRun(run) && n < |run|
    ensures StatusInv(run[n]) && TotalInv(run[n])
    decreases n
  {
    if n > 0 {
      RunTotals(run, n - 1);
      RunFresh(run, n - 1);
      assert StepAt(run, n - 1);
      StepKeepsTotals(run[n - 1], run[n]);
    }
  }

  lemma {:induction false} RunBalance(run: seq<World>, n: nat, x: Item)
    requires IsRun(run) && n < |run|
    ensures BalanceAt(run[n], x)
    decreases n
  {
    if n > 0 {
      var (w, w') := (run[n - 1], run[n]);
      RunBalance(run, n - 1, x);
      assert StepAt(run, n - 1);
      if !EnvAct(w, w') && w.mutex.HeldBy? { HolderKeepsBalance(w, w', x); }
    }
  }

  lemma {:induction false} RunMadeUp(run: seq<World>, n: nat, x: Item)
    requires IsRun(run) && n < |run|
    ensures MadeUpInv(run[n], x)
    decreases n
  {
    if n > 0 {
      var (w, w') := (run[n - 1], run[n]);
      RunMadeUp(run, n - 1, x);
      RunFresh(run, n - 1);
      assert StepAt(run, n - 1);
      if !EnvAct(w, w') && w.mutex.HeldBy? { HolderKeepsMadeUp(w, w', x); }
    }
  }

  // An event handed to a caller was pushed after that caller's own opening drain, comes from its
  // device and is no emergency; and the access reports failure exactly when it hands one over.
  lemma HandedEventsAreFresh(run: seq<World>, n: nat)
    requires IsRun(run) && n < |run|
    ensures forall o | o in run[n].outcomes ::
              && (o.failed <==> o.event.Some?)
              && (o.event.Some? ==> FreshFor(o.event.value, o.acc, o.since))
  {
    RunFresh(run, n);
  }

  // An access fails exactly when its working counter is too low or an answer to it was popped. It hands
  // over the first such answer; a timeout only if there is none; for a failed FoE transfer the event
  // made from its return value.
  lemma OutcomesAreAttributed(run: seq<World>, n: nat, o: Outcome)
    requires IsRun(run) && n < |run|
    ensures o in run[n].outcomes ==> o.upTo <= |run[n].popped|
    ensures o in run[n].outcomes ==>
              var ps := run[n].popped[..o.upTo];
              && (!o.failed <==> o.wkc > 0 && Unanswered(ps, o.since, o.acc))
              && (o.failed <==> o.event.Some?)
              && (o.event.Some? && o.event.value.Popped? ==>
                    IsFirstAnswer(ps, o.since, o.acc, o.event.value) && (o.wkc > 0 || !o.foe))
              && (o.event.Some? && o.event.value.MadeUp? ==>
                    o.wkc <= 0 &&
                    if o.foe then IsFoeEvent(o.event.value, o.acc, o.wkc)
                    else o.event.value.event == TimeoutEvent(o.acc) && Unanswered(ps, o.since, o.acc))
  {
    RunAttribution(run, n);
    RunFresh(run, n);
    if o in run[n].outcomes {
      assert OutcomeAttributed(o, run[n].popped);
      FirstAnswerIs(run[n].popped[..o.upTo], o.since, o.acc);
    }
  }

  function Raws(ps: seq<Pending>): seq<RawError> {
    seq(|ps|, i requires 0 <= i < |ps| => ps[i].raw)
  }

  // Where the records pushed at or after `since` begin.
  lemma {:induction false} CutAt(ps: seq<Pending>, clock: nat, since: nat) returns (cut: nat)
    requires InPushOrder(ps, clock)
    ensures cut <= |ps| && forall i | 0 <= i < |ps| :: ps[i].stamp >= since <==> i >= cut
  {
    if ps == [] || ps[|ps| - 1].stamp < since {
      cut := |ps|;
    } else {
      cut := CutAt(ps[..|ps| - 1], clock, since);
      assert forall i | 0 <= i < |ps| - 1 :: ps[..|ps| - 1][i] == ps[i];
    }
  }

  // The first answer is what the drain of one access keeps of the records popped since.
  lemma FirstAnswerIsKept(ps: seq<Pending>, cut: nat, since: nat, acc: Access)
    requires cut <= |ps| && forall i | 0 <= i < |ps| :: ps[i].stamp >= since <==> i >= cut
    ensures var (first, kept) := (FirstAnswer(ps, since, acc), Kept(Events(Raws(ps[cut..])), acc));
            (first.Some? <==> kept.Some?) && (first.Some? ==> first.value.event == kept.value)
  {
    var evs := Events(Raws(ps[cut..]));
    var k := FirstMatch(evs, acc);
    FirstAnswerIs(ps, since, acc);
    forall i | cut <= i < |ps| ensures Answers(ps[i], since, acc) <==> BelongsTo(evs[i - cut], acc) {
      assert evs[i - cut] == EventOf(ps[i].raw);
    }
    if k < |evs| {
      assert Answers(ps[cut + k], since, acc) && evs[k] == EventOf(ps[cut + k].raw);
      var j :| 0 <= j < |ps| && FirstAnswer(ps, since, acc).value == ItemOf(ps[j]) && Answers(ps[j], since, acc)
               && forall i | 0 <= i < j :: !Answers(ps[i], since, acc);
      assert j >= cut && BelongsTo(evs[j - cut], acc);
      assert j == cut + k;
    } else {
      forall j | cut <= j < |ps| ensures !Answers(ps[j], since, acc) { assert !BelongsTo(evs[j - cut], acc); }
    }
  }

  function EventIn(o: Option<Item>): Option<MailboxEvent> { if o.Some? then Some(o.value.event) else None }

  // Whatever other threads do meanwhile, an SDO access returns what it would have returned alone with
  // the records popped since its opening drain.
  lemma SdoOutcomeAsAlone(run: seq<World>, n: nat, o: Outcome) returns (cut: nat)
    requires IsRun(run) && n < |run|
    ensures o in run[n].outcomes && !o.foe ==>
              && cut <= o.upTo <= |run[n].popped|
              && EventIn(o.event) == SdoEvent(Events(Raws(run[n].popped[cut..o.upTo])), o.acc, o.wkc)
  {
    cut := 0;
    if o in run[n].outcomes && !o.foe {
      RunAttribution(run, n);
      RunFresh(run, n);
      assert OutcomeAttributed(o, run[n].popped);
      var ps := run[n].popped[..o.upTo];
      assert InPushOrder(ps, run[n].clock) by {
        forall i | 0 <= i < |ps| ensures ps[i] == (run[n].popped + run[n].queue)[i] { }
      }
      cut := CutAt(ps, run[n].clock, o.since);
      FirstAnswerIsKept(ps, cut, o.since, o.acc);
      assert ps[cut..] == run[n].popped[cut..o.upTo];
    }
  }

  // Every popped record is, at any moment, in exactly one place: counted, in flight, or handed over.
  lemma PoppedExactlyOnce(run: seq<World>, n: nat, k: nat)
    requires IsRun(run) && n < |run| && k < |run[n].popped|
    ensures Places(run[n], ItemOf(run[n].popped[k])) == 1
  {
    var w := run[n];
    var item := ItemOf(w.popped[k]);
    RunFresh(run, n);
    RunBalance(run, n, item);
    assert InPushOrder(w.popped, w.clock) by {
      forall i | 0 <= i < |w.popped| ensures w.popped[i] == (w.popped + w.queue)[i] { }
    }
    CountUnique(Items(w.popped), k);
    CountAbsent(MadeUpItems(w.madeUp), item);
  }

  // Every made-up event is counted exactly once, and it is handed over exactly once or about to be.
  lemma MadeUpCountedAndHanded(run: seq<World>, n: nat, k: nat)
    requires IsRun(run) && n < |run| && k < |run[n].madeUp|
    ensures var item := MadeUp(k, run[n].madeUp[k]);
            && Count(run[n].counted, item) == 1
            && Same(InFlight(run[n].mutex), item) + HandedCount(run[n].outcomes, item) == 1
  {
    var w := run[n];
    var item := MadeUp(k, w.madeUp[k]);
    RunBalance(run, n, item);
    RunMadeUp(run, n, item);
    CountUnique(MadeUpItems(w.madeUp), k);
    CountAbsent(Items(w.popped), item);
  }

  lemma {:induction false} CountAbsent(s: seq<Item>, x: Item)
    requires forall i | 0 <= i < |s| :: s[i] != x
    ensures Count(s, x) == 0
  {
    if s != [] { CountAbsent(s[..|s| - 1], x); }
  }

  lemma {:induction false} CountUnique(s: seq<Item>, k: nat)
    requires k < |s| && forall i | 0 <= i < |s| && i != k :: s[i] != s[k]
    ensures Count(s, s[k]) == 1
  {
    if k == |s| - 1 { CountAbsent(s[..k], s[k]); } else { CountUnique(s[..|s| - 1], k); }
  }

  // The counters account for everything: with nobody inside the mutex, aborts + timeouts +
  // emergencies are the popped records that were not handed over, plus the made-up events, all of
  // which were handed over.
  lemma CountersConserve(run: seq<World>, n: nat)
    requires IsRun(run) && n < |run| && run[n].mutex.Free?
    ensures var w := run[n];
            && w.status.Total() == |w.popped| - HandedTotal(w.outcomes, false) + |w.madeUp|
            && HandedTotal(w.outcomes, true) == |w.madeUp|
  {
    RunTotals(run, n);
  }
}
