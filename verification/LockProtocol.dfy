/**
 A small calculus of lock scopes (lock_guard, try_to_lock, scoped_lock, join,
 exceptions that unwind and release) with an interleaving semantics for any
 number of threads, and the proof that code keeping one global acquisition
 order can never contain a deadlocked set of threads.
 */
module LockProtocol {

  // One PDO mutex per device, and the five bus-level mutexes.
  datatype Lock = DevicePdo(id: nat) | BusPdo | State | Mailbox | MailboxStatus | Diagnostics

  // The global acquisition order.
  function Rank(l: Lock): (r: nat)
    ensures r <= 5
  {
    match l
    case DevicePdo(_) => 0
    case BusPdo => 1
    case State => 2
    case Mailbox => 3
    case MailboxStatus => 4
    case Diagnostics => 5
  }

  // What a function does to locks; conditions on data are nondeterministic choices.
  datatype Code =
    | MayThrow                                     // runs to completion, or throws
    | Block(stmts: seq<Code>)
    | Choice(branches: seq<Code>)                  // branches != []
    | Loop(body: Code)                             // any number of iterations
    | Guard(lock: Lock, body: Code)                // std::lock_guard for the scope of body
    | TryGuard(lock: Lock, body: Code)             // std::try_to_lock; body runs only if owned
    | ScopedLock(locks: set<Lock>, body: Code)     // std::scoped_lock over several mutexes
    | TryCatch(body: Code)
    | UserCode(body: Code)                         // a hook or callback supplied by the user
    | Join(thread: nat)

  datatype Frame =
    | Run(code: Code)
    | Release(locks: set<Lock>)                                 // end of a lock scope
    | Handler                                                   // end of a try block
    | Waiting(lock: Lock, locks: set<Lock>, body: Code)         // scoped_lock, blocked on one of its mutexes
    | Attempt(got: set<Lock>, locks: set<Lock>, body: Code)     // scoped_lock, trying the remaining ones

  datatype Stack = Empty | Push(top: Frame, rest: Stack)

  datatype Thread = Thread(stack: Stack, unwinding: bool)

  datatype Config = Config(owner: map<Lock, nat>, threads: seq<Thread>)

  // ---- semantics: one atomic action of thread t -------------------------------------------

  ghost predicate Acquires(c: Config, t: nat, l: Lock, stack: Stack, c': Config)
    requires t < |c.threads|
  {
    l !in c.owner && c' == Config(c.owner[l := t], c.threads[t := Thread(stack, false)])
  }

  ghost predicate Becomes(c: Config, t: nat, stack: Stack, unwinding: bool, c': Config)
    requires t < |c.threads|
  {
    c' == Config(c.owner, c.threads[t := Thread(stack, unwinding)])
  }

  ghost predicate Releases(c: Config, t: nat, locks: set<Lock>, rest: Stack, unwinding: bool, c': Config)
    requires t < |c.threads|
  {
    if locks == {} then Becomes(c, t, rest, unwinding, c')
    else
      exists l ::
        && l in locks
        && c' == Config(c.owner - {l}, c.threads[t := Thread(Push(Release(locks - {l}), rest), unwinding)])
  }

  ghost predicate Runs(c: Config, t: nat, code: Code, rest: Stack, c': Config)
    requires t < |c.threads|
  {
    match code
    case MayThrow => Becomes(c, t, rest, false, c') || Becomes(c, t, rest, true, c')
    case Block(ss) =>
      if ss == [] then Becomes(c, t, rest, false, c')
      else Becomes(c, t, Push(Run(ss[0]), Push(Run(Block(ss[1..])), rest)), false, c')
    case Choice(bs) => exists b :: b in bs && Becomes(c, t, Push(Run(b), rest), false, c')
    case Loop(b) => Becomes(c, t, rest, false, c') || Becomes(c, t, Push(Run(b), Push(Run(code), rest)), false, c')
    case Guard(l, b) => Acquires(c, t, l, Push(Run(b), Push(Release({l}), rest)), c')
    case TryGuard(l, b) =>
      || Becomes(c, t, rest, false, c')
      || Acquires(c, t, l, Push(Run(b), Push(Release({l}), rest)), c')
    case ScopedLock(ls, b) => exists l :: l in ls && Becomes(c, t, Push(Waiting(l, ls, b), rest), false, c')
    case TryCatch(b) => Becomes(c, t, Push(Run(b), Push(Handler, rest)), false, c')
    case UserCode(b) => Becomes(c, t, Push(Run(b), rest), false, c')
    case Join(u) => u < |c.threads| && c.threads[u].stack.Empty? && Becomes(c, t, rest, false, c')
  }

  // std::lock on the remaining mutexes: take a free one, or back off and block on any of them.
  ghost predicate Attempts(c: Config, t: nat, top: Frame, rest: Stack, c': Config)
    requires t < |c.threads| && top.Attempt?
  {
    var Attempt(got, ls, b) := top;
    if ls <= got then Becomes(c, t, Push(Run(b), Push(Release(got), rest)), false, c')
    else
      exists l, l' ::
        && l in ls && l !in got && l' in ls
        && if l !in c.owner then Acquires(c, t, l, Push(Attempt({l} + got, ls, b), rest), c')
           else Becomes(c, t, Push(Release(got), Push(Waiting(l', ls, b), rest)), false, c')
  }

  ghost predicate Step(c: Config, t: nat, c': Config) {
    && t < |c.threads|
    && c.threads[t].stack.Push?
    && var Thread(Push(top, rest), unwinding) := c.threads[t];
       match top
       case Release(ls) => Releases(c, t, ls, rest, unwinding, c')
       case Handler => Becomes(c, t, rest, false, c')
       case Run(code) => if unwinding then Becomes(c, t, rest, true, c') else Runs(c, t, code, rest, c')
       case Waiting(l, ls, b) =>
         if unwinding then Becomes(c, t, rest, true, c') else Acquires(c, t, l, Push(Attempt({l}, ls, b), rest), c')
       case Attempt(got, ls, b) =>
         if unwinding then Becomes(c, t, Push(Release(got), rest), true, c') else Attempts(c, t, top, rest, c')
  }

  // ---- the discipline ------------------------------------------------------------------------

  // Code that, entered while holding `held`, blocks only on mutexes ranked above
  // everything held, and enters scoped_lock, joins and user code holding nothing.
  predicate Ordered(code: Code, held: set<Lock>) {
    match code
    case MayThrow => true
    case Block(ss) => forall s | s in ss :: Ordered(s, held)
    case Choice(bs) => bs != [] && forall b | b in bs :: Ordered(b, held)
    case Loop(b) => Ordered(b, held)
    case Guard(l, b) => (forall h | h in held :: Rank(h) < Rank(l)) && Ordered(b, {l} + held)
    case TryGuard(l, b) => l !in held && Ordered(b, {l} + held)
    case ScopedLock(ls, b) => held == {} && ls != {} && Ordered(b, ls)
    case TryCatch(b) => Ordered(b, held)
    case UserCode(b) => held == {} && Ordered(b, held)
    case Join(_) => held == {}
  }

  // Joins only threads numbered below `self`.
  predicate JoinsBelow(code: Code, self: nat) {
    match code
    case MayThrow => true
    case Block(ss) => forall s | s in ss :: JoinsBelow(s, self)
    case Choice(bs) => forall b | b in bs :: JoinsBelow(b, self)
    case Loop(b) => JoinsBelow(b, self)
    case Guard(_, b) => JoinsBelow(b, self)
    case TryGuard(_, b) => JoinsBelow(b, self)
    case ScopedLock(_, b) => JoinsBelow(b, self)
    case TryCatch(b) => JoinsBelow(b, self)
    case UserCode(b) => JoinsBelow(b, self)
    case Join(u) => u < self
  }

  // The mutexes a piece of code takes itself, user code not counted, and which while holding which.
  function Taken(code: Code): set<Lock> {
    match code
    case Block(ss) => set s, l | s in ss && l in Taken(s) :: l
    case Choice(bs) => set b, l | b in bs && l in Taken(b) :: l
    case Loop(b) => Taken(b)
    case Guard(l, b) => {l} + Taken(b)
    case TryGuard(l, b) => {l} + Taken(b)
    case ScopedLock(ls, b) => ls + Taken(b)
    case TryCatch(b) => Taken(b)
    case _ => {}
  }

  function Nested(code: Code): set<(Lock, Lock)> {
    match code
    case Block(ss) => set s, p | s in ss && p in Nested(s) :: p
    case Choice(bs) => set b, p | b in bs && p in Nested(b) :: p
    case Loop(b) => Nested(b)
    case Guard(l, b) => (set m | m in Taken(b) :: (l, m)) + Nested(b)
    case TryGuard(l, b) => (set m | m in Taken(b) :: (l, m)) + Nested(b)
    case ScopedLock(ls, b) => (set l, m | l in ls && m in Taken(b) :: (l, m)) + Nested(b)
    case TryCatch(b) => Nested(b)
    case _ => {}
  }

  function Held(s: Stack): set<Lock> {
    match s
    case Empty => {}
    case Push(Release(ls), rest) => ls + Held(rest)
    case Push(Attempt(got, _, _), rest) => got + Held(rest)
    case Push(_, rest) => Held(rest)
  }

  predicate FrameOk(f: Frame, below: set<Lock>, self: nat) {
    match f
    case Run(code) => Ordered(code, below) && JoinsBelow(code, self)
    case Release(ls) => ls !! below
    case Handler => true
    case Waiting(l, ls, b) => below == {} && l in ls && Ordered(b, ls) && JoinsBelow(b, self)
    case Attempt(got, ls, b) => below == {} && got <= ls && ls != {} && Ordered(b, ls) && JoinsBelow(b, self)
  }

  predicate StackOk(s: Stack, self: nat) {
    match s
    case Empty => true
    case Push(f, rest) => FrameOk(f, Held(rest), self) && StackOk(rest, self)
  }

  // Mutexes are owned by exactly the thread whose scopes will release them.
  ghost predicate Inv(c: Config) {
    && (forall l | l in c.owner :: c.owner[l] < |c.threads| && l in Held(c.threads[c.owner[l]].stack))
    && (forall t, l | 0 <= t < |c.threads| && l in Held(c.threads[t].stack) :: l in c.owner && c.owner[l] == t)
    && (forall t | 0 <= t < |c.threads| :: StackOk(c.threads[t].stack, t))
  }

  // ---- what it means to be stuck -----------------------------------------------------------

  predicate Unfinished(c: Config, t: nat) {
    t < |c.threads| && c.threads[t].stack.Push?
  }

  // The mutex a thread is blocked on, if any.
  ghost predicate BlockedOn(c: Config, t: nat, l: Lock) {
    && Unfinished(c, t) && !c.threads[t].unwinding && l in c.owner
    && match c.threads[t].stack.top
       case Run(Guard(l', _)) => l' == l
       case Waiting(l', _, _) => l' == l
       case _ => false
  }

  ghost predicate BlockedJoining(c: Config, t: nat, u: nat) {
    && Unfinished(c, t) && !c.threads[t].unwinding
    && c.threads[t].stack.top == Run(Join(u)) && Unfinished(c, u)
  }

  // Thread t cannot continue before thread u acts.
  ghost predicate WaitsFor(c: Config, t: nat, u: nat) {
    BlockedJoining(c, t, u) || exists l :: BlockedOn(c, t, l) && c.owner[l] == u
  }

  // A set of threads each waiting for another member (or itself): none can ever continue.
  ghost predicate Deadlocked(c: Config, s: set<nat>) {
    s != {} && forall t {:trigger WaitsInside(c, s, t)} | t in s :: WaitsInside(c, s, t)
  }

  ghost predicate WaitsInside(c: Config, s: set<nat>, t: nat) {
    exists u :: u in s && WaitsFor(c, t, u)
  }

  // ---- theorems ------------------------------------------------------------------------------

  // The waits-for relation climbs the lock ranks, so it cannot stay inside a set ...
  lemma {:induction false} NoLockChain(c: Config, s: set<nat>, t: nat, l: Lock)
    requires Inv(c) && Deadlocked(c, s) && t in s && BlockedOn(c, t, l)
    ensures false
    decreases 6 - Rank(l)
  {
    var u := c.owner[l];
    assert u in s by {
      assert WaitsInside(c, s, t);
      var w :| w in s && WaitsFor(c, t, w);
      assert !BlockedJoining(c, t, w);
    }
    assert WaitsInside(c, s, u);
    var v :| v in s && WaitsFor(c, u, v);
    HolderWaitsHigher(c, u, l, v);
    var l' :| BlockedOn(c, u, l') && Rank(l') > Rank(l);
    NoLockChain(c, s, u, l');
  }

  // ... and it descends the join order.
  lemma {:induction false} NoJoinChain(c: Config, s: set<nat>, t: nat)
    requires Inv(c) && Deadlocked(c, s) && t in s
    ensures false
    decreases t
  {
    assert WaitsInside(c, s, t);
    var u :| u in s && WaitsFor(c, t, u);
    if BlockedJoining(c, t, u) {
      assert StackOk(c.threads[t].stack, t);
      NoJoinChain(c, s, u);
    } else {
      var l :| BlockedOn(c, t, l) && c.owner[l] == u;
      NoLockChain(c, s, t, l);
    }
  }

  // A blocked thread that holds a mutex waits for one of higher rank.
  lemma HolderWaitsHigher(c: Config, t: nat, l: Lock, u: nat)
    requires Inv(c) && t < |c.threads| && l in Held(c.threads[t].stack) && WaitsFor(c, t, u)
    ensures exists l' :: BlockedOn(c, t, l') && Rank(l') > Rank(l)
  {
    var Push(top, rest) := c.threads[t].stack;
    assert StackOk(c.threads[t].stack, t);
    assert l in Held(rest);
    assert !BlockedJoining(c, t, u);
    var l' :| BlockedOn(c, t, l') && c.owner[l'] == u;
  }

  lemma NoDeadlock(c: Config, s: set<nat>)
    requires Inv(c)
    ensures !Deadlocked(c, s)
  {
    if Deadlocked(c, s) {
      var t :| t in s;
      NoJoinChain(c, s, t);
    }
  }

  // A thread can act exactly when it is unfinished and waits for nobody.
  lemma CanStepIff(c: Config, t: nat)
    requires Inv(c) && t < |c.threads|
    ensures (exists c' :: Step(c, t, c')) <==> Unfinished(c, t) && !(exists u :: WaitsFor(c, t, u))
  {
    if Unfinished(c, t) {
      if exists u :: WaitsFor(c, t, u) {
        var u :| WaitsFor(c, t, u);
        forall c' ensures !Step(c, t, c') { }
      } else {
        FreeThreadSteps(c, t);
      }
    }
  }

  lemma FreeThreadSteps(c: Config, t: nat)
    requires Inv(c) && Unfinished(c, t) && !(exists u :: WaitsFor(c, t, u))
    ensures exists c' :: Step(c, t, c')
  {
    var Thread(Push(top, rest), unwinding) := c.threads[t];
    assert StackOk(c.threads[t].stack, t);
    var popped := Config(c.owner, c.threads[t := Thread(rest, unwinding)]);
    match top {
      case Release(ls) =>
        if ls == {} {
          assert Step(c, t, popped);
        } else {
          var l :| l in ls;
          assert Step(c, t, Config(c.owner - {l}, c.threads[t := Thread(Push(Release(ls - {l}), rest), unwinding)]));
        }
      case Handler =>
        assert Step(c, t, Config(c.owner, c.threads[t := Thread(rest, false)]));
      case Waiting(l, ls, b) =>
        if unwinding {
          assert Step(c, t, popped);
        } else {
          assert l in c.owner ==> BlockedOn(c, t, l) && WaitsFor(c, t, c.owner[l]);
          assert Step(c, t, Config(c.owner[l := t], c.threads[t := Thread(Push(Attempt({l}, ls, b), rest), false)]));
        }
      case Attempt(got, ls, b) =>
        if unwinding {
          assert Step(c, t, Config(c.owner, c.threads[t := Thread(Push(Release(got), rest), true)]));
        } else if ls <= got {
          assert Step(c, t, Config(c.owner, c.threads[t := Thread(Push(Run(b), Push(Release(got), rest)), false)]));
        } else {
          var l :| l in ls && l !in got;
          var next := if l !in c.owner
            then Config(c.owner[l := t], c.threads[t := Thread(Push(Attempt({l} + got, ls, b), rest), false)])
            else Config(c.owner, c.threads[t := Thread(Push(Release(got), Push(Waiting(l, ls, b), rest)), false)]);
          assert Attempts(c, t, top, rest, next);
          assert Step(c, t, next);
        }
      case Run(code) =>
        if unwinding {
          assert Step(c, t, popped);
        } else {
          FreeCodeRuns(c, t, code, rest);
          var c' :| Runs(c, t, code, rest, c');
          assert Step(c, t, c');
        }
    }
  }

  lemma FreeCodeRuns(c: Config, t: nat, code: Code, rest: Stack)
    requires t < |c.threads| && c.threads[t] == Thread(Push(Run(code), rest), false)
    requires Ordered(code, Held(rest)) && !(exists u :: WaitsFor(c, t, u))
    requires code.Join? ==> code.thread < |c.threads|
    ensures exists c' :: Runs(c, t, code, rest, c')
  {
    var popped := Config(c.owner, c.threads[t := Thread(rest, false)]);
    match code {
      case Block(ss) =>
        if ss != [] {
          var stack := Push(Run(ss[0]), Push(Run(Block(ss[1..])), rest));
          assert Runs(c, t, code, rest, Config(c.owner, c.threads[t := Thread(stack, false)]));
        } else {
          assert Runs(c, t, code, rest, popped);
        }
      case Choice(bs) =>
        var b := bs[0];
        assert Runs(c, t, code, rest, Config(c.owner, c.threads[t := Thread(Push(Run(b), rest), false)]));
      case Guard(l, b) =>
        assert l in c.owner ==> BlockedOn(c, t, l) && WaitsFor(c, t, c.owner[l]);
        assert Runs(c, t, code, rest,
                    Config(c.owner[l := t], c.threads[t := Thread(Push(Run(b), Push(Release({l}), rest)), false)]));
      case ScopedLock(ls, b) =>
        var l :| l in ls;
        assert Runs(c, t, code, rest, Config(c.owner, c.threads[t := Thread(Push(Waiting(l, ls, b), rest), false)]));
      case TryCatch(b) =>
        assert Runs(c, t, code, rest,
                    Config(c.owner, c.threads[t := Thread(Push(Run(b), Push(Handler, rest)), false)]));
      case UserCode(b) =>
        assert Runs(c, t, code, rest, Config(c.owner, c.threads[t := Thread(Push(Run(b), rest), false)]));
      case Join(u) =>
        assert Unfinished(c, u) ==> WaitsFor(c, t, u);
        assert Runs(c, t, code, rest, popped);
      case _ =>
        assert Runs(c, t, code, rest, popped);
    }
  }

  lemma RunKeepsStackOk(c: Config, t: nat, code: Code, rest: Stack, c': Config)
    requires t < |c.threads| && c.threads[t] == Thread(Push(Run(code), rest), false)
    requires Ordered(code, Held(rest)) && JoinsBelow(code, t) && StackOk(rest, t) && Runs(c, t, code, rest, c')
    ensures StackOk(c'.threads[t].stack, t)
  {
    match code {
      case Block(ss) =>
        if ss != [] {
          assert Ordered(ss[0], Held(rest)) && JoinsBelow(ss[0], t);
          assert Ordered(Block(ss[1..]), Held(rest)) && JoinsBelow(Block(ss[1..]), t);
        }
      case Choice(bs) =>
      case Loop(b) =>
      case Guard(l, b) => assert l !in Held(rest);
      case TryGuard(l, b) =>
      case ScopedLock(ls, b) =>
      case _ =>
    }
  }

  lemma StepKeepsStackOk(c: Config, t: nat, c': Config)
    requires Inv(c) && Step(c, t, c')
    ensures StackOk(c'.threads[t].stack, t)
  {
    var Thread(Push(top, rest), unwinding) := c.threads[t];
    assert StackOk(c.threads[t].stack, t);
    if top.Run? && !unwinding { RunKeepsStackOk(c, t, top.code, rest, c'); }
    if top.Attempt? && top.locks <= top.got { assert top.got + Held(rest) == top.locks; }
  }

  // An action leaves ownership alone, takes one free mutex, or gives one back.
  ghost predicate OwnershipEffect(c: Config, t: nat, c': Config)
    requires t < |c.threads| && t < |c'.threads|
  {
    var (held, held') := (Held(c.threads[t].stack), Held(c'.threads[t].stack));
    || (c'.owner == c.owner && held' == held)
    || (exists l :: l !in c.owner && c'.owner == c.owner[l := t] && held' == {l} + held)
    || (exists l :: l in held && c'.owner == c.owner - {l} && held' == held - {l})
  }

  // What one action of thread t does to ownership and to the threads.
  ghost predicate Effect(c: Config, t: nat, c': Config)
    requires t < |c.threads|
  {
    && |c'.threads| == |c.threads| && OwnershipEffect(c, t, c')
    && forall u | 0 <= u < |c.threads| && u != t :: c'.threads[u] == c.threads[u]
  }

  lemma BecomesEffect(c: Config, t: nat, stack: Stack, unwinding: bool, c': Config)
    requires t < |c.threads| && Becomes(c, t, stack, unwinding, c') && Held(stack) == Held(c.threads[t].stack)
    ensures Effect(c, t, c')
  {
  }

  lemma AcquiresEffect(c: Config, t: nat, l: Lock, stack: Stack, c': Config)
    requires t < |c.threads| && Acquires(c, t, l, stack, c') && Held(stack) == {l} + Held(c.threads[t].stack)
    ensures Effect(c, t, c')
  {
  }

  lemma ReleaseEffect(c: Config, t: nat, locks: set<Lock>, rest: Stack, unwinding: bool, c': Config)
    requires t < |c.threads| && c.threads[t].stack == Push(Release(locks), rest) && locks !! Held(rest)
    requires Releases(c, t, locks, rest, unwinding, c')
    ensures Effect(c, t, c')
  {
    if locks == {} {
      BecomesEffect(c, t, rest, unwinding, c');
    } else {
      var l :| l in locks
        && c' == Config(c.owner - {l}, c.threads[t := Thread(Push(Release(locks - {l}), rest), unwinding)]);
      assert (locks - {l}) + Held(rest) == (locks + Held(rest)) - {l};
    }
  }

  lemma RunEffect(c: Config, t: nat, code: Code, rest: Stack, c': Config)
    requires t < |c.threads| && c.threads[t].stack == Push(Run(code), rest) && Runs(c, t, code, rest, c')
    ensures Effect(c, t, c')
  {
    match code {
      case Block(ss) =>
        if ss != [] {
          assert Held(Push(Run(Block(ss[1..])), rest)) == Held(rest);
          BecomesEffect(c, t, Push(Run(ss[0]), Push(Run(Block(ss[1..])), rest)), false, c');
        }
      case Choice(bs) =>
        var b :| b in bs && Becomes(c, t, Push(Run(b), rest), false, c');
        BecomesEffect(c, t, Push(Run(b), rest), false, c');
      case Loop(b) =>
        assert Held(Push(Run(code), rest)) == Held(rest);
      case Guard(l, b) =>
        GuardEffect(c, t, l, b, rest, c');
      case TryGuard(l, b) =>
        if !Becomes(c, t, rest, false, c') { GuardEffect(c, t, l, b, rest, c'); }
      case ScopedLock(ls, b) =>
        var l :| l in ls && Becomes(c, t, Push(Waiting(l, ls, b), rest), false, c');
        BecomesEffect(c, t, Push(Waiting(l, ls, b), rest), false, c');
      case TryCatch(b) =>
        assert Held(Push(Handler, rest)) == Held(rest);
        BecomesEffect(c, t, Push(Run(b), Push(Handler, rest)), false, c');
      case _ =>
    }
  }

  lemma GuardEffect(c: Config, t: nat, l: Lock, body: Code, rest: Stack, c': Config)
    requires t < |c.threads| && Held(c.threads[t].stack) == Held(rest)
    requires Acquires(c, t, l, Push(Run(body), Push(Release({l}), rest)), c')
    ensures Effect(c, t, c')
  {
    assert Held(Push(Release({l}), rest)) == {l} + Held(rest);
    AcquiresEffect(c, t, l, Push(Run(body), Push(Release({l}), rest)), c');
  }

  lemma AttemptEffect(c: Config, t: nat, top: Frame, rest: Stack, c': Config)
    requires t < |c.threads| && c.threads[t].stack == Push(top, rest) && top.Attempt? && Attempts(c, t, top, rest, c')
    ensures Effect(c, t, c')
  {
    var Attempt(got, ls, b) := top;
    assert Held(Push(Release(got), rest)) == got + Held(rest);
    if ls <= got {
      BecomesEffect(c, t, Push(Run(b), Push(Release(got), rest)), false, c');
    } else if l :| l !in got && Acquires(c, t, l, Push(Attempt({l} + got, ls, b), rest), c') {
      assert ({l} + got) + Held(rest) == {l} + (got + Held(rest));
      AcquiresEffect(c, t, l, Push(Attempt({l} + got, ls, b), rest), c');
    } else {
      var l' :| Becomes(c, t, Push(Release(got), Push(Waiting(l', ls, b), rest)), false, c');
      assert Held(Push(Waiting(l', ls, b), rest)) == Held(rest);
      BecomesEffect(c, t, Push(Release(got), Push(Waiting(l', ls, b), rest)), false, c');
    }
  }

  lemma StepEffect(c: Config, t: nat, c': Config)
    requires Step(c, t, c') && StackOk(c.threads[t].stack, t)
    ensures Effect(c, t, c')
  {
    var Thread(Push(top, rest), unwinding) := c.threads[t];
    match top {
      case Release(ls) =>
        ReleaseEffect(c, t, ls, rest, unwinding, c');
      case Handler =>
        BecomesEffect(c, t, rest, false, c');
      case Run(code) =>
        if unwinding { BecomesEffect(c, t, rest, true, c'); } else { RunEffect(c, t, code, rest, c'); }
      case Waiting(l, ls, b) =>
        if unwinding {
          BecomesEffect(c, t, rest, true, c');
        } else {
          AcquiresEffect(c, t, l, Push(Attempt({l}, ls, b), rest), c');
        }
      case Attempt(got, ls, b) =>
        if unwinding {
          BecomesEffect(c, t, Push(Release(got), rest), true, c');
        } else {
          AttemptEffect(c, t, top, rest, c');
        }
    }
  }

  // Every action of every thread keeps the ownership and ordering invariant.
  lemma StepKeepsInv(c: Config, t: nat, c': Config)
    requires Inv(c) && Step(c, t, c')
    ensures Inv(c')
  {
    assert StackOk(c.threads[t].stack, t);
    StepKeepsStackOk(c, t, c');
    StepEffect(c, t, c');
    assert forall u | 0 <= u < |c.threads| :: StackOk(c.threads[u].stack, u);
    EffectKeepsOwners(c, t, c');
  }

  lemma EffectKeepsOwners(c: Config, t: nat, c': Config)
    requires Inv(c) && t < |c.threads| == |c'.threads| && OwnershipEffect(c, t, c')
    requires forall u | 0 <= u < |c.threads| && u != t :: c'.threads[u] == c.threads[u]
    ensures forall l | l in c'.owner :: c'.owner[l] < |c'.threads| && l in Held(c'.threads[c'.owner[l]].stack)
    ensures forall u, l | 0 <= u < |c'.threads| && l in Held(c'.threads[u].stack) :: l in c'.owner && c'.owner[l] == u
  {
  }
}

/** Whole runs: threads started on given programs, acting in any order. */
module LockRuns {
  import opened LockProtocol

  predicate Disciplined(programs: seq<Code>) {
    forall t | 0 <= t < |programs| :: Ordered(programs[t], {}) && JoinsBelow(programs[t], t)
  }

  function Start(programs: seq<Code>): Config {
    Config(map[], seq(|programs|, t requires 0 <= t < |programs| => Thread(Push(Run(programs[t]), Empty), false)))
  }

  ghost predicate SomeStep(c: Config, c': Config) {
    exists t: nat :: Step(c, t, c')
  }

  ghost predicate StepAt(run: seq<Config>, i: nat)
    requires i + 1 < |run|
  {
    SomeStep(run[i], run[i + 1])
  }

  ghost predicate IsRun(programs: seq<Code>, run: seq<Config>) {
    && run != [] && run[0] == Start(programs)
    && forall i: nat | i + 1 < |run| :: StepAt(run, i)
  }

  // c is reached by some run of the programs.
  ghost predicate Reached(programs: seq<Code>, c: Config) {
    exists run :: IsRun(programs, run) && run[|run| - 1] == c
  }

  lemma ReachedStep(programs: seq<Code>, c: Config, t: nat, c': Config)
    requires Reached(programs, c) && Step(c, t, c')
    ensures Reached(programs, c')
  {
    var run :| IsRun(programs, run) && run[|run| - 1] == c;
    assert SomeStep(c, c');
    forall i: nat | i + 1 < |run + [c']| ensures StepAt(run + [c'], i) {
      assert i + 1 < |run| ==> StepAt(run, i);
    }
    assert IsRun(programs, run + [c']);
  }

  lemma StartKeepsDiscipline(programs: seq<Code>)
    requires Disciplined(programs)
    ensures Inv(Start(programs))
  {
    var c := Start(programs);
    forall t | 0 <= t < |c.threads| ensures Held(c.threads[t].stack) == {} && StackOk(c.threads[t].stack, t) {
      assert Held(Empty) == {};
    }
  }

  lemma {:induction false} RunKeepsInv(programs: seq<Code>, run: seq<Config>)
    requires Disciplined(programs) && IsRun(programs, run)
    ensures Inv(run[|run| - 1])
  {
    if |run| == 1 {
      StartKeepsDiscipline(programs);
    } else {
      var n := |run| - 1;
      var (c, c') := (run[n - 1], run[n]);
      forall i: nat | i + 1 < n ensures StepAt(run[..n], i) { assert StepAt(run, i); }
      assert StepAt(run, n - 1);
      RunKeepsInv(programs, run[..n]);
      assert SomeStep(c, c');
      var t: nat :| Step(c, t, c');
      StepKeepsInv(c, t, c');
    }
  }

  // No reachable state contains a set of threads that wait for each other.
  lemma NeverDeadlocked(programs: seq<Code>, c: Config, s: set<nat>)
    requires Disciplined(programs) && Reached(programs, c)
    ensures !Deadlocked(c, s)
  {
    var run :| IsRun(programs, run) && run[|run| - 1] == c;
    RunKeepsInv(programs, run);
    NoDeadlock(c, s);
  }

  // While any thread is unfinished, some thread can act.
  lemma SomeThreadCanAct(programs: seq<Code>, c: Config, t0: nat)
    requires Disciplined(programs) && Reached(programs, c) && Unfinished(c, t0)
    ensures exists c' :: SomeStep(c, c')
  {
    var run :| IsRun(programs, run) && run[|run| - 1] == c;
    RunKeepsInv(programs, run);
    var s := set t: nat | t < |c.threads| && Unfinished(c, t);
    assert t0 in s;
    NoDeadlock(c, s);
    var t :| t in s && !WaitsInside(c, s, t);
    forall u ensures !WaitsFor(c, t, u) {
      if WaitsFor(c, t, u) { WaitedForIsUnfinished(c, t, u); }
    }
    FreeThreadSteps(c, t);
    var c' :| Step(c, t, c');
    assert SomeStep(c, c');
  }

  lemma WaitedForIsUnfinished(c: Config, t: nat, u: nat)
    requires Inv(c) && WaitsFor(c, t, u)
    ensures Unfinished(c, u)
  {
    if !BlockedJoining(c, t, u) {
      var l :| BlockedOn(c, t, l) && c.owner[l] == u;
      assert l in Held(c.threads[u].stack);
    }
  }

  // Thread t is about to run a hook or callback.
  predicate EntersUserCode(c: Config, t: nat, body: Code, rest: Stack) {
    t < |c.threads| && c.threads[t].stack == Push(Run(UserCode(body)), rest)
  }

  // Hooks and callbacks are entered with no backend mutex held by their thread.
  lemma UserCodeHoldsNothing(programs: seq<Code>, c: Config, t: nat, body: Code, rest: Stack, l: Lock)
    requires Disciplined(programs) && Reached(programs, c)
    ensures EntersUserCode(c, t, body, rest) && l in c.owner ==> c.owner[l] != t
  {
    var run :| IsRun(programs, run) && run[|run| - 1] == c;
    RunKeepsInv(programs, run);
    if EntersUserCode(c, t, body, rest) {
      assert StackOk(c.threads[t].stack, t);
      assert Held(c.threads[t].stack) == {};
    }
  }
}
