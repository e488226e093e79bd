/** The user-level semaphores of extracredit1.c, over the mutex of lockFunc.h and the
    kernel's mysleep and mywakeup, and the bounded buffer built on two of them.  A step is
    one access of one thread to shared memory. */
module Semaphore {

  const UINT: nat := 0x1_0000_0000

  /** The semaphores of the bounded buffer: free places, named `consumer` in the program,
      and filled places, named `producer`. */
  const PLACES: nat := 0
  const ITEMS: nat := 1

  datatype Role = Producer | Consumer | Other

  /** Where a thread is: outside the semaphore operations; in sem_wait, with W; in sem_post,
      with P.  WPt and later are mysleep, which holds ptable.lock at WUnlock and WDoze. */
  datatype Pc = Ready | WLock | WTest | WPt | WUnlock | WDoze | Asleep | WDec | WRel | PLock | PInc | PRel | PSignal

  /** `sem` is the semaphore of the current operation.  A producer or consumer is in round
      k, before its sem_wait (stage 0), its work (1) or its sem_post (2). */
  datatype Thread = Thread(role: Role, pc: Pc, sem: nat, stage: nat, k: nat)

  /** mutex[s] and pt are the holder of the lock, -1 for none.  waits and posts count the
      decrements and increments of each semaphore. */
  datatype Sys = Sys(threads: seq<Thread>, num: seq<nat>, mutex: seq<int>, pt: int, waits: seq<nat>, posts: seq<nat>,
                     queue: seq<int>, produced: nat, consumed: seq<int>)

  datatype Choice = DoWait(s: nat) | DoPost(s: nat) | DoNothing

  predicate Shaped(s: Sys) {
    && |s.num| == |s.mutex| == |s.waits| == |s.posts| >= 2 && |s.queue| > 0
    && (forall t | 0 <= t < |s.threads| :: s.threads[t].sem < |s.num|)
  }

  function With(s: Sys, t: nat, th: Thread): (r: Sys)
    requires t < |s.threads|
  {
    s.(threads := s.threads[t := th])
  }

  function Woken(th: Thread, sem: nat): (r: Thread) {
    if th.pc == Asleep && th.sem == sem then th.(pc := WLock) else th
  }

  function WakeAll(threads: seq<Thread>, sem: nat): (r: seq<Thread>) {
    seq(|threads|, t requires 0 <= t < |threads| => Woken(threads[t], sem))
  }

  /** What a thread does outside the semaphores: the body of prod_work or of cons_work, or
      any operation on other semaphores. */
  function StepReady(s: Sys, t: nat, what: Choice): (r: Sys)
    requires Shaped(s) && t < |s.threads|
  {
    var th := s.threads[t];
    match th.role
    case Producer =>
      if th.stage == 0 then With(s, t, th.(pc := WLock, sem := PLACES))
      else if th.stage == 1 then
        With(s, t, th.(stage := 2)).(queue := s.queue[th.k % |s.queue| := th.k + 1], produced := s.produced + 1)
      else With(s, t, th.(pc := PLock, sem := ITEMS))
    case Consumer =>
      if th.stage == 0 then With(s, t, th.(pc := WLock, sem := ITEMS))
      else if th.stage == 1 then
        With(s, t, th.(stage := 2)).(queue := s.queue[th.k % |s.queue| := 0],
                                     consumed := s.consumed + [s.queue[th.k % |s.queue|]])
      else With(s, t, th.(pc := PLock, sem := PLACES))
    case Other =>
      match what
      case DoWait(x) => if 2 <= x < |s.num| then With(s, t, th.(pc := WLock, sem := x)) else s
      case DoPost(x) => if 2 <= x < |s.num| then With(s, t, th.(pc := PLock, sem := x)) else s
      case DoNothing => s
  }

  /** xchg on the mutex of the thread's semaphore. */
  function LockStep(s: Sys, t: nat, next: Pc): (r: Sys)
    requires Shaped(s) && t < |s.threads|
  {
    var th := s.threads[t];
    if s.mutex[th.sem] >= 0 then s else With(s, t, th.(pc := next)).(mutex := s.mutex[th.sem := t])
  }

  function UnlockStep(s: Sys, t: nat, next: Pc, stage: nat): (r: Sys)
    requires Shaped(s) && t < |s.threads|
  {
    var th := s.threads[t];
    With(s, t, th.(pc := next, stage := stage)).(mutex := s.mutex[th.sem := -1])
  }

  /** mysleep takes ptable.lock, and gives it up with the processor. */
  function PtStep(s: Sys, t: nat): (r: Sys)
    requires t < |s.threads|
  {
    var th := s.threads[t];
    if th.pc == WDoze then With(s, t, th.(pc := Asleep)).(pt := -1)
    else if s.pt >= 0 then s
    else With(s, t, th.(pc := WUnlock)).(pt := t)
  }

  function CountStep(s: Sys, t: nat): (r: Sys)
    requires Shaped(s) && t < |s.threads|
  {
    var th := s.threads[t];
    var x := th.sem;
    if th.pc == WDec then
      With(s, t, th.(pc := WRel)).(num := s.num[x := (s.num[x] + UINT - 1) % UINT],
                                   waits := s.waits[x := s.waits[x] + 1])
    else
      With(s, t, th.(pc := PRel)).(num := s.num[x := (s.num[x] + 1) % UINT], posts := s.posts[x := s.posts[x] + 1])
  }

  function TestStep(s: Sys, t: nat): (r: Sys)
    requires Shaped(s) && t < |s.threads|
  {
    var th := s.threads[t];
    With(s, t, th.(pc := if s.num[th.sem] == 0 then WPt else WDec))
  }

  /** mywakeup. */
  function SignalStep(s: Sys, t: nat): (r: Sys)
    requires t < |s.threads|
  {
    var th := s.threads[t];
    if s.pt >= 0 then s
    else With(s.(threads := WakeAll(s.threads, th.sem)), t, th.(pc := Ready, stage := 0, k := th.k + 1))
  }

  function Step(s: Sys, t: nat, what: Choice): (r: Sys)
    requires Shaped(s)
  {
    if t >= |s.threads| then s else
    match s.threads[t].pc
    case Ready => StepReady(s, t, what)
    case WLock => LockStep(s, t, WTest)
    case WTest => TestStep(s, t)
    case WPt => PtStep(s, t)
    case WUnlock => UnlockStep(s, t, WDoze, s.threads[t].stage)
    case WDoze => PtStep(s, t)
    case Asleep => s
    case WDec => CountStep(s, t)
    case WRel => UnlockStep(s, t, Ready, 1)
    case PLock => LockStep(s, t, PInc)
    case PInc => CountStep(s, t)
    case PRel => UnlockStep(s, t, PSignal, s.threads[t].stage)
    case PSignal => SignalStep(s, t)
  }

  // ---------- locks ----------

  predicate HoldsMutex(pc: Pc) {
    pc == WTest || pc == WPt || pc == WUnlock || pc == WDec || pc == WRel || pc == PInc || pc == PRel
  }

  predicate HoldsPt(pc: Pc) {
    pc == WUnlock || pc == WDoze
  }

  /** Each lock is held by the thread whose position says so. */
  predicate LocksOk(s: Sys)
    requires Shaped(s)
  {
    && (forall t | 0 <= t < |s.threads| && HoldsMutex(s.threads[t].pc) :: s.mutex[s.threads[t].sem] == t)
    && (forall x | 0 <= x < |s.mutex| && s.mutex[x] >= 0 ::
          s.mutex[x] < |s.threads| && HoldsMutex(s.threads[s.mutex[x]].pc) && s.threads[s.mutex[x]].sem == x)
    && (forall t | 0 <= t < |s.threads| && HoldsPt(s.threads[t].pc) :: s.pt == t)
    && (s.pt >= 0 ==> s.pt < |s.threads| && HoldsPt(s.threads[s.pt].pc))
  }

  /** What a thread knows of the semaphore whose mutex it holds. */
  predicate Knows(s: Sys, th: Thread)
    requires th.sem < |s.num|
  {
    && (th.pc == WPt || th.pc == WUnlock ==> s.num[th.sem] == 0)
    && (th.pc == WDec ==> s.num[th.sem] > 0)
  }

  /** A poster that has incremented the semaphore and has yet to call mywakeup. */
  predicate WillSignal(th: Thread, x: nat) {
    (th.pc == PRel || th.pc == PSignal) && th.sem == x
  }

  predicate Dozing(th: Thread) {
    th.pc == WDoze || th.pc == Asleep
  }

  ghost predicate SignalComes(s: Sys, x: nat) {
    exists u :: 0 <= u < |s.threads| && WillSignal(s.threads[u], x)
  }

  ghost predicate KnowOk(s: Sys)
    requires Shaped(s)
  {
    && (forall x | 0 <= x < |s.num| :: s.num[x] < UINT)
    && (forall t | 0 <= t < |s.threads| :: Knows(s, s.threads[t]))
  }

  /** A thread asleep on a semaphore above 0 means that a signal is still to come. */
  ghost predicate SignalsOk(s: Sys)
    requires Shaped(s)
  {
    forall t | 0 <= t < |s.threads| && Dozing(s.threads[t]) && s.num[s.threads[t].sem] > 0 ::
        SignalComes(s, s.threads[t].sem)
  }

  ghost predicate Sync(s: Sys) {
    Shaped(s) && LocksOk(s) && KnowOk(s) && SignalsOk(s)
  }

  lemma LockSync(s: Sys, t: nat, next: Pc)
    requires Sync(s) && t < |s.threads| && ((s.threads[t].pc == WLock && next == WTest) ||
                                            (s.threads[t].pc == PLock && next == PInc))
    ensures Sync(LockStep(s, t, next))
  {
    var s' := LockStep(s, t, next);
    SignalsStay(s, s', t);
  }

  lemma UnlockSync(s: Sys, t: nat, next: Pc, stage: nat)
    requires Sync(s) && t < |s.threads|
    requires (s.threads[t].pc == WUnlock && next == WDoze) || (s.threads[t].pc == WRel && next == Ready) ||
             (s.threads[t].pc == PRel && next == PSignal)
    ensures Sync(UnlockStep(s, t, next, stage))
  {
    var s' := UnlockStep(s, t, next, stage);
    assert Knows(s, s.threads[t]);
    SignalsStay(s, s', t);
  }

  lemma PtSync(s: Sys, t: nat)
    requires Sync(s) && t < |s.threads| && (s.threads[t].pc == WDoze || s.threads[t].pc == WPt)
    ensures Sync(PtStep(s, t))
  {
    var s' := PtStep(s, t);
    assert Knows(s, s.threads[t]);
    SignalsStay(s, s', t);
  }

  lemma TestSync(s: Sys, t: nat)
    requires Sync(s) && t < |s.threads| && s.threads[t].pc == WTest
    ensures Sync(TestStep(s, t))
  {
    SignalsStay(s, TestStep(s, t), t);
  }

  /** A step of thread t that raises no semaphore, and after which t still signals if it
      had to. */
  lemma SignalsStay(s: Sys, s': Sys, t: nat)
    requires Sync(s) && Shaped(s') && t < |s.threads| == |s'.threads| && s'.num == s.num
    requires forall u | 0 <= u < |s.threads| && u != t :: s'.threads[u] == s.threads[u]
    requires s'.threads[t].sem == s.threads[t].sem || s.threads[t].pc == Ready
    requires WillSignal(s.threads[t], s.threads[t].sem) ==> WillSignal(s'.threads[t], s'.threads[t].sem)
    requires Dozing(s'.threads[t]) && s.num[s'.threads[t].sem] > 0 ==>
             Dozing(s.threads[t]) && s'.threads[t].sem == s.threads[t].sem
    ensures SignalsOk(s')
  {
    forall u | 0 <= u < |s'.threads| && Dozing(s'.threads[u]) && s'.num[s'.threads[u].sem] > 0
      ensures SignalComes(s', s'.threads[u].sem)
    {
      var x := s'.threads[u].sem;
      assert SignalComes(s, x);
      var v :| 0 <= v < |s.threads| && WillSignal(s.threads[v], x);
      assert WillSignal(s'.threads[v], x);
    }
  }

  lemma CountLocks(s: Sys, t: nat)
    requires Shaped(s) && LocksOk(s) && t < |s.threads| && (s.threads[t].pc == WDec || s.threads[t].pc == PInc)
    ensures Shaped(CountStep(s, t)) && LocksOk(CountStep(s, t))
  {
  }

  lemma CountKnows(s: Sys, t: nat)
    requires Shaped(s) && LocksOk(s) && KnowOk(s) && t < |s.threads| &&
             (s.threads[t].pc == WDec || s.threads[t].pc == PInc)
    ensures Shaped(CountStep(s, t)) && KnowOk(CountStep(s, t))
  {
    var s' := CountStep(s, t);
    forall u | 0 <= u < |s'.threads| ensures Knows(s', s'.threads[u]) { assert Knows(s, s.threads[u]); }
  }

  lemma CountSync(s: Sys, t: nat)
    requires Sync(s) && t < |s.threads| && (s.threads[t].pc == WDec || s.threads[t].pc == PInc)
    ensures Sync(CountStep(s, t))
  {
    CountLocks(s, t);
    CountKnows(s, t);
    CountSignals(s, t);
    hide LocksOk, KnowOk, SignalsOk;
  }

  lemma CountSignals(s: Sys, t: nat)
    requires Shaped(s) && KnowOk(s) && SignalsOk(s) && t < |s.threads| &&
             (s.threads[t].pc == WDec || s.threads[t].pc == PInc)
    ensures Shaped(CountStep(s, t)) && SignalsOk(CountStep(s, t))
  {
    var s' := CountStep(s, t);
    assert Knows(s, s.threads[t]);
    forall u | 0 <= u < |s'.threads| && Dozing(s'.threads[u]) && s'.num[s'.threads[u].sem] > 0
      ensures SignalComes(s', s'.threads[u].sem)
    {
      var x := s'.threads[u].sem;
      if s.num[x] > 0 {
        assert SignalComes(s, x);
        var v :| 0 <= v < |s.threads| && WillSignal(s.threads[v], x);
        assert WillSignal(s'.threads[v], x);
      } else {
        assert WillSignal(s'.threads[t], x);
      }
    }
  }

  /** Steps by which no thread comes to hold or give up a lock. */
  ghost predicate Idles(s: Sys, s': Sys) {
    && Shaped(s') && |s'.threads| == |s.threads| && s'.num == s.num && s'.mutex == s.mutex && s'.pt == s.pt
    && (forall u | 0 <= u < |s.threads| ::
        s'.threads[u] == s.threads[u] || (Free(s.threads[u].pc) && Free(s'.threads[u].pc)))
  }

  /** Positions without a lock. */
  predicate Free(pc: Pc) {
    pc == Ready || pc == WLock || pc == PLock || pc == Asleep || pc == PSignal
  }

  lemma IdlesLocks(s: Sys, s': Sys)
    requires Shaped(s) && LocksOk(s) && Idles(s, s')
    ensures LocksOk(s')
  {
    forall x | 0 <= x < |s.mutex| && s.mutex[x] >= 0
      ensures s'.mutex[x] < |s'.threads| && HoldsMutex(s'.threads[s'.mutex[x]].pc) && s'.threads[s'.mutex[x]].sem == x
    {
      var u := s.mutex[x];
      assert HoldsMutex(s.threads[u].pc);
      assert s'.threads[u] == s.threads[u];
    }
  }

  lemma IdlesKnows(s: Sys, s': Sys)
    requires Shaped(s) && KnowOk(s) && Idles(s, s')
    ensures KnowOk(s')
  {
    forall u | 0 <= u < |s'.threads| ensures Knows(s', s'.threads[u]) { assert Knows(s, s.threads[u]); }
  }

  lemma SignalIdles(s: Sys, t: nat)
    requires Shaped(s) && t < |s.threads| && s.threads[t].pc == PSignal
    ensures Idles(s, SignalStep(s, t))
  {
  }

  lemma SignalSync(s: Sys, t: nat)
    requires Sync(s) && t < |s.threads| && s.threads[t].pc == PSignal
    ensures Sync(SignalStep(s, t))
  {
    SignalIdles(s, t);
    var s' := SignalStep(s, t);
    IdlesLocks(s, s');
    IdlesKnows(s, s');
    SignalSignals(s, t);
    hide LocksOk, KnowOk, SignalsOk;
  }

  /** mywakeup leaves nobody asleep on the semaphore. */
  lemma SignalSignals(s: Sys, t: nat)
    requires Sync(s) && t < |s.threads| && s.threads[t].pc == PSignal && Shaped(SignalStep(s, t))
    ensures SignalsOk(SignalStep(s, t))
  {
    var s' := SignalStep(s, t);
    hide KnowOk;
    forall u | 0 <= u < |s'.threads| && Dozing(s'.threads[u]) && s'.num[s'.threads[u].sem] > 0
      ensures SignalComes(s', s'.threads[u].sem)
    {
      var x := s'.threads[u].sem;
      assert SignalComes(s, x);
      var v :| 0 <= v < |s.threads| && WillSignal(s.threads[v], x);
      if s.pt < 0 { assert WillSignal(s'.threads[v], x); }
    }
  }

  lemma ReadyIdles(s: Sys, t: nat, what: Choice)
    requires Shaped(s) && t < |s.threads| && s.threads[t].pc == Ready
    ensures Idles(s, StepReady(s, t, what))
    ensures forall u | 0 <= u < |s.threads| && u != t :: StepReady(s, t, what).threads[u] == s.threads[u]
    ensures !Dozing(StepReady(s, t, what).threads[t])
  {
  }

  lemma ReadySync(s: Sys, t: nat, what: Choice)
    requires Sync(s) && t < |s.threads| && s.threads[t].pc == Ready
    ensures Sync(StepReady(s, t, what))
  {
    ReadyIdles(s, t, what);
    hide StepReady;
    IdlesLocks(s, StepReady(s, t, what));
    IdlesKnows(s, StepReady(s, t, what));
    hide LocksOk, KnowOk;
    SignalsStay(s, StepReady(s, t, what), t);
  }

  lemma StepSync(s: Sys, t: nat, what: Choice)
    requires Sync(s)
    ensures Sync(Step(s, t, what))
  {
    if t < |s.threads| {
      hide LocksOk, KnowOk, SignalsOk, LockStep, UnlockStep, PtStep, CountStep, TestStep, SignalStep, StepReady;
      match s.threads[t].pc
      case Ready => ReadySync(s, t, what);
      case WLock => LockSync(s, t, WTest);
      case WTest => TestSync(s, t);
      case WPt => PtSync(s, t);
      case WUnlock => UnlockSync(s, t, WDoze, s.threads[t].stage);
      case WDoze => PtSync(s, t);
      case Asleep =>
      case WDec => CountSync(s, t);
      case WRel => UnlockSync(s, t, Ready, 1);
      case PLock => LockSync(s, t, PInc);
      case PInc => CountSync(s, t);
      case PRel => UnlockSync(s, t, PSignal, s.threads[t].stage);
      case PSignal => SignalSync(s, t);
    }
  }

  // ---------- conservation ----------

  /** The value of every semaphore is what the initial value and the increments leave after
      the decrements, in 32 bits; there are never more decrements than that. */
  ghost predicate Conserved(s: Sys, init: seq<nat>) {
    && Shaped(s) && |init| == |s.num|
    && (forall x | 0 <= x < |init| :: Balanced(s.num[x], s.waits[x], s.posts[x], init[x]))
  }

  predicate Balanced(num: nat, waits: nat, posts: nat, init: nat) {
    waits <= init + posts && num == (init + posts - waits) % UINT
  }

  lemma CountConserves(s: Sys, t: nat, init: seq<nat>)
    requires Shaped(s) && KnowOk(s) && Conserved(s, init) && t < |s.threads| &&
             (s.threads[t].pc == WDec || s.threads[t].pc == PInc)
    ensures Conserved(CountStep(s, t), init)
  {
    hide Balanced;
    var x := s.threads[t].sem;
    assert Knows(s, s.threads[t]) && s.num[x] < UINT;
    CountOne(s.num[x], s.waits[x], s.posts[x], init[x]);
  }

  lemma CountOne(num: nat, waits: nat, posts: nat, init: nat)
    requires num < UINT && Balanced(num, waits, posts, init)
    ensures num > 0 ==> Balanced((num + UINT - 1) % UINT, waits + 1, posts, init)
    ensures Balanced((num + 1) % UINT, waits, posts + 1, init)
  {
    var left := init + posts - waits;
    assert left == UINT * (left / UINT) + num;
    Remainder(left / UINT, num + 1);
    if num > 0 { Remainder(left / UINT, num - 1); }
  }

  lemma Remainder(q: nat, r: nat)
    requires r <= UINT
    ensures (UINT * q + r) % UINT == r % UINT
  {
    if r == UINT { assert UINT * q + r == UINT * (q + 1); }
  }

  /** Only the decrement and the increment touch the counts. */
  lemma StepCounts(s: Sys, t: nat, what: Choice)
    requires Shaped(s) && t < |s.threads| && s.threads[t].pc != WDec && s.threads[t].pc != PInc
    ensures var s' := Step(s, t, what); s'.num == s.num && s'.waits == s.waits && s'.posts == s.posts
  {
  }

  lemma StepConserves(s: Sys, t: nat, what: Choice, init: seq<nat>)
    requires Sync(s) && Conserved(s, init)
    ensures Conserved(Step(s, t, what), init)
  {
    hide LocksOk, KnowOk, SignalsOk, Step;
    StepSync(s, t, what);
    if t < |s.threads| {
      if s.threads[t].pc == WDec || s.threads[t].pc == PInc {
        CountConserves(s, t, init);
        CountIsStep(s, t, what);
      } else {
        StepCounts(s, t, what);
      }
    } else {
      NoThread(s, t, what);
    }
  }

  /** No value was lost to 32 bits. */
  predicate Exact(s: Sys, init: seq<nat>, x: nat)
    requires Shaped(s) && x < |init| == |s.num|
  {
    s.num[x] + s.waits[x] == init[x] + s.posts[x]
  }

  /** Thread t is about to increment semaphore x past its largest value. */
  predicate Overflows(s: Sys, t: nat, x: nat) {
    t < |s.threads| && s.threads[t].pc == PInc && s.threads[t].sem == x < |s.num| && s.num[x] == UINT - 1
  }

  /** One step loses nothing exactly when it is not such an increment. */
  lemma StepExact(s: Sys, t: nat, what: Choice, init: seq<nat>, x: nat)
    requires Sync(s) && |init| == |s.num| && x < |init| && Exact(s, init, x)
    ensures Shaped(Step(s, t, what)) && |Step(s, t, what).num| == |s.num|
    ensures Exact(Step(s, t, what), init, x) <==> !Overflows(s, t, x)
  {
    hide LocksOk, SignalsOk, Step;
    StepSync(s, t, what);
    if t >= |s.threads| {
      NoThread(s, t, what);
    } else if s.threads[t].pc == WDec || s.threads[t].pc == PInc {
      CountIsStep(s, t, what);
      assert Knows(s, s.threads[t]);
      NoWrap(s.num[s.threads[t].sem]);
    } else {
      StepCounts(s, t, what);
    }
  }

  lemma CountIsStep(s: Sys, t: nat, what: Choice)
    requires Shaped(s) && t < |s.threads| && (s.threads[t].pc == WDec || s.threads[t].pc == PInc)
    ensures Step(s, t, what) == CountStep(s, t)
  {
  }

  lemma NoThread(s: Sys, t: nat, what: Choice)
    requires Shaped(s) && t >= |s.threads|
    ensures Step(s, t, what) == s
  {
  }

  // ---------- the bounded buffer ----------

  /** How often a producer or consumer has decremented its first semaphore, done its work
      and incremented its second one. */
  function Waited(th: Thread): nat {
    th.k + if th.stage >= 1 || th.pc == WRel then 1 else 0
  }

  function Worked(th: Thread): nat {
    th.k + if th.stage >= 2 then 1 else 0
  }

  function Posted(th: Thread): nat {
    th.k + if th.stage == 2 && (th.pc == PRel || th.pc == PSignal) then 1 else 0
  }

  predicate InWait(pc: Pc) {
    pc == WLock || pc == WTest || pc == WPt || pc == WUnlock || pc == WDoze || pc == Asleep || pc == WDec || pc == WRel
  }

  /** The order of prod_work and cons_work: wait on `first`, work, post on `second`. */
  predicate Follows(th: Thread, first: nat, second: nat) {
    && th.stage <= 2
    && (InWait(th.pc) ==> th.stage == 0 && th.sem == first)
    && (!InWait(th.pc) && th.pc != Ready ==> th.stage == 2 && th.sem == second)
  }

  predicate RolesOk(s: Sys) {
    && |s.threads| >= 2 && s.threads[0].role == Producer && s.threads[1].role == Consumer
    && Follows(s.threads[0], PLACES, ITEMS) && Follows(s.threads[1], ITEMS, PLACES)
    && (forall t | 2 <= t < |s.threads| ::
        s.threads[t].role == Other && (s.threads[t].pc == Ready || s.threads[t].sem >= 2))
  }

  predicate CountsOk(s: Sys, n: nat)
    requires Shaped(s) && |s.threads| >= 2
  {
    var p, c := s.threads[0], s.threads[1];
    && s.waits[PLACES] == Waited(p) && s.produced == Worked(p) && s.posts[ITEMS] == Posted(p)
    && s.waits[ITEMS] == Waited(c) && |s.consumed| == Worked(c) && s.posts[PLACES] == Posted(c)
    && s.num[PLACES] + s.waits[PLACES] == n + s.posts[PLACES]
    && s.num[ITEMS] + s.waits[ITEMS] == s.posts[ITEMS]
  }

  /** The k-th item consumed is the k-th produced, the queue holds those between, and its
      other places are cleared. */
  predicate QueueOk(s: Sys, n: nat) {
    && |s.queue| == n > 0
    && (forall j | 0 <= j < |s.consumed| :: s.consumed[j] == j + 1)
    && Places(s.queue, |s.consumed|, s.produced)
  }

  /** Items from c up to p are in their places, and the other places are cleared. */
  predicate Places(queue: seq<int>, c: nat, p: nat) {
    && |queue| > 0
    && (forall j | c <= j < p :: queue[j % |queue|] == j + 1)
    && (forall j | p <= j < c + |queue| :: queue[j % |queue|] == 0)
  }

  ghost predicate Buffered(s: Sys, n: nat) {
    Shaped(s) && RolesOk(s) && CountsOk(s, n) && QueueOk(s, n) && n < UINT
  }

  /** There are never more items in the queue than places, and a consumer that works has one
      to take. */
  lemma CountsBound(s: Sys, n: nat)
    requires Shaped(s) && RolesOk(s) && CountsOk(s, n)
    ensures |s.consumed| <= s.produced <= |s.consumed| + n
    ensures s.threads[0].stage == 1 ==> s.produced < |s.consumed| + n && s.produced == s.threads[0].k
    ensures s.threads[1].stage == 1 ==> |s.consumed| < s.produced && |s.consumed| == s.threads[1].k
    ensures s.threads[0].pc == PInc ==> s.num[ITEMS] + 1 <= n
    ensures s.threads[1].pc == PInc ==> s.num[PLACES] + 1 <= n
  {
  }

  lemma ReadyBuffered(s: Sys, t: nat, what: Choice, n: nat)
    requires Buffered(s, n) && t < |s.threads| && s.threads[t].pc == Ready
    ensures Buffered(StepReady(s, t, what), n)
  {
    CountsBound(s, n);
    ReadyQueue(s, t, what, n);
    hide QueueOk;
  }

  lemma ReadyWorks(s: Sys, t: nat, what: Choice)
    requires Shaped(s) && RolesOk(s) && t < |s.threads| && s.threads[t].pc == Ready
    ensures var s', k := StepReady(s, t, what), s.threads[t].k;
            if t == 0 && s.threads[0].stage == 1 then
              s'.queue == s.queue[k % |s.queue| := k + 1] && s'.produced == s.produced + 1 && s'.consumed == s.consumed
            else if t == 1 && s.threads[1].stage == 1 then
              s'.queue == s.queue[k % |s.queue| := 0] && s'.produced == s.produced &&
              s'.consumed == s.consumed + [s.queue[k % |s.queue|]]
            else s'.queue == s.queue && s'.produced == s.produced && s'.consumed == s.consumed
  {
  }

  /** A producer puts its item where none is waiting, and a consumer takes the oldest one. */
  lemma ReadyQueue(s: Sys, t: nat, what: Choice, n: nat)
    requires Shaped(s) && RolesOk(s) && QueueOk(s, n) && t < |s.threads| && s.threads[t].pc == Ready
    requires t == 0 && s.threads[0].stage == 1 ==> s.produced < |s.consumed| + n && s.produced == s.threads[0].k
    requires t == 1 && s.threads[1].stage == 1 ==> |s.consumed| < s.produced && |s.consumed| == s.threads[1].k
    requires |s.consumed| <= s.produced <= |s.consumed| + n
    ensures QueueOk(StepReady(s, t, what), n)
  {
    hide StepReady, RolesOk;
    ReadyWorks(s, t, what);
    if t == 0 && s.threads[0].stage == 1 {
      Produces(s.queue, |s.consumed|, s.produced);
    } else if t == 1 && s.threads[1].stage == 1 {
      Consumes(s.queue, |s.consumed|, s.produced);
    }
    hide Places;
  }

  lemma Produces(queue: seq<int>, c: nat, p: nat)
    requires Places(queue, c, p) && c <= p < c + |queue|
    ensures Places(queue[p % |queue| := p + 1], c, p + 1)
  {
    var n := |queue|;
    forall j | c <= j < c + n && j != p
      ensures j % n != p % n
    {
      if j < p { Distinct(j, p, n); } else { Distinct(p, j, n); }
    }
  }

  lemma Consumes(queue: seq<int>, c: nat, p: nat)
    requires Places(queue, c, p) && c < p <= c + |queue|
    ensures queue[c % |queue|] == c + 1 && Places(queue[c % |queue| := 0], c + 1, p)
  {
    var n, q := |queue|, queue[c % |queue| := 0];
    forall j | c < j < p
      ensures q[j % n] == j + 1
    {
      Distinct(c, j, n);
    }
    forall j | p <= j < c + 1 + n
      ensures q[j % n] == 0
    {
      if j == c + n { SamePlace(c, n); } else { Distinct(c, j, n); }
    }
  }

  lemma SamePlace(c: nat, n: nat)
    requires n > 0
    ensures (c + n) % n == c % n
  {
    assert c + n == (c / n + 1) * n + c % n;
    RemainderIs(c / n + 1, c % n, n, c + n);
  }

  lemma RemainderIs(a: int, r: int, n: nat, x: int)
    requires 0 <= r < n && x == a * n + r
    ensures x % n == r
  {
    var b := x / n;
    assert x == b * n + x % n;
    Multiple(b - a, n);
    Multiple(a - b, n);
    assert (b - a) * n == b * n - a * n && (a - b) * n == a * n - b * n;
  }

  lemma Distinct(i: nat, j: nat, n: nat)
    requires i < j < i + n
    ensures i % n != j % n
  {
    var a, b := i / n, j / n;
    assert i == a * n + i % n && j == b * n + j % n;
    Multiple(b - a, n);
    assert (b - a) * n == b * n - a * n;
  }

  lemma Multiple(d: int, n: nat)
    ensures d * n <= 0 || d * n >= n
  {
    if d >= 1 {
      assert (d - 1) * n >= 0;
    } else {
      assert (-d) * n >= 0;
    }
  }

  /** Thread u after a step of thread t inside a semaphore operation, other than the
      decrement or increment: its place in its round is the same. */
  lemma InsideThread(s: Sys, t: nat, what: Choice, u: nat, first: nat, second: nat)
    requires Shaped(s) && t < |s.threads| && u < |s.threads| && Follows(s.threads[u], first, second)
    requires s.threads[t].pc != Ready && s.threads[t].pc != WDec && s.threads[t].pc != PInc
    ensures |Step(s, t, what).threads| == |s.threads|
    ensures var th, th' := s.threads[u], Step(s, t, what).threads[u];
            && Follows(th', first, second) && th'.role == th.role
            && Waited(th') == Waited(th) && Worked(th') == Worked(th) && Posted(th') == Posted(th)
  {
    if u != t { UnmovedThread(s, t, what, u); }
  }

  /** What a step of another thread does to thread u: at most it wakes it. */
  lemma UnmovedThread(s: Sys, t: nat, what: Choice, u: nat)
    requires Shaped(s) && t < |s.threads| && u < |s.threads| && u != t
    ensures |Step(s, t, what).threads| == |s.threads|
    ensures Step(s, t, what).threads[u] == s.threads[u] ||
            (s.threads[u].pc == Asleep && Step(s, t, what).threads[u] == s.threads[u].(pc := WLock))
  {
  }

  lemma OtherThread(s: Sys, t: nat, what: Choice, u: nat)
    requires Shaped(s) && t < |s.threads| && u < |s.threads| && s.threads[t].pc != Ready
    requires s.threads[u].role == Other && (s.threads[u].pc == Ready || s.threads[u].sem >= 2)
    ensures |Step(s, t, what).threads| == |s.threads|
    ensures var th' := Step(s, t, what).threads[u]; th'.role == Other && (th'.pc == Ready || th'.sem >= 2)
  {
  }

  lemma InsideQueue(s: Sys, t: nat, what: Choice)
    requires Shaped(s) && t < |s.threads| && s.threads[t].pc != Ready
    ensures var s' := Step(s, t, what);
            s'.queue == s.queue && s'.produced == s.produced && s'.consumed == s.consumed && |s'.threads| == |s.threads|
  {
  }

  lemma InsideBuffered(s: Sys, t: nat, what: Choice, n: nat)
    requires Buffered(s, n) && t < |s.threads| && Shaped(Step(s, t, what))
    requires s.threads[t].pc != Ready && s.threads[t].pc != WDec && s.threads[t].pc != PInc
    ensures Buffered(Step(s, t, what), n)
  {
    hide Step, Follows, Waited, Worked, Posted;
    InsideQueue(s, t, what);
    StepCounts(s, t, what);
    InsideThread(s, t, what, 0, PLACES, ITEMS);
    InsideThread(s, t, what, 1, ITEMS, PLACES);
    forall u | 2 <= u < |s.threads|
      ensures Step(s, t, what).threads[u].role == Other && (Step(s, t, what).threads[u].pc == Ready ||
                                                            Step(s, t, what).threads[u].sem >= 2)
    {
      OtherThread(s, t, what, u);
    }
  }

  lemma CountRoles(s: Sys, t: nat)
    requires Shaped(s) && RolesOk(s) && t < |s.threads| && (s.threads[t].pc == WDec || s.threads[t].pc == PInc)
    ensures Shaped(CountStep(s, t)) && RolesOk(CountStep(s, t))
  {
  }

  lemma CountCounts(s: Sys, t: nat, n: nat)
    requires Shaped(s) && RolesOk(s) && CountsOk(s, n) && n < UINT && t < |s.threads| &&
             (s.threads[t].pc == WDec || s.threads[t].pc == PInc)
    requires s.num[s.threads[t].sem] < UINT && (s.threads[t].pc == WDec ==> s.num[s.threads[t].sem] > 0)
    ensures Shaped(CountStep(s, t)) && CountsOk(CountStep(s, t), n)
  {
    CountsBound(s, n);
    CountRoles(s, t);
    NoWrap(s.num[s.threads[t].sem]);
    if t >= 2 {
      assert s.threads[t].sem >= 2;
    } else {
      assert s.threads[t].sem < 2;
    }
  }

  lemma NoWrap(v: nat)
    requires v < UINT
    ensures v > 0 ==> (v + UINT - 1) % UINT == v - 1
    ensures v + 1 < UINT ==> (v + 1) % UINT == v + 1
  {
  }

  lemma CountBuffered(s: Sys, t: nat, n: nat)
    requires Sync(s) && Buffered(s, n) && t < |s.threads| && (s.threads[t].pc == WDec || s.threads[t].pc == PInc)
    ensures Buffered(CountStep(s, t), n)
  {
    assert Knows(s, s.threads[t]) && s.num[s.threads[t].sem] < UINT;
    CountRoles(s, t);
    CountCounts(s, t, n);
    hide LocksOk, SignalsOk, KnowOk, RolesOk, CountsOk;
  }

  lemma StepBuffered(s: Sys, t: nat, what: Choice, n: nat)
    requires Sync(s) && Buffered(s, n)
    ensures Buffered(Step(s, t, what), n)
  {
    hide LocksOk, SignalsOk, KnowOk, RolesOk, CountsOk, QueueOk, Step;
    StepSync(s, t, what);
    if t >= |s.threads| {
      NoThread(s, t, what);
    } else if s.threads[t].pc == Ready {
      ReadyBuffered(s, t, what, n);
      ReadyIsStep(s, t, what);
    } else if s.threads[t].pc == WDec || s.threads[t].pc == PInc {
      CountBuffered(s, t, n);
      CountIsStep(s, t, what);
    } else {
      InsideBuffered(s, t, what, n);
    }
  }

  lemma ReadyIsStep(s: Sys, t: nat, what: Choice)
    requires Shaped(s) && t < |s.threads| && s.threads[t].pc == Ready
    ensures Step(s, t, what) == StepReady(s, t, what)
  {
  }

  // ---------- runs ----------

  /** n places; the semaphores of the buffer start at n and 0, the others at any value. */
  function Start(n: nat, others: nat, values: seq<nat>): (r: Sys) {
    var num := [n, 0] + values;
    Sys(seq(others + 2, t => Thread(if t == 0 then Producer else if t == 1 then Consumer else Other, Ready, 0, 0, 0)),
        num, seq(|num|, _ => -1), -1, seq(|num|, _ => 0), seq(|num|, _ => 0), seq(n, _ => 0), 0, [])
  }

  ghost predicate IsRun(states: seq<Sys>, acts: seq<(nat, Choice)>) {
    && |states| == |acts| + 1
    && (forall i | 0 <= i < |acts| :: Shaped(states[i]) ==> states[i + 1] == Step(states[i], acts[i].0, acts[i].1))
  }

  lemma StartSync(n: nat, others: nat, values: seq<nat>)
    requires 0 < n < UINT && forall x | 0 <= x < |values| :: values[x] < UINT
    ensures Sync(Start(n, others, values))
  {
    var s := Start(n, others, values);
    assert forall x | 0 <= x < |s.mutex| :: s.mutex[x] == -1;
    assert forall t | 0 <= t < |s.threads| :: s.threads[t].pc == Ready;
  }

  lemma StartConserved(n: nat, others: nat, values: seq<nat>)
    requires 0 < n < UINT && forall x | 0 <= x < |values| :: values[x] < UINT
    ensures Conserved(Start(n, others, values), [n, 0] + values)
  {
  }

  lemma StartBuffered(n: nat, others: nat, values: seq<nat>)
    requires 0 < n < UINT
    ensures Buffered(Start(n, others, values), n)
  {
  }

  /** In every run of any number of threads: the counts of every semaphore are conserved, no
      thread sleeps on a semaphore above 0 without a signal to come, at most n items are in
      the queue, and what is consumed is what was produced, in order. */
  lemma {:induction false} RunOk(n: nat, others: nat, values: seq<nat>, states: seq<Sys>, acts: seq<(nat, Choice)>,
                                 i: nat)
    requires 0 < n < UINT && forall x | 0 <= x < |values| :: values[x] < UINT
    requires IsRun(states, acts) && states[0] == Start(n, others, values) && i < |states|
    ensures Sync(states[i]) && Conserved(states[i], [n, 0] + values) && Buffered(states[i], n)
    ensures SignalsOk(states[i]) && QueueOk(states[i], n) &&
            |states[i].consumed| <= states[i].produced <= |states[i].consumed| + n
  {
    hide LocksOk, SignalsOk, KnowOk, RolesOk, CountsOk, QueueOk, Step, Start, Conserved;
    if i == 0 {
      StartSync(n, others, values);
      StartConserved(n, others, values);
      StartBuffered(n, others, values);
    } else {
      RunOk(n, others, values, states, acts, i - 1);
      var s, a := states[i - 1], acts[i - 1];
      StepSync(s, a.0, a.1);
      StepConserves(s, a.0, a.1, [n, 0] + values);
      StepBuffered(s, a.0, a.1, n);
      assert states[i - 1 + 1] == Step(s, a.0, a.1);
    }
    CountsBound(states[i], n);
  }

  ghost predicate AllExact(states: seq<Sys>, init: seq<nat>, x: nat, i: nat)
    requires i < |states| && x < |init|
    requires forall j | 0 <= j < |states| :: Shaped(states[j]) && |states[j].num| == |init|
  {
    forall j | 0 <= j <= i :: Exact(states[j], init, x)
  }

  ghost predicate NoOverflow(states: seq<Sys>, acts: seq<(nat, Choice)>, x: nat, i: nat)
    requires i < |states| == |acts| + 1
  {
    forall j | 0 <= j < i :: !Overflows(states[j], acts[j].0, x)
  }

  lemma {:induction false} ExactUpTo(init: seq<nat>, states: seq<Sys>, acts: seq<(nat, Choice)>, x: nat, i: nat)
    requires IsRun(states, acts) && i < |states| && x < |init|
    requires forall j | 0 <= j < |states| :: Shaped(states[j]) && Sync(states[j]) && |states[j].num| == |init|
    requires Exact(states[0], init, x)
    ensures AllExact(states, init, x, i) <==> NoOverflow(states, acts, x, i)
  {
    hide LocksOk, SignalsOk, KnowOk, Overflows, Step, Exact;
    if i > 0 {
      ExactUpTo(init, states, acts, x, i - 1);
      var s, a := states[i - 1], acts[i - 1];
      assert states[i - 1 + 1] == Step(s, a.0, a.1);
      if AllExact(states, init, x, i - 1) {
        StepExact(s, a.0, a.1, init, x);
      }
    }
  }

  /** Value and decrements make up the initial value and the increments, exactly, in all
      states up to i, if and only if no step before i increments a semaphore that has its
      largest value. */
  lemma RunExact(n: nat, others: nat, values: seq<nat>, states: seq<Sys>, acts: seq<(nat, Choice)>, x: nat, i: nat)
    requires 0 < n < UINT && forall y | 0 <= y < |values| :: values[y] < UINT
    requires IsRun(states, acts) && states[0] == Start(n, others, values) && i < |states| && x < 2 + |values|
    ensures forall j | 0 <= j < |states| :: Shaped(states[j]) && |states[j].num| == 2 + |values|
    ensures AllExact(states, [n, 0] + values, x, i) <==> NoOverflow(states, acts, x, i)
  {
    var init := [n, 0] + values;
    forall j | 0 <= j < |states|
      ensures Sync(states[j]) && |states[j].num| == |init|
    {
      RunOk(n, others, values, states, acts, j);
    }
    ExactUpTo(init, states, acts, x, i);
  }

  /** A semaphore that starts at its largest value: thread 2 posts, and after its third step
      the value is 0. */
  lemma PostOverflows(n: nat) returns (states: seq<Sys>, acts: seq<(nat, Choice)>)
    requires 0 < n < UINT
    ensures IsRun(states, acts) && states[0] == Start(n, 1, [UINT - 1]) && |acts| == 3
    ensures Overflows(states[2], 2, 2) && |states[3].num| == 3 && states[3].num[2] == 0
  {
    var s0 := Start(n, 1, [UINT - 1]);
    var s1 := With(s0, 2, s0.threads[2].(pc := PLock, sem := 2));
    var s2 := With(s1, 2, s1.threads[2].(pc := PInc)).(mutex := s1.mutex[2 := 2]);
    assert Step(s0, 2, DoPost(2)) == s1;
    assert Step(s1, 2, DoNothing) == s2;
    var s3 := Step(s2, 2, DoNothing);
    states := [s0, s1, s2, s3];
    acts := [(2, DoPost(2)), (2, DoNothing), (2, DoNothing)];
  }

  // ---------- whole calls ----------

  /** n steps of thread t, after it chose `what`. */
  function Steps(s: Sys, t: nat, what: Choice, n: nat): (r: Sys)
    requires Shaped(s)
    ensures Shaped(r)
  {
    if n == 0 then s else StepShaped(Steps(s, t, what, n - 1), t, what); Step(Steps(s, t, what, n - 1), t, what)
  }

  lemma StepShaped(s: Sys, t: nat, what: Choice)
    requires Shaped(s)
    ensures Shaped(Step(s, t, what))
  {
    hide StepReady, SignalStep;
    if t < |s.threads| && s.threads[t].pc == Ready {
      ReadyShaped(s, t, what);
    } else if t < |s.threads| && s.threads[t].pc == PSignal {
      SignalShaped(s, t);
    }
  }

  lemma ReadyShaped(s: Sys, t: nat, what: Choice)
    requires Shaped(s) && t < |s.threads|
    ensures Shaped(StepReady(s, t, what))
  {
  }

  lemma SignalShaped(s: Sys, t: nat)
    requires Shaped(s) && t < |s.threads|
    ensures Shaped(SignalStep(s, t))
  {
  }

  /** Thread t is outside the semaphores, and nobody has the locks that it needs for x. */
  predicate CanCall(s: Sys, t: nat, x: nat) {
    && Shaped(s) && t < |s.threads| && s.threads[t].role == Other && s.threads[t].pc == Ready
    && 2 <= x < |s.num| && s.mutex[x] == -1 && s.pt == -1
  }

  /** sem_wait undisturbed: it takes one from a value above 0, and otherwise goes to sleep with
      all locks released. */
  lemma WaitCall(s: Sys, t: nat, x: nat)
    requires CanCall(s, t, x) && s.num[x] < UINT
    ensures s.num[x] > 0 ==>
              var s' := Steps(s, t, DoWait(x), 5);
              s'.num == s.num[x := s.num[x] - 1] && s'.mutex == s.mutex && t < |s'.threads| &&
                  s'.threads[t].pc == Ready &&
              s'.waits == s.waits[x := s.waits[x] + 1] && s'.posts == s.posts
    ensures s.num[x] == 0 ==>
              var s' := Steps(s, t, DoWait(x), 6);
              s'.num == s.num && s'.mutex == s.mutex && s'.pt == s.pt && t < |s'.threads| &&
                  s'.threads[t].pc == Asleep &&
              s'.threads[t].sem == x && s'.waits == s.waits
  {
    var w, th := DoWait(x), s.threads[t].(pc := WLock, sem := x);
    var s1 := With(s, t, th);
    var s2 := With(s1, t, th.(pc := WTest)).(mutex := s.mutex[x := t]);
    assert Steps(s, t, w, 1) == s1;
    assert Steps(s, t, w, 2) == s2;
    if s.num[x] > 0 {
      var s3 := With(s2, t, th.(pc := WDec));
      assert Steps(s, t, w, 3) == s3;
      NoWrap(s.num[x]);
      var s4 := With(s3, t, th.(pc := WRel)).(num := s.num[x := s.num[x] - 1], waits := s.waits[x := s.waits[x] + 1]);
      assert Steps(s, t, w, 4) == s4;
      assert Steps(s, t, w, 5) == UnlockStep(s4, t, Ready, 1);
      assert s.mutex[x := t][x := -1] == s.mutex;
    } else {
      var s3 := With(s2, t, th.(pc := WPt));
      assert Steps(s, t, w, 3) == s3;
      var s4 := With(s3, t, th.(pc := WUnlock)).(pt := t);
      assert Steps(s, t, w, 4) == s4;
      var s5 := With(s4, t, th.(pc := WDoze)).(mutex := s.mutex[x := t][x := -1]);
      assert Steps(s, t, w, 5) == s5;
      assert Steps(s, t, w, 6) == With(s5, t, th.(pc := Asleep)).(pt := -1);
      assert s.mutex[x := t][x := -1] == s.mutex;
    }
  }

  /** sem_post undisturbed: it adds one, and all who sleep on the semaphore go on. */
  lemma PostCall(s: Sys, t: nat, x: nat)
    requires CanCall(s, t, x) && s.num[x] + 1 < UINT
    ensures var s' := Steps(s, t, DoPost(x), 5);
            && s'.num == s.num[x := s.num[x] + 1] && s'.mutex == s.mutex && s'.posts == s.posts[x := s.posts[x] + 1]
            && s'.waits == s.waits && |s'.threads| == |s.threads| && s'.threads[t].pc == Ready
            && (forall u | 0 <= u < |s.threads| && u != t ::
                  s'.threads[u] == if s.threads[u].pc == Asleep && s.threads[u].sem == x
                                   then s.threads[u].(pc := WLock) else s.threads[u])
  {
    var w, th := DoPost(x), s.threads[t].(pc := PLock, sem := x);
    PostCounts(s, t, x);
    var s3 := Steps(s, t, w, 3);
    var s4 := With(s3, t, th.(pc := PSignal)).(mutex := s.mutex[x := t][x := -1]);
    assert Steps(s, t, w, 4) == s4;
    assert Steps(s, t, w, 5) == SignalStep(s4, t);
    assert s.mutex[x := t][x := -1] == s.mutex;
  }

  /** sem_post up to its increment. */
  lemma PostCounts(s: Sys, t: nat, x: nat)
    requires CanCall(s, t, x) && s.num[x] + 1 < UINT
    ensures Steps(s, t, DoPost(x), 3) ==
            With(s, t, s.threads[t].(pc := PRel, sem := x))
            .(mutex := s.mutex[x := t], num := s.num[x := s.num[x] + 1], posts := s.posts[x := s.posts[x] + 1])
  {
    var w, th := DoPost(x), s.threads[t].(pc := PLock, sem := x);
    var s1 := With(s, t, th);
    var s2 := With(s1, t, th.(pc := PInc)).(mutex := s.mutex[x := t]);
    assert Steps(s, t, w, 1) == s1;
    assert Steps(s, t, w, 2) == s2;
    NoWrap(s.num[x]);
    assert Steps(s, t, w, 3) == CountStep(s2, t);
  }

  // ---------- progress ----------

  /** A thread that has a lock, or needs none that is held, can go on. */
  lemma HolderMoves(s: Sys, t: nat)
    requires Shaped(s) && LocksOk(s) && t < |s.threads| && (HoldsMutex(s.threads[t].pc) || HoldsPt(s.threads[t].pc))
    requires s.pt < 0 || s.pt == t
    ensures Step(s, t, DoNothing) != s
  {
    assert Step(s, t, DoNothing).threads[t].pc != s.threads[t].pc;
  }

  lemma FreeMoves(s: Sys, t: nat)
    requires Shaped(s) && t < |s.threads| && s.pt < 0 && s.mutex[s.threads[t].sem] < 0
    requires s.threads[t].pc == WLock || s.threads[t].pc == PLock || s.threads[t].pc == PSignal
    ensures Step(s, t, DoNothing) != s
  {
    assert Step(s, t, DoNothing).threads[t].pc != s.threads[t].pc;
  }

  /** A producer or consumer that is not asleep goes on, if nobody has a lock. */
  lemma WorkerMoves(s: Sys, t: nat)
    requires Shaped(s) && LocksOk(s) && t < |s.threads| && s.threads[t].role != Other && s.threads[t].pc != Asleep
    requires s.pt < 0 && forall x | 0 <= x < |s.mutex| :: s.mutex[x] < 0
    ensures Step(s, t, DoNothing) != s
  {
    var th := s.threads[t];
    if th.pc == Ready {
      assert Step(s, t, DoNothing).threads[t] != th;
    } else if HoldsMutex(th.pc) || HoldsPt(th.pc) {
      HolderMoves(s, t);
    } else {
      FreeMoves(s, t);
    }
  }

  /** The thread whose signal a sleeper waits for. */
  lemma SignallerMoves(s: Sys, t: nat) returns (u: nat)
    requires Sync(s) && t < |s.threads| && s.threads[t].pc == Asleep && s.num[s.threads[t].sem] > 0
    requires s.pt < 0 && forall x | 0 <= x < |s.mutex| :: s.mutex[x] < 0
    ensures Step(s, u, DoNothing) != s
  {
    assert Dozing(s.threads[t]) && SignalComes(s, s.threads[t].sem);
    u :| 0 <= u < |s.threads| && WillSignal(s.threads[u], s.threads[t].sem);
    if s.threads[u].pc == PRel {
      HolderMoves(s, u);
    } else {
      FreeMoves(s, u);
    }
  }

  /** The producer and the consumer are not both asleep for good. */
  lemma BothAsleep(s: Sys, n: nat)
    requires Buffered(s, n) && s.threads[0].pc == Asleep && s.threads[1].pc == Asleep
    ensures s.threads[0].sem == PLACES && s.threads[1].sem == ITEMS && (s.num[PLACES] > 0 || s.num[ITEMS] > 0)
  {
  }

  lemma SomeoneMoves(s: Sys, n: nat) returns (t: nat)
    requires Sync(s) && Buffered(s, n)
    ensures Step(s, t, DoNothing) != s
  {
    hide Step, CountsOk, QueueOk, KnowOk, SignalsOk;
    if s.pt >= 0 {
      t := s.pt;
      HolderMoves(s, t);
    } else if x :| 0 <= x < |s.mutex| && s.mutex[x] >= 0 {
      t := s.mutex[x];
      HolderMoves(s, t);
    } else if s.threads[0].pc != Asleep {
      t := 0;
      WorkerMoves(s, t);
    } else if s.threads[1].pc != Asleep {
      t := 1;
      WorkerMoves(s, t);
    } else {
      BothAsleep(s, n);
      t := SignallerMoves(s, if s.num[PLACES] > 0 then 0 else 1);
    }
  }

  /** No run comes to a deadlock: in every state some thread can go on. */
  lemma NoDeadlock(n: nat, others: nat, values: seq<nat>, states: seq<Sys>, acts: seq<(nat, Choice)>, i: nat)
    returns (t: nat)
    requires 0 < n < UINT && forall x | 0 <= x < |values| :: values[x] < UINT
    requires IsRun(states, acts) && states[0] == Start(n, others, values) && i < |states|
    ensures Shaped(states[i]) && Step(states[i], t, DoNothing) != states[i]
  {
    RunOk(n, others, values, states, acts, i);
    t := SomeoneMoves(states[i], n);
  }
}
