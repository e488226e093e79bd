/** Processors, processes, spin-locks and sleep-locks: spinlock.c, sleeplock.c and the
    scheduling half of proc.c, as one transition system.  A step is one access to shared
    memory, or one of pushcli, popcli and swtch, on one processor. */
module Kernel {

  /** ptable.lock.  Spin-lock l > 0 is the inner lock of sleep-lock l, and l is also the
      channel on which processes sleep for it. */
  const PTABLE: nat := 0

  /** How a process came to call sched, or that it never ran. */
  datatype Why = Born | Slept(l: nat) | Yielded(ret: Pc)

  datatype Label =
    | Idle                                                      // no spin-lock, interrupts on
    | Test(l: nat) | Take(l: nat)                               // acquiresleep
    | Drop(l: nat) | Chan(l: nat) | Doze(l: nat)                // sleep
    | Sched(w: Why) | Resume(w: Why)                            // sched, before and after swtch
    | Unchan(l: nat) | Reacquire(l: nat)                        // sleep, after waking
    | Clear(l: nat) | Scan(l: nat, i: nat) | Woke(l: nat)       // releasesleep and wakeup
    | Ready(ret: Pc) | Iret(ret: Pc)                            // yield, from the timer trap
    | Started                                                   // forkret, after its release
    | Kill(p: nat)
    | Sti | Look(i: nat) | Mark(i: nat) | Switch(i: nat) | Back(i: nat)   // scheduler

  datatype Acquiring = Push | Xchg | SetCpu
  datatype Releasing = ClearCpu | Unlock | Pop

  /** At a label, or inside acquire or release of lock k on the way to one. */
  datatype Pc = At(at: Label) | Acq(k: nat, a: Acquiring, to: Label) | Rel(k: nat, r: Releasing, to: Label)

  datatype PState = SLEEPING | RUNNABLE | RUNNING

  /** `on` is the process whose stack the processor runs on, or -1 for its scheduler, which
      is at spc; `proc` is the field c->proc, -1 for null. */
  datatype Cpu = Cpu(ifl: bool, ncli: int, intena: bool, proc: int, on: int, spc: Pc)

  /** `saved` is sched's local copy of intena.  Two fields record the history: `holds` are
      the sleep-locks taken and not released, `cpu` is the processor that last set its
      c->proc to this process, -1 after it cleared it. */
  datatype Proc = Proc(state: PState, chan: int, saved: bool, pc: Pc, holds: set<nat>, cpu: int)

  /** `owner` is the processor whose xchg took the lock, -1 when the lock word is 0; `cpu` is
      the field lk->cpu. */
  datatype Spin = Spin(owner: int, cpu: int)

  /** sl[l] is the process recorded in sleep-lock l, -1 when it is not locked. */
  datatype Sys = Sys(cpus: seq<Cpu>, procs: seq<Proc>, spin: seq<Spin>, sl: seq<int>, panic: bool)

  // ---------- program positions ----------

  /** The spin-locks that a thread holds at a label. */
  predicate HeldAt(x: Label, k: nat) {
    match x
    case Test(l) => k == l
    case Take(l) => k == l
    case Clear(l) => k == l
    case Woke(l) => k == l
    case Drop(l) => k == l || k == PTABLE
    case Scan(l, i) => k == l || k == PTABLE
    case Idle => false
    case Reacquire(l) => false
    case Iret(r) => false
    case Started => false
    case Sti => false
    case _ => k == PTABLE
  }

  predicate Held(pc: Pc, k: nat) {
    match pc
    case At(x) => HeldAt(x, k)
    case Acq(j, a, to) => if k == j then a.SetCpu? else HeldAt(to, k)
    case Rel(j, r, to) => if k == j then !r.Pop? else HeldAt(to, k)
  }

  /** The held locks whose cpu field is set. */
  predicate Marked(pc: Pc, k: nat) {
    match pc
    case At(x) => HeldAt(x, k)
    case Acq(j, a, to) => k != j && HeldAt(to, k)
    case Rel(j, r, to) => if k == j then r.ClearCpu? else HeldAt(to, k)
  }

  function DepthAt(x: Label): (r: nat) {
    match x
    case Drop(l) => 2
    case Scan(l, i) => 2
    case Idle => 0
    case Reacquire(l) => 0
    case Iret(r) => 0
    case Started => 0
    case Sti => 0
    case _ => 1
  }

  /** How often pushcli was called and not yet undone. */
  function Depth(pc: Pc): int {
    match pc
    case At(x) => DepthAt(x)
    case Acq(j, a, to) => DepthAt(to) - if a.Push? then 1 else 0
    case Rel(j, r, to) => DepthAt(to) + 1
  }

  /** Where the timer may interrupt a process. */
  predicate Interruptible(pc: Pc) {
    || (pc.At? && (pc.at.Idle? || pc.at.Reacquire? || pc.at.Started?))
    || (pc.Acq? && pc.a.Push? && (pc.to.Test? || pc.to.Clear? || pc.to.Kill?))
  }

  // ---------- steps ----------

  /** What a process does next when it is idle. */
  datatype Choice = AcquireSleep(l: nat) | ReleaseSleep(l: nat) | KillProc(p: nat) | Compute

  datatype Act = Run(c: nat, what: Choice) | Timer(c: nat)

  function PcOn(s: Sys, c: nat): (r: Pc)
    requires c < |s.cpus| && s.cpus[c].on < |s.procs|
  {
    if s.cpus[c].on < 0 then s.cpus[c].spc else s.procs[s.cpus[c].on].pc
  }

  function Goto(s: Sys, c: nat, pc: Pc): (r: Sys)
    requires c < |s.cpus| && s.cpus[c].on < |s.procs|
  {
    if s.cpus[c].on < 0 then s.(cpus := s.cpus[c := s.cpus[c].(spc := pc)])
    else s.(procs := s.procs[s.cpus[c].on := s.procs[s.cpus[c].on].(pc := pc)])
  }

  function Panic(s: Sys): (r: Sys) {
    s.(panic := true)
  }

  predicate Holding(s: Sys, c: nat, k: nat)
    requires k < |s.spin|
  {
    s.spin[k].owner >= 0 && s.spin[k].cpu == c
  }

  function Pushcli(u: Cpu): (r: Cpu) {
    u.(ifl := false, ncli := u.ncli + 1, intena := if u.ncli == 0 then u.ifl else u.intena)
  }

  function Popcli(u: Cpu): (r: Cpu) {
    u.(ncli := u.ncli - 1, ifl := u.ifl || (u.ncli == 1 && u.intena))
  }

  function StepAcquire(s: Sys, c: nat, k: nat, a: Acquiring, to: Label): (r: Sys)
    requires c < |s.cpus| && s.cpus[c].on < |s.procs| && k < |s.spin|
  {
    match a
    case Push =>
      if Holding(s, c, k) then Panic(s)
      else Goto(s.(cpus := s.cpus[c := Pushcli(s.cpus[c])]), c, Acq(k, Xchg, to))
    case Xchg =>
      if s.spin[k].owner >= 0 then s
      else Goto(s.(spin := s.spin[k := s.spin[k].(owner := c)]), c, Acq(k, SetCpu, to))
    case SetCpu =>
      Goto(s.(spin := s.spin[k := s.spin[k].(cpu := c)]), c, At(to))
  }

  function StepRelease(s: Sys, c: nat, k: nat, r: Releasing, to: Label): (r': Sys)
    requires c < |s.cpus| && s.cpus[c].on < |s.procs| && k < |s.spin|
  {
    match r
    case ClearCpu =>
      if !Holding(s, c, k) then Panic(s)
      else Goto(s.(spin := s.spin[k := s.spin[k].(cpu := -1)]), c, Rel(k, Unlock, to))
    case Unlock =>
      Goto(s.(spin := s.spin[k := s.spin[k].(owner := -1)]), c, Rel(k, Pop, to))
    case Pop =>
      if s.cpus[c].ifl || s.cpus[c].ncli < 1 then Panic(s)
      else Goto(s.(cpus := s.cpus[c := Popcli(s.cpus[c])]), c, At(to))
  }

  function WithProc(s: Sys, p: nat, q: Proc): (r: Sys)
    requires p < |s.procs|
  {
    s.(procs := s.procs[p := q])
  }

  function WithCpu(s: Sys, c: nat, u: Cpu): (r: Sys)
    requires c < |s.cpus|
  {
    s.(cpus := s.cpus[c := u])
  }

  /** A process that is idle starts an operation. */
  function StepIdle(s: Sys, p: nat, what: Choice): (r: Sys)
    requires p < |s.procs|
  {
    var q := s.procs[p];
    match what
    case AcquireSleep(l) => if 0 < l < |s.sl| then WithProc(s, p, q.(pc := Acq(l, Push, Test(l)))) else s
    case ReleaseSleep(l) =>
      if 0 < l < |s.sl| && l in q.holds then WithProc(s, p, q.(pc := Acq(l, Push, Clear(l)))) else s
    case KillProc(i) => if i < |s.procs| then WithProc(s, p, q.(pc := Acq(PTABLE, Push, Kill(i)))) else s
    case Compute => s
  }

  /** sched: the process leaves the processor to the scheduler. */
  function StepSched(s: Sys, c: nat, p: nat, w: Why): (r: Sys)
    requires c < |s.cpus| && p < |s.procs| && PTABLE < |s.spin|
  {
    var q, u := s.procs[p], s.cpus[c];
    if !Holding(s, c, PTABLE) || u.ncli != 1 || q.state == RUNNING || u.ifl then Panic(s)
    else WithCpu(WithProc(s, p, q.(saved := u.intena, pc := At(Resume(w)))), c, u.(on := -1))
  }

  /** The process is back on a processor, after the swtch of sched or at forkret. */
  function StepResume(s: Sys, c: nat, p: nat, w: Why): (r: Sys)
    requires c < |s.cpus| && p < |s.procs|
  {
    var q, u := s.procs[p], s.cpus[c];
    match w
    case Born => WithProc(s, p, q.(pc := Rel(PTABLE, ClearCpu, Started)))
    case Slept(l) => WithProc(WithCpu(s, c, u.(intena := q.saved)), p, q.(pc := At(Unchan(l))))
    case Yielded(ret) => WithProc(WithCpu(s, c, u.(intena := q.saved)), p, q.(pc := Rel(PTABLE, ClearCpu, Iret(ret))))
  }

  function Woken(q: Proc): (r: Proc) {
    if q.state == SLEEPING then q.(state := RUNNABLE) else q
  }

  /** One round of wakeup1's scan. */
  function StepScan(s: Sys, p: nat, l: nat, i: nat): (r: Sys)
    requires p < |s.procs|
  {
    if i >= |s.procs| then WithProc(s, p, s.procs[p].(pc := Rel(PTABLE, ClearCpu, Woke(l))))
    else
      var s1 := if s.procs[i].chan == l then WithProc(s, i, Woken(s.procs[i])) else s;
      WithProc(s1, p, s1.procs[p].(pc := At(Scan(l, i + 1))))
  }

  /** acquiresleep and releasesleep. */
  function StepSleepLock(s: Sys, p: nat, x: Label): (r: Sys)
    requires p < |s.procs|
  {
    var q := s.procs[p];
    match x
    case Test(l) =>
      if l < |s.sl| && s.sl[l] >= 0 then WithProc(s, p, q.(pc := Acq(PTABLE, Push, Drop(l))))
      else WithProc(s, p, q.(pc := At(Take(l))))
    case Take(l) =>
      if l < |s.sl| then WithProc(s.(sl := s.sl[l := p]), p, q.(pc := Rel(l, ClearCpu, Idle), holds := q.holds + {l}))
      else s
    case Clear(l) =>
      if l < |s.sl| then
        WithProc(s.(sl := s.sl[l := -1]), p, q.(pc := Acq(PTABLE, Push, Scan(l, 0)), holds := q.holds - {l}))
      else s
    case Woke(l) => WithProc(s, p, q.(pc := Rel(l, ClearCpu, Idle)))
    case _ => s
  }

  /** sleep, but for its calls of acquire, release and sched. */
  function StepSleep(s: Sys, p: nat, x: Label): (r: Sys)
    requires p < |s.procs|
  {
    var q := s.procs[p];
    match x
    case Drop(l) => WithProc(s, p, q.(pc := Rel(l, ClearCpu, Chan(l))))
    case Chan(l) => WithProc(s, p, q.(chan := l, pc := At(Doze(l))))
    case Doze(l) => WithProc(s, p, q.(state := SLEEPING, pc := At(Sched(Slept(l)))))
    case Unchan(l) => WithProc(s, p, q.(chan := -1, pc := Rel(PTABLE, ClearCpu, Reacquire(l))))
    case Reacquire(l) => WithProc(s, p, q.(pc := Acq(l, Push, Test(l))))
    case _ => s
  }

  /** yield and the returns from traps. */
  function StepTrap(s: Sys, c: nat, p: nat, x: Label): (r: Sys)
    requires c < |s.cpus| && p < |s.procs|
  {
    var q, u := s.procs[p], s.cpus[c];
    match x
    case Ready(ret) => WithProc(s, p, q.(state := RUNNABLE, pc := At(Sched(Yielded(ret)))))
    case Iret(ret) => WithCpu(WithProc(s, p, q.(pc := ret)), c, u.(ifl := true))
    case Started => WithCpu(WithProc(s, p, q.(pc := At(Idle))), c, u.(ifl := true))
    case _ => s
  }

  /** kill, once it has found the process. */
  function StepKill(s: Sys, p: nat, i: nat): (r: Sys)
    requires p < |s.procs|
  {
    var s1 := if i < |s.procs| then WithProc(s, i, Woken(s.procs[i])) else s;
    WithProc(s1, p, s1.procs[p].(pc := Rel(PTABLE, ClearCpu, Idle)))
  }

  function StepProc(s: Sys, c: nat, p: nat, x: Label, what: Choice): (r: Sys)
    requires c < |s.cpus| && p < |s.procs| && PTABLE < |s.spin|
  {
    if x.Idle? then StepIdle(s, p, what)
    else if x.Sched? then StepSched(s, c, p, x.w)
    else if x.Resume? then StepResume(s, c, p, x.w)
    else if x.Scan? then StepScan(s, p, x.l, x.i)
    else if x.Kill? then StepKill(s, p, x.p)
    else if x.Test? || x.Take? || x.Clear? || x.Woke? then StepSleepLock(s, p, x)
    else if x.Ready? || x.Iret? || x.Started? then StepTrap(s, c, p, x)
    else StepSleep(s, p, x)
  }

  function StepScheduler(s: Sys, c: nat, x: Label): (r: Sys)
    requires c < |s.cpus|
  {
    var u := s.cpus[c];
    match x
    case Sti => WithCpu(s, c, u.(ifl := true, spc := Acq(PTABLE, Push, Look(0))))
    case Look(i) =>
      if i >= |s.procs| then WithCpu(s, c, u.(spc := Rel(PTABLE, ClearCpu, Sti)))
      else if s.procs[i].state != RUNNABLE then WithCpu(s, c, u.(spc := At(Look(i + 1))))
      else WithProc(WithCpu(s, c, u.(proc := i, spc := At(Mark(i)))), i, s.procs[i].(cpu := c))
    case Mark(i) =>
      if i < |s.procs| then WithProc(WithCpu(s, c, u.(spc := At(Switch(i)))), i, s.procs[i].(state := RUNNING)) else s
    case Switch(i) => WithCpu(s, c, u.(on := i, spc := At(Back(i))))
    case Back(i) =>
      if i < |s.procs| then WithProc(WithCpu(s, c, u.(proc := -1, spc := At(Look(i + 1)))), i, s.procs[i].(cpu := -1))
      else s
    case _ => s
  }

  /** Every processor, and everything that the positions name, exists. */
  predicate Sized(s: Sys) {
    && |s.spin| == |s.sl| > 0
    && (forall c | 0 <= c < |s.cpus| :: s.cpus[c].on < |s.procs| && LockOf(PcOn(s, c)) < |s.spin|)
  }

  function LockOf(pc: Pc): nat {
    match pc
    case At(x) => 0
    case Acq(k, a, to) => k
    case Rel(k, r, to) => k
  }

  function Step(s: Sys, a: Act): (r: Sys)
    requires Sized(s)
  {
    if s.panic || a.c >= |s.cpus| then s
    else
      var u := s.cpus[a.c];
      if a.Timer? then
        if u.ifl && u.on >= 0 then
          WithCpu(Goto(s, a.c, Acq(PTABLE, Push, Ready(PcOn(s, a.c)))), a.c, u.(ifl := false))
        else s
      else
        match PcOn(s, a.c)
        case Acq(k, st, to) => StepAcquire(s, a.c, k, st, to)
        case Rel(k, st, to) => StepRelease(s, a.c, k, st, to)
        case At(x) => if u.on >= 0 then StepProc(s, a.c, u.on, x, a.what) else StepScheduler(s, a.c, x)
  }

  // ---------- the invariant ----------

  /** The acquire and release calls of the code, with nl locks and np processes to name. */
  predicate Legal(nl: nat, np: nat, pc: Pc) {
    match pc
    case At(x) => LegalLabel(nl, np, x)
    case Acq(k, a, to) => LegalLabel(nl, np, to) && LegalAcquire(k, a, to)
    case Rel(k, r, to) => LegalLabel(nl, np, to) && LegalRelease(k, to) && k < nl
  }

  predicate LegalAcquire(k: nat, a: Acquiring, to: Label) {
    match to
    case Test(l) => k == l
    case Clear(l) => k == l
    case Drop(l) => k == PTABLE
    case Scan(l, i) => k == PTABLE && i == 0
    case Ready(r) => k == PTABLE
    case Kill(i) => k == PTABLE
    case Look(i) => k == PTABLE
    case _ => false
  }

  predicate LegalRelease(k: nat, to: Label) {
    match to
    case Idle => true
    case Chan(l) => k == l
    case Woke(l) => k == PTABLE
    case Reacquire(l) => k == PTABLE
    case Iret(r) => k == PTABLE
    case Started => k == PTABLE
    case Sti => k == PTABLE
    case _ => false
  }

  predicate LegalLabel(nl: nat, np: nat, x: Label) {
    match x
    case Test(l) => 0 < l < nl
    case Take(l) => 0 < l < nl
    case Drop(l) => 0 < l < nl
    case Chan(l) => 0 < l < nl
    case Doze(l) => 0 < l < nl
    case Unchan(l) => 0 < l < nl
    case Reacquire(l) => 0 < l < nl
    case Clear(l) => 0 < l < nl
    case Scan(l, i) => 0 < l < nl
    case Woke(l) => 0 < l < nl
    case Sched(w) => !w.Born? && LegalWhy(nl, np, w)
    case Resume(w) => LegalWhy(nl, np, w)
    case Ready(ret) => LegalRet(nl, np, ret)
    case Iret(ret) => LegalRet(nl, np, ret)
    case Kill(i) => i < np
    case Mark(i) => i < np
    case Switch(i) => i < np
    case Back(i) => i < np
    case _ => true
  }

  predicate LegalWhy(nl: nat, np: nat, w: Why) {
    match w
    case Born => true
    case Slept(l) => 0 < l < nl
    case Yielded(ret) => LegalRet(nl, np, ret)
  }

  /** A position that the timer interrupted. */
  predicate LegalRet(nl: nat, np: nat, ret: Pc) {
    && Interruptible(ret)
    && (ret.At? && ret.at.Reacquire? ==> 0 < ret.at.l < nl)
    && (ret.Acq? && ret.to.Test? ==> 0 < ret.k == ret.to.l < nl)
    && (ret.Acq? && ret.to.Clear? ==> 0 < ret.k == ret.to.l < nl)
    && (ret.Acq? && ret.to.Kill? ==> ret.k == PTABLE && ret.to.p < np)
  }

  predicate OfScheduler(x: Label) {
    x.Sti? || x.Look? || x.Mark? || x.Switch? || x.Back?
  }

  function Target(pc: Pc): Label {
    match pc
    case At(x) => x
    case Acq(k, a, to) => to
    case Rel(k, r, to) => to
  }

  /** Inside yield: pushcli found interrupts off. */
  predicate InYield(pc: Pc) {
    var x := Target(pc);
    x.Ready? || x.Iret? || ((x.Sched? || x.Resume?) && x.w.Yielded?)
  }

  /** The process that the scheduler has named in c->proc. */
  function Chosen(x: Label): int {
    match x
    case Mark(i) => i
    case Switch(i) => i
    case Back(i) => i
    case _ => -1
  }

  /** ncli is the depth of pushcli; interrupts are on exactly where the code runs with them
      on; intena is what the thread found at its outermost pushcli. */
  predicate CpuFine(u: Cpu, pc: Pc, nl: nat, np: nat) {
    && -1 <= u.on < np && Legal(nl, np, pc)
    && u.ncli == Depth(pc)
    && (Depth(pc) > 0 ==> !u.ifl)
    && (u.on >= 0 ==>
          && !OfScheduler(Target(pc)) && u.proc == u.on && u.spc == At(Back(u.on))
          && (pc != At(Started) ==> u.ifl == Interruptible(pc))
          && (Depth(pc) > 0 && !Target(pc).Resume? && !Target(pc).Started? ==> u.intena == !InYield(pc)))
    && (u.on < 0 ==> OfScheduler(Target(pc)) && u.proc == Chosen(Target(pc)))
  }

  /** Off the processor, a process waits inside sched, or is new. */
  predicate Parked(q: Proc) {
    && q.pc.At? && q.pc.at.Resume?
    && (q.state == SLEEPING ==> q.pc.at.w.Slept?)
  }

  function StateAt(pc: Pc): PState {
    match Target(pc)
    case Sched(w) => if w.Slept? then SLEEPING else RUNNABLE
    case _ => RUNNING
  }

  /** A process that is falling asleep or has slept names its lock as its channel, and the
      frame of sched has the interrupt state that the process had. */
  predicate FrameOk(q: Proc) {
    match q.pc
    case At(Doze(l)) => q.chan == l
    case At(Sched(Slept(l))) => q.chan == l
    case At(Resume(Slept(l))) => q.chan == l && q.saved
    case At(Resume(Yielded(r))) => !q.saved
    case At(Unchan(l)) => q.chan == l
    case _ => true
  }

  predicate ProcFine(q: Proc, nl: nat, np: nat) {
    && Legal(nl, np, q.pc) && !OfScheduler(Target(q.pc)) && FrameOk(q)
    && (q.cpu < 0 ==> Parked(q) && q.state != RUNNING)
  }

  /** Process p, which processor u has named in its c->proc. */
  predicate Seated(q: Proc, p: nat, u: Cpu) {
    && u.proc == p
    && (u.on >= 0 ==> q.state == StateAt(q.pc))
    && (u.on < 0 ==> Parked(q) && StateUnder(u.spc, q.state))
  }

  /** The state of a process that a scheduler has named. */
  predicate StateUnder(spc: Pc, state: PState) {
    match spc
    case At(Mark(i)) => state == RUNNABLE
    case At(Switch(i)) => state == RUNNING
    case _ => state != RUNNING
  }

  predicate CpuOk(s: Sys, c: nat)
    requires c < |s.cpus|
  {
    && s.cpus[c].on < |s.procs|
    && CpuFine(s.cpus[c], PcOn(s, c), |s.sl|, |s.procs|)
    && (s.cpus[c].proc >= 0 ==> s.cpus[c].proc < |s.procs| && s.procs[s.cpus[c].proc].cpu == c)
  }

  predicate ProcOk(s: Sys, p: nat)
    requires p < |s.procs|
  {
    && -1 <= s.procs[p].cpu < |s.cpus|
    && ProcFine(s.procs[p], |s.sl|, |s.procs|)
    && (s.procs[p].cpu >= 0 ==> Seated(s.procs[p], p, s.cpus[s.procs[p].cpu]))
  }

  predicate Threads(s: Sys) {
    && (forall c | 0 <= c < |s.cpus| :: CpuOk(s, c))
    && (forall p | 0 <= p < |s.procs| :: ProcOk(s, p))
  }

  /** A lock is held by the one thread whose position says so. */
  predicate LockOk(s: Sys, k: nat)
    requires Sized(s) && k < |s.spin|
  {
    && -1 <= s.spin[k].owner < |s.cpus|
    && (forall c | 0 <= c < |s.cpus| :: Held(PcOn(s, c), k) <==> s.spin[k].owner == c)
    && s.spin[k].cpu == if s.spin[k].owner >= 0 && Marked(PcOn(s, s.spin[k].owner), k) then s.spin[k].owner else -1
  }

  predicate Locks(s: Sys)
    requires Sized(s)
  {
    forall k | 0 <= k < |s.spin| :: LockOk(s, k)
  }

  predicate Ok(s: Sys) {
    Sized(s) && !s.panic && Threads(s) && Locks(s)
  }

  // ---------- how steps change the system ----------

  /** Only the thread on processor c moves. */
  predicate OnlyMoves(s: Sys, s': Sys, c: nat)
    requires Threads(s) && c < |s.cpus|
  {
    && |s'.cpus| == |s.cpus| && |s'.procs| == |s.procs| && |s'.spin| == |s.spin| && |s'.sl| == |s.sl|
    && s'.cpus[c].on < |s.procs|
    && (forall d | 0 <= d < |s.cpus| && d != c :: s'.cpus[d] == s.cpus[d] && CpuOk(s, d) && PcOn(s', d) == PcOn(s, d))
  }

  predicate LockMoves(a: Spin, b: Spin, c: nat, k: nat, pc: Pc) {
    && (Held(pc, k) <==> b.owner == c)
    && (b.owner == c ==> (a.owner == c || a.owner == -1) && b.cpu == if Marked(pc, k) then c else -1)
    && (b.owner != c ==> b == if a.owner == c then Spin(-1, -1) else a)
  }

  /** Locks that other processors hold stay as they are. */
  predicate OthersKeep(s: Sys, s': Sys, c: nat) {
    |s'.spin| == |s.spin| && forall k | 0 <= k < |s.spin| && s.spin[k].owner >= 0 && s.spin[k].owner != c ::
        s'.spin[k].owner == s.spin[k].owner
  }

  lemma LocksMove(s: Sys, s': Sys, c: nat)
    requires Ok(s) && c < |s.cpus| && OnlyMoves(s, s', c) && Sized(s')
    requires forall k | 0 <= k < |s.spin| :: LockMoves(s.spin[k], s'.spin[k], c, k, PcOn(s', c))
    ensures Locks(s') && OthersKeep(s, s', c)
  {
    forall k | 0 <= k < |s'.spin|
      ensures LockOk(s', k)
    {
      assert LockOk(s, k) && LockMoves(s.spin[k], s'.spin[k], c, k, PcOn(s', c));
    }
  }

  /** A step on processor c that changes at most process i, which no other processor has. */
  lemma Moves(s: Sys, s': Sys, c: nat, i: nat, u: Cpu, q: Proc)
    requires Ok(s) && c < |s.cpus| && i < |s.procs|
    requires s'.cpus == s.cpus[c := u] && s'.procs == s.procs[i := q] && |s'.spin| == |s.spin| && |s'.sl| == |s.sl|
    requires (s.cpus[c].proc == -1 || s.cpus[c].proc == i) && (s.procs[i].cpu == -1 || s.procs[i].cpu == c)
    requires (u.proc == -1 || u.proc == i) && q.cpu == (if u.proc == i then c else -1) && (u.on == -1 || u.on == i)
    requires CpuFine(u, if u.on == i then q.pc else u.spc, |s.sl|, |s.procs|)
    requires ProcFine(q, |s.sl|, |s.procs|) && (u.proc == i ==> Seated(q, i, u))
    ensures Sized(s') && Threads(s') && OnlyMoves(s, s', c)
  {
    hide Legal, Interruptible, InYield, StateUnder, Held, Marked, Parked, StateAt, FrameOk, Chosen, OfScheduler, Depth,
         Locks;
    assert CpuOk(s, c);
    assert CpuOk(s', c);
    forall d | 0 <= d < |s.cpus| && d != c
      ensures CpuOk(s, d) && CpuOk(s', d) && PcOn(s', d) == PcOn(s, d)
    {
      assert CpuOk(s, d);
    }
    forall j | 0 <= j < |s.procs|
      ensures ProcOk(s', j)
    {
      assert ProcOk(s, j);
    }
    ThreadsSized(s, s');
  }

  /** A step of the scheduler of processor c that changes no process. */
  lemma SchedulerMoves(s: Sys, s': Sys, c: nat, u: Cpu)
    requires Ok(s) && c < |s.cpus|
    requires s'.cpus == s.cpus[c := u] && s'.procs == s.procs && |s'.spin| == |s.spin| && |s'.sl| == |s.sl|
    requires s.cpus[c].proc == -1 && u.proc == -1 && u.on == -1
    requires CpuFine(u, u.spc, |s.sl|, |s.procs|)
    ensures Sized(s') && Threads(s') && OnlyMoves(s, s', c)
  {
    hide Legal, Interruptible, InYield, StateUnder, Held, Marked, Parked, StateAt, FrameOk, Chosen, OfScheduler, Depth,
         Locks;
    assert CpuOk(s, c);
    assert CpuOk(s', c);
    forall d | 0 <= d < |s.cpus| && d != c
      ensures CpuOk(s, d) && CpuOk(s', d) && PcOn(s', d) == PcOn(s, d)
    {
      assert CpuOk(s, d);
    }
    forall j | 0 <= j < |s.procs|
      ensures ProcOk(s', j)
    {
      assert ProcOk(s, j);
    }
    ThreadsSized(s, s');
  }

  lemma ThreadsSized(s: Sys, s': Sys)
    requires Sized(s) && Threads(s') && |s'.spin| == |s.spin| && |s'.sl| == |s.sl|
    ensures Sized(s')
  {
    forall d | 0 <= d < |s'.cpus|
      ensures s'.cpus[d].on < |s'.procs| && LockOf(PcOn(s', d)) < |s'.spin|
    {
      assert CpuOk(s', d);
      LegalLock(|s'.sl|, |s'.procs|, PcOn(s', d));
    }
  }

  lemma LegalLock(nl: nat, np: nat, pc: Pc)
    requires Legal(nl, np, pc) && nl > 0
    ensures LockOf(pc) < nl
  {
  }

  // ---------- acquire and release ----------

  function AcquireCpu(u: Cpu, a: Acquiring): Cpu {
    if a.Push? then Pushcli(u) else u
  }

  function NextAcquire(k: nat, a: Acquiring, to: Label): Pc {
    match a
    case Push => Acq(k, Xchg, to)
    case Xchg => Acq(k, SetCpu, to)
    case SetCpu => At(to)
  }

  lemma AcquireFine(u: Cpu, k: nat, a: Acquiring, to: Label, nl: nat, np: nat)
    requires CpuFine(u, Acq(k, a, to), nl, np)
    ensures CpuFine(AcquireCpu(u, a), NextAcquire(k, a, to), nl, np)
  {
  }

  /** Moving a thread from one position to the next, with what becomes of the locks. */
  lemma ThreadGoes(s: Sys, s': Sys, c: nat, u: Cpu, pc: Pc)
    requires Ok(s) && c < |s.cpus| && |s'.spin| == |s.spin| && |s'.sl| == |s.sl| && !s'.panic
    requires u.on == s.cpus[c].on && u.proc == s.cpus[c].proc && u.spc == s.cpus[c].spc
    requires s'.cpus == Goto(s.(cpus := s.cpus[c := u]), c, pc).cpus &&
             s'.procs == Goto(s.(cpus := s.cpus[c := u]), c, pc).procs
    requires CpuFine(u, pc, |s.sl|, |s.procs|)
    requires StateAt(pc) == StateAt(PcOn(s, c)) && u.proc == u.on
    requires u.on >= 0 ==> FrameOk(s.procs[u.on].(pc := pc))
    requires forall k | 0 <= k < |s.spin| :: LockMoves(s.spin[k], s'.spin[k], c, k, pc)
    ensures Ok(s') && PcOn(s', c) == pc && OnlyMoves(s, s', c) && OthersKeep(s, s', c)
  {
    assert CpuOk(s, c);
    if u.on >= 0 {
      assert ProcOk(s, u.on);
      Moves(s, s', c, u.on, u, s.procs[u.on].(pc := pc));
    } else {
      SchedulerMoves(s, s', c, u.(spc := pc));
    }
    LocksMove(s, s', c);
  }

  lemma AcquireLocks(s: Sys, c: nat, k: nat, a: Acquiring, to: Label, j: nat)
    requires Ok(s) && c < |s.cpus| && PcOn(s, c) == Acq(k, a, to) && j < |s.spin|
    requires a.Xchg? ==> s.spin[k].owner < 0
    ensures LockMoves(s.spin[j], StepAcquire(s, c, k, a, to).spin[j], c, j, NextAcquire(k, a, to))
    ensures a.Push? ==> !Holding(s, c, k)
  {
    assert CpuOk(s, c) && LockOk(s, k) && LockOk(s, j);
  }

  lemma AcquireKeeps(s: Sys, c: nat, k: nat, a: Acquiring, to: Label)
    requires Ok(s) && c < |s.cpus| && PcOn(s, c) == Acq(k, a, to)
    ensures Ok(StepAcquire(s, c, k, a, to)) && OnlyMoves(s, StepAcquire(s, c, k, a, to), c) &&
            OthersKeep(s, StepAcquire(s, c, k, a, to), c)
  {
    assert CpuOk(s, c) && LockOk(s, k);
    var s' := StepAcquire(s, c, k, a, to);
    if !(a.Xchg? && s.spin[k].owner >= 0) {
      AcquireFine(s.cpus[c], k, a, to, |s.sl|, |s.procs|);
      AcquireLocks(s, c, k, a, to, k);
      forall j | 0 <= j < |s.spin|
        ensures LockMoves(s.spin[j], s'.spin[j], c, j, NextAcquire(k, a, to))
      {
        AcquireLocks(s, c, k, a, to, j);
      }
      hide Ok, CpuFine, LockMoves, Legal, Held, Marked;
      ThreadGoes(s, s', c, AcquireCpu(s.cpus[c], a), NextAcquire(k, a, to));
    }
  }

  function ReleaseCpu(u: Cpu, r: Releasing): Cpu {
    if r.Pop? then Popcli(u) else u
  }

  function NextRelease(k: nat, r: Releasing, to: Label): Pc {
    match r
    case ClearCpu => Rel(k, Unlock, to)
    case Unlock => Rel(k, Pop, to)
    case Pop => At(to)
  }

  /** The outermost popcli turns interrupts back on exactly when they were on before. */
  lemma ReleaseFine(u: Cpu, k: nat, r: Releasing, to: Label, nl: nat, np: nat)
    requires CpuFine(u, Rel(k, r, to), nl, np)
    ensures CpuFine(ReleaseCpu(u, r), NextRelease(k, r, to), nl, np)
    ensures u.ncli >= 1 && !u.ifl
  {
  }

  lemma ReleaseLocks(s: Sys, c: nat, k: nat, r: Releasing, to: Label, j: nat)
    requires Ok(s) && c < |s.cpus| && PcOn(s, c) == Rel(k, r, to) && j < |s.spin|
    ensures LockMoves(s.spin[j], StepRelease(s, c, k, r, to).spin[j], c, j, NextRelease(k, r, to))
    ensures r.ClearCpu? ==> Holding(s, c, k)
  {
    assert CpuOk(s, c) && LockOk(s, k) && LockOk(s, j);
  }

  lemma ReleaseKeeps(s: Sys, c: nat, k: nat, r: Releasing, to: Label)
    requires Ok(s) && c < |s.cpus| && PcOn(s, c) == Rel(k, r, to)
    ensures Ok(StepRelease(s, c, k, r, to)) && OnlyMoves(s, StepRelease(s, c, k, r, to), c) &&
            OthersKeep(s, StepRelease(s, c, k, r, to), c)
  {
    assert CpuOk(s, c) && LockOk(s, k);
    var s' := StepRelease(s, c, k, r, to);
    ReleaseFine(s.cpus[c], k, r, to, |s.sl|, |s.procs|);
    ReleaseLocks(s, c, k, r, to, k);
    forall j | 0 <= j < |s.spin|
      ensures LockMoves(s.spin[j], s'.spin[j], c, j, NextRelease(k, r, to))
    {
      ReleaseLocks(s, c, k, r, to, j);
    }
    hide Ok, CpuFine, LockMoves, Legal, Held, Marked;
    ThreadGoes(s, s', c, ReleaseCpu(s.cpus[c], r), NextRelease(k, r, to));
  }

  // ---------- steps at a label ----------

  ghost predicate SameHeld(pc: Pc, pc': Pc) {
    forall k: nat :: Held(pc, k) == Held(pc', k) && Marked(pc, k) == Marked(pc', k)
  }

  lemma LocksStay(s: Sys, s': Sys, c: nat)
    requires Ok(s) && c < |s.cpus| && OnlyMoves(s, s', c) && Sized(s') && s'.spin == s.spin
    requires SameHeld(PcOn(s, c), PcOn(s', c))
    ensures Locks(s') && OthersKeep(s, s', c)
  {
    forall k | 0 <= k < |s.spin|
      ensures LockMoves(s.spin[k], s'.spin[k], c, k, PcOn(s', c))
    {
      assert LockOk(s, k);
    }
    LocksMove(s, s', c);
  }

  /** What a step of process p at label x does to the processor and to p itself. */
  ghost predicate LabelFine(u: Cpu, q: Proc, u': Cpu, q': Proc, nl: nat, np: nat) {
    && q'.cpu == q.cpu && u'.on == u.on && u'.proc == u.proc
    && CpuFine(u', q'.pc, nl, np) && FrameOk(q') && q'.state == StateAt(q'.pc)
    && SameHeld(q.pc, q'.pc)
  }

  lemma LabelKeeps(s: Sys, s': Sys, c: nat, p: nat, u': Cpu, q': Proc)
    requires Ok(s) && c < |s.cpus| && s.cpus[c].on == p < |s.procs|
    requires s'.cpus == s.cpus[c := u'] && s'.procs == s.procs[p := q'] && s'.spin == s.spin && |s'.sl| == |s.sl| &&
             !s'.panic
    requires LabelFine(s.cpus[c], s.procs[p], u', q', |s.sl|, |s.procs|)
    ensures Ok(s') && OnlyMoves(s, s', c) && OthersKeep(s, s', c)
  {
    assert CpuOk(s, c) && ProcOk(s, p);
    Moves(s, s', c, p, u', q');
    LocksStay(s, s', c);
  }

  /** Process p runs on processor c and is at label x. */
  predicate RunsAt(s: Sys, c: nat, p: nat, x: Label) {
    && c < |s.cpus| && p < |s.procs| && |s.spin| == |s.sl| > 0 && s.cpus[c].on == p && s.procs[p].pc == At(x)
    && CpuFine(s.cpus[c], At(x), |s.sl|, |s.procs|) && ProcFine(s.procs[p], |s.sl|, |s.procs|) &&
         Seated(s.procs[p], p, s.cpus[c])
  }

  ghost predicate StepFine(s: Sys, c: nat, p: nat, s': Sys) {
    && c < |s.cpus| == |s'.cpus| && p < |s.procs| == |s'.procs|
    && LabelFine(s.cpus[c], s.procs[p], s'.cpus[c], s'.procs[p], |s.sl|, |s.procs|)
  }

  lemma IdleFine(s: Sys, c: nat, p: nat, what: Choice)
    requires RunsAt(s, c, p, Idle)
    ensures StepFine(s, c, p, StepIdle(s, p, what))
  {
    hide LegalRet;
  }

  lemma ResumeFine(s: Sys, c: nat, p: nat, w: Why)
    requires RunsAt(s, c, p, Resume(w))
    ensures StepFine(s, c, p, StepResume(s, c, p, w))
  {
    hide LegalRet;
  }

  lemma SleepLockFine(s: Sys, c: nat, p: nat, x: Label)
    requires RunsAt(s, c, p, x) && (x.Test? || x.Take? || x.Clear? || x.Woke?)
    ensures StepFine(s, c, p, StepSleepLock(s, p, x))
  {
    hide LegalRet;
  }

  lemma SleepFine(s: Sys, c: nat, p: nat, x: Label)
    requires RunsAt(s, c, p, x) && (x.Drop? || x.Chan? || x.Doze? || x.Unchan? || x.Reacquire?)
    ensures StepFine(s, c, p, StepSleep(s, p, x))
  {
    hide LegalRet;
  }

  lemma TrapFine(s: Sys, c: nat, p: nat, x: Label)
    requires RunsAt(s, c, p, x) && (x.Ready? || x.Iret? || x.Started?)
    ensures StepFine(s, c, p, StepTrap(s, c, p, x))
  {
    if x.Iret? {
      RetHolds(|s.sl|, |s.procs|, x.ret);
      hide LegalRet, Interruptible, Held, Marked;
    }
  }

  /** Where the timer interrupted a process, it held no spin-lock and interrupts were on. */
  lemma RetHolds(nl: nat, np: nat, ret: Pc)
    requires LegalRet(nl, np, ret)
    ensures SameHeld(At(Idle), ret) && Legal(nl, np, ret) && Depth(ret) == 0 && !OfScheduler(Target(ret)) &&
            !InYield(ret)
    ensures Interruptible(ret) && !ret.Rel? && !Target(ret).Resume? && StateAt(ret) == RUNNING
    ensures ret.At? ==> ret.at.Idle? || ret.at.Reacquire? || ret.at.Started?
  {
  }

  lemma StepsFine(s: Sys, c: nat, p: nat, x: Label, what: Choice)
    requires RunsAt(s, c, p, x) && !x.Sched? && !x.Scan? && !x.Kill?
    ensures StepFine(s, c, p, StepProc(s, c, p, x, what))
  {
    assert !OfScheduler(x);
    hide StepFine, CpuFine, ProcFine, Seated;
    if x.Idle? {
      IdleFine(s, c, p, what);
    } else if x.Resume? {
      ResumeFine(s, c, p, x.w);
    } else if x.Test? || x.Take? || x.Clear? || x.Woke? {
      SleepLockFine(s, c, p, x);
    } else if x.Ready? || x.Iret? || x.Started? {
      TrapFine(s, c, p, x);
    } else {
      SleepFine(s, c, p, x);
    }
  }

  lemma ProcKeeps(s: Sys, c: nat, p: nat, x: Label, what: Choice)
    requires Ok(s) && c < |s.cpus| && s.cpus[c].on == p < |s.procs| && s.procs[p].pc == At(x)
    requires !x.Sched? && !x.Scan? && !x.Kill?
    ensures Ok(StepProc(s, c, p, x, what)) && OnlyMoves(s, StepProc(s, c, p, x, what), c) &&
            OthersKeep(s, StepProc(s, c, p, x, what), c)
  {
    assert CpuOk(s, c) && ProcOk(s, p);
    StepsFine(s, c, p, x, what);
    var s' := StepProc(s, c, p, x, what);
    hide Ok, LabelFine, CpuFine, ProcFine, Seated;
    LabelKeeps(s, s', c, p, s'.cpus[c], s'.procs[p]);
  }

  /** The checks of sched pass, and the processor and ptable.lock go to the scheduler. */
  lemma SchedKeeps(s: Sys, c: nat, p: nat, w: Why)
    requires Ok(s) && c < |s.cpus| && s.cpus[c].on == p < |s.procs| && s.procs[p].pc == At(Sched(w))
    ensures Ok(StepSched(s, c, p, w)) && OnlyMoves(s, StepSched(s, c, p, w), c) &&
            OthersKeep(s, StepSched(s, c, p, w), c)
  {
    assert CpuOk(s, c) && ProcOk(s, p) && LockOk(s, PTABLE);
    var s' := StepSched(s, c, p, w);
    assert Holding(s, c, PTABLE);
    hide LegalRet;
    Moves(s, s', c, p, s'.cpus[c], s'.procs[p]);
    LocksStay(s, s', c);
  }

  /** A process that is marked asleep and is not yet off its processor still has
      ptable.lock there. */
  lemma SleeperHolds(s: Sys, i: nat)
    requires Ok(s) && i < |s.procs| && s.procs[i].state == SLEEPING && s.procs[i].cpu >= 0
    ensures s.procs[i].cpu < |s.cpus| && Held(PcOn(s, s.procs[i].cpu), PTABLE)
    ensures s.cpus[s.procs[i].cpu].on < 0 || Target(PcOn(s, s.procs[i].cpu)).Sched?
  {
    assert ProcOk(s, i);
    assert CpuOk(s, s.procs[i].cpu);
  }

  lemma SleeperIsOff(s: Sys, c: nat, i: nat)
    requires Ok(s) && c < |s.cpus| && i < |s.procs| && s.procs[i].state == SLEEPING
    requires s.cpus[c].on >= 0 && Held(PcOn(s, c), PTABLE) && !Target(PcOn(s, c)).Sched?
    ensures s.procs[i].cpu == -1
  {
    assert ProcOk(s, i) && LockOk(s, PTABLE);
    hide CpuFine, ProcFine, Seated, Held;
    if s.procs[i].cpu >= 0 {
      SleeperHolds(s, i);
    }
  }

  lemma WakeKeeps(s: Sys, c: nat, i: nat)
    requires Ok(s) && c < |s.cpus| && i < |s.procs|
    requires s.cpus[c].on >= 0 && Held(PcOn(s, c), PTABLE) && !Target(PcOn(s, c)).Sched?
    ensures Ok(WithProc(s, i, Woken(s.procs[i])))
    ensures forall d | 0 <= d < |s.cpus| ::
            s.cpus[d].on < |s.procs| && PcOn(WithProc(s, i, Woken(s.procs[i])), d) == PcOn(s, d)
  {
    var s' := WithProc(s, i, Woken(s.procs[i]));
    if s.procs[i].state == SLEEPING {
      SleeperIsOff(s, c, i);
      forall d | 0 <= d < |s.cpus|
        ensures CpuOk(s', d) && PcOn(s', d) == PcOn(s, d)
      {
        assert CpuOk(s, d);
      }
      forall j | 0 <= j < |s.procs|
        ensures ProcOk(s', j)
      {
        assert ProcOk(s, j);
      }
      ThreadsSized(s, s');
      forall k | 0 <= k < |s.spin|
        ensures LockOk(s', k)
      {
        assert LockOk(s, k);
      }
    } else {
      assert s' == s;
    }
  }

  lemma HolderGoes(u: Cpu, q: Proc, pc: Pc, nl: nat, np: nat)
    requires u.on >= 0 && q.pc.At? && (q.pc.at.Scan? || q.pc.at.Kill?) && CpuFine(u, q.pc, nl, np) &&
             q.state == RUNNING && nl > 0
    requires pc == if q.pc.at.Kill? then Rel(PTABLE, ClearCpu, Idle) else
                   if q.pc.at.i < np then At(Scan(q.pc.at.l, q.pc.at.i + 1)) else Rel(PTABLE, ClearCpu, Woke(q.pc.at.l))
    ensures LabelFine(u, q, u, q.(pc := pc), nl, np)
  {
  }

  /** wakeup1 or kill makes process i runnable if it sleeps, and goes on. */
  lemma WakerKeeps(s: Sys, s': Sys, c: nat, p: nat, i: nat, pc: Pc)
    requires Ok(s) && c < |s.cpus| && s.cpus[c].on == p < |s.procs| && i < |s.procs|
    requires s.procs[p].pc.At? && (s.procs[p].pc.at.Scan? || s.procs[p].pc.at.Kill?)
    requires pc == if s.procs[p].pc.at.Kill? then Rel(PTABLE, ClearCpu, Idle) else
                   if s.procs[p].pc.at.i < |s.procs| then At(Scan(s.procs[p].pc.at.l, s.procs[p].pc.at.i + 1))
                     else Rel(PTABLE, ClearCpu, Woke(s.procs[p].pc.at.l))
    requires s' == WithProc(WithProc(s, i, Woken(s.procs[i])), p, WithProc(s, i, Woken(s.procs[i])).procs[p].(pc := pc))
    ensures Ok(s') && OnlyMoves(s, s', c) && OthersKeep(s, s', c)
  {
    assert CpuOk(s, c) && ProcOk(s, p);
    WakeKeeps(s, c, i);
    var s1 := WithProc(s, i, Woken(s.procs[i]));
    assert CpuOk(s1, c) && ProcOk(s1, p) && PcOn(s1, c) == PcOn(s, c);
    HolderGoes(s.cpus[c], s1.procs[p], pc, |s.sl|, |s.procs|);
    hide Ok, LabelFine, CpuFine, ProcFine, Seated;
    LabelKeeps(s1, s', c, p, s.cpus[c], s1.procs[p].(pc := pc));
  }

  lemma ScanKeeps(s: Sys, c: nat, p: nat, l: nat, i: nat)
    requires Ok(s) && c < |s.cpus| && s.cpus[c].on == p < |s.procs| && s.procs[p].pc == At(Scan(l, i))
    ensures Ok(StepScan(s, p, l, i)) && OnlyMoves(s, StepScan(s, p, l, i), c) && OthersKeep(s, StepScan(s, p, l, i), c)
  {
    assert CpuOk(s, c) && ProcOk(s, p);
    if i < |s.procs| && s.procs[i].chan == l {
      WakerKeeps(s, StepScan(s, p, l, i), c, p, i, At(Scan(l, i + 1)));
    } else {
      var pc := if i < |s.procs| then At(Scan(l, i + 1)) else Rel(PTABLE, ClearCpu, Woke(l));
      HolderGoes(s.cpus[c], s.procs[p], pc, |s.sl|, |s.procs|);
      hide Ok, LabelFine, CpuFine, ProcFine, Seated;
      LabelKeeps(s, StepScan(s, p, l, i), c, p, s.cpus[c], s.procs[p].(pc := pc));
    }
  }

  lemma KillKeeps(s: Sys, c: nat, p: nat, i: nat)
    requires Ok(s) && c < |s.cpus| && s.cpus[c].on == p < |s.procs| && s.procs[p].pc == At(Kill(i))
    ensures Ok(StepKill(s, p, i)) && OnlyMoves(s, StepKill(s, p, i), c) && OthersKeep(s, StepKill(s, p, i), c)
  {
    assert CpuOk(s, c);
    hide Ok, CpuFine;
    WakerKeeps(s, StepKill(s, p, i), c, p, i, Rel(PTABLE, ClearCpu, Idle));
  }

  lemma SchedulerFine(u: Cpu, x: Label, np: nat, nl: nat)
    requires u.on < 0 && u.spc == At(x) && CpuFine(u, At(x), nl, np) && nl > 0
    ensures x.Sti? ==> CpuFine(u.(ifl := true, spc := Acq(PTABLE, Push, Look(0))), Acq(PTABLE, Push, Look(0)), nl, np)
    ensures x.Look? ==>
            u.proc == -1 && CpuFine(u, At(Look(x.i + 1)), nl, np) && CpuFine(u, Rel(PTABLE, ClearCpu, Sti), nl, np)
    ensures x.Look? && x.i < np ==> CpuFine(u.(proc := x.i, spc := At(Mark(x.i))), At(Mark(x.i)), nl, np)
    ensures x.Mark? ==> u.proc == x.i && CpuFine(u.(spc := At(Switch(x.i))), At(Switch(x.i)), nl, np)
    ensures x.Back? ==> u.proc == x.i && CpuFine(u.(proc := -1, spc := At(Look(x.i + 1))), At(Look(x.i + 1)), nl, np)
  {
    hide LegalRet, Interruptible;
  }

  lemma SwitchFine(u: Cpu, i: nat, q: Proc, np: nat, nl: nat)
    requires u.on < 0 && u.spc == At(Switch(i)) && CpuFine(u, At(Switch(i)), nl, np) && Parked(q) && ProcFine(q, nl, np)
    ensures u.proc == i && CpuFine(u.(on := i, spc := At(Back(i))), q.pc, nl, np) && StateAt(q.pc) == RUNNING
  {
    hide LegalRet;
  }

  lemma SchedulerKeeps(s: Sys, c: nat, x: Label)
    requires Ok(s) && c < |s.cpus| && s.cpus[c].on < 0 && PcOn(s, c) == At(x)
    ensures Ok(StepScheduler(s, c, x)) && OnlyMoves(s, StepScheduler(s, c, x), c) &&
            OthersKeep(s, StepScheduler(s, c, x), c)
  {
    SchedulerThreads(s, c, x);
    assert CpuOk(s, c);
    if x.Switch? { assert ProcOk(s, x.i); }
    hide LegalRet, Depth, Threads, Locks;
    LocksStay(s, StepScheduler(s, c, x), c);
  }

  lemma SchedulerThreads(s: Sys, c: nat, x: Label)
    requires Ok(s) && c < |s.cpus| && s.cpus[c].on < 0 && PcOn(s, c) == At(x)
    ensures Sized(StepScheduler(s, c, x)) && Threads(StepScheduler(s, c, x)) && OnlyMoves(s, StepScheduler(s, c, x), c)
  {
    assert CpuOk(s, c);
    var s' := StepScheduler(s, c, x);
    if x.Sti? || (x.Look? && (x.i >= |s.procs| || s.procs[x.i].state != RUNNABLE)) {
      SchedulerMoves(s, s', c, s'.cpus[c]);
    } else {
      assert ProcOk(s, x.i);
      SchedulerFine(s.cpus[c], x, |s.procs|, |s.sl|);
      if x.Switch? { SwitchFine(s.cpus[c], x.i, s.procs[x.i], |s.procs|, |s.sl|); }
      if x.Look? { RunnableIsOff(s, c, x.i); }
      hide CpuFine, LegalRet, Held, Marked, Depth;
      Moves(s, s', c, x.i, s'.cpus[c], s'.procs[x.i]);
    }
  }

  lemma RunnableIsOff(s: Sys, c: nat, i: nat)
    requires Ok(s) && c < |s.cpus| && i < |s.procs| && s.procs[i].state == RUNNABLE
    requires PcOn(s, c).At? && PcOn(s, c).at.Look?
    ensures s.procs[i].cpu == -1
  {
    assert ProcOk(s, i) && LockOk(s, PTABLE);
    if s.procs[i].cpu >= 0 {
      RunnableHolds(s, i);
    }
  }

  lemma RunnableHolds(s: Sys, i: nat)
    requires Ok(s) && i < |s.procs| && s.procs[i].state == RUNNABLE && s.procs[i].cpu >= 0
    ensures s.procs[i].cpu < |s.cpus| && Held(PcOn(s, s.procs[i].cpu), PTABLE) && !Target(PcOn(s, s.procs[i].cpu)).Look?
  {
    assert ProcOk(s, i);
    assert CpuOk(s, s.procs[i].cpu);
  }

  lemma TimerKeeps(s: Sys, c: nat)
    requires Ok(s) && c < |s.cpus| && s.cpus[c].ifl && s.cpus[c].on >= 0
    ensures Ok(Step(s, Timer(c))) && OnlyMoves(s, Step(s, Timer(c)), c) && OthersKeep(s, Step(s, Timer(c)), c)
  {
    var p := s.cpus[c].on;
    assert CpuOk(s, c) && ProcOk(s, p);
    var s' := Step(s, Timer(c));
    LabelKeeps(s, s', c, p, s'.cpus[c], s'.procs[p]);
  }

  // ---------- sleep-locks ----------

  /** The process has called releasesleep for l and not yet cleared the lock. */
  predicate Releases(pc: Pc, l: nat) {
    Target(pc) == Clear(l) || (InYield(pc) && Target(RetOf(pc)) == Clear(l))
  }

  function RetOf(pc: Pc): Pc
    requires InYield(pc)
  {
    var x := Target(pc);
    if x.Ready? || x.Iret? then x.ret else x.w.ret
  }

  /** The record in sleep-lock l names the process that took it and has not released it. */
  ghost predicate HoldsOk(s: Sys) {
    && (forall l | 0 <= l < |s.sl| :: -1 <= s.sl[l] < |s.procs|)
    && (forall p, l {:trigger l in s.procs[p].holds} | 0 <= p < |s.procs| && l in s.procs[p].holds ::
        l < |s.sl| && s.sl[l] == p)
    && (forall l | 0 < l < |s.sl| && s.sl[l] >= 0 :: l in s.procs[s.sl[l]].holds)
    && (forall p, l: nat | 0 <= p < |s.procs| && Releases(s.procs[p].pc, l) :: l in s.procs[p].holds)
  }

  /** A thread at pc is about to scan the process table for sleepers on l. */
  predicate WillScan(pc: Pc, l: nat) {
    pc.Acq? && pc.to == Scan(l, 0)
  }

  /** A thread at pc will still look at process p in its scan for l. */
  predicate WillWake(pc: Pc, l: nat, p: nat) {
    WillScan(pc, l) || (pc.At? && pc.at.Scan? && pc.at.l == l && pc.at.i <= p)
  }

  predicate Announced(s: Sys, l: nat)
    requires Sized(s) && l < |s.spin| && s.spin[l].owner < |s.cpus|
  {
    s.spin[l].owner >= 0 && WillScan(PcOn(s, s.spin[l].owner), l)
  }

  predicate Waking(s: Sys, l: nat, p: nat)
    requires Sized(s) && l < |s.spin| && s.spin[l].owner < |s.cpus|
  {
    s.spin[l].owner >= 0 && WillWake(PcOn(s, s.spin[l].owner), l, p)
  }

  predicate Asleep(s: Sys, p: nat, l: nat)
    requires p < |s.procs|
  {
    s.procs[p].state == SLEEPING && s.procs[p].chan == l
  }

  /** What a thread knows of a sleep-lock between testing it and sleeping on it, or between
      clearing it and waking its sleepers. */
  predicate Knows(s: Sys, pc: Pc)
    requires Sized(s) && (forall k | 0 <= k < |s.spin| :: s.spin[k].owner < |s.cpus|)
  {
    var x := Target(pc);
    && (x.Drop? && x.l < |s.sl| ==> s.sl[x.l] >= 0)
    && (x.Take? && x.l < |s.sl| ==> s.sl[x.l] < 0)
    && (x.Scan? && x.l < |s.sl| ==> s.sl[x.l] < 0)
    && (x.Chan? && x.l < |s.sl| ==> s.sl[x.l] >= 0 || (!Held(pc, x.l) && Announced(s, x.l)))
    && (x.Doze? && x.l < |s.sl| ==> s.sl[x.l] >= 0 || Announced(s, x.l))
  }

  predicate Awake(s: Sys)
    requires Ok(s)
  {
    && (forall k | 0 <= k < |s.spin| :: LockOk(s, k) && s.spin[k].owner < |s.cpus|)
    && (forall c | 0 <= c < |s.cpus| :: s.cpus[c].on < |s.procs| && Knows(s, PcOn(s, c)))
    && (forall p, l | 0 <= p < |s.procs| && 0 < l < |s.sl| && Asleep(s, p, l) && s.sl[l] < 0 :: Waking(s, l, p))
  }

  ghost predicate Inv(s: Sys) {
    Ok(s) && HoldsOk(s) && Awake(s)
  }

  /** A step of processor c after which it has not passed over a sleeper it must wake, and
      that falls asleep only on a lock that is taken or whose releaser is yet to scan. */
  lemma AwakeMoves(s: Sys, s': Sys, c: nat)
    requires Inv(s) && Ok(s') && c < |s.cpus| && OnlyMoves(s, s', c) && OthersKeep(s, s', c) && s'.sl == s.sl
    requires forall k | 0 <= k < |s.spin| :: LockOk(s', k) && s'.spin[k].owner < |s.cpus|
    requires Knows(s', PcOn(s', c))
    requires forall p, l | 0 <= p < |s.procs| && 0 < l < |s.sl| && Asleep(s', p, l) && s.sl[l] < 0 ::
             Asleep(s, p, l) || Waking(s', l, p)
    requires forall l: nat | WillScan(PcOn(s, c), l) :: Held(PcOn(s, c), PTABLE) || WillScan(PcOn(s', c), l)
    requires forall p: nat, l: nat | p < |s.procs| && WillWake(PcOn(s, c), l, p) && Asleep(s', p, l) ::
             WillWake(PcOn(s', c), l, p)
    requires Target(PcOn(s, c)).Scan? ==> forall k | 0 <= k < |s.spin| && s.spin[k].owner == c :: s'.spin[k].owner == c
    ensures Awake(s')
  {
    forall d | 0 <= d < |s.cpus|
      ensures Knows(s', PcOn(s', d))
    {
      if d != c {
        assert Knows(s, PcOn(s, d)) && CpuOk(s, d);
        assert LockOk(s, PTABLE);
      }
    }
    forall p, l | 0 <= p < |s.procs| && 0 < l < |s.sl| && Asleep(s', p, l) && s'.sl[l] < 0
      ensures Waking(s', l, p)
    {
      assert Asleep(s, p, l) ==> Waking(s, l, p);
    }
  }

  lemma HoldsStay(s: Sys, s': Sys)
    requires HoldsOk(s) && s'.sl == s.sl && |s'.procs| == |s.procs|
    requires forall p | 0 <= p < |s.procs| :: s'.procs[p].holds == s.procs[p].holds
    requires forall p, l: nat | 0 <= p < |s.procs| && Releases(s'.procs[p].pc, l) :: l in s.procs[p].holds
    ensures HoldsOk(s')
  {
  }

  /** A step of a thread that is not waking anyone, and puts nobody to sleep. */
  lemma AwakeQuiet(s: Sys, s': Sys, c: nat)
    requires Inv(s) && Ok(s') && c < |s.cpus| && OnlyMoves(s, s', c) && OthersKeep(s, s', c) && s'.sl == s.sl
    requires !Target(PcOn(s, c)).Scan?
    requires forall k | 0 <= k < |s.spin| :: LockOk(s', k) && s'.spin[k].owner < |s.cpus|
    requires Knows(s', PcOn(s', c))
    requires forall p | 0 <= p < |s.procs| && s'.procs[p].state == SLEEPING ::
             s.procs[p].state == SLEEPING && s'.procs[p].chan == s.procs[p].chan
    ensures Awake(s')
  {
    assert forall p, l | 0 <= p < |s.procs| && 0 < l < |s.sl| && Asleep(s', p, l) :: Asleep(s, p, l);
    AwakeMoves(s, s', c);
  }

  /** acquire and release change no process but for its position. */
  predicate OnlyPcs(s: Sys, s': Sys) {
    && |s'.procs| == |s.procs| && s'.sl == s.sl
    && (forall p | 0 <= p < |s.procs| ::
        s'.procs[p] == s.procs[p].(pc := s'.procs[p].pc) &&
            (s'.procs[p].pc == s.procs[p].pc || Target(s'.procs[p].pc) == Target(s.procs[p].pc)))
  }

  lemma PcsHold(s: Sys, s': Sys)
    requires HoldsOk(s) && OnlyPcs(s, s')
    ensures HoldsOk(s')
    ensures forall p | 0 <= p < |s.procs| ::
            s'.procs[p].state == s.procs[p].state && s'.procs[p].chan == s.procs[p].chan
  {
    forall p, l: nat | 0 <= p < |s.procs| && Releases(s'.procs[p].pc, l)
      ensures l in s.procs[p].holds
    {
      assert Releases(s.procs[p].pc, l);
    }
    HoldsStay(s, s');
  }

  lemma AcquireInv(s: Sys, c: nat, k: nat, a: Acquiring, to: Label)
    requires Inv(s) && c < |s.cpus| && PcOn(s, c) == Acq(k, a, to)
    ensures Inv(StepAcquire(s, c, k, a, to))
  {
    AcquireKeeps(s, c, k, a, to);
    var s' := StepAcquire(s, c, k, a, to);
    PcsHold(s, s');
    if s' != s {
      assert PcOn(s', c) == NextAcquire(k, a, to);
      assert CpuOk(s, c) && Knows(s, PcOn(s, c)) && LegalAcquire(k, a, to);
      hide CpuFine, ProcFine, Seated, HoldsOk, StepAcquire;
      AwakeMoves(s, s', c);
    }
  }

  lemma ReleaseInv(s: Sys, c: nat, k: nat, r: Releasing, to: Label)
    requires Inv(s) && c < |s.cpus| && PcOn(s, c) == Rel(k, r, to)
    ensures Inv(StepRelease(s, c, k, r, to))
  {
    ReleaseKeeps(s, c, k, r, to);
    var s' := StepRelease(s, c, k, r, to);
    PcsHold(s, s');
    assert PcOn(s', c) == NextRelease(k, r, to);
    assert CpuOk(s, c) && Knows(s, PcOn(s, c)) && LegalRelease(k, to);
    hide CpuFine, ProcFine, Seated, HoldsOk, StepRelease;
    AwakeQuiet(s, s', c);
  }

  /** Process p moves on, and the sleep-locks stay as they are. */
  lemma ProcHolds(s: Sys, s': Sys, p: nat)
    requires HoldsOk(s) && p < |s.procs| == |s'.procs| && s'.sl == s.sl && s'.procs == s.procs[p := s'.procs[p]] &&
             s'.procs[p].holds == s.procs[p].holds
    requires forall l: nat | Releases(s'.procs[p].pc, l) :: l in s.procs[p].holds
    ensures HoldsOk(s')
  {
    HoldsStay(s, s');
  }

  predicate QuietLabel(x: Label) {
    x.Idle? || x.Test? || x.Drop? || x.Chan? || x.Resume? || x.Unchan? || x.Reacquire? || x.Woke? || x.Ready? ||
        x.Iret? || x.Started?
  }

  lemma QuietInv(s: Sys, c: nat, p: nat, x: Label, what: Choice)
    requires Inv(s) && c < |s.cpus| && s.cpus[c].on == p < |s.procs| && s.procs[p].pc == At(x) && QuietLabel(x)
    ensures Inv(StepProc(s, c, p, x, what))
  {
    ProcKeeps(s, c, p, x, what);
    var s' := StepProc(s, c, p, x, what);
    assert CpuOk(s, c) && ProcOk(s, p) && Knows(s, PcOn(s, c));
    assert forall l: nat | Releases(At(x), l) :: l in s.procs[p].holds;
    QuietStep(s, c, p, x, what);
    forall l: nat | Releases(s'.procs[p].pc, l)
      ensures l in s.procs[p].holds
    {
      QuietReleases(s, c, p, x, what, l);
    }
    hide CpuFine, ProcFine, Seated, StepProc, QuietLabel;
    ProcHolds(s, s', p);
    QuietKnows(s, s', c, p, x, what);
    hide HoldsOk, Knows;
    AwakeQuiet(s, s', c);
  }

  lemma QuietKnows(s: Sys, s': Sys, c: nat, p: nat, x: Label, what: Choice)
    requires Ok(s) && Awake(s) && c < |s.cpus| && s.cpus[c].on == p < |s.procs| && s.procs[p].pc == At(x) &&
             QuietLabel(x)
    requires s' == StepProc(s, c, p, x, what) && s'.spin == s.spin && s'.sl == s.sl
    requires Ok(s') && OnlyMoves(s, s', c)
    requires forall k | 0 <= k < |s.spin| :: s'.spin[k].owner < |s'.cpus|
    ensures Knows(s', PcOn(s', c))
  {
    assert CpuOk(s, c) && Knows(s, PcOn(s, c));
    if x.Chan? {
      assert LockOk(s, x.l);
    } else if x.Iret? {
      RetHolds(|s.sl|, |s.procs|, x.ret);
    }
  }

  lemma QuietStep(s: Sys, c: nat, p: nat, x: Label, what: Choice)
    requires c < |s.cpus| && s.cpus[c].on == p < |s.procs| && |s.spin| > 0 && QuietLabel(x)
    requires s.procs[p].pc == At(x) && s.procs[p].state == RUNNING
    ensures var s' := StepProc(s, c, p, x, what);
            && |s'.procs| == |s.procs| && s'.sl == s.sl && s'.procs == s.procs[p := s'.procs[p]] &&
                 s'.procs[p].holds == s.procs[p].holds && s'.spin == s.spin
            && s'.procs[p].state != SLEEPING
  {
  }

  lemma QuietReleases(s: Sys, c: nat, p: nat, x: Label, what: Choice, l: nat)
    requires c < |s.cpus| && s.cpus[c].on == p < |s.procs| && |s.spin| > 0 && QuietLabel(x)
    requires s.procs[p].pc == At(x) && LegalLabel(|s.sl|, |s.procs|, x)
    requires Releases(StepProc(s, c, p, x, what).procs[p].pc, l)
    ensures Releases(At(x), l) || l in s.procs[p].holds
  {
    if x.Iret? {
      RetHolds(|s.sl|, |s.procs|, x.ret);
    }
    hide LegalLabel, LegalRet, Interruptible, Depth, Held;
  }

  /** A process falls asleep only where a wakeup is still to come. */
  lemma DozeInv(s: Sys, c: nat, p: nat, l: nat, what: Choice)
    requires Inv(s) && c < |s.cpus| && s.cpus[c].on == p < |s.procs| && s.procs[p].pc == At(Doze(l))
    ensures Inv(StepProc(s, c, p, Doze(l), what))
  {
    ProcKeeps(s, c, p, Doze(l), what);
    var s' := StepProc(s, c, p, Doze(l), what);
    assert CpuOk(s, c) && ProcOk(s, p) && Knows(s, PcOn(s, c)) && LockOk(s, l);
    ProcHolds(s, s', p);
    assert s'.procs[p].state == SLEEPING && s'.procs[p].chan == l && s'.spin == s.spin;
    assert s.sl[l] < 0 ==> Announced(s', l);
    assert PcOn(s', c) == At(Sched(Slept(l)));
    assert forall i | 0 <= i < |s.procs| && i != p :: s'.procs[i] == s.procs[i];
    hide CpuFine, ProcFine, Seated, HoldsOk, StepProc;
    forall i, j | 0 <= i < |s.procs| && 0 < j < |s.sl| && Asleep(s', i, j) && s.sl[j] < 0
      ensures Asleep(s, i, j) || Waking(s', j, i)
    {
    }
    AwakeMoves(s, s', c);
  }

  /** A step that changes sleep-lock l while its spin-lock is held. */
  lemma AwakeChanged(s: Sys, s': Sys, c: nat, l: nat)
    requires Inv(s) && Ok(s') && c < |s.cpus| && OnlyMoves(s, s', c) && s'.spin == s.spin && 0 < l < |s.sl| == |s'.sl|
    requires forall k | 0 <= k < |s.sl| && k != l :: s'.sl[k] == s.sl[k]
    requires s.spin[l].owner == c && (s'.sl[l] >= 0 || WillScan(PcOn(s', c), l))
    requires !Target(PcOn(s, c)).Scan?
    requires forall k | 0 <= k < |s.spin| :: LockOk(s', k) && s'.spin[k].owner < |s.cpus|
    requires Knows(s', PcOn(s', c))
    requires forall p | 0 <= p < |s.procs| && s'.procs[p].state == SLEEPING ::
             s.procs[p].state == SLEEPING && s'.procs[p].chan == s.procs[p].chan
    ensures Awake(s')
  {
    forall d | 0 <= d < |s.cpus|
      ensures Knows(s', PcOn(s', d))
    {
      if d != c {
        assert Knows(s, PcOn(s, d)) && CpuOk(s, d);
        assert LockOk(s, PTABLE) && LockOk(s, l);
      }
    }
    forall p, j | 0 <= p < |s.procs| && 0 < j < |s.sl| && Asleep(s', p, j) && s'.sl[j] < 0
      ensures Waking(s', j, p)
    {
      assert Asleep(s, p, j);
    }
  }

  lemma TakeInv(s: Sys, c: nat, p: nat, l: nat, what: Choice)
    requires Inv(s) && c < |s.cpus| && s.cpus[c].on == p < |s.procs| && s.procs[p].pc == At(Take(l))
    ensures Inv(StepProc(s, c, p, Take(l), what))
  {
    ProcKeeps(s, c, p, Take(l), what);
    var s' := StepProc(s, c, p, Take(l), what);
    assert CpuOk(s, c) && ProcOk(s, p) && Knows(s, PcOn(s, c)) && LockOk(s, l);
    assert s.sl[l] < 0;
    assert HoldsOk(s');
    hide HoldsOk, CpuFine, ProcFine, Seated;
    AwakeChanged(s, s', c, l);
  }

  lemma ClearInv(s: Sys, c: nat, p: nat, l: nat, what: Choice)
    requires Inv(s) && c < |s.cpus| && s.cpus[c].on == p < |s.procs| && s.procs[p].pc == At(Clear(l))
    ensures Inv(StepProc(s, c, p, Clear(l), what))
  {
    ProcKeeps(s, c, p, Clear(l), what);
    var s' := StepProc(s, c, p, Clear(l), what);
    assert CpuOk(s, c) && ProcOk(s, p) && LockOk(s, l);
    assert Releases(s.procs[p].pc, l);
    ClearHolds(s, s', p, l);
    hide HoldsOk, CpuFine, ProcFine, Seated;
    AwakeChanged(s, s', c, l);
  }

  lemma ClearHolds(s: Sys, s': Sys, p: nat, l: nat)
    requires HoldsOk(s) && p < |s.procs| && 0 < l < |s.sl| && l in s.procs[p].holds
    requires s'.sl == s.sl[l := -1] && |s'.procs| == |s.procs| && s'.procs == s.procs[p := s'.procs[p]] &&
             s'.procs[p].holds == s.procs[p].holds - {l}
    requires forall j: nat :: !Releases(s'.procs[p].pc, j)
    requires forall i | 0 <= i < |s.procs| && i != p :: l !in s.procs[i].holds
    ensures HoldsOk(s')
  {
    forall i, j | 0 <= i < |s'.procs| && j in s'.procs[i].holds
      ensures j < |s'.sl| && s'.sl[j] == i
    {
      assert j in s.procs[i].holds && j != l;
    }
  }

  lemma SchedInv(s: Sys, c: nat, p: nat, w: Why)
    requires Inv(s) && c < |s.cpus| && s.cpus[c].on == p < |s.procs| && s.procs[p].pc == At(Sched(w))
    ensures Inv(StepSched(s, c, p, w))
  {
    SchedKeeps(s, c, p, w);
    var s' := StepSched(s, c, p, w);
    assert CpuOk(s, c) && ProcOk(s, p);
    assert s'.procs[p].pc == At(Resume(w)) && PcOn(s', c) == At(Back(p));
    assert forall l: nat | Releases(s'.procs[p].pc, l) :: Releases(s.procs[p].pc, l);
    ProcHolds(s, s', p);
    hide HoldsOk, CpuFine, ProcFine, Seated;
    AwakeQuiet(s, s', c);
  }

  lemma KillInv(s: Sys, c: nat, p: nat, i: nat)
    requires Inv(s) && c < |s.cpus| && s.cpus[c].on == p < |s.procs| && s.procs[p].pc == At(Kill(i))
    ensures Inv(StepKill(s, p, i))
  {
    KillKeeps(s, c, p, i);
    var s' := StepKill(s, p, i);
    assert CpuOk(s, c);
    HoldsStay(s, s');
    hide HoldsOk, CpuFine, ProcFine, Seated;
    AwakeQuiet(s, s', c);
  }

  /** The scheduler changes no more of a process than its place and that it runs. */
  lemma SchedulerStep(s: Sys, c: nat, x: Label)
    requires c < |s.cpus| && s.cpus[c].on < 0 && s.cpus[c].spc == At(x) && OfScheduler(x) &&
             (x.Switch? ==> x.i < |s.procs|)
    ensures var s' := StepScheduler(s, c, x);
            && |s'.procs| == |s.procs| && s'.sl == s.sl && s'.spin == s.spin && |s'.cpus| == |s.cpus|
            && (forall p | 0 <= p < |s.procs| ::
                s'.procs[p] == s.procs[p].(state := s'.procs[p].state, cpu := s'.procs[p].cpu))
            && (forall p | 0 <= p < |s.procs| :: s'.procs[p].state == s.procs[p].state || s'.procs[p].state == RUNNING)
            && s'.cpus[c].on < |s.procs|
            && PcOn(s', c) == (if x.Switch? then s.procs[x.i].pc else s'.cpus[c].spc)
            && (!x.Switch? ==> OfScheduler(Target(s'.cpus[c].spc)))
  {
  }

  lemma SchedulerInv(s: Sys, c: nat, x: Label)
    requires Inv(s) && c < |s.cpus| && s.cpus[c].on < 0 && PcOn(s, c) == At(x)
    ensures Inv(StepScheduler(s, c, x))
  {
    SchedulerKeeps(s, c, x);
    var s' := StepScheduler(s, c, x);
    assert CpuOk(s, c);
    if x.Switch? { assert ProcOk(s, x.i); }
    SchedulerStep(s, c, x);
    hide StepScheduler, CpuFine, ProcFine, Seated;
    HoldsStay(s, s');
    hide HoldsOk;
    AwakeQuiet(s, s', c);
  }

  lemma TimerInv(s: Sys, c: nat)
    requires Inv(s) && c < |s.cpus| && s.cpus[c].ifl && s.cpus[c].on >= 0
    ensures Inv(Step(s, Timer(c)))
  {
    TimerKeeps(s, c);
    var s', p := Step(s, Timer(c)), s.cpus[c].on;
    assert CpuOk(s, c) && ProcOk(s, p);
    assert forall l: nat | Releases(s'.procs[p].pc, l) :: Releases(s.procs[p].pc, l);
    ProcHolds(s, s', p);
    hide HoldsOk, CpuFine, ProcFine, Seated;
    AwakeQuiet(s, s', c);
  }

  lemma ScanStep(s: Sys, p: nat, l: nat, i: nat)
    requires p < |s.procs| && s.procs[p].pc == At(Scan(l, i)) && s.procs[p].state == RUNNING
    ensures var s' := StepScan(s, p, l, i);
            && |s'.procs| == |s.procs| && s'.sl == s.sl && s'.spin == s.spin && s'.cpus == s.cpus
            && (forall q | 0 <= q < |s.procs| ::
                s'.procs[q].holds == s.procs[q].holds && s'.procs[q].chan == s.procs[q].chan)
            && (forall q | 0 <= q < |s.procs| :: s'.procs[q].state == SLEEPING ==>
                s.procs[q].state == SLEEPING && (s.procs[q].chan == l ==> q != i))
            && (forall q | 0 <= q < |s.procs| && q != p :: s'.procs[q].pc == s.procs[q].pc)
            && s'.procs[p].pc == if i < |s.procs| then At(Scan(l, i + 1)) else Rel(PTABLE, ClearCpu, Woke(l))
  {
  }

  /** wakeup1 passes no sleeper over. */
  lemma ScanInv(s: Sys, c: nat, p: nat, l: nat, i: nat)
    requires Inv(s) && c < |s.cpus| && s.cpus[c].on == p < |s.procs| && s.procs[p].pc == At(Scan(l, i))
    ensures Inv(StepScan(s, p, l, i))
  {
    ScanKeeps(s, c, p, l, i);
    var s' := StepScan(s, p, l, i);
    assert CpuOk(s, c) && ProcOk(s, p) && Knows(s, PcOn(s, c));
    ScanStep(s, p, l, i);
    hide StepScan, CpuFine, ProcFine, Seated;
    HoldsStay(s, s');
    hide HoldsOk;
    AwakeMoves(s, s', c);
  }

  // ---------- runs ----------

  /** Every step keeps the invariant: in particular none of the panics is reached. */
  lemma StepInv(s: Sys, a: Act)
    requires Inv(s)
    ensures Inv(Step(s, a))
  {
    if a.c < |s.cpus| {
      assert CpuOk(s, a.c);
      var u, pc := s.cpus[a.c], PcOn(s, a.c);
      hide Ok, HoldsOk, Awake, CpuFine;
      if a.Timer? {
        if u.ifl && u.on >= 0 { TimerInv(s, a.c); }
      } else if pc.Acq? {
        AcquireInv(s, a.c, pc.k, pc.a, pc.to);
      } else if pc.Rel? {
        ReleaseInv(s, a.c, pc.k, pc.r, pc.to);
      } else if u.on >= 0 {
        ProcInv(s, a.c, u.on, pc.at, a.what);
      } else {
        SchedulerInv(s, a.c, pc.at);
      }
    }
  }

  lemma ProcInv(s: Sys, c: nat, p: nat, x: Label, what: Choice)
    requires Inv(s) && c < |s.cpus| && s.cpus[c].on == p < |s.procs| && s.procs[p].pc == At(x)
    ensures Inv(StepProc(s, c, p, x, what))
  {
    assert CpuOk(s, c);
    assert QuietLabel(x) || x.Doze? || x.Take? || x.Clear? || x.Sched? || x.Scan? || x.Kill?;
    hide Ok, HoldsOk, Awake, CpuFine;
    match x
    case Doze(l) => DozeInv(s, c, p, l, what);
    case Take(l) => TakeInv(s, c, p, l, what);
    case Clear(l) => ClearInv(s, c, p, l, what);
    case Sched(w) => SchedInv(s, c, p, w);
    case Scan(l, i) => ScanInv(s, c, p, l, i);
    case Kill(i) => KillInv(s, c, p, i);
    case _ => QuietInv(s, c, p, x, what);
  }

  /** The machine as it starts: every processor enters its scheduler, all locks are free,
      and every process is runnable and has not run. */
  function Start(cpus: nat, procs: nat, locks: nat): (r: Sys) {
    Sys(seq(cpus, _ => Cpu(false, 0, false, -1, -1, At(Sti))),
        seq(procs, _ => Proc(RUNNABLE, -1, false, At(Resume(Born)), {}, -1)),
        seq(locks + 1, _ => Spin(-1, -1)), seq(locks + 1, _ => -1), false)
  }

  lemma StartInv(cpus: nat, procs: nat, locks: nat)
    ensures Inv(Start(cpus, procs, locks))
  {
  }

  /** The states of a run of `acts`. */
  ghost predicate IsRun(states: seq<Sys>, acts: seq<Act>) {
    && |states| == |acts| + 1
    && (forall i | 0 <= i < |acts| :: Sized(states[i]) ==> states[i + 1] == Step(states[i], acts[i]))
  }

  lemma InvSized(s: Sys)
    requires Inv(s)
    ensures Sized(s)
  {
  }

  lemma {:induction false} RunInv(states: seq<Sys>, acts: seq<Act>, i: nat)
    requires IsRun(states, acts) && Inv(states[0]) && i < |states|
    ensures Inv(states[i])
  {
    hide Inv, Step, Sized;
    if i > 0 {
      RunInv(states, acts, i - 1);
      InvSized(states[i - 1]);
      StepInv(states[i - 1], acts[i - 1]);
      assert states[i - 1 + 1] == Step(states[i - 1], acts[i - 1]);
    }
  }

  /** The number of spin-locks that a thread at a label holds. */
  lemma DepthCountsLocks(nl: nat, np: nat, x: Label)
    requires LegalLabel(nl, np, x) && nl > 0
    ensures |LocksAt(nl, x)| == DepthAt(x)
  {
    var held := LocksAt(nl, x);
    if x.Test? || x.Take? || x.Clear? || x.Woke? {
      assert held == {x.l};
    } else if x.Drop? || x.Scan? {
      assert held == {x.l, PTABLE};
    } else if DepthAt(x) == 0 {
      assert held == {};
    } else {
      assert held == {PTABLE};
    }
  }

  function LocksAt(nl: nat, x: Label): set<nat> {
    set k: nat | k < nl && HeldAt(x, k)
  }

  /** At most one process holds a sleep-lock, and while its spin-lock is free nobody sleeps
      on it unless it is taken. */
  ghost predicate SleepLockSafe(s: Sys, l: nat)
    requires |s.spin| == |s.sl|
  {
    && (forall p, q | 0 <= p < |s.procs| && 0 <= q < |s.procs| && l in s.procs[p].holds && l in s.procs[q].holds ::
        p == q)
    && (0 < l < |s.sl| && s.spin[l].owner < 0 ==>
          forall p | 0 <= p < |s.procs| && Asleep(s, p, l) ::
              s.sl[l] >= 0 && s.sl[l] < |s.procs| && l in s.procs[s.sl[l]].holds)
  }

  ghost predicate Names(s: Sys, c: int, p: nat) {
    0 <= c < |s.cpus| && s.cpus[c].proc == p
  }

  /** While ptable.lock is free, a process is RUNNING exactly when one processor names it,
      and that processor runs it. */
  ghost predicate HandOff(s: Sys, p: nat)
    requires p < |s.procs|
  {
    && (forall c, d | Names(s, c, p) && Names(s, d, p) :: c == d)
    && (forall c, d | 0 <= c < |s.cpus| && 0 <= d < |s.cpus| && s.cpus[c].on == p && s.cpus[d].on == p :: c == d)
    && (|s.spin| > PTABLE && s.spin[PTABLE].owner < 0 ==> (s.procs[p].state == RUNNING <==> exists c :: Names(s, c, p)))
    && (|s.spin| > PTABLE && s.spin[PTABLE].owner < 0 ==> forall c | Names(s, c, p) :: s.cpus[c].on == p)
  }

  /** The spin-locks that processor c holds. */
  function Owned(s: Sys, c: nat): (r: set<nat>) {
    set k: nat | k < |s.spin| && s.spin[k].owner == c
  }

  /** ncli is the depth of pushcli, which outside acquire and release is the number of
      spin-locks that the processor holds, and a process at depth 0 has interrupts on unless it is
      in the timer trap, before or after its yield. */
  ghost predicate InterruptsOk(s: Sys, c: nat)
    requires c < |s.cpus| && s.cpus[c].on < |s.procs|
  {
    var pc := PcOn(s, c);
    && s.cpus[c].ncli == Depth(pc)
    && (pc.At? ==> s.cpus[c].ncli == |Owned(s, c)|)
    && (s.cpus[c].ncli > 0 ==> !s.cpus[c].ifl)
    && (s.cpus[c].on >= 0 && s.cpus[c].ncli == 0 && pc != At(Started) ==> s.cpus[c].ifl == !InYield(pc))
  }

  /** A processor that spins waits for one that does not, or for one that waits for
      ptable.lock, whose holder never spins. */
  ghost predicate SpinsOk(s: Sys, c: nat)
    requires Sized(s) && c < |s.cpus|
  {
    var pc := PcOn(s, c);
    pc.Acq? && pc.a.Xchg? && s.spin[pc.k].owner >= 0 ==>
      var d := s.spin[pc.k].owner;
      && d != c && d < |s.cpus|
      && (var pd := PcOn(s, d);
          pd.Acq? && pd.a.Xchg? ==>
            pd.k == PTABLE != pc.k && var e := s.spin[PTABLE].owner; 0 <= e < |s.cpus| ==>
                !(PcOn(s, e).Acq? && PcOn(s, e).a.Xchg?))
  }

  lemma InvSleepLock(s: Sys, l: nat)
    requires Inv(s)
    ensures SleepLockSafe(s, l)
  {
    hide Threads, Locks;
    if 0 < l < |s.sl| && s.spin[l].owner < 0 {
      assert forall p | 0 <= p < |s.procs| && Asleep(s, p, l) && s.sl[l] < 0 :: Waking(s, l, p);
    }
  }

  lemma InvHandOff(s: Sys, p: nat)
    requires Ok(s) && p < |s.procs|
    ensures HandOff(s, p)
  {
    assert ProcOk(s, p);
    forall c | 0 <= c < |s.cpus|
      ensures CpuOk(s, c) && (s.cpus[c].on < 0 && s.cpus[c].proc == p ==> Held(PcOn(s, c), PTABLE))
      ensures s.cpus[c].on == p && s.procs[p].state != RUNNING ==> Held(PcOn(s, c), PTABLE)
    {
      assert CpuOk(s, c);
    }
    assert LockOk(s, PTABLE);
    hide CpuFine, ProcFine, Held;
    if s.procs[p].cpu >= 0 { assert Names(s, s.procs[p].cpu, p); }
  }

  lemma InvInterrupts(s: Sys, c: nat)
    requires Ok(s) && c < |s.cpus|
    ensures s.cpus[c].on < |s.procs| && InterruptsOk(s, c)
  {
    assert CpuOk(s, c);
    var pc := PcOn(s, c);
    if pc.At? {
      OwnedAt(s, c);
      DepthCountsLocks(|s.spin|, |s.procs|, pc.at);
    }
  }

  lemma OwnedAt(s: Sys, c: nat)
    requires Ok(s) && c < |s.cpus| && PcOn(s, c).At?
    ensures Owned(s, c) == LocksAt(|s.spin|, PcOn(s, c).at)
  {
    forall k: nat | k < |s.spin|
      ensures s.spin[k].owner == c <==> HeldAt(PcOn(s, c).at, k)
    {
      assert LockOk(s, k) && (Held(PcOn(s, c), k) <==> s.spin[k].owner == c);
    }
  }

  lemma InvSpins(s: Sys, c: nat)
    requires Ok(s) && c < |s.cpus|
    ensures SpinsOk(s, c)
  {
    assert CpuOk(s, c);
    var pc := PcOn(s, c);
    if pc.Acq? && pc.a.Xchg? && s.spin[pc.k].owner >= 0 {
      assert LockOk(s, pc.k) && LockOk(s, PTABLE);
      assert CpuOk(s, s.spin[pc.k].owner);
      if s.spin[PTABLE].owner >= 0 { assert CpuOk(s, s.spin[PTABLE].owner); }
    }
  }

  ghost predicate Safe(s: Sys) {
    && Sized(s) && !s.panic
    && (forall l: nat :: SleepLockSafe(s, l))
    && (forall p: nat | p < |s.procs| :: HandOff(s, p))
    && (forall c: nat | c < |s.cpus| :: InterruptsOk(s, c) && SpinsOk(s, c))
  }

  /** For any number of processors, processes and sleep-locks, and any interleaving of
      their steps, every state of a run is safe. */
  lemma RunIsSafe(cpus: nat, procs: nat, locks: nat, states: seq<Sys>, acts: seq<Act>, i: nat)
    requires IsRun(states, acts) && states[0] == Start(cpus, procs, locks) && i < |states|
    ensures Safe(states[i])
  {
    StartInv(cpus, procs, locks);
    RunInv(states, acts, i);
    var s := states[i];
    forall l: nat ensures SleepLockSafe(s, l) { InvSleepLock(s, l); }
    forall p: nat | p < |s.procs| ensures HandOff(s, p) { InvHandOff(s, p); }
    forall c: nat | c < |s.cpus| ensures s.cpus[c].on < |s.procs| && InterruptsOk(s, c) && SpinsOk(s, c) {
      InvInterrupts(s, c);
      InvSpins(s, c);
    }
    hide SleepLockSafe, HandOff, InterruptsOk, SpinsOk, HoldsOk, Awake, Threads, Locks, Start, Step;
  }

  // ---------- what calls do ----------

  /** What a call in progress has still to do: to the caller's sleep-locks, or to a victim. */
  datatype Owed = Nothing | ToTake(l: nat) | ToDrop(l: nat) | ToKill(i: nat)

  function OwedBy(pc: Pc): (r: Owed) {
    match pc
    case At(x) => OwedAt(x)
    case Acq(k, a, to) => OwedAt(to)
    case Rel(k, r, to) => OwedAt(to)
  }

  function OwedAt(x: Label): (r: Owed) {
    match x
    case Test(l) => ToTake(l)
    case Take(l) => ToTake(l)
    case Drop(l) => ToTake(l)
    case Chan(l) => ToTake(l)
    case Doze(l) => ToTake(l)
    case Unchan(l) => ToTake(l)
    case Reacquire(l) => ToTake(l)
    case Clear(l) => ToDrop(l)
    case Kill(i) => ToKill(i)
    case Sched(w) => OwedWhy(w)
    case Resume(w) => OwedWhy(w)
    case Ready(ret) => OwedBy(ret)
    case Iret(ret) => OwedBy(ret)
    case _ => Nothing
  }

  function OwedWhy(w: Why): (r: Owed) {
    match w
    case Born => Nothing
    case Slept(l) => ToTake(l)
    case Yielded(ret) => OwedBy(ret)
  }

  /** The process goes on with its call, or does what it owes. */
  predicate Pays(q: Proc, q': Proc) {
    || (OwedBy(q'.pc) == OwedBy(q.pc) && q'.holds == q.holds)
    || (OwedBy(q.pc).ToTake? && OwedBy(q'.pc) == Nothing && q'.holds == q.holds + {OwedBy(q.pc).l})
    || (OwedBy(q.pc).ToDrop? && OwedBy(q'.pc) == Nothing && q'.holds == q.holds - {OwedBy(q.pc).l})
    || (q.pc.At? && q.pc.at.Kill? && OwedBy(q'.pc) == Nothing && q'.holds == q.holds)
  }

  /** A step changes a process's sleep-locks only as its call owes, unless it is idle. */
  lemma StepPays(s: Sys, a: Act, p: nat)
    requires Sized(s) && p < |s.procs|
    ensures p < |Step(s, a).procs| && (s.procs[p].pc == At(Idle) || Pays(s.procs[p], Step(s, a).procs[p]))
  {
    if !s.panic && a.c < |s.cpus| {
      if s.cpus[a.c].on == p {
        if a.Timer? {
          assert OwedBy(Acq(PTABLE, Push, Ready(s.procs[p].pc))) == OwedBy(s.procs[p].pc);
        } else if s.procs[p].pc.At? && s.procs[p].pc.at != Idle {
          LabelPays(s, a.c, p, s.procs[p].pc.at, a.what);
        }
      } else {
        OtherKeeps(s, a, p);
      }
    }
  }

  /** A step on another processor than the one that runs the process. */
  lemma OtherKeeps(s: Sys, a: Act, p: nat)
    requires Sized(s) && p < |s.procs| && a.c < |s.cpus| && s.cpus[a.c].on != p
    ensures var s' := Step(s, a);
            p < |s'.procs| && s'.procs[p].pc == s.procs[p].pc && s'.procs[p].holds == s.procs[p].holds &&
            s'.procs[p].chan == s.procs[p].chan
  {
    hide StepProc, StepScheduler;
    if !a.Timer? && PcOn(s, a.c).At? {
      if s.cpus[a.c].on >= 0 {
        OtherProc(s, a.c, s.cpus[a.c].on, PcOn(s, a.c).at, a.what, p);
      } else {
        OtherScheduler(s, a.c, PcOn(s, a.c).at, p);
      }
    }
  }

  lemma OtherProc(s: Sys, c: nat, r: nat, x: Label, what: Choice, p: nat)
    requires Sized(s) && c < |s.cpus| && r < |s.procs| && p < |s.procs| && r != p
    ensures var s' := StepProc(s, c, r, x, what);
            p < |s'.procs| && s'.procs[p].pc == s.procs[p].pc && s'.procs[p].holds == s.procs[p].holds &&
            s'.procs[p].chan == s.procs[p].chan
  {
  }

  lemma OtherScheduler(s: Sys, c: nat, x: Label, p: nat)
    requires c < |s.cpus| && p < |s.procs|
    ensures var s' := StepScheduler(s, c, x);
            p < |s'.procs| && s'.procs[p].pc == s.procs[p].pc && s'.procs[p].holds == s.procs[p].holds &&
            s'.procs[p].chan == s.procs[p].chan
  {
  }

  lemma LabelPays(s: Sys, c: nat, p: nat, x: Label, what: Choice)
    requires Sized(s) && c < |s.cpus| && p < |s.procs| && s.procs[p].pc == At(x) && x != Idle
    ensures p < |StepProc(s, c, p, x, what).procs| && Pays(s.procs[p], StepProc(s, c, p, x, what).procs[p])
  {
    var q' := StepProc(s, c, p, x, what).procs[p];
    assert OwedBy(At(x)) == OwedAt(x);
    if x.Sched? {
      assert OwedAt(Sched(x.w)) == OwedWhy(x.w) == OwedAt(Resume(x.w));
    } else if x.Resume? {
      assert OwedAt(Resume(x.w)) == OwedWhy(x.w);
      if x.w.Yielded? { assert OwedWhy(x.w) == OwedBy(x.w.ret) == OwedAt(Iret(x.w.ret)); }
    } else if x.Ready? {
      assert OwedAt(Ready(x.ret)) == OwedBy(x.ret) == OwedWhy(Yielded(x.ret)) == OwedAt(Sched(Yielded(x.ret)));
    } else if x.Iret? {
      assert OwedAt(Iret(x.ret)) == OwedBy(x.ret);
    } else if x.Doze? {
      assert OwedAt(Sched(Slept(x.l))) == OwedWhy(Slept(x.l)) == ToTake(x.l);
    }
  }

  /** The processor runs process p, which is idle, and it calls for `what`. */
  predicate Calls(s: Sys, a: Act, p: nat, what: Choice) {
    && !s.panic && p < |s.procs| && s.procs[p].pc == At(Idle)
    && a.Run? && a.c < |s.cpus| && s.cpus[a.c].on == p && a.what == what
  }

  /** Between its call with action a and state k the process is not idle. */
  predicate Busy(states: seq<Sys>, p: nat, a: nat, k: nat) {
    forall j | a < j < k && j < |states| :: p < |states[j].procs| && states[j].procs[p].pc != At(Idle)
  }

  /** How a call stands in state k: nothing has changed and it is still owed, or it is done. */
  lemma {:induction false} CallPays(states: seq<Sys>, acts: seq<Act>, p: nat, a: nat, k: nat, owed: Owed, h: set<nat>)
    requires IsRun(states, acts) && a < k < |states| && Busy(states, p, a, k)
    requires forall j | 0 <= j < |states| :: Sized(states[j])
    requires p < |states[a + 1].procs| && OwedBy(states[a + 1].procs[p].pc) == owed && states[a + 1].procs[p].holds == h
    ensures p < |states[k].procs|
    ensures var q := states[k].procs[p];
            || (OwedBy(q.pc) == owed && q.holds == h)
            || (OwedBy(q.pc) == Nothing && owed.ToTake? && q.holds == h + {owed.l})
            || (OwedBy(q.pc) == Nothing && owed.ToDrop? && q.holds == h - {owed.l})
            || (OwedBy(q.pc) == Nothing && owed.ToKill? && q.holds == h)
    decreases k
  {
    if k > a + 1 {
      CallPays(states, acts, p, a, k - 1, owed, h);
      StepPays(states[k - 1], acts[k - 1], p);
      assert states[k - 1 + 1] == Step(states[k - 1], acts[k - 1]);
    }
  }

  lemma RunSized(cpus: nat, procs: nat, locks: nat, states: seq<Sys>, acts: seq<Act>)
    requires IsRun(states, acts) && states[0] == Start(cpus, procs, locks)
    ensures forall j | 0 <= j < |states| :: Sized(states[j]) && Inv(states[j])
  {
    forall j | 0 <= j < |states|
      ensures Sized(states[j]) && Inv(states[j])
    {
      StartInv(cpus, procs, locks);
      RunInv(states, acts, j);
      InvSized(states[j]);
    }
  }

  /** acquiresleep gives the lock: when a process that called it is idle again, it has this
      sleep-lock besides those it had, and the lock is recorded as its. */
  lemma AcquireGivesLock(cpus: nat, procs: nat, locks: nat, states: seq<Sys>, acts: seq<Act>, p: nat, l: nat, a: nat,
                         b: nat)
    requires IsRun(states, acts) && states[0] == Start(cpus, procs, locks) && a < b < |states|
    requires Calls(states[a], acts[a], p, AcquireSleep(l)) && 0 < l < |states[a].sl|
    requires Busy(states, p, a, b) && p < |states[b].procs| && states[b].procs[p].pc == At(Idle)
    ensures states[b].procs[p].holds == states[a].procs[p].holds + {l}
    ensures l < |states[b].sl| && states[b].sl[l] == p
  {
    RunSized(cpus, procs, locks, states, acts);
    assert states[a + 1] == Step(states[a], acts[a]);
    CallPays(states, acts, p, a, b, ToTake(l), states[a].procs[p].holds);
    assert HoldsOk(states[b]);
  }

  /** releasesleep gives it up: when the caller is idle again, it has the others it had. */
  lemma ReleaseGivesUpLock(cpus: nat, procs: nat, locks: nat, states: seq<Sys>, acts: seq<Act>, p: nat, l: nat, a: nat,
                           b: nat)
    requires IsRun(states, acts) && states[0] == Start(cpus, procs, locks) && a < b < |states|
    requires Calls(states[a], acts[a], p, ReleaseSleep(l)) && 0 < l < |states[a].sl| && l in states[a].procs[p].holds
    requires Busy(states, p, a, b) && p < |states[b].procs| && states[b].procs[p].pc == At(Idle)
    ensures states[b].procs[p].holds == states[a].procs[p].holds - {l}
    ensures l < |states[b].sl| ==> states[b].sl[l] != p
  {
    RunSized(cpus, procs, locks, states, acts);
    assert states[a + 1] == Step(states[a], acts[a]);
    CallPays(states, acts, p, a, b, ToDrop(l), states[a].procs[p].holds);
    assert HoldsOk(states[b]);
  }

  /** Inside the timer trap that interrupted the process at `ret`. */
  predicate InTrap(pc: Pc, ret: Pc) {
    match pc
    case At(x) => x == Ready(ret) || x == Iret(ret) || x == Sched(Yielded(ret)) || x == Resume(Yielded(ret))
    case Acq(k, a, to) => to == Ready(ret)
    case Rel(k, r, to) => to == Iret(ret)
  }

  /** kill wakes its victim: no process is asleep right after kill has come to it. */
  lemma KillWakes(s: Sys, a: Act, p: nat, i: nat)
    requires Sized(s) && !s.panic && a.Run? && a.c < |s.cpus| && s.cpus[a.c].on == p < |s.procs|
    requires s.procs[p].pc == At(Kill(i)) && i < |s.procs|
    ensures i < |Step(s, a).procs| && Step(s, a).procs[i].state != SLEEPING
    ensures s.procs[i].state != SLEEPING ==> Step(s, a).procs[i].state == s.procs[i].state
  {
  }

  /** A step of a process that is on its way to kill i leaves it so, or wakes i. */
  lemma KillStep(s: Sys, a: Act, p: nat, i: nat)
    requires Sized(s) && p < |s.procs| && i < |s.procs| && OwedBy(s.procs[p].pc) == ToKill(i)
    ensures p < |Step(s, a).procs| && i < |Step(s, a).procs|
    ensures OwedBy(Step(s, a).procs[p].pc) == ToKill(i) || Step(s, a).procs[i].state != SLEEPING
  {
    StepSizes(s, a);
    StepPays(s, a, p);
    if !s.panic && a.c < |s.cpus| {
      if s.cpus[a.c].on != p {
        OtherKeeps(s, a, p);
      } else if a.Run? && s.procs[p].pc.At? && s.procs[p].pc.at.Kill? {
        KillWakes(s, a, p, i);
      }
    }
  }

  lemma StepSizes(s: Sys, a: Act)
    requires Sized(s)
    ensures |Step(s, a).procs| == |s.procs| && |Step(s, a).cpus| == |s.cpus|
  {
  }

  /** In some state after a and up to b process i is not asleep. */
  predicate AwakeAt(states: seq<Sys>, i: nat, a: nat, b: nat) {
    exists j | a < j <= b && j < |states| :: i < |states[j].procs| && states[j].procs[i].state != SLEEPING
  }

  lemma {:induction false} KillSoFar(states: seq<Sys>, acts: seq<Act>, p: nat, i: nat, a: nat, b: nat)
    requires IsRun(states, acts) && a < b < |states| && forall j | 0 <= j < |states| :: Sized(states[j])
    requires p < |states[a + 1].procs| && i < |states[a + 1].procs| && OwedBy(states[a + 1].procs[p].pc) == ToKill(i)
    ensures p < |states[b].procs| && i < |states[b].procs|
    ensures OwedBy(states[b].procs[p].pc) == ToKill(i) || AwakeAt(states, i, a, b)
    decreases b
  {
    if b > a + 1 {
      KillSoFar(states, acts, p, i, a, b - 1);
      assert states[b - 1 + 1] == Step(states[b - 1], acts[b - 1]);
      StepSizes(states[b - 1], acts[b - 1]);
      if OwedBy(states[b - 1].procs[p].pc) == ToKill(i) {
        KillStep(states[b - 1], acts[b - 1], p, i);
      }
    }
  }

  /** kill reaches the process it was called for: when the caller is idle again, that process
      was awake at some moment since the call. */
  lemma KillReachesVictim(cpus: nat, procs: nat, locks: nat, states: seq<Sys>, acts: seq<Act>, p: nat, i: nat, a: nat,
                          b: nat)
    requires IsRun(states, acts) && states[0] == Start(cpus, procs, locks) && a < b < |states|
    requires Calls(states[a], acts[a], p, KillProc(i)) && i < |states[a].procs|
    requires p < |states[b].procs| && states[b].procs[p].pc == At(Idle)
    ensures AwakeAt(states, i, a, b)
  {
    RunSized(cpus, procs, locks, states, acts);
    assert states[a + 1] == Step(states[a], acts[a]);
    KillSoFar(states, acts, p, i, a, b);
  }

  /** Only the victim, and only from sleep, is woken by one round of wakeup's scan. */
  lemma ScanWakes(s: Sys, a: Act, p: nat, l: nat, i: nat)
    requires Sized(s) && !s.panic && a.Run? && a.c < |s.cpus| && s.cpus[a.c].on == p < |s.procs|
    requires s.procs[p].pc == At(Scan(l, i)) && i < |s.procs|
    ensures |Step(s, a).procs| == |s.procs| && forall j | 0 <= j < |s.procs| ::
              Step(s, a).procs[j].state == if j == i && s.procs[j].state == SLEEPING && s.procs[j].chan == l
                then RUNNABLE
                                           else s.procs[j].state
  {
  }

  /** A processor whose scheduler comes to a runnable process runs it after three steps of its
      own. */
  lemma SchedulerRuns(s: Sys, c: nat, i: nat, w1: Choice, w2: Choice, w3: Choice)
    requires Sized(s) && !s.panic && c < |s.cpus| && s.cpus[c].on == -1 && s.cpus[c].spc == At(Look(i))
    requires i < |s.procs| && s.procs[i].state == RUNNABLE && LockOf(s.procs[i].pc) < |s.spin|
    ensures var s1 := Step(s, Run(c, w1));
            && Sized(s1) && var s2 := Step(s1, Run(c, w2));
            && Sized(s2) && var s3 := Step(s2, Run(c, w3));
            && |s3.cpus| == |s.cpus| && s3.cpus[c].on == i && s3.cpus[c].proc == i
            && |s3.procs| == |s.procs| && s3.procs[i].state == RUNNING && s3.procs[i].pc == s.procs[i].pc
  {
    var s1 := Step(s, Run(c, w1));
    forall d | 0 <= d < |s.cpus| ensures LockOf(PcOn(s1, d)) < |s1.spin| { assert LockOf(PcOn(s, d)) < |s.spin|; }
    var s2 := Step(s1, Run(c, w2));
    forall d | 0 <= d < |s.cpus| ensures LockOf(PcOn(s2, d)) < |s2.spin| { assert LockOf(PcOn(s1, d)) < |s1.spin|; }
  }

  lemma TrapStep(s: Sys, a: Act, p: nat, ret: Pc)
    requires Sized(s) && Ok(s) && p < |s.procs| && InTrap(s.procs[p].pc, ret)
    ensures p < |Step(s, a).procs|
    ensures InTrap(Step(s, a).procs[p].pc, ret) || Step(s, a).procs[p].pc == ret
  {
    if !s.panic && a.c < |s.cpus| {
      assert CpuOk(s, a.c);
      if s.cpus[a.c].on != p { OtherKeeps(s, a, p); }
    }
  }

  lemma {:induction false} TrapSoFar(states: seq<Sys>, acts: seq<Act>, p: nat, ret: Pc, a: nat, b: nat)
    requires IsRun(states, acts) && a < b < |states| && forall j | 0 <= j < |states| ::
             Sized(states[j]) && Inv(states[j])
    requires p < |states[a + 1].procs| && InTrap(states[a + 1].procs[p].pc, ret)
    requires forall j | a < j < b :: p < |states[j].procs| && states[j].procs[p].pc != ret
    ensures p < |states[b].procs| && (InTrap(states[b].procs[p].pc, ret) || states[b].procs[p].pc == ret)
    decreases b
  {
    if b > a + 1 {
      TrapSoFar(states, acts, p, ret, a, b - 1);
      TrapStep(states[b - 1], acts[b - 1], p, ret);
      assert states[b - 1 + 1] == Step(states[b - 1], acts[b - 1]);
    }
  }

  /** A process that the timer interrupts is inside the trap, where it gives up the processor,
      until it is back where it was interrupted. */
  lemma TrapReturns(cpus: nat, procs: nat, locks: nat, states: seq<Sys>, acts: seq<Act>, c: nat, p: nat, a: nat, b: nat)
    requires IsRun(states, acts) && states[0] == Start(cpus, procs, locks) && a < b < |states|
    requires acts[a] == Timer(c) && c < |states[a].cpus| && states[a].cpus[c].on == p < |states[a].procs|
    requires states[a].cpus[c].ifl
    requires forall j | a < j < b :: p < |states[j].procs| && states[j].procs[p].pc != states[a].procs[p].pc
    ensures p < |states[b].procs|
    ensures InTrap(states[b].procs[p].pc, states[a].procs[p].pc) || states[b].procs[p].pc == states[a].procs[p].pc
  {
    RunSized(cpus, procs, locks, states, acts);
    assert states[a + 1] == Step(states[a], acts[a]);
    TrapSoFar(states, acts, p, states[a].procs[p].pc, a, b);
  }

  /** Where sleep has set the channel and not yet cleared it. */
  predicate HasChan(pc: Pc) {
    pc.At? && match pc.at
              case Doze(l) => true
              case Unchan(l) => true
              case Sched(w) => w.Slept?
              case Resume(w) => w.Slept?
              case _ => false
  }

  predicate ChanOk(s: Sys, p: nat) {
    p < |s.procs| && (s.procs[p].chan == -1 || HasChan(s.procs[p].pc))
  }

  lemma ChanStep(s: Sys, a: Act, p: nat)
    requires Sized(s) && Ok(s) && ChanOk(s, p)
    ensures ChanOk(Step(s, a), p)
  {
    if !s.panic && a.c < |s.cpus| {
      assert CpuOk(s, a.c);
      if s.cpus[a.c].on != p { OtherKeeps(s, a, p); }
    }
  }

  /** A process has a channel only inside sleep, so no later wakeup is for it. */
  lemma {:induction false} ChannelOnlyInSleep(cpus: nat, procs: nat, locks: nat, states: seq<Sys>, acts: seq<Act>,
                                              i: nat, p: nat)
    requires IsRun(states, acts) && states[0] == Start(cpus, procs, locks) && i < |states| && p < procs
    ensures ChanOk(states[i], p)
    decreases i
  {
    if i > 0 {
      ChannelOnlyInSleep(cpus, procs, locks, states, acts, i - 1, p);
      RunSized(cpus, procs, locks, states, acts);
      ChanStep(states[i - 1], acts[i - 1], p);
      assert states[i - 1 + 1] == Step(states[i - 1], acts[i - 1]);
    }
  }

  // ---------- the scheduler's rounds ----------

  /** The scheduler takes ptable.lock for a round with interrupts on, so that a device can
      wake a process while none is runnable. */
  predicate Listens(s: Sys, c: nat) {
    c < |s.cpus| && (s.cpus[c].on < 0 && s.cpus[c].spc == Acq(PTABLE, Push, Look(0)) ==> s.cpus[c].ifl)
  }

  lemma ListensStep(s: Sys, a: Act, c: nat)
    requires Sized(s) && Ok(s) && Listens(s, c)
    ensures Listens(Step(s, a), c)
  {
    StepSizes(s, a);
    if !s.panic && a.c < |s.cpus| { assert CpuOk(s, a.c); }
  }

  lemma {:induction false} SchedulerListens(cpus: nat, procs: nat, locks: nat, states: seq<Sys>, acts: seq<Act>,
                                            i: nat, c: nat)
    requires IsRun(states, acts) && states[0] == Start(cpus, procs, locks) && i < |states| && c < cpus
    ensures Listens(states[i], c)
    decreases i
  {
    if i > 0 {
      SchedulerListens(cpus, procs, locks, states, acts, i - 1, c);
      RunSized(cpus, procs, locks, states, acts);
      ListensStep(states[i - 1], acts[i - 1], c);
      assert states[i - 1 + 1] == Step(states[i - 1], acts[i - 1]);
    }
  }

  /** How many processes the round has come to, n of them when it is over. */
  function Passed(pc: Pc, n: nat): (r: nat) {
    match pc
    case At(Look(i)) => i
    case At(Mark(i)) => i + 1
    case At(Switch(i)) => i + 1
    case At(Back(i)) => i + 1
    case Rel(k, r, to) => n
    case _ => 0
  }

  predicate InRound(pc: Pc) {
    (pc.At? && (pc.at.Look? || pc.at.Mark? || pc.at.Switch? || pc.at.Back?)) || pc == Rel(PTABLE, ClearCpu, Sti)
  }

  /** In some state from a and before b the scheduler of c looks at process p. */
  predicate LooksAt(states: seq<Sys>, c: nat, p: nat, a: nat, b: nat) {
    exists j | a <= j < b && j < |states| ::
      c < |states[j].cpus| && states[j].cpus[c].on < 0 && states[j].cpus[c].spc == At(Look(p))
  }

  /** One step of a round: it goes on to the next process only from the one it looks at. */
  lemma RoundStep(s: Sys, a: Act, c: nat)
    requires Sized(s) && Ok(s) && c < |s.cpus| && InRound(s.cpus[c].spc) && s.cpus[c].spc != Rel(PTABLE, ClearCpu, Sti)
    ensures |Step(s, a).procs| == |s.procs| && |Step(s, a).cpus| == |s.cpus|
    ensures var pc, pc' := s.cpus[c].spc, Step(s, a).cpus[c].spc;
            && InRound(pc')
            && (Passed(pc', |s.procs|) <= Passed(pc, |s.procs|) ||
                (s.cpus[c].on < 0 && pc == At(Look(Passed(pc, |s.procs|))) &&
                 Passed(pc', |s.procs|) == Passed(pc, |s.procs|) + 1))
  {
    StepSizes(s, a);
    if !s.panic && a.c < |s.cpus| && a.c == c && s.cpus[c].on < 0 && !a.Timer? {
      assert CpuOk(s, c);
    } else {
      KeepsPlace(s, a, c);
    }
  }

  /** Only the scheduler itself changes its place. */
  lemma KeepsPlace(s: Sys, a: Act, c: nat)
    requires Sized(s) && c < |s.cpus| && (a.c == c && s.cpus[c].on < 0 ==> a.Timer? || s.panic)
    ensures c < |Step(s, a).cpus| && Step(s, a).cpus[c].spc == s.cpus[c].spc
  {
    StepSizes(s, a);
  }

  lemma RoundStarts(n: nat)
    ensures InRound(At(Look(0))) && Passed(At(Look(0)), n) == 0
  {
  }

  lemma {:induction false} RoundSoFar(states: seq<Sys>, acts: seq<Act>, c: nat, a: nat, b: nat)
    requires IsRun(states, acts) && a <= b < |states| && forall j | 0 <= j < |states| ::
             Sized(states[j]) && Inv(states[j])
    requires c < |states[a].cpus| && states[a].cpus[c].spc == At(Look(0))
    requires forall j | a <= j < b :: c < |states[j].cpus| && states[j].cpus[c].spc != Rel(PTABLE, ClearCpu, Sti)
    ensures c < |states[b].cpus| && |states[b].procs| == |states[a].procs| && InRound(states[b].cpus[c].spc)
    ensures forall p: nat | p < Passed(states[b].cpus[c].spc, |states[a].procs|) :: LooksAt(states, c, p, a, b)
    decreases b
  {
    hide Step, Sized, InRound, Passed;
    RoundStarts(|states[a].procs|);
    if b > a {
      RoundSoFar(states, acts, c, a, b - 1);
      RoundStep(states[b - 1], acts[b - 1], c);
      assert states[b - 1 + 1] == Step(states[b - 1], acts[b - 1]);
      forall p: nat | p < Passed(states[b].cpus[c].spc, |states[a].procs|)
        ensures LooksAt(states, c, p, a, b)
      {
        if p < Passed(states[b - 1].cpus[c].spc, |states[a].procs|) { assert LooksAt(states, c, p, a, b - 1); }
      }
    }
  }

  /** A round of the scheduler looks at every process before it ends. */
  lemma RoundLooksAtAll(cpus: nat, procs: nat, locks: nat, states: seq<Sys>, acts: seq<Act>, c: nat, a: nat, b: nat,
                        p: nat)
    requires IsRun(states, acts) && states[0] == Start(cpus, procs, locks) && a <= b < |states|
    requires c < |states[a].cpus| && states[a].cpus[c].spc == At(Look(0))
    requires forall j | a <= j < b :: c < |states[j].cpus| && states[j].cpus[c].spc != Rel(PTABLE, ClearCpu, Sti)
    requires c < |states[b].cpus| && states[b].cpus[c].spc == Rel(PTABLE, ClearCpu, Sti) && p < |states[a].procs|
    ensures LooksAt(states, c, p, a, b)
  {
    RunSized(cpus, procs, locks, states, acts);
    RoundSoFar(states, acts, c, a, b);
  }

  // ---------- progress ----------

  /** The processor waits in the loop of acquire. */
  predicate Spins(s: Sys, c: nat)
    requires Sized(s) && c < |s.cpus|
  {
    var pc := PcOn(s, c);
    pc.Acq? && pc.a.Xchg? && s.spin[pc.k].owner >= 0
  }

  lemma LockStepMoves(s: Sys, c: nat, what: Choice)
    requires Ok(s) && c < |s.cpus| && !Spins(s, c) && !PcOn(s, c).At?
    ensures Step(s, Run(c, what)) != s
  {
    assert CpuOk(s, c);
    var s' := Step(s, Run(c, what));
    if !s'.panic { assert s'.cpus[c].on == s.cpus[c].on && PcOn(s', c) != PcOn(s, c); }
  }

  lemma LabelMoves(s: Sys, c: nat, p: nat, x: Label, what: Choice)
    requires Sized(s) && c < |s.cpus| && p < |s.procs| && s.cpus[c].on == p && s.procs[p].pc == At(x)
    requires x != Idle && !OfScheduler(x) && LegalLabel(|s.sl|, |s.procs|, x) && !s.panic
    ensures StepProc(s, c, p, x, what) != s
  {
    var s' := StepProc(s, c, p, x, what);
    if !s'.panic { assert p < |s'.procs| && s'.procs[p].pc != At(x); }
  }

  lemma SchedulerGoesOn(s: Sys, c: nat, x: Label)
    requires c < |s.cpus| && s.cpus[c].spc == At(x) && s.cpus[c].on < 0
    requires OfScheduler(x) && LegalLabel(|s.sl|, |s.procs|, x)
    ensures StepScheduler(s, c, x) != s
  {
    assert StepScheduler(s, c, x).cpus[c].spc != At(x);
  }

  /** A processor goes on, unless it spins or its process is idle. */
  lemma StepMoves(s: Sys, c: nat, what: Choice)
    requires Ok(s) && c < |s.cpus| && !Spins(s, c) && PcOn(s, c) != At(Idle)
    ensures Step(s, Run(c, what)) != s
  {
    hide StepProc, StepScheduler;
    var pc := PcOn(s, c);
    assert CpuOk(s, c);
    if !pc.At? {
      LockStepMoves(s, c, what);
    } else if s.cpus[c].on >= 0 {
      LabelMoves(s, c, s.cpus[c].on, pc.at, what);
    } else {
      SchedulerGoesOn(s, c, pc.at);
    }
  }

  /** Not every processor spins. */
  lemma SomeoneDoesNotSpin(s: Sys) returns (c: nat)
    requires Ok(s) && |s.cpus| > 0
    ensures c < |s.cpus| && !Spins(s, c)
  {
    hide Threads;
    assert LockOk(s, PTABLE);
    c := 0;
    if Spins(s, c) {
      InvSpins(s, c);
      c := s.spin[PcOn(s, c).k].owner;
      if Spins(s, c) { c := s.spin[PTABLE].owner; }
    }
  }

  /** No run comes to a deadlock: in every state some processor goes on, or runs a process
      that is free to begin a call. */
  lemma NoDeadlock(cpus: nat, procs: nat, locks: nat, states: seq<Sys>, acts: seq<Act>, i: nat) returns (c: nat)
    requires IsRun(states, acts) && states[0] == Start(cpus, procs, locks) && i < |states| && cpus > 0
    ensures Sized(states[i]) && c < |states[i].cpus|
    ensures Step(states[i], Run(c, Compute)) != states[i] || PcOn(states[i], c) == At(Idle)
  {
    RunSized(cpus, procs, locks, states, acts);
    var s := states[i];
    RunCpus(cpus, procs, locks, states, acts, i);
    c := SomeoneDoesNotSpin(s);
    if PcOn(s, c) != At(Idle) { StepMoves(s, c, Compute); }
  }

  lemma {:induction false} RunCpus(cpus: nat, procs: nat, locks: nat, states: seq<Sys>, acts: seq<Act>, i: nat)
    requires IsRun(states, acts) && states[0] == Start(cpus, procs, locks) && i < |states|
    ensures |states[i].cpus| == cpus
    decreases i
  {
    if i > 0 {
      RunCpus(cpus, procs, locks, states, acts, i - 1);
      RunSized(cpus, procs, locks, states, acts);
      StepSizes(states[i - 1], acts[i - 1]);
      assert states[i - 1 + 1] == Step(states[i - 1], acts[i - 1]);
    }
  }
}
