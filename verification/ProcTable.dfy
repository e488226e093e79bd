/** The process table of proc.c through fork, exit, wait and kill.  Each action is one
    critical section of ptable.lock, or one store that is made without it. */
module ProcTable {

  datatype PState = UNUSED | EMBRYO | SLEEPING | RUNNABLE | RUNNING | ZOMBIE

  /** Only wait sleeps on the address of a process. */
  datatype Chan = NoChan | OnProc(p: nat) | OnOther(x: int)

  /** parent is a slot, -1 for null; np is the local variable of the fork that the process
      is in, -1 outside fork. */
  datatype Slot = Slot(state: PState, pid: int, parent: int, chan: Chan, killed: bool, np: int)

  /** `forker` records which process created a pid, and `reaped` what every call of wait
      returned and to whom: all by pid. */
  datatype Table = Table(procs: seq<Slot>, nextpid: int, init: nat, forker: map<int, int>, reaped: seq<(int, int)>)

  predicate Live(q: Slot) {
    q.state == SLEEPING || q.state == RUNNABLE || q.state == RUNNING
  }

  // ---------- the actions ----------

  function Woken(q: Slot, ch: Chan): (r: Slot) {
    if q.state == SLEEPING && q.chan == ch then q.(state := RUNNABLE) else q
  }

  function WakeAll(procs: seq<Slot>, ch: Chan): (r: seq<Slot>) {
    seq(|procs|, i requires 0 <= i < |procs| => Woken(procs[i], ch))
  }

  /** The first slot from i on that is free, or the end of the table. */
  function FirstUnused(procs: seq<Slot>, i: nat): (r: nat)
    requires i <= |procs|
    ensures i <= r <= |procs| && (r < |procs| ==> procs[r].state == UNUSED)
    ensures forall j | i <= j < r :: procs[j].state != UNUSED
    decreases |procs| - i
  {
    if i == |procs| || procs[i].state == UNUSED then i else FirstUnused(procs, i + 1)
  }

  /** The first slot from i on with the given pid, or the end of the table. */
  function FirstPid(procs: seq<Slot>, pid: int, i: nat): (r: nat)
    requires i <= |procs|
    ensures i <= r <= |procs| && (r < |procs| ==> procs[r].pid == pid)
    ensures forall j | i <= j < r :: procs[j].pid != pid
    decreases |procs| - i
  {
    if i == |procs| || procs[i].pid == pid then i else FirstPid(procs, pid, i + 1)
  }

  predicate ZombieOf(q: Slot, me: int) {
    q.parent == me && q.state == ZOMBIE
  }

  function FirstZombie(procs: seq<Slot>, me: int, i: nat): (r: nat)
    requires i <= |procs|
    ensures i <= r <= |procs| && (r < |procs| ==> ZombieOf(procs[r], me))
    ensures forall j | i <= j < r :: !ZombieOf(procs[j], me)
    decreases |procs| - i
  {
    if i == |procs| || ZombieOf(procs[i], me) then i else FirstZombie(procs, me, i + 1)
  }

  predicate HasKids(procs: seq<Slot>, me: int) {
    exists i | 0 <= i < |procs| :: procs[i].parent == me
  }

  datatype Act =
    | Alloc(me: nat) | AllocFails(me: nat) | SetParent(me: nat) | Launch(me: nat)   // fork
    | Exit(me: nat) | Wait(me: nat) | Kill(me: nat, pid: int)
    | Sleep(me: nat, x: int) | Wakeup(x: int)
    | Dispatch(me: nat) | Preempt(me: nat)

  /** The process runs, and is inside fork or not as the action needs. */
  predicate Runs(t: Table, me: nat, forking: bool) {
    me < |t.procs| && t.procs[me].state == RUNNING && (forking <==> 0 <= t.procs[me].np < |t.procs|)
  }

  function With(t: Table, i: nat, q: Slot): (r: Table)
    requires i < |t.procs|
  {
    t.(procs := t.procs[i := q])
  }

  /** allocproc, up to its release of ptable.lock. */
  function Allocated(t: Table, me: nat): (r: Table)
    requires me < |t.procs|
  {
    var i := FirstUnused(t.procs, 0);
    if i == |t.procs| then t
    else
      With(With(t, me, t.procs[me].(np := i)), i, t.procs[i].(state := EMBRYO, pid := t.nextpid))
      .(nextpid := t.nextpid + 1)
  }

  /** What exit leaves of each slot. */
  function Exited(t: Table, me: nat, i: nat): (r: Slot)
    requires me < |t.procs| && i < |t.procs| && t.procs[me].parent < |t.procs|
  {
    var q := t.procs[i];
    var toParent := t.procs[me].parent >= 0 && q.chan == OnProc(t.procs[me].parent);
    var toInit := q.chan == OnProc(t.init) && exists j | 0 <= j < |t.procs| :: ZombieOf(t.procs[j], me);
    var q1 := if q.state == SLEEPING && (toParent || toInit) then q.(state := RUNNABLE) else q;
    var q2 := if q.parent == me then q1.(parent := t.init) else q1;
    if i == me then q2.(state := ZOMBIE) else q2
  }

  function ExitProc(t: Table, me: nat): (r: Table)
    requires me < |t.procs| && t.procs[me].parent < |t.procs|
  {
    t.(procs := seq(|t.procs|, i requires 0 <= i < |t.procs| => Exited(t, me, i)))
  }

  /** One pass of wait. */
  function WaitProc(t: Table, me: nat): (r: Table)
    requires me < |t.procs|
  {
    var z := FirstZombie(t.procs, me, 0);
    if z < |t.procs| then
      With(t, z, Slot(UNUSED, 0, -1, t.procs[z].chan, false, t.procs[z].np))
      .(reaped := t.reaped + [(t.procs[z].pid, t.procs[me].pid)])
    else if !HasKids(t.procs, me) || t.procs[me].killed then t
    else With(t, me, t.procs[me].(state := SLEEPING, chan := OnProc(me)))
  }

  function KillProc(t: Table, pid: int): (r: Table) {
    var i := FirstPid(t.procs, pid, 0);
    if i == |t.procs| then t
    else
      var q := t.procs[i].(killed := true);
      With(t, i, if q.state == SLEEPING then q.(state := RUNNABLE) else q)
  }

  /** The table after an action, which happens only where the code can reach it. */
  function Step(t: Table, a: Act): (r: Table) {
    match a
    case Alloc(me) => if Runs(t, me, false) then Allocated(t, me) else t
    case AllocFails(me) =>
      if Runs(t, me, true) && t.procs[t.procs[me].np].parent == -1 then
        var np := t.procs[me].np;
        var t1 := With(t, np, t.procs[np].(state := UNUSED));
        With(t1, me, t1.procs[me].(np := -1))
      else t
    case SetParent(me) =>
      if Runs(t, me, true) then With(t, t.procs[me].np, t.procs[t.procs[me].np].(parent := me)) else t
    case Launch(me) =>
      if Runs(t, me, true) && t.procs[t.procs[me].np].parent == me then
        var np := t.procs[me].np;
        var t1 := With(t, np, t.procs[np].(state := RUNNABLE));
        With(t1, me, t1.procs[me].(np := -1)).(forker := t.forker[t.procs[np].pid := t.procs[me].pid])
      else t
    case Exit(me) => if Runs(t, me, false) && me != t.init && t.procs[me].parent < |t.procs| then ExitProc(t, me) else t
    case Wait(me) => if Runs(t, me, false) then WaitProc(t, me) else t
    case Kill(me, pid) => if Runs(t, me, false) then KillProc(t, pid) else t
    case Sleep(me, x) =>
      if me < |t.procs| && t.procs[me].state == RUNNING then
        With(t, me, t.procs[me].(state := SLEEPING, chan := OnOther(x)))
      else t
    case Wakeup(x) => t.(procs := WakeAll(t.procs, OnOther(x)))
    case Dispatch(me) =>
      if me < |t.procs| && t.procs[me].state == RUNNABLE then
        With(t, me, t.procs[me].(state := RUNNING, chan := NoChan))
      else t
    case Preempt(me) =>
      if me < |t.procs| && t.procs[me].state == RUNNING then With(t, me, t.procs[me].(state := RUNNABLE)) else t
  }

  // ---------- the invariant ----------

  predicate PidsOk(t: Table) {
    && (forall i | 0 <= i < |t.procs| ::
        0 <= t.procs[i].pid < t.nextpid && (t.procs[i].state != UNUSED ==> t.procs[i].pid > 0))
    && (forall i, j | 0 <= i < j < |t.procs| && t.procs[i].pid > 0 :: t.procs[i].pid != t.procs[j].pid)
  }

  predicate HasParent(t: Table, i: nat)
    requires i < |t.procs|
  {
    0 <= t.procs[i].parent < |t.procs| && t.procs[i].parent != i && Live(t.procs[t.procs[i].parent])
  }

  /** Slot i is the child that process p is making. */
  predicate Makes(t: Table, p: nat, i: int)
    requires p < |t.procs|
  {
    t.procs[p].np == i && Live(t.procs[p])
  }

  predicate SlotOk(t: Table, i: nat)
    requires i < |t.procs|
  {
    var q := t.procs[i];
    && (q.state == UNUSED ==> q.parent == -1)
    && (Live(q) || q.state == ZOMBIE ==> if i == t.init then q.parent == -1 else HasParent(t, i))
    && (q.state == EMBRYO ==> q.parent == -1 || (0 <= q.parent < |t.procs| && Makes(t, q.parent, i)))
    && -1 <= q.np < |t.procs|
    && (q.np >= 0 ==> Live(q) && t.procs[q.np].state == EMBRYO)
    && (q.state == SLEEPING && q.chan.OnProc? ==> q.chan.p == i && q.np == -1)
  }

  /** Nobody waits for a child that has exited. */
  predicate WaitOk(t: Table, i: nat)
    requires i < |t.procs|
  {
    t.procs[i].state == SLEEPING && t.procs[i].chan == OnProc(i) ==>
        forall z | 0 <= z < |t.procs| :: !ZombieOf(t.procs[z], i)
  }

  predicate SlotsOk(t: Table) {
    && t.init < |t.procs| && Live(t.procs[t.init])
    && (forall i | 0 <= i < |t.procs| :: SlotOk(t, i))
  }

  /** Two forks in progress make different children. */
  predicate MakersOk(t: Table) {
    forall i, j | 0 <= i < j < |t.procs| && t.procs[i].np >= 0 :: t.procs[i].np != t.procs[j].np
  }

  predicate WaitsOk(t: Table) {
    forall i | 0 <= i < |t.procs| :: WaitOk(t, i)
  }

  predicate Ok(t: Table) {
    PidsOk(t) && SlotsOk(t) && MakersOk(t) && WaitsOk(t)
  }

  /** The parent of a process is the one that made it, or init. */
  predicate ForkerOk(t: Table, i: nat)
    requires i < |t.procs|
  {
    var q := t.procs[i];
    (Live(q) || q.state == ZOMBIE) && i != t.init ==>
      && q.pid in t.forker
      && (q.parent == t.init || (0 <= q.parent < |t.procs| && t.procs[q.parent].pid == t.forker[q.pid]))
  }

  predicate HistoryOk(t: Table) {
    ForkersOk(t) && ReapedOk(t)
  }

  predicate ForkersOk(t: Table) {
    && (forall i | 0 <= i < |t.procs| :: ForkerOk(t, i))
    && (forall pid | pid in t.forker :: 0 < pid < t.nextpid)
  }

  predicate ReapedOk(t: Table) {
    && t.init < |t.procs|
    && (forall k | 0 <= k < |t.reaped| :: 0 < t.reaped[k].0 < t.nextpid && t.reaped[k].0 in t.forker)
    && (forall k | 0 <= k < |t.reaped| ::
        t.reaped[k].1 == t.forker[t.reaped[k].0] || t.reaped[k].1 == t.procs[t.init].pid)
    && (forall k, i | 0 <= k < |t.reaped| && 0 <= i < |t.procs| :: t.reaped[k].0 != t.procs[i].pid)
    && (forall k, l | 0 <= k < l < |t.reaped| :: t.reaped[k].0 != t.reaped[l].0)
  }

  /** An action that changes only states and channels, and neither ends a process nor
      starts one. */
  predicate Shuffles(t: Table, t': Table) {
    && |t'.procs| == |t.procs| && t' == t.(procs := t'.procs)
    && (forall i | 0 <= i < |t.procs| :: ShufflesSlot(t.procs[i], t'.procs[i], i))
  }

  predicate ShufflesSlot(q: Slot, q': Slot, i: nat) {
    && q' == q.(state := q'.state, chan := q'.chan, killed := q'.killed)
    && (q'.state == q.state || (Live(q) && Live(q')))
    && (q'.state == SLEEPING ==>
        q' == q.(killed := q'.killed) || q'.chan.OnOther? || (q'.chan == OnProc(i) && q'.np == -1))
  }

  lemma ShufflesOk(t: Table, t': Table)
    requires Ok(t) && HistoryOk(t) && Shuffles(t, t')
    requires forall i | 0 <= i < |t.procs| :: WaitOk(t', i)
    ensures Ok(t') && HistoryOk(t')
  {
    forall i | 0 <= i < |t.procs|
      ensures SlotOk(t', i)
    {
      assert SlotOk(t, i) && ShufflesSlot(t.procs[i], t'.procs[i], i);
    }
    forall i | 0 <= i < |t.procs|
      ensures ForkerOk(t', i)
    {
      assert ForkerOk(t, i) && ShufflesSlot(t.procs[i], t'.procs[i], i);
    }
  }

  lemma ShufflesWait(t: Table, t': Table)
    requires Ok(t) && Shuffles(t, t')
    requires forall i | 0 <= i < |t.procs| && t'.procs[i].state == SLEEPING && t'.procs[i].chan == OnProc(i) ::
             t.procs[i].state == SLEEPING && t.procs[i].chan == OnProc(i)
    ensures forall i | 0 <= i < |t.procs| :: WaitOk(t', i)
  {
    forall i | 0 <= i < |t.procs|
      ensures WaitOk(t', i)
    {
      assert WaitOk(t, i);
      assert forall z | 0 <= z < |t.procs| :: ShufflesSlot(t.procs[z], t'.procs[z], z);
    }
  }

  /** Actions that change no pid. */
  lemma PidsKept(t: Table, t': Table)
    requires PidsOk(t) && |t'.procs| == |t.procs| && t'.nextpid == t.nextpid
    requires forall i | 0 <= i < |t.procs| ::
             t'.procs[i].pid == t.procs[i].pid && (t'.procs[i].state != UNUSED ==> t.procs[i].state != UNUSED)
    ensures PidsOk(t')
  {
  }

  lemma MakersKept(t: Table, t': Table)
    requires MakersOk(t) && |t'.procs| == |t.procs|
    requires forall i | 0 <= i < |t.procs| :: t'.procs[i].np == t.procs[i].np || t'.procs[i].np == -1
    ensures MakersOk(t')
  {
  }

  lemma ReapedKept(t: Table, t': Table)
    requires ReapedOk(t) && |t'.procs| == |t.procs| && t'.nextpid >= t.nextpid && t'.reaped == t.reaped &&
             t'.init == t.init
    requires forall i | 0 <= i < |t.procs| :: t'.procs[i].pid == t.procs[i].pid || t'.procs[i].pid == t.nextpid
    requires t'.procs[t.init].pid == t.procs[t.init].pid
    requires forall pid | pid in t.forker && (forall i | 0 <= i < |t.procs| :: t.procs[i].pid != pid) ::
             pid in t'.forker && t'.forker[pid] == t.forker[pid]
    ensures ReapedOk(t')
  {
    forall k | 0 <= k < |t.reaped|
      ensures t.reaped[k].0 in t'.forker && t'.forker[t.reaped[k].0] == t.forker[t.reaped[k].0]
    {
      assert t.reaped[k].0 in t.forker;
      assert forall i | 0 <= i < |t.procs| :: t.procs[i].pid != t.reaped[k].0;
    }
  }

  lemma AllocSlots(t: Table, me: nat)
    requires SlotsOk(t) && Runs(t, me, false)
    ensures SlotsOk(Allocated(t, me))
  {
    var t' := Allocated(t, me);
    assert SlotOk(t, me) && SlotOk(t, t.init);
    forall i | 0 <= i < |t.procs| ensures SlotOk(t', i) { assert SlotOk(t, i); }
  }

  lemma AllocWaits(t: Table, me: nat)
    requires SlotsOk(t) && WaitsOk(t) && Runs(t, me, false)
    ensures WaitsOk(Allocated(t, me))
  {
    var t' := Allocated(t, me);
    assert SlotOk(t, me);
    forall i | 0 <= i < |t.procs| ensures WaitOk(t', i) { assert WaitOk(t, i) && SlotOk(t, i); }
  }

  lemma AllocForkers(t: Table, me: nat)
    requires SlotsOk(t) && PidsOk(t) && ForkersOk(t) && Runs(t, me, false)
    ensures ForkersOk(Allocated(t, me))
  {
    var t' := Allocated(t, me);
    assert SlotOk(t, me);
    forall i | 0 <= i < |t.procs| ensures ForkerOk(t', i) { assert ForkerOk(t, i) && SlotOk(t, i); }
  }

  lemma FailsSlots(t: Table, me: nat)
    requires SlotsOk(t) && MakersOk(t) && Runs(t, me, true) && t.procs[t.procs[me].np].parent == -1
    ensures SlotsOk(Step(t, AllocFails(me)))
  {
    var t' := Step(t, AllocFails(me));
    assert SlotOk(t, me) && SlotOk(t, t.init);
    forall i | 0 <= i < |t.procs| ensures SlotOk(t', i) { assert SlotOk(t, i); }
  }

  lemma FailsWaits(t: Table, me: nat)
    requires SlotsOk(t) && WaitsOk(t) && Runs(t, me, true) && t.procs[t.procs[me].np].parent == -1
    ensures WaitsOk(Step(t, AllocFails(me)))
  {
    var t' := Step(t, AllocFails(me));
    assert SlotOk(t, me);
    forall i | 0 <= i < |t.procs| ensures WaitOk(t', i) { assert WaitOk(t, i) && SlotOk(t, i); }
  }

  lemma FailsForkers(t: Table, me: nat)
    requires SlotsOk(t) && PidsOk(t) && ForkersOk(t) && Runs(t, me, true) && t.procs[t.procs[me].np].parent == -1
    ensures ForkersOk(Step(t, AllocFails(me)))
  {
    var t' := Step(t, AllocFails(me));
    assert SlotOk(t, me);
    forall i | 0 <= i < |t.procs| ensures ForkerOk(t', i) { assert ForkerOk(t, i) && SlotOk(t, i); }
  }

  lemma ParentSlots(t: Table, me: nat)
    requires SlotsOk(t) && Runs(t, me, true)
    ensures SlotsOk(Step(t, SetParent(me)))
  {
    var t' := Step(t, SetParent(me));
    assert SlotOk(t, me) && SlotOk(t, t.init);
    forall i | 0 <= i < |t.procs| ensures SlotOk(t', i) { assert SlotOk(t, i); }
  }

  lemma ParentWaits(t: Table, me: nat)
    requires SlotsOk(t) && WaitsOk(t) && Runs(t, me, true)
    ensures WaitsOk(Step(t, SetParent(me)))
  {
    var t' := Step(t, SetParent(me));
    assert SlotOk(t, me);
    forall i | 0 <= i < |t.procs| ensures WaitOk(t', i) { assert WaitOk(t, i) && SlotOk(t, i); }
  }

  lemma ParentForkers(t: Table, me: nat)
    requires SlotsOk(t) && PidsOk(t) && ForkersOk(t) && Runs(t, me, true)
    ensures ForkersOk(Step(t, SetParent(me)))
  {
    var t' := Step(t, SetParent(me));
    assert SlotOk(t, me);
    forall i | 0 <= i < |t.procs| ensures ForkerOk(t', i) { assert ForkerOk(t, i) && SlotOk(t, i); }
  }

  lemma LaunchSlots(t: Table, me: nat)
    requires SlotsOk(t) && MakersOk(t) && Runs(t, me, true) && t.procs[t.procs[me].np].parent == me
    ensures SlotsOk(Step(t, Launch(me)))
  {
    var t' := Step(t, Launch(me));
    assert SlotOk(t, me) && SlotOk(t, t.init);
    forall i | 0 <= i < |t.procs| ensures SlotOk(t', i) { assert SlotOk(t, i); }
  }

  lemma LaunchWaits(t: Table, me: nat)
    requires SlotsOk(t) && WaitsOk(t) && Runs(t, me, true) && t.procs[t.procs[me].np].parent == me
    ensures WaitsOk(Step(t, Launch(me)))
  {
    var t' := Step(t, Launch(me));
    assert SlotOk(t, me);
    forall i | 0 <= i < |t.procs| ensures WaitOk(t', i) { assert WaitOk(t, i) && SlotOk(t, i); }
  }

  lemma LaunchForkers(t: Table, me: nat)
    requires SlotsOk(t) && PidsOk(t) && ForkersOk(t) && Runs(t, me, true) && t.procs[t.procs[me].np].parent == me
    ensures ForkersOk(Step(t, Launch(me)))
  {
    var t' := Step(t, Launch(me));
    assert SlotOk(t, me);
    forall i | 0 <= i < |t.procs| ensures ForkerOk(t', i) { assert ForkerOk(t, i) && SlotOk(t, i); }
  }

  lemma ExitSlots(t: Table, me: nat)
    requires SlotsOk(t) && Runs(t, me, false) && me != t.init && t.procs[me].parent < |t.procs|
    ensures SlotsOk(ExitProc(t, me))
  {
    var t' := ExitProc(t, me);
    assert SlotOk(t, me) && SlotOk(t, t.init);
    forall i | 0 <= i < |t.procs| ensures SlotOk(t', i) { assert SlotOk(t, i); }
  }

  lemma ExitWaits(t: Table, me: nat)
    requires SlotsOk(t) && WaitsOk(t) && Runs(t, me, false) && me != t.init && t.procs[me].parent < |t.procs|
    ensures WaitsOk(ExitProc(t, me))
  {
    var t' := ExitProc(t, me);
    assert SlotOk(t, me);
    forall i | 0 <= i < |t.procs| ensures WaitOk(t', i) { assert WaitOk(t, i) && SlotOk(t, i); }
  }

  lemma ExitForkers(t: Table, me: nat)
    requires SlotsOk(t) && PidsOk(t) && ForkersOk(t) && Runs(t, me, false) && me != t.init &&
             t.procs[me].parent < |t.procs|
    ensures ForkersOk(ExitProc(t, me))
  {
    var t' := ExitProc(t, me);
    assert SlotOk(t, me);
    forall i | 0 <= i < |t.procs| ensures ForkerOk(t', i) { assert ForkerOk(t, i) && SlotOk(t, i); }
  }

  lemma ReapSlots(t: Table, me: nat)
    requires SlotsOk(t) && Runs(t, me, false)
    ensures SlotsOk(WaitProc(t, me))
  {
    var t' := WaitProc(t, me);
    assert SlotOk(t, me) && SlotOk(t, t.init);
    forall i | 0 <= i < |t.procs| ensures SlotOk(t', i) { assert SlotOk(t, i); }
  }

  lemma ReapWaits(t: Table, me: nat)
    requires SlotsOk(t) && WaitsOk(t) && Runs(t, me, false)
    ensures WaitsOk(WaitProc(t, me))
  {
    var t' := WaitProc(t, me);
    assert SlotOk(t, me);
    forall i | 0 <= i < |t.procs| ensures WaitOk(t', i) { assert WaitOk(t, i) && SlotOk(t, i); }
  }

  lemma ReapForkers(t: Table, me: nat)
    requires SlotsOk(t) && PidsOk(t) && ForkersOk(t) && Runs(t, me, false)
    ensures ForkersOk(WaitProc(t, me))
  {
    var t' := WaitProc(t, me);
    assert SlotOk(t, me);
    forall i | 0 <= i < |t.procs| ensures ForkerOk(t', i) { assert ForkerOk(t, i) && SlotOk(t, i); }
  }

  lemma AllocRest(t: Table, me: nat)
    requires Ok(t) && ReapedOk(t) && Runs(t, me, false)
    ensures PidsOk(Allocated(t, me)) && MakersOk(Allocated(t, me)) && ReapedOk(Allocated(t, me))
  {
    var t', n := Allocated(t, me), FirstUnused(t.procs, 0);
    assert SlotOk(t, me);
    ReapedKept(t, t');
    forall i | 0 <= i < |t.procs|
      ensures t.procs[i].np != n || n == |t.procs|
    {
      assert SlotOk(t, i);
    }
    hide ReapedOk, WaitsOk, SlotsOk;
    assert PidsOk(t') by { hide MakersOk; }
    hide PidsOk;
  }

  lemma ReapRest(t: Table, me: nat)
    requires Ok(t) && HistoryOk(t) && Runs(t, me, false)
    ensures PidsOk(WaitProc(t, me)) && MakersOk(WaitProc(t, me)) && ReapedOk(WaitProc(t, me))
  {
    var t', z := WaitProc(t, me), FirstZombie(t.procs, me, 0);
    MakersKept(t, t');
    if z < |t.procs| {
      assert SlotOk(t, z) && ForkerOk(t, z);
      assert z != t.init && t.procs[z].pid in t.forker;
      assert t.procs[me].pid == t.forker[t.procs[z].pid] || me == t.init;
      hide SlotsOk, WaitsOk, MakersOk, ForkersOk;
      assert t'.reaped == t.reaped + [(t.procs[z].pid, t.procs[me].pid)];
    } else {
      PidsKept(t, t');
      ReapedKept(t, t');
    }
  }

  /** The other actions change no pid, and start no process. */
  lemma RestKept(t: Table, t': Table)
    requires Ok(t) && ReapedOk(t) && |t'.procs| == |t.procs| && t'.nextpid == t.nextpid && t'.reaped == t.reaped &&
             t'.init == t.init
    requires forall i | 0 <= i < |t.procs| ::
             t'.procs[i].pid == t.procs[i].pid && (t'.procs[i].state != UNUSED ==> t.procs[i].state != UNUSED)
    requires forall i | 0 <= i < |t.procs| :: t'.procs[i].np == t.procs[i].np || t'.procs[i].np == -1
    requires forall pid | pid in t.forker && (forall i | 0 <= i < |t.procs| :: t.procs[i].pid != pid) ::
             pid in t'.forker && t'.forker[pid] == t.forker[pid]
    ensures PidsOk(t') && MakersOk(t') && ReapedOk(t')
  {
    PidsKept(t, t');
    MakersKept(t, t');
    ReapedKept(t, t');
  }

  lemma FailsOk(t: Table, me: nat)
    requires Ok(t) && HistoryOk(t) && Runs(t, me, true) && t.procs[t.procs[me].np].parent == -1
    ensures Ok(Step(t, AllocFails(me))) && HistoryOk(Step(t, AllocFails(me)))
  {
    FailsSlots(t, me);
    FailsWaits(t, me);
    FailsForkers(t, me);
    hide SlotsOk, PidsOk, MakersOk, WaitsOk, ForkersOk, ReapedOk;
    RestKept(t, Step(t, AllocFails(me)));
  }

  lemma ParentOk(t: Table, me: nat)
    requires Ok(t) && HistoryOk(t) && Runs(t, me, true)
    ensures Ok(Step(t, SetParent(me))) && HistoryOk(Step(t, SetParent(me)))
  {
    ParentSlots(t, me);
    ParentWaits(t, me);
    ParentForkers(t, me);
    hide SlotsOk, PidsOk, MakersOk, WaitsOk, ForkersOk, ReapedOk;
    RestKept(t, Step(t, SetParent(me)));
  }

  lemma LaunchOk(t: Table, me: nat)
    requires Ok(t) && HistoryOk(t) && Runs(t, me, true) && t.procs[t.procs[me].np].parent == me
    ensures Ok(Step(t, Launch(me))) && HistoryOk(Step(t, Launch(me)))
  {
    LaunchSlots(t, me);
    LaunchWaits(t, me);
    LaunchForkers(t, me);
    assert SlotOk(t, me);
    hide SlotsOk, PidsOk, MakersOk, WaitsOk, ForkersOk, ReapedOk;
    RestKept(t, Step(t, Launch(me)));
  }

  lemma ExitOk(t: Table, me: nat)
    requires Ok(t) && HistoryOk(t) && Runs(t, me, false) && me != t.init && t.procs[me].parent < |t.procs|
    ensures Ok(ExitProc(t, me)) && HistoryOk(ExitProc(t, me))
  {
    ExitSlots(t, me);
    ExitWaits(t, me);
    ExitForkers(t, me);
    hide SlotsOk, PidsOk, MakersOk, WaitsOk, ForkersOk, ReapedOk;
    RestKept(t, ExitProc(t, me));
  }

  lemma StepOk(t: Table, a: Act)
    requires Ok(t) && HistoryOk(t)
    ensures Ok(Step(t, a)) && HistoryOk(Step(t, a))
  {
    var t' := Step(t, a);
    hide SlotsOk, PidsOk, MakersOk, WaitsOk, ForkersOk, ReapedOk;
    match a
    case Alloc(me) =>
      if Runs(t, me, false) { AllocSlots(t, me); AllocWaits(t, me); AllocForkers(t, me); AllocRest(t, me); }
    case AllocFails(me) => if t' != t { FailsOk(t, me); }
    case SetParent(me) => if Runs(t, me, true) { ParentOk(t, me); }
    case Launch(me) => if t' != t { LaunchOk(t, me); }
    case Exit(me) => if t' != t { ExitOk(t, me); }
    case Wait(me) =>
      if Runs(t, me, false) { ReapSlots(t, me); ReapWaits(t, me); ReapForkers(t, me); ReapRest(t, me); }
    case _ => OtherOk(t, a);
  }

  lemma OtherOk(t: Table, a: Act)
    requires Ok(t) && HistoryOk(t) && (a.Kill? || a.Sleep? || a.Wakeup? || a.Dispatch? || a.Preempt?)
    ensures Ok(Step(t, a)) && HistoryOk(Step(t, a))
  {
    hide Ok, HistoryOk;
    ShufflesWait(t, Step(t, a));
    ShufflesOk(t, Step(t, a));
  }

  // ---------- runs ----------

  /** The table after userinit: slot init holds the first process. */
  function Boot(n: nat, init: nat): (r: Table) {
    Table(seq(n, i => if i == init then Slot(RUNNABLE, 1, -1, NoChan, false, -1)
              else Slot(UNUSED, 0, -1, NoChan, false, -1)),
          2, init, map[], [])
  }

  function RunAll(t: Table, acts: seq<Act>): (r: Table) {
    if acts == [] then t else Step(RunAll(t, acts[..|acts| - 1]), acts[|acts| - 1])
  }

  lemma {:induction false} RunOk(t: Table, acts: seq<Act>)
    requires Ok(t) && HistoryOk(t)
    ensures Ok(RunAll(t, acts)) && HistoryOk(RunAll(t, acts))
  {
    hide Ok, HistoryOk, Step;
    if acts != [] {
      RunOk(t, acts[..|acts| - 1]);
      StepOk(RunAll(t, acts[..|acts| - 1]), acts[|acts| - 1]);
    }
  }

  predicate InUse(q: Slot) {
    q.state != UNUSED
  }

  predicate DistinctPids(t: Table) {
    forall i, j | 0 <= i < j < |t.procs| && InUse(t.procs[i]) && InUse(t.procs[j]) :: t.procs[i].pid != t.procs[j].pid
  }

  /** Every process but init has a parent that has not exited. */
  predicate LiveParents(t: Table) {
    forall i | 0 <= i < |t.procs| && i != t.init && (Live(t.procs[i]) || t.procs[i].state == ZOMBIE) :: HasParent(t, i)
  }

  /** Nobody waits for a child that has exited. */
  predicate NoMissedExit(t: Table) {
    forall i, z | 0 <= i < |t.procs| && 0 <= z < |t.procs| && t.procs[i].state == SLEEPING &&
        t.procs[i].chan == OnProc(i) :: !ZombieOf(t.procs[z], i)
  }

  /** wait has returned each pid at most once, to the process that forked it or to init, and
      no process has that pid any more. */
  predicate ReapedOnce(t: Table) {
    && t.init < |t.procs|
    && (forall k, l | 0 <= k < l < |t.reaped| :: t.reaped[k].0 != t.reaped[l].0)
    && (forall k | 0 <= k < |t.reaped| ::
        t.reaped[k].0 in t.forker && (t.reaped[k].1 == t.forker[t.reaped[k].0] || t.reaped[k].1 == t.procs[t.init].pid))
    && (forall k, i | 0 <= k < |t.reaped| && 0 <= i < |t.procs| && InUse(t.procs[i]) :: t.reaped[k].0 != t.procs[i].pid)
  }

  lemma BootOk(n: nat, init: nat)
    requires init < n
    ensures Ok(Boot(n, init)) && HistoryOk(Boot(n, init))
  {
    var t := Boot(n, init);
    assert forall i | 0 <= i < |t.procs| :: SlotOk(t, i) && WaitOk(t, i) && ForkerOk(t, i);
  }

  lemma OkLiveParents(t: Table)
    requires SlotsOk(t)
    ensures LiveParents(t)
  {
    forall i | 0 <= i < |t.procs| && i != t.init && (Live(t.procs[i]) || t.procs[i].state == ZOMBIE)
      ensures HasParent(t, i)
    {
      assert SlotOk(t, i);
    }
  }

  lemma OkNoMissedExit(t: Table)
    requires WaitsOk(t)
    ensures NoMissedExit(t)
  {
    forall i, z | 0 <= i < |t.procs| && 0 <= z < |t.procs| && t.procs[i].state == SLEEPING &&
        t.procs[i].chan == OnProc(i)
      ensures !ZombieOf(t.procs[z], i)
    {
      assert WaitOk(t, i);
    }
  }

  /** In every run, of any number of processes, from the first process on. */
  lemma RunIsLawful(n: nat, init: nat, acts: seq<Act>)
    requires init < n
    ensures var t := RunAll(Boot(n, init), acts);
            DistinctPids(t) && LiveParents(t) && NoMissedExit(t) && ReapedOnce(t)
  {
    BootOk(n, init);
    hide RunAll, Boot, SlotsOk, WaitsOk, MakersOk, ForkersOk;
    RunOk(Boot(n, init), acts);
    OkLiveParents(RunAll(Boot(n, init), acts));
    OkNoMissedExit(RunAll(Boot(n, init), acts));
  }

  // ---------- kill ----------

  /** No slot in use has the pid, but a free one does: the pid is 0, or was left behind by
      a fork that failed. */
  predicate Stray(t: Table, pid: int) {
    && (exists i | 0 <= i < |t.procs| :: t.procs[i].pid == pid)
    && (forall i | 0 <= i < |t.procs| && InUse(t.procs[i]) :: t.procs[i].pid != pid)
  }

  predicate FreeClean(t: Table) {
    forall i | 0 <= i < |t.procs| && !InUse(t.procs[i]) :: !t.procs[i].killed
  }

  lemma KillCleans(t: Table, pid: int)
    requires FreeClean(t) && PidsOk(t)
    ensures FreeClean(KillProc(t, pid)) <==> !Stray(t, pid)
  {
    var i := FirstPid(t.procs, pid, 0);
    if i < |t.procs| { assert KillProc(t, pid).procs[i].killed; }
  }

  /** fork has a slot for the child and may still give it up: the child has no parent
      yet. */
  predicate CanFail(t: Table, me: nat) {
    Runs(t, me, true) && t.procs[t.procs[me].np].parent == -1
  }

  lemma FailCleans(t: Table, me: nat)
    requires FreeClean(t) && SlotsOk(t) && CanFail(t, me)
    ensures FreeClean(Step(t, AllocFails(me))) <==> !t.procs[t.procs[me].np].killed
  {
    assert SlotOk(t, me);
    assert Step(t, AllocFails(me)).procs[t.procs[me].np] == t.procs[t.procs[me].np].(state := UNUSED);
  }

  /** allocproc does not clear the killed flag, so a process starts killed if its slot was
      marked while free.  An action leaves a free slot marked exactly when it is a kill of
      a stray pid, or a fork that fails after its child was killed. */
  lemma FreeSlotsStayClean(t: Table, a: Act)
    requires Ok(t) && FreeClean(t)
    ensures FreeClean(Step(t, a)) <==>
            !(a.Kill? && Runs(t, a.me, false) && Stray(t, a.pid))
            && !(a.AllocFails? && CanFail(t, a.me) && t.procs[t.procs[a.me].np].killed)
  {
    if a.Kill? {
      KillCleans(t, a.pid);
    } else if a.AllocFails? {
      if CanFail(t, a.me) { FailCleans(t, a.me); }
    } else {
      hide PidsOk, SlotsOk, MakersOk, WaitsOk;
    }
  }

  /** Killing pid 0 succeeds and marks a free slot: the next process forked there, slot 1
      of this table, is killed before it has run. */
  lemma BornKilled()
    ensures var t2 := Step(Step(Boot(2, 0), Dispatch(0)), Kill(0, 0));
            var t5 := Step(Step(Step(t2, Alloc(0)), SetParent(0)), Launch(0));
            |t5.procs| == 2 && t5.procs[1].state == RUNNABLE && t5.procs[1].killed
  {
    var t1 := Step(Boot(2, 0), Dispatch(0));
    assert FirstPid(t1.procs, 0, 0) == 1;
    var t2 := Step(t1, Kill(0, 0));
    assert FirstUnused(t2.procs, 0) == 1;
  }

  // ---------- fork and sleep as wholes ----------

  /** A fork that succeeds: the first free slot is a runnable child of the caller with the
      next pid, and nothing else has changed. */
  lemma ForkMakesChild(t: Table, me: nat, np: nat)
    requires Runs(t, me, false) && t.procs[me].np == -1
    requires np < |t.procs| && t.procs[np].state == UNUSED && forall j | 0 <= j < np :: t.procs[j].state != UNUSED
    ensures var t' := Step(Step(Step(t, Alloc(me)), SetParent(me)), Launch(me));
            && |t'.procs| == |t.procs| && t'.nextpid == t.nextpid + 1 && t'.init == t.init && t'.reaped == t.reaped
            && t'.procs[np] == Slot(RUNNABLE, t.nextpid, me, t.procs[np].chan, t.procs[np].killed, t.procs[np].np)
            && t'.forker == t.forker[t.nextpid := t.procs[me].pid]
            && forall j | 0 <= j < |t.procs| && j != np :: t'.procs[j] == t.procs[j]
  {
    assert FirstUnused(t.procs, 0) == np;
    var t1 := Step(t, Alloc(me));
    assert t1.procs[me].np == np && t1.procs[np].state == EMBRYO;
  }

  /** A fork that fails gives its slot back, with a pid that is not used again. */
  lemma FailedFork(t: Table, me: nat, np: nat)
    requires Runs(t, me, false) && t.procs[me].np == -1
    requires np < |t.procs| && t.procs[np].state == UNUSED && t.procs[np].parent == -1
    requires forall j | 0 <= j < np :: t.procs[j].state != UNUSED
    ensures var t' := Step(Step(t, Alloc(me)), AllocFails(me));
            && |t'.procs| == |t.procs| && t'.nextpid == t.nextpid + 1 && t'.forker == t.forker && t'.reaped == t.reaped
            && t'.procs[np] == t.procs[np].(pid := t.nextpid)
            && forall j | 0 <= j < |t.procs| && j != np :: t'.procs[j] == t.procs[j]
  {
    assert FirstUnused(t.procs, 0) == np;
    var t1 := Step(t, Alloc(me));
    assert t1.procs[me].np == np && t1.procs[np].state == EMBRYO;
  }

  /** A process sleeps until the wakeup on its channel, and no other; then it can be
      dispatched, and is as it was. */
  lemma SleepsUntilWakeup(t: Table, me: nat, x: int, y: int)
    requires me < |t.procs| && t.procs[me].state == RUNNING
    ensures var t1 := Step(t, Sleep(me, x));
            && |t1.procs| == |t.procs| && t1.procs[me].state == SLEEPING
            && (forall j | 0 <= j < |t.procs| && j != me :: t1.procs[j] == t.procs[j])
            && var t2 := Step(t1, Wakeup(y));
            && (t2.procs[me].state == RUNNABLE <==> x == y)
            && (x == y ==> Step(t2, Dispatch(me)).procs[me] == t.procs[me].(chan := NoChan))
            && (x != y ==> Step(t2, Dispatch(me)) == t2)
  {
    var t2 := Step(Step(t, Sleep(me, x)), Wakeup(y));
    assert t2.procs[me] == Woken(t.procs[me].(state := SLEEPING, chan := OnOther(x)), OnOther(y));
  }

  /** Preemption and dispatch leave a process running, and others alone. */
  lemma PreemptReturns(t: Table, me: nat)
    requires me < |t.procs| && t.procs[me].state == RUNNING
    ensures Step(t, Preempt(me)).procs == t.procs[me := t.procs[me].(state := RUNNABLE)]
    ensures Step(Step(t, Preempt(me)), Dispatch(me)).procs == t.procs[me := t.procs[me].(chan := NoChan)]
  {
  }

  // ---------- the table as the kernel updates it ----------

  /** What exit has done to slot j when its loop is at slot i. */
  ghost function Exiting(t: Table, me: nat, i: nat, j: nat): (r: Slot)
    requires me < |t.procs| && i <= |t.procs| && j < |t.procs|
  {
    var q := t.procs[j];
    var toParent := t.procs[me].parent >= 0 && q.chan == OnProc(t.procs[me].parent);
    var toInit := q.chan == OnProc(t.init) && exists k | 0 <= k < i :: ZombieOf(t.procs[k], me);
    var q1 := if q.state == SLEEPING && (toParent || toInit) then q.(state := RUNNABLE) else q;
    if q.parent == me && j < i then q1.(parent := t.init) else q1
  }

  /** Slot i, the first with the pid, is marked, and awake if it was asleep; nothing else has
      changed. */
  ghost predicate Kills(procs: seq<Slot>, procs': seq<Slot>, pid: int, i: nat) {
    && i < |procs| == |procs'| && procs[i].pid == pid && (forall j | 0 <= j < i :: procs[j].pid != pid)
    && procs'[i].killed && procs'[i].state == (if procs[i].state == SLEEPING then RUNNABLE else procs[i].state)
    && procs'[i] == procs[i].(killed := true, state := procs'[i].state)
    && (forall j | 0 <= j < |procs| && j != i :: procs'[j] == procs[j])
  }

  /** Slot z, the first zombie child of `me`, is free again, and nothing else has changed. */
  ghost predicate Reaps(procs: seq<Slot>, procs': seq<Slot>, me: nat, z: nat) {
    && z < |procs| == |procs'|
    && procs[z].parent == me && procs[z].state == ZOMBIE
    && (forall j | 0 <= j < z :: !(procs[j].parent == me && procs[j].state == ZOMBIE))
    && procs'[z].state == UNUSED && procs'[z].pid == 0 && procs'[z].parent == -1 && !procs'[z].killed
    && procs'[z].chan == procs[z].chan && procs'[z].np == procs[z].np
    && (forall j | 0 <= j < |procs| && j != z :: procs'[j] == procs[j])
  }

  /** Who sleeps on ch must hear of the exit of `me`: its parent, or init if it inherits a
      zombie. */
  ghost predicate WaitsFor(procs: seq<Slot>, init: nat, me: nat, ch: Chan)
    requires me < |procs|
  {
    || (procs[me].parent >= 0 && ch == OnProc(procs[me].parent))
    || (ch == OnProc(init) && exists z :: 0 <= z < |procs| && procs[z].parent == me && procs[z].state == ZOMBIE)
  }

  /** Process `me` is a zombie, its children are init's, and whoever must hear of it is awake;
      nothing else has changed. */
  ghost predicate Exits(procs: seq<Slot>, procs': seq<Slot>, init: nat, me: nat) {
    && me < |procs| == |procs'| && procs'[me].state == ZOMBIE
    && (forall j | 0 <= j < |procs| && j != me ::
          procs'[j].state == if procs[j].state == SLEEPING && WaitsFor(procs, init, me, procs[j].chan) then RUNNABLE
                             else procs[j].state)
    && (forall j | 0 <= j < |procs| :: procs'[j].parent == if procs[j].parent == me then init else procs[j].parent)
    && (forall j | 0 <= j < |procs| ::
          procs'[j] == procs[j].(state := procs'[j].state, parent := procs'[j].parent))
  }

  /** One pass of wait: a zombie child is reaped, if there is one; else the process gives up,
      or sleeps. */
  lemma WaitEffect(t: Table, me: nat)
    requires Runs(t, me, false)
    ensures var procs' := Step(t, Wait(me)).procs;
            if exists z :: 0 <= z < |t.procs| && t.procs[z].parent == me && t.procs[z].state == ZOMBIE
            then exists z: nat :: Reaps(t.procs, procs', me, z)
            else if t.procs[me].killed || forall j | 0 <= j < |t.procs| :: t.procs[j].parent != me
            then procs' == t.procs
            else procs' == t.procs[me := t.procs[me].(state := SLEEPING, chan := OnProc(me))]
  {
    var z := FirstZombie(t.procs, me, 0);
    if z < |t.procs| { assert Reaps(t.procs, Step(t, Wait(me)).procs, me, z); }
  }

  lemma KillEffect(t: Table, me: nat, pid: int)
    requires Runs(t, me, false)
    ensures var procs' := Step(t, Kill(me, pid)).procs;
            if exists i :: 0 <= i < |t.procs| && t.procs[i].pid == pid
            then exists i: nat :: Kills(t.procs, procs', pid, i)
            else procs' == t.procs
  {
    var i := FirstPid(t.procs, pid, 0);
    if i < |t.procs| { assert Kills(t.procs, Step(t, Kill(me, pid)).procs, pid, i); }
  }

  lemma ExitEffect(t: Table, me: nat)
    requires me < |t.procs| && t.procs[me].parent < |t.procs|
    ensures Exits(t.procs, ExitProc(t, me).procs, t.init, me)
    ensures Runs(t, me, false) && me != t.init ==> Exits(t.procs, Step(t, Exit(me)).procs, t.init, me)
  {
    var procs' := ExitProc(t, me).procs;
    forall j | 0 <= j < |t.procs|
      ensures procs'[j] == Exited(t, me, j)
      ensures ZombieOf(t.procs[j], me) <==> t.procs[j].parent == me && t.procs[j].state == ZOMBIE
    {
    }
  }

  class Procs {
    var procs: seq<Slot>
    var nextpid: int
    const init: nat
    ghost var forker: map<int, int>
    ghost var reaped: seq<(int, int)>

    ghost function View(): Table
      reads this
    {
      Table(procs, nextpid, init, forker, reaped)
    }

    /** wakeup1. */
    method Wakeup1(ch: Chan)
      modifies this`procs
      ensures procs == WakeAll(old(procs), ch) && |procs| == |old(procs)|
      ensures forall j | 0 <= j < |procs| ::
                procs[j] == old(procs)[j].(state := if old(procs)[j].state == SLEEPING && old(procs)[j].chan == ch
                                                    then RUNNABLE else old(procs)[j].state)
    {
      var i := 0;
      while i < |procs|
        invariant i <= |procs| == |old(procs)|
        invariant forall j | 0 <= j < |procs| :: procs[j] == if j < i then Woken(old(procs)[j], ch) else old(procs)[j]
      {
        if procs[i].state == SLEEPING && procs[i].chan == ch {
          procs := procs[i := procs[i].(state := RUNNABLE)];
        }
        i := i + 1;
      }
    }

    /** The critical section of allocproc: a free slot becomes the new process. */
    method AllocProc(me: nat) returns (r: int)
      requires me < |procs| && procs[me].state != UNUSED
      modifies this`procs, this`nextpid
      ensures View() == Allocated(old(View()), me)
      ensures r == -1 <==> forall i | 0 <= i < |old(procs)| :: old(procs)[i].state != UNUSED
      ensures r == -1 ==> procs == old(procs) && nextpid == old(nextpid)
      ensures r != -1 ==>
              0 <= r < |procs| == |old(procs)| && old(procs)[r].state == UNUSED &&
              procs[r] == old(procs)[r].(state := EMBRYO, pid := old(nextpid)) && nextpid == old(nextpid) + 1
      ensures r != -1 ==> forall j | 0 <= j < r :: old(procs)[j].state != UNUSED
      ensures r != -1 ==> forall j | 0 <= j < |procs| && j != r ::
                procs[j] == if j == me then old(procs)[j].(np := r) else old(procs)[j]
    {
      var i := 0;
      while i < |procs| && procs[i].state != UNUSED
        invariant i <= |procs| && FirstUnused(procs, 0) == FirstUnused(procs, i)
        invariant forall j | 0 <= j < i :: procs[j].state != UNUSED
      {
        i := i + 1;
      }
      if i == |procs| {
        return -1;
      }
      procs := procs[me := procs[me].(np := i)];
      procs := procs[i := procs[i].(state := EMBRYO, pid := nextpid)];
      nextpid := nextpid + 1;
      return i;
    }

    /** The critical section of exit: the children go to init, and whoever waits for the
        process or for one of them is woken. */
    method Exit(me: nat)
      requires me < |procs| && 0 <= procs[me].parent < |procs| && procs[me].state == RUNNING
      modifies this`procs
      ensures View() == ExitProc(old(View()), me) && Exits(old(procs), procs, init, me)
    {
      ghost var t := View();
      Wakeup1(OnProc(procs[me].parent));
      var i := 0;
      while i < |procs|
        invariant i <= |procs| == |t.procs|
        invariant forall j | 0 <= j < |procs| :: procs[j] == Exiting(t, me, i, j)
      {
        PassOn(me, i, t);
        i := i + 1;
      }
      procs := procs[me := procs[me].(state := ZOMBIE)];
      assert forall j | 0 <= j < |procs| :: procs[j] == Exited(t, me, j);
      ExitEffect(t, me);
      hide Exited, Exiting, Exits, WaitsFor;
    }

    /** One round of the loop of exit, for slot i. */
    method PassOn(me: nat, i: nat, ghost t: Table)
      requires me < |t.procs| && i < |procs| == |t.procs| && init == t.init && t.procs[me].state == RUNNING
      requires forall j | 0 <= j < |procs| :: procs[j] == Exiting(t, me, i, j)
      modifies this`procs
      ensures |procs| == |t.procs| && forall j | 0 <= j < |procs| :: procs[j] == Exiting(t, me, i + 1, j)
    {
      ghost var before := procs;
      if procs[i].parent == me {
        var zombie := procs[i].state == ZOMBIE;
        procs := procs[i := procs[i].(parent := init)];
        if zombie {
          Wakeup1(OnProc(init));
        }
      }
      assert ZombieOf(t.procs[i], me) <==> before[i].parent == me && before[i].state == ZOMBIE;
      forall j | 0 <= j < |procs|
        ensures procs[j] == Exiting(t, me, i + 1, j)
      {
        assert before[j] == Exiting(t, me, i, j);
      }
    }

    /** One pass of wait: the pid of a child that has exited, -1 for an error, or 0 when the
        process has gone to sleep. */
    method Wait(me: nat) returns (r: int)
      requires me < |procs| && PidsOk(View())
      modifies this`procs, this`reaped
      ensures View() == WaitProc(old(View()), me)
      ensures r > 0 ==> exists z: nat :: Reaps(old(procs), procs, me, z) && r == old(procs)[z].pid
      ensures r > 0 <==> exists z :: 0 <= z < |old(procs)| && ZombieOf(old(procs)[z], me)
      ensures r > 0 ==> reaped == old(reaped) + [(r, old(procs)[me].pid)]
      ensures r <= 0 ==> reaped == old(reaped)
      ensures r == -1 ==> (!HasKids(procs, me) || procs[me].killed) && procs == old(procs)
      ensures r == 0 ==> HasKids(old(procs), me) && !old(procs)[me].killed &&
                         procs == old(procs)[me := old(procs)[me].(state := SLEEPING, chan := OnProc(me))]
      ensures r >= -1
    {
      var p, havekids := 0, false;
      while p < |procs|
        invariant p <= |procs| && procs == old(procs) && reaped == old(reaped)
        invariant FirstZombie(procs, me, 0) == FirstZombie(procs, me, p)
        invariant havekids <==> exists j | 0 <= j < p :: procs[j].parent == me
        invariant forall j | 0 <= j < p :: !ZombieOf(procs[j], me)
      {
        if procs[p].parent == me {
          havekids := true;
          if procs[p].state == ZOMBIE {
            r := procs[p].pid;
            reaped := reaped + [(r, procs[me].pid)];
            procs := procs[p := Slot(UNUSED, 0, -1, procs[p].chan, false, procs[p].np)];
            assert Reaps(old(procs), procs, me, p);
            return;
          }
        }
        p := p + 1;
      }
      if !havekids || procs[me].killed {
        return -1;
      }
      procs := procs[me := procs[me].(state := SLEEPING, chan := OnProc(me))];
      return 0;
    }

    /** kill. */
    method Kill(pid: int) returns (r: int)
      modifies this`procs
      ensures View() == KillProc(old(View()), pid)
      ensures r == 0 <==> exists i | 0 <= i < |old(procs)| :: old(procs)[i].pid == pid
      ensures r == -1 ==> procs == old(procs)
      ensures r == 0 ==> exists i: nat :: Kills(old(procs), procs, pid, i)
      ensures r == 0 || r == -1
    {
      var p := 0;
      while p < |procs|
        invariant p <= |procs| && procs == old(procs)
        invariant FirstPid(procs, pid, 0) == FirstPid(procs, pid, p)
        invariant forall j | 0 <= j < p :: procs[j].pid != pid
      {
        if procs[p].pid == pid {
          procs := procs[p := procs[p].(killed := true)];
          if procs[p].state == SLEEPING {
            procs := procs[p := procs[p].(state := RUNNABLE)];
          }
          assert Kills(old(procs), procs, pid, p);
          return 0;
        }
        p := p + 1;
      }
      return -1;
    }
  }
}
