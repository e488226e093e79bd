/** The request queue of the IDE driver, ide.c, against the memory disk of memide.c, which
    serves each request at once.  An action of the driver is what one thread or the
    interrupt handler does while it holds idelock. */
module DiskQueue {

  type Block = seq<int>

  datatype Buf = Buf(blockno: nat, data: Block, valid: bool, dirty: bool)

  /** The request that the device is working on: a write takes its data along when it
      starts. */
  datatype Device = Quiet | Busy(write: bool, blockno: nat, data: Block)

  // ---------- memide.c ----------

  datatype Mem = Mem(disk: seq<Block>, bufs: seq<Buf>)

  /** iderw of memide.c. */
  function Serve(m: Mem, b: nat): (r: Mem)
    requires b < |m.bufs| && m.bufs[b].blockno < |m.disk|
  {
    var x := m.bufs[b];
    if x.dirty then Mem(m.disk[x.blockno := x.data], m.bufs[b := x.(valid := true, dirty := false)])
    else Mem(m.disk, m.bufs[b := x.(valid := true, data := m.disk[x.blockno])])
  }

  // ---------- ide.c ----------

  /** `waiting` are the buffers whose locker is inside iderw, `asleep` those whose locker
      sleeps there; `submitted` and `served` record the requests in order. */
  datatype Ide = Ide(disk: seq<Block>, bufs: seq<Buf>, queue: seq<nat>, device: Device, waiting: set<nat>,
                     asleep: set<nat>, submitted: seq<nat>, served: seq<nat>)

  datatype Act =
    | Submit(b: nat) | Interrupt | Resume(b: nat) | Wake(b: nat)
    | Modify(b: nat, blockno: nat, data: Block, valid: bool, dirty: bool)

  /** idestart. */
  function Command(x: Buf): (r: Device) {
    Busy(x.dirty, x.blockno, if x.dirty then x.data else [])
  }

  predicate Pending(x: Buf) {
    !(x.valid && !x.dirty)
  }

  /** iderw up to its first sleep: it does not panic, as the buffer has something to do
      and its block is on the disk. */
  function SubmitStep(s: Ide, b: nat): (r: Ide) {
    if b < |s.bufs| && b !in s.waiting && Pending(s.bufs[b]) && s.bufs[b].blockno < |s.disk| then
      s.(queue := s.queue + [b], device := if s.queue == [] then Command(s.bufs[b]) else s.device,
         waiting := s.waiting + {b}, asleep := s.asleep + {b}, submitted := s.submitted + [b])
    else s
  }

  /** The device has finished: its effect, and ideintr. */
  function InterruptStep(s: Ide): (r: Ide)
    requires forall k | 0 <= k < |s.queue| :: s.queue[k] < |s.bufs|
    requires s.device.Busy? ==> s.device.blockno < |s.disk|
  {
    if s.queue == [] || s.device.Quiet? then s
    else
      var b := s.queue[0];
      var disk := if s.device.write then s.disk[s.device.blockno := s.device.data] else s.disk;
      var x := if s.bufs[b].dirty then s.bufs[b] else s.bufs[b].(data := disk[s.device.blockno]);
      var bufs := s.bufs[b := x.(valid := true, dirty := false)];
      var queue := s.queue[1..];
      s.(disk := disk, bufs := bufs, queue := queue, device := if queue == [] then Quiet else Command(bufs[queue[0]]),
         asleep := s.asleep - {b}, served := s.served + [b])
  }

  /** A requester is woken before its request is done, as by a kill. */
  function WakeStep(s: Ide, b: nat): (r: Ide) {
    s.(asleep := s.asleep - {b})
  }

  /** A requester that was woken tests its buffer again. */
  function ResumeStep(s: Ide, b: nat): (r: Ide) {
    if b < |s.bufs| && b in s.waiting && b !in s.asleep then
      if Pending(s.bufs[b]) then s.(asleep := s.asleep + {b}) else s.(waiting := s.waiting - {b})
    else s
  }

  /** The queue holds different buffers with something to do, and the device works on the
      first of them. */
  ghost predicate QueueOk(s: Ide) {
    && (forall k | 0 <= k < |s.queue| ::
        s.queue[k] < |s.bufs| && s.queue[k] in s.waiting && Pending(s.bufs[s.queue[k]]) &&
            s.bufs[s.queue[k]].blockno < |s.disk|)
    && (forall k, l | 0 <= k < l < |s.queue| :: s.queue[k] != s.queue[l])
    && s.device == (if s.queue == [] then Quiet else Command(s.bufs[s.queue[0]]))
  }

  /** A requester sleeps only while its buffer is in the queue, and its buffer is done when
      it is not. */
  ghost predicate RequestersOk(s: Ide) {
    && s.asleep <= s.waiting
    && (forall b | b in s.waiting :: b < |s.bufs|)
    && (forall b | b in s.asleep :: b in s.queue)
    && (forall b | b in s.waiting && b !in s.queue :: !Pending(s.bufs[b]))
  }

  ghost predicate Ok(s: Ide) {
    QueueOk(s) && RequestersOk(s) && s.submitted == s.served + s.queue
  }

  /** Between its calls of iderw, the holder of a buffer's lock may change the buffer. */
  function ModifyStep(s: Ide, b: nat, x: Buf): (r: Ide) {
    if b < |s.bufs| && b !in s.waiting then s.(bufs := s.bufs[b := x]) else s
  }

  ghost function Step(s: Ide, a: Act): (r: Ide)
    requires Ok(s)
  {
    match a
    case Submit(b) => SubmitStep(s, b)
    case Interrupt => InterruptStep(s)
    case Resume(b) => ResumeStep(s, b)
    case Wake(b) => WakeStep(s, b)
    case Modify(b, blockno, data, valid, dirty) => ModifyStep(s, b, Buf(blockno, data, valid, dirty))
  }

  lemma StepOk(s: Ide, a: Act)
    requires Ok(s)
    ensures Ok(Step(s, a))
  {
    match a
    case Submit(b) => SubmitOk(s, b);
    case Interrupt => InterruptOk(s);
    case Resume(b) => ResumeOk(s, b);
    case Wake(b) => WakeOk(s, b);
    case Modify(b, blockno, data, valid, dirty) => ModifyOk(s, b, Buf(blockno, data, valid, dirty));
  }

  lemma SubmitOk(s: Ide, b: nat)
    requires Ok(s)
    ensures Ok(SubmitStep(s, b))
  {
    var s' := SubmitStep(s, b);
    if s' != s {
      assert s'.queue[|s.queue|] == b;
      assert forall c | c in s.queue :: c in s'.queue;
    }
  }

  lemma ResumeOk(s: Ide, b: nat)
    requires Ok(s)
    ensures Ok(ResumeStep(s, b))
  {
  }

  lemma WakeOk(s: Ide, b: nat)
    requires Ok(s)
    ensures Ok(WakeStep(s, b))
  {
  }

  lemma ModifyOk(s: Ide, b: nat, x: Buf)
    requires Ok(s)
    ensures Ok(ModifyStep(s, b, x))
  {
  }

  lemma InterruptOk(s: Ide)
    requires Ok(s)
    ensures Ok(InterruptStep(s))
  {
    if s.queue != [] {
      InterruptQueue(s);
      InterruptRequesters(s);
      hide QueueOk, RequestersOk;
      assert s.served + s.queue == s.served + [s.queue[0]] + s.queue[1..];
    }
  }

  lemma InterruptQueue(s: Ide)
    requires QueueOk(s) && s.queue != []
    ensures QueueOk(InterruptStep(s))
  {
    var s' := InterruptStep(s);
    forall k | 0 <= k < |s'.queue|
      ensures s'.queue[k] < |s'.bufs| && s'.queue[k] in s'.waiting && Pending(s'.bufs[s'.queue[k]]) &&
              s'.bufs[s'.queue[k]].blockno < |s'.disk|
    {
      assert s'.queue[k] == s.queue[k + 1] != s.queue[0];
    }
  }

  lemma InterruptRequesters(s: Ide)
    requires QueueOk(s) && RequestersOk(s) && s.queue != []
    ensures RequestersOk(InterruptStep(s))
  {
    var s' := InterruptStep(s);
    forall c | c in s'.asleep
      ensures c in s'.queue
    {
      var k :| 0 <= k < |s.queue| && s.queue[k] == c;
      assert s'.queue[k - 1] == c;
    }
  }

  /** A request for a buffer with something to do, whose block is on the disk, gets in: it
      goes to the end of the queue, and the device starts on it if there is no other. */
  lemma SubmitEnters(s: Ide, b: nat)
    requires Ok(s) && b < |s.bufs| && b !in s.waiting && s.bufs[b].blockno < |s.disk|
    requires s.bufs[b].dirty || !s.bufs[b].valid
    ensures var s' := Step(s, Submit(b));
            && b in s'.asleep && s'.queue == s.queue + [b] && s'.submitted == s.submitted + [b]
            && s'.disk == s.disk && s'.bufs == s.bufs && s'.served == s.served && s'.waiting == s.waiting + {b}
            && (s.queue == [] ==> s'.device.Busy? && s'.device.blockno == s.bufs[b].blockno)
            && (s.queue != [] ==> s'.device == s.device)
  {
  }

  /** What memide's iderw does: buffer and block agree afterwards, on the buffer's data if it
      was dirty and on the block's if not; nothing else changes. */
  lemma ServeSyncs(m: Mem, b: nat)
    requires b < |m.bufs| && m.bufs[b].blockno < |m.disk|
    ensures var x, m' := m.bufs[b], Serve(m, b);
            && |m'.disk| == |m.disk| && |m'.bufs| == |m.bufs|
            && m'.bufs[b].valid && !m'.bufs[b].dirty && m'.bufs[b].blockno == x.blockno
            && m'.disk[x.blockno] == m'.bufs[b].data == (if x.dirty then x.data else m.disk[x.blockno])
            && (forall n | 0 <= n < |m.disk| && n != x.blockno :: m'.disk[n] == m.disk[n])
            && (forall c | 0 <= c < |m.bufs| && c != b :: m'.bufs[c] == m.bufs[c])
  {
  }

  // ---------- refinement ----------

  /** What an action is to the memory disk: a request served, a change by the holder of a
      buffer, or nothing. */
  datatype MemOp = Sync(b: nat) | Change(b: nat, x: Buf) | Nothing

  ghost function Image(s: Ide, a: Act): (r: MemOp)
    requires Ok(s)
  {
    match a
    case Interrupt => if s.queue == [] then Nothing else Sync(s.queue[0])
    case Modify(b, blockno, data, valid, dirty) =>
      if b < |s.bufs| && b !in s.waiting then Change(b, Buf(blockno, data, valid, dirty)) else Nothing
    case _ => Nothing
  }

  function MemStep(m: Mem, op: MemOp): (r: Mem) {
    match op
    case Sync(b) => if b < |m.bufs| && m.bufs[b].blockno < |m.disk| then Serve(m, b) else m
    case Change(b, x) => if b < |m.bufs| then m.(bufs := m.bufs[b := x]) else m
    case Nothing => m
  }

  function View(s: Ide): Mem {
    Mem(s.disk, s.bufs)
  }

  /** Every action does to disk and buffers what the memory disk does. */
  lemma StepRefines(s: Ide, a: Act)
    requires Ok(s)
    ensures View(Step(s, a)) == MemStep(View(s), Image(s, a))
  {
  }

  function MemRun(m: Mem, ops: seq<MemOp>): (r: Mem) {
    if ops == [] then m else MemStep(MemRun(m, ops[..|ops| - 1]), ops[|ops| - 1])
  }

  /** The buffers served, in order. */
  function Syncs(ops: seq<MemOp>): (r: seq<nat>) {
    if ops == [] then []
    else Syncs(ops[..|ops| - 1]) + if ops[|ops| - 1].Sync? then [ops[|ops| - 1].b] else []
  }

  ghost predicate IsRun(states: seq<Ide>, acts: seq<Act>) {
    && |states| == |acts| + 1
    && (forall i | 0 <= i < |acts| :: Ok(states[i]) ==> states[i + 1] == Step(states[i], acts[i]))
  }

  function Start(m: Mem): (r: Ide) {
    Ide(m.disk, m.bufs, [], Quiet, {}, {}, [], [])
  }

  lemma StartOk(m: Mem)
    ensures Ok(Start(m))
  {
  }

  lemma ServedNext(s: Ide, a: Act)
    requires Ok(s)
    ensures Step(s, a).served == s.served + if Image(s, a).Sync? then [Image(s, a).b] else []
    ensures Step(s, a).submitted == s.submitted || exists b :: Step(s, a).submitted == s.submitted + [b]
    ensures s.served <= s.submitted
  {
  }

  /** In every run: disk and buffers are what the memory disk gives for the images of the
      actions, one by one; the requests are served in the order in which they were made;
      and a caller that sleeps is still in the queue, so none sleeps for ever beside a
      finished request. */
  lemma {:induction false} RunRefines(m: Mem, states: seq<Ide>, acts: seq<Act>, i: nat) returns (ops: seq<MemOp>)
    requires IsRun(states, acts) && states[0] == Start(m) && i < |states|
    ensures Ok(states[i]) && |ops| == i
    ensures forall j | 0 <= j < i :: Ok(states[j]) && ops[j] == Image(states[j], acts[j])
    ensures View(states[i]) == MemRun(m, ops)
    ensures states[i].served == Syncs(ops) && states[i].served <= states[i].submitted
  {
    hide Ok, Step, Image;
    if i == 0 {
      ops := [];
      StartOk(m);
    } else {
      var before := RunRefines(m, states, acts, i - 1);
      var s, a := states[i - 1], acts[i - 1];
      StepOk(s, a);
      StepRefines(s, a);
      ServedNext(s, a);
      ops := before + [Image(s, a)];
      assert ops[..|ops| - 1] == before;
      assert states[i - 1 + 1] == Step(s, a);
      ServedNext(states[i], a);
    }
  }

  // ---------- one call of iderw ----------

  ghost predicate Serves(s: Ide, a: Act, b: nat) {
    Ok(s) && Image(s, a) == Sync(b)
  }

  /** The call for buffer b, which was x when the call began, still waits for its turn. */
  ghost predicate Queued(s: Ide, b: nat, x: Buf) {
    b in s.queue && b in s.waiting && b < |s.bufs| && s.bufs[b] == x
  }

  /** The call for buffer b has been served, which left x in the buffer. */
  ghost predicate Served(s: Ide, b: nat, x: Buf) {
    b !in s.queue && b in s.waiting && b < |s.bufs| && s.bufs[b] == x && !Pending(x)
  }

  lemma QueuedNext(s: Ide, a: Act, b: nat, x: Buf)
    requires Ok(s) && Queued(s, b, x)
    ensures x.blockno < |s.disk|
    ensures if Serves(s, a, b)
            then Step(s, a).disk == Serve(View(s), b).disk && Served(Step(s, a), b, Serve(View(s), b).bufs[b])
            else Queued(Step(s, a), b, x)
  {
    var k :| 0 <= k < |s.queue| && s.queue[k] == b;
    if a.Interrupt? && k > 0 {
      assert Step(s, a).queue[k - 1] == b;
    }
  }

  lemma ServedStays(s: Ide, a: Act, b: nat, x: Buf)
    requires Ok(s) && Served(s, b, x)
    ensures !Serves(s, a, b)
    ensures b in Step(s, a).waiting ==> Served(Step(s, a), b, x)
  {
  }

  lemma SubmitQueues(s: Ide, b: nat)
    requires Ok(s) && b !in s.waiting && b in Step(s, Submit(b)).waiting
    ensures b < |s.bufs| && Queued(Step(s, Submit(b)), b, s.bufs[b])
  {
    var queue := Step(s, Submit(b)).queue;
    assert queue[|queue| - 1] == b;
  }

  /** The step from s to s' serves the call for b that began with x in the buffer. */
  ghost predicate ServedBy(s: Ide, a: Act, s': Ide, b: nat, x: Buf) {
    && Serves(s, a, b) && b < |s.bufs| && s.bufs[b] == x && x.blockno < |s.disk|
    && View(s') == Serve(View(s), b)
  }

  lemma QueuedServed(s: Ide, a: Act, b: nat, x: Buf)
    requires Ok(s) && Queued(s, b, x) && Serves(s, a, b)
    ensures ServedBy(s, a, Step(s, a), b, x) && Served(Step(s, a), b, Serve(View(s), b).bufs[b])
  {
    QueuedNext(s, a, b, x);
    StepRefines(s, a);
  }

  /** How far the call for b that began with action i has come before action t: `k` is the
      action that served it, -1 if none has. */
  ghost predicate CallAt(states: seq<Ide>, acts: seq<Act>, b: nat, i: nat, t: nat, k: int) {
    && |states| == |acts| + 1 && i < t < |states| && b < |states[i].bufs|
    && (forall l | i < l < t && l != k :: !Serves(states[l], acts[l], b))
    && if k == -1 then Queued(states[t], b, states[i].bufs[b])
       else i < k < t && ServedBy(states[k], acts[k], states[k + 1], b, states[i].bufs[b]) &&
            b < |states[k + 1].bufs| && Served(states[t], b, states[k + 1].bufs[b])
  }

  lemma {:induction false} CallSoFar(states: seq<Ide>, acts: seq<Act>, b: nat, i: nat, t: nat) returns (k: int)
    requires IsRun(states, acts) && i < t < |states| && acts[i] == Submit(b)
    requires forall j | 0 <= j < |states| :: Ok(states[j])
    requires b !in states[i].waiting && forall j | i < j <= t :: b in states[j].waiting
    ensures CallAt(states, acts, b, i, t, k)
  {
    hide Ok, Step, Serves, Queued, Served, ServedBy;
    var s, a := states[t - 1], acts[t - 1];
    assert states[t - 1 + 1] == Step(s, a);
    if t == i + 1 {
      k := -1;
      SubmitQueues(s, b);
    } else {
      k := CallSoFar(states, acts, b, i, t - 1);
      if k != -1 {
        ServedStays(s, a, b, states[k + 1].bufs[b]);
      } else if Serves(s, a, b) {
        QueuedServed(s, a, b, states[i].bufs[b]);
        k := t - 1;
      } else {
        QueuedNext(s, a, b, states[i].bufs[b]);
      }
    }
  }

  /** iderw returns only with its buffer valid, clean and out of the queue, and leaves it
      so. */
  lemma ReturnsSynced(s: Ide, a: Act, b: nat)
    requires Ok(s) && b in s.waiting && b !in Step(s, a).waiting
    ensures a == Resume(b) && b < |s.bufs| && Step(s, a).bufs == s.bufs
    ensures s.bufs[b].valid && !s.bufs[b].dirty && b !in s.queue
  {
  }

  lemma CallReturns(s: Ide, a: Act, b: nat, x: Buf)
    requires Ok(s) && b in s.waiting && b !in Step(s, a).waiting
    ensures !Queued(s, b, x) && !Serves(s, a, b) && b < |Step(s, a).bufs|
    ensures Served(s, b, x) ==> Step(s, a).bufs[b] == x && x.valid && !x.dirty
  {
    ReturnsSynced(s, a, b);
  }

  /** A call of iderw for b that begins with action i and returns with action j takes effect
      at one moment between them: exactly one interrupt k serves it, on the buffer as it was
      handed over, and does to disk and buffer what memide's iderw does; the call returns
      with that buffer, valid and clean. */
  lemma CallIsSync(m: Mem, states: seq<Ide>, acts: seq<Act>, b: nat, i: nat, j: nat) returns (k: nat)
    requires IsRun(states, acts) && states[0] == Start(m) && i < j < |acts| && acts[i] == Submit(b)
    requires b !in states[i].waiting && b !in states[j + 1].waiting
    requires forall l | i < l <= j :: b in states[l].waiting
    ensures i < k < j && b < |states[i].bufs| && b < |states[k].bufs| && b < |states[j + 1].bufs|
    ensures Serves(states[k], acts[k], b) && forall l | i < l <= j && l != k :: !Serves(states[l], acts[l], b)
    ensures states[k].bufs[b] == states[i].bufs[b] && states[k].bufs[b].blockno < |states[k].disk|
    ensures View(states[k + 1]) == Serve(View(states[k]), b)
    ensures states[j + 1].bufs[b] == states[k + 1].bufs[b]
    ensures states[j + 1].bufs[b].valid && !states[j + 1].bufs[b].dirty
  {
    hide Ok, Step, Serves, Queued, Served;
    RunOk(m, states, acts);
    var c := CallSoFar(states, acts, b, i, j);
    assert states[j + 1] == Step(states[j], acts[j]);
    CallReturns(states[j], acts[j], b, states[if c == -1 then i else c + 1].bufs[b]);
    k := c;
  }

  // ---------- every call returns ----------

  /** A requester that tests its buffer returns if its request has left the queue, and sleeps
      if not, however often it is woken before. */
  lemma TestsAgain(s: Ide, b: nat)
    requires Ok(s) && b in s.waiting
    ensures b in s.queue ==> Step(s, Resume(b)) == s.(asleep := s.asleep + {b})
    ensures b !in s.queue ==> Step(s, Resume(b)) == s.(waiting := s.waiting - {b})
    ensures Step(s, Wake(b)) == s.(asleep := s.asleep - {b})
  {
    assert b in s.asleep ==> s.asleep + {b} == s.asleep;
  }

  ghost function Interrupts(s: Ide, n: nat): (r: Ide)
    requires Ok(s)
    ensures Ok(r)
  {
    if n == 0 then s
    else
      var t := Interrupts(s, n - 1);
      StepOk(t, Interrupt);
      Step(t, Interrupt)
  }

  lemma {:induction false} QueueShrinks(s: Ide, n: nat)
    requires Ok(s) && n <= |s.queue|
    ensures Interrupts(s, n).queue == s.queue[n..] && Interrupts(s, n).waiting == s.waiting
  {
    if n > 0 {
      QueueShrinks(s, n - 1);
      assert s.queue[n - 1..][1..] == s.queue[n..];
    }
  }

  /** After as many interrupts as there are requests up to its own, a call of iderw returns. */
  lemma CallComesBack(s: Ide, b: nat) returns (n: nat)
    requires Ok(s) && b in s.waiting
    ensures n <= |s.queue| && (forall k | 0 <= k < |s.queue| :: s.queue[k] == b <==> k + 1 == n)
    ensures b !in Step(Interrupts(s, n), Resume(b)).waiting
  {
    if b in s.queue {
      var k :| 0 <= k < |s.queue| && s.queue[k] == b;
      n := k + 1;
    } else {
      n := 0;
    }
    QueueShrinks(s, n);
    TestsAgain(Interrupts(s, n), b);
  }

  lemma RunOk(m: Mem, states: seq<Ide>, acts: seq<Act>)
    requires IsRun(states, acts) && states[0] == Start(m)
    ensures forall j | 0 <= j < |states| :: Ok(states[j])
  {
    forall j | 0 <= j < |states|
      ensures Ok(states[j])
    {
      var _ := RunRefines(m, states, acts, j);
    }
  }

  // ---------- the list ----------

  /** The buffer that follows the k-th one in the queue, -1 after the last. */
  function Following(q: seq<nat>, k: nat): int {
    if k + 1 < |q| then q[k + 1] else -1
  }

  ghost predicate Linked(q: seq<nat>, qnext: seq<int>) {
    forall k: nat | k < |q| :: q[k] < |qnext| && qnext[q[k]] == Following(q, k)
  }

  lemma LinkedAt(q: seq<nat>, qnext: seq<int>, k: nat)
    requires Linked(q, qnext) && k < |q|
    ensures q[k] < |qnext| && qnext[q[k]] == if k + 1 < |q| then q[k + 1] else -1
  {
  }

  lemma LinkedFirst(qnext: seq<int>, b: nat)
    requires b < |qnext| && qnext[b] == -1
    ensures Linked([b], qnext)
  {
  }

  lemma LinkedWithout(q: seq<nat>, qnext: seq<int>, b: nat)
    requires Linked(q, qnext) && b < |qnext| && b !in q
    ensures Linked(q, qnext[b := -1])
  {
  }

  lemma LinkedLast(q: seq<nat>, qnext: seq<int>, b: nat)
    requires Linked(q, qnext) && q != [] && b < |qnext| && b !in q && qnext[b] == -1
    requires forall k, l | 0 <= k < l < |q| :: q[k] != q[l]
    ensures q[|q| - 1] < |qnext| && Linked(q + [b], qnext[q[|q| - 1] := b])
  {
    var next' := qnext[q[|q| - 1] := b];
    forall k: nat | k < |q| + 1
      ensures (q + [b])[k] < |next'| && next'[(q + [b])[k]] == Following(q + [b], k)
    {
      if k < |q| { LinkedAt(q, qnext, k); }
    }
  }

  /** idequeue: `head` is the first buffer, -1 for none, and qnext[b] the one after b. */
  class Queue {
    var head: int
    var qnext: seq<int>
    ghost var q: seq<nat>

    ghost predicate Valid()
      reads this
    {
      && (forall k, l | 0 <= k < l < |q| :: q[k] != q[l])
      && head == (if q == [] then -1 else q[0])
      && Linked(q, qnext)
    }

    constructor (n: nat)
      ensures Valid() && q == [] && |qnext| == n
    {
      head, qnext, q := -1, seq(n, _ => -1), [];
    }

    /** The loop of iderw: b goes to the end of the list; `first` tells whether the device
        must be started. */
    method Append(b: nat) returns (first: bool)
      requires Valid() && b < |qnext| && b !in q
      modifies this
      ensures Valid() && q == old(q) + [b] && first == (old(q) == []) && |qnext| == |old(qnext)|
    {
      hide Linked, Following;
      ghost var q0, next0 := q, qnext;
      qnext := qnext[b := -1];
      if head == -1 {
        head := b;
        LinkedFirst(qnext, b);
        assert q + [b] == [b];
      } else {
        LinkedWithout(q, next0, b);
        var pp := head;
        ghost var k := 0;
        LinkedAt(q, qnext, k);
        while qnext[pp] != -1
          invariant 0 <= k < |q| && pp == q[k] && 0 <= pp < |qnext| && q == q0 && qnext == next0[b := -1] &&
                    head == q[0]
          invariant qnext[pp] == if k + 1 < |q| then q[k + 1] else -1
          decreases |q| - k
        {
          pp := qnext[pp];
          k := k + 1;
          LinkedAt(q, qnext, k);
        }
        assert k == |q| - 1;
        LinkedLast(q, qnext, b);
        qnext := qnext[pp := b];
      }
      q := q + [b];
      first := head == b;
    }

    /** ideintr takes the first buffer. */
    method Pop() returns (b: int)
      requires Valid()
      modifies this
      ensures Valid() && |qnext| == |old(qnext)|
      ensures if old(q) == [] then b == -1 && q == [] else b == old(q)[0] && q == old(q)[1..]
    {
      b := head;
      if b == -1 {
        return;
      }
      assert qnext[q[0]] == Following(q, 0);
      head := qnext[b];
      forall k: nat | k < |q| - 1
        ensures q[1..][k] < |qnext| && qnext[q[1..][k]] == Following(q[1..], k)
      {
        assert qnext[q[k + 1]] == Following(q, k + 1);
      }
      q := q[1..];
    }
  }
}
