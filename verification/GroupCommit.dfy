/** Group commit in log.c as a transition system: any number of file system operations
    run between begin_op and end_op, each of them may call log_write, and the last one
    to end commits for all.  The check at the top of log_write and the recording of the
    block under log.lock are separate steps, since log.c makes the check unlocked. */
module GroupCommit {
  import opened Params

  type OpId = int

  datatype Option<T> = None | Some(value: T)

  /** An operation in progress: the blocks it has logged, and the block of a log_write
      that has passed the checks but has not been recorded yet. */
  datatype Op = Op(own: set<nat>, pending: Option<nat>)

  /** Where the committing process is: before or after it sets lh.n to 0. */
  datatype Phase = Open | Writing | Erased

  datatype Log = Log(blocks: seq<nat>, outstanding: int, committing: bool, phase: Phase, ops: map<OpId, Op>)

  const INIT := Log([], 0, false, Open, map[])

  datatype Step =
    | Begin(o: OpId)
    | Check(o: OpId, b: nat)
    | Record(o: OpId)
    | End(o: OpId)
    | Erase
    | Finish

  /** log_write panics in this state; `size` is log.size. */
  predicate TooBig(size: int, s: Log) {
    |s.blocks| >= LOGSIZE || |s.blocks| >= size - 1
  }

  /** An operation logs at most MAXOPBLOCKS distinct blocks. */
  predicate WithinReservation(op: Op, b: nat) {
    |op.own + {b}| <= MAXOPBLOCKS
  }

  predicate Enabled(size: int, s: Log, step: Step) {
    match step
    case Begin(o) =>
      && o !in s.ops
      && !s.committing
      && |s.blocks| + (s.outstanding + 1) * MAXOPBLOCKS <= LOGSIZE
    case Check(o, b) =>
      && o in s.ops && s.ops[o].pending == None && WithinReservation(s.ops[o], b)
      && !TooBig(size, s) && s.outstanding >= 1
    case Record(o) => o in s.ops && s.ops[o].pending.Some?
    case End(o) => o in s.ops && s.ops[o].pending == None && !s.committing
    case Erase => s.phase == Writing
    case Finish => s.phase == Erased
  }

  function Next(s: Log, step: Step): (r: Log)
    requires match step
             case Check(o, _) => o in s.ops
             case Record(o) => o in s.ops && s.ops[o].pending.Some?
             case _ => true
  {
    match step
    case Begin(o) => s.(outstanding := s.outstanding + 1, ops := s.ops[o := Op({}, None)])
    case Check(o, b) => s.(ops := s.ops[o := s.ops[o].(pending := Some(b))])
    case Record(o) =>
      var b := s.ops[o].pending.value;
      s.(blocks := if b in s.blocks then s.blocks else s.blocks + [b],
         ops := s.ops[o := Op(s.ops[o].own + {b}, None)])
    case End(o) =>
      if s.outstanding - 1 == 0 then
        s.(outstanding := 0, ops := s.ops - {o}, committing := true, phase := Writing)
      else
        s.(outstanding := s.outstanding - 1, ops := s.ops - {o})
    case Erase => s.(blocks := [], phase := Erased)
    case Finish => s.(committing := false, phase := Open)
  }

  /** The blocks that operations in progress may still log. */
  ghost function Unused(ops: map<OpId, Op>): (r: int) {
    if !exists o :: o in ops then 0 else
      var o :| o in ops;
      MAXOPBLOCKS - |ops[o].own| + Unused(ops - {o})
  }

  ghost predicate Inv(s: Log) {
    && s.outstanding == |s.ops|
    && (s.committing ==> s.outstanding == 0)
    && (s.committing <==> s.phase != Open)
    && (s.phase == Erased ==> s.blocks == [])
    && (forall i, j | 0 <= i < j < |s.blocks| :: s.blocks[i] != s.blocks[j])
    && (forall o | o in s.ops :: OpInv(s.blocks, s.ops[o]))
    && |s.blocks| + Unused(s.ops) <= LOGSIZE
  }

  ghost predicate OpInv(blocks: seq<nat>, op: Op) {
    && |op.own| <= MAXOPBLOCKS
    && (forall b | b in op.own :: b in blocks)
    && (op.pending.Some? ==> WithinReservation(op, op.pending.value))
  }

  lemma {:induction false} UnusedSplit(ops: map<OpId, Op>, o: OpId)
    requires o in ops
    ensures Unused(ops) == MAXOPBLOCKS - |ops[o].own| + Unused(ops - {o})
    decreases |ops|
  {
    var p :| p in ops && Unused(ops) == MAXOPBLOCKS - |ops[p].own| + Unused(ops - {p});
    if p != o {
      UnusedSplit(ops - {p}, o);
      UnusedSplit(ops - {o}, p);
      assert ops - {p} - {o} == ops - {o} - {p};
    }
  }

  lemma UnusedUpdate(ops: map<OpId, Op>, o: OpId, op: Op)
    ensures Unused(ops[o := op]) == MAXOPBLOCKS - |op.own| + Unused(ops - {o})
  {
    UnusedSplit(ops[o := op], o);
    assert ops[o := op] - {o} == ops - {o};
  }

  /** Every operation in progress holds at most a full reservation. */
  lemma {:induction false} UnusedBound(ops: map<OpId, Op>)
    requires forall o | o in ops :: |ops[o].own| <= MAXOPBLOCKS
    ensures 0 <= Unused(ops) <= |ops| * MAXOPBLOCKS
    decreases |ops|
  {
    if o :| o in ops {
      UnusedSplit(ops, o);
      assert |ops - {o}| == |ops| - 1 by {
        assert (ops - {o}).Keys == ops.Keys - {o};
      }
      UnusedBound(ops - {o});
    }
  }

  lemma RemoveCount(ops: map<OpId, Op>, o: OpId)
    requires o in ops
    ensures |ops - {o}| == |ops| - 1
  {
    assert (ops - {o}).Keys == ops.Keys - {o};
  }

  lemma AddCount(ops: map<OpId, Op>, o: OpId, op: Op)
    ensures |ops[o := op]| == if o in ops then |ops| else |ops| + 1
  {
    assert ops[o := op].Keys == ops.Keys + {o};
  }

  lemma BeginKeepsInv(s: Log, o: OpId)
    requires Inv(s) && Enabled(0, s, Begin(o))
    ensures Inv(Next(s, Begin(o)))
  {
    hide Unused, OpInv;
    var s' := Next(s, Begin(o));
    UnusedBound(s.ops) by { OwnBounded(s); }
    EmptyOp(s.blocks);
    UnusedUpdate(s.ops, o, Op({}, None));
    AddCount(s.ops, o, Op({}, None));
    assert s.ops - {o} == s.ops;
    assert forall p | p in s'.ops :: p == o || OpInv(s.blocks, s.ops[p]);
  }

  lemma OwnBounded(s: Log)
    requires Inv(s)
    ensures forall o | o in s.ops :: |s.ops[o].own| <= MAXOPBLOCKS
  {
    assert forall o | o in s.ops :: OpInv(s.blocks, s.ops[o]);
  }

  lemma EmptyOp(blocks: seq<nat>)
    ensures OpInv(blocks, Op({}, None))
  {
  }

  lemma CheckKeepsInv(s: Log, o: OpId, b: nat)
    requires Inv(s) && o in s.ops && WithinReservation(s.ops[o], b)
    ensures Inv(Next(s, Check(o, b)))
  {
    var s' := Next(s, Check(o, b));
    UnusedSplit(s.ops, o);
    UnusedUpdate(s.ops, o, s'.ops[o]);
    AddCount(s.ops, o, s'.ops[o]);
    assert forall p | p in s'.ops :: OpInv(s.blocks, s.ops[p]);
  }

  lemma RecordKeepsInv(s: Log, o: OpId)
    requires Inv(s) && o in s.ops && s.ops[o].pending.Some?
    ensures Inv(Next(s, Record(o)))
  {
    var s' := Next(s, Record(o));
    assert OpInv(s.blocks, s.ops[o]);
    UnusedSplit(s.ops, o);
    UnusedUpdate(s.ops, o, s'.ops[o]);
    AddCount(s.ops, o, s'.ops[o]);
    assert forall p | p in s'.ops :: OpInv(s.blocks, s.ops[p]);
  }

  lemma EndKeepsInv(s: Log, o: OpId)
    requires Inv(s) && o in s.ops && !s.committing
    ensures Inv(Next(s, End(o)))
  {
    var s' := Next(s, End(o));
    assert OpInv(s.blocks, s.ops[o]);
    UnusedSplit(s.ops, o);
    RemoveCount(s.ops, o);
    assert forall p | p in s'.ops :: OpInv(s.blocks, s.ops[p]);
  }

  /** Every step keeps the invariant, whatever log.size is. */
  lemma StepKeepsInv(size: int, s: Log, step: Step)
    requires Inv(s) && Enabled(size, s, step)
    ensures Inv(Next(s, step))
  {
    match step
    case Begin(o) => BeginKeepsInv(s, o);
    case Check(o, b) => CheckKeepsInv(s, o, b);
    case Record(o) => RecordKeepsInv(s, o);
    case End(o) => EndKeepsInv(s, o);
    case Erase => UnusedBound(s.ops);
    case Finish =>
  }

  // ---------- runs ----------

  ghost predicate IsRun(size: int, s: Log, steps: seq<Step>)
    decreases |steps|
  {
    steps == [] || (Enabled(size, s, steps[0]) && IsRun(size, Next(s, steps[0]), steps[1..]))
  }

  ghost function Final(size: int, s: Log, steps: seq<Step>): (r: Log)
    requires IsRun(size, s, steps)
    decreases |steps|
  {
    if steps == [] then s else Final(size, Next(s, steps[0]), steps[1..])
  }

  ghost predicate Reachable(size: int, s: Log) {
    exists steps :: IsRun(size, INIT, steps) && Final(size, INIT, steps) == s
  }

  lemma {:induction false} RunKeepsInv(size: int, s: Log, steps: seq<Step>)
    requires Inv(s) && IsRun(size, s, steps)
    ensures Inv(Final(size, s, steps))
    decreases |steps|
  {
    if steps != [] {
      StepKeepsInv(size, s, steps[0]);
      RunKeepsInv(size, Next(s, steps[0]), steps[1..]);
    }
  }

  /** In every interleaving of any number of operations: a commit runs only when no
      operation is in progress, the recorded blocks are distinct, and together with the
      blocks that the operations in progress may still log they fit the header. */
  lemma ReachableInv(size: int, s: Log)
    requires Reachable(size, s)
    ensures s.committing ==> s.outstanding == 0 && s.ops == map[]
    ensures forall i, j | 0 <= i < j < |s.blocks| :: s.blocks[i] != s.blocks[j]
    ensures |s.blocks| + Unused(s.ops) <= LOGSIZE && Unused(s.ops) >= 0
    ensures s.outstanding == |s.ops|
    ensures Inv(s)
  {
    var steps :| IsRun(size, INIT, steps) && Final(size, INIT, steps) == s;
    RunKeepsInv(size, INIT, steps);
    assert forall p | p in s.ops :: OpInv(s.blocks, s.ops[p]);
    UnusedBound(s.ops);
  }

  /** While a commit is writing, nothing but the commit changes the recorded blocks. */
  lemma FrozenDuringCommit(size: int, s: Log, step: Step)
    requires Reachable(size, s) && s.phase == Writing && Enabled(size, s, step)
    ensures step == Erase
  {
    ReachableInv(size, s);
  }

  /** A commit leaves an empty log: once it is over, any operation that waits gets in. */
  lemma CommitLeavesRoom(size: int, s: Log, o: OpId)
    requires Reachable(size, s) && s.phase == Erased
    ensures Enabled(size, s, Finish) && Next(s, Finish).blocks == []
    ensures Enabled(size, Next(s, Finish), Begin(o))
  {
    ReachableInv(size, s);
  }

  /** What is begun can go on: a check is followed by its recording, an operation ends, and a
      commit comes to its end. */
  lemma Progress(size: int, s: Log, o: OpId)
    requires Reachable(size, s)
    ensures o in s.ops ==> Enabled(size, s, if s.ops[o].pending.Some? then Record(o) else End(o))
    ensures s.committing ==> Enabled(size, s, Erase) || Enabled(size, s, Finish)
  {
    ReachableInv(size, s);
    assert o in s.ops ==> |s.ops| > 0;
  }

  /** The last operation to end starts a commit of all recorded blocks, and no other does. */
  lemma LastEndCommits(size: int, s: Log, o: OpId)
    requires Reachable(size, s) && Enabled(size, s, End(o))
    ensures var s' := Next(s, End(o));
            && s'.blocks == s.blocks && s'.ops == s.ops - {o}
            && (s'.committing <==> forall p :: p !in s'.ops) && (s'.committing ==> s'.phase == Writing)
  {
    ReachableInv(size, s);
    RemoveCount(s.ops, o);
    var ops := s.ops - {o};
    if (forall p :: p !in ops) || |ops| == 0 {
      assert ops.Keys == {};
    }
  }

  /** end_op never finds a commit in progress, so its panic cannot happen. */
  lemma EndFindsNoCommit(size: int, s: Log, o: OpId)
    requires Reachable(size, s) && o in s.ops
    ensures !s.committing && s.outstanding >= 1
  {
    ReachableInv(size, s);
    assert |s.ops| > 0;
  }

  /** The recording step, though its check was made earlier and unlocked, never writes
      past the header array. */
  lemma RecordStaysInHeader(size: int, s: Log, o: OpId)
    requires Reachable(size, s) && o in s.ops && s.ops[o].pending.Some?
    requires s.ops[o].pending.value !in s.blocks
    ensures |s.blocks| < LOGSIZE
  {
    ReachableInv(size, s);
    assert OpInv(s.blocks, s.ops[o]);
    UnusedSplit(s.ops, o);
    assert forall p | p in s.ops - {o} :: OpInv(s.blocks, s.ops[p]);
    UnusedBound(s.ops - {o});
  }

  // ---------- runs that fill the log ----------

  function Min(a: nat, b: nat): nat {
    if a < b then a else b
  }

  lemma {:induction false} RunSnoc(size: int, s: Log, steps: seq<Step>, step: Step)
    requires IsRun(size, s, steps) && Enabled(size, Final(size, s, steps), step)
    ensures IsRun(size, s, steps + [step])
    ensures Final(size, s, steps + [step]) == Next(Final(size, s, steps), step)
    decreases |steps|
  {
    if steps == [] {
      assert ([step])[1..] == [];
    } else {
      assert (steps + [step])[1..] == steps[1..] + [step];
      RunSnoc(size, Next(s, steps[0]), steps[1..], step);
    }
  }

  lemma ReachableStep(size: int, s: Log, step: Step)
    requires Reachable(size, s) && Enabled(size, s, step)
    ensures Reachable(size, Next(s, step))
  {
    var steps :| IsRun(size, INIT, steps) && Final(size, INIT, steps) == s;
    RunSnoc(size, INIT, steps, step);
  }

  /** Operations 0, 1 and 2 are in progress and blocks 0 to m are recorded. */
  ghost predicate Stands(size: int, s: Log, m: nat) {
    && Reachable(size, s) && !s.committing && s.outstanding == 3
    && s.blocks == seq(m, i requires 0 <= i < m => i) && s.ops.Keys == {0, 1, 2}
  }

  lemma ThreeBegin(size: int) returns (s: Log)
    ensures Stands(size, s, 0) && s.ops == map[0 := Op({}, None), 1 := Op({}, None), 2 := Op({}, None)]
  {
    assert IsRun(size, INIT, []) && Final(size, INIT, []) == INIT;
    var s1 := Next(INIT, Begin(0));
    var s2 := Next(s1, Begin(1));
    s := Next(s2, Begin(2));
    ReachableStep(size, INIT, Begin(0));
    ReachableStep(size, s1, Begin(1));
    ReachableStep(size, s2, Begin(2));
  }

  lemma OwnRecorded(size: int, s: Log, o: OpId)
    requires Reachable(size, s) && o in s.ops
    ensures forall b | b in s.ops[o].own :: b in s.blocks
  {
    ReachableInv(size, s);
    assert OpInv(s.blocks, s.ops[o]);
  }

  /** Operation o logs the next block. */
  lemma LogNext(size: int, s: Log, m: nat, o: OpId) returns (s': Log)
    requires Stands(size, s, m) && o in s.ops && s.ops[o].pending == None && |s.ops[o].own| < MAXOPBLOCKS
    requires m < size - 1 && m < LOGSIZE
    ensures Stands(size, s', m + 1) && s'.ops == s.ops[o := Op(s.ops[o].own + {m}, None)]
    ensures |s'.ops[o].own| == |s.ops[o].own| + 1
  {
    hide Reachable;
    OwnRecorded(size, s, o);
    assert m !in s.ops[o].own;
    var s1 := Next(s, Check(o, m));
    s' := Next(s1, Record(o));
    ReachableStep(size, s, Check(o, m));
    ReachableStep(size, s1, Record(o));
    assert s'.ops == s.ops[o := Op(s.ops[o].own + {m}, None)];
  }

  lemma {:induction false} LogMany(size: int, s: Log, m: nat, o: OpId, k: nat) returns (s': Log)
    requires Stands(size, s, m) && o in s.ops && s.ops[o].pending == None && |s.ops[o].own| + k <= MAXOPBLOCKS
    requires k > 0 ==> m + k <= size - 1 && m + k <= LOGSIZE
    ensures Stands(size, s', m + k) && o in s'.ops && s'.ops == s.ops[o := s'.ops[o]]
    ensures s'.ops[o].pending == None && |s'.ops[o].own| == |s.ops[o].own| + k
    decreases k
  {
    if k == 0 {
      s' := s;
      assert s.ops == s.ops[o := s.ops[o]];
    } else {
      var s1 := LogNext(size, s, m, o);
      s' := LogMany(size, s1, m + 1, o, k - 1);
    }
  }

  /** Three operations can fill the log up to its limit, and the last of them has used no
      more than what the others left. */
  lemma FilledReachable(size: int, m: nat) returns (s: Log)
    requires m <= LOGSIZE && (m == 0 || m <= size - 1)
    ensures Stands(size, s, m) && 0 in s.ops && 2 in s.ops
    ensures |s.ops[0].own| == Min(m, MAXOPBLOCKS)
    ensures |s.ops[2].own| == m - Min(m, 2 * MAXOPBLOCKS)
  {
    var k0 := Min(m, MAXOPBLOCKS);
    var k1 := Min(m - k0, MAXOPBLOCKS);
    s := ThreeBegin(size);
    s := LogMany(size, s, 0, 0, k0);
    s := LogMany(size, s, k0, 1, k1);
    s := LogMany(size, s, k0 + k1, 2, m - k0 - k1);
  }

  // ---------- when log_write panics ----------

  /** No operation that has logged fewer than MAXOPBLOCKS blocks meets the panic. */
  ghost predicate ReservationSuffices(size: int) {
    forall s, o | Reachable(size, s) && o in s.ops && |s.ops[o].own| < MAXOPBLOCKS :: !TooBig(size, s)
  }

  /** The reservation keeps operations clear of the panic exactly when the log area has
      room for LOGSIZE blocks besides its header, which mkfs does not provide: it makes
      log.size equal to LOGSIZE. */
  lemma ReservationSufficesExactly(size: int)
    ensures ReservationSuffices(size) <==> size - 1 >= LOGSIZE
  {
    if size - 1 >= LOGSIZE {
      forall s, o | Reachable(size, s) && o in s.ops && |s.ops[o].own| < MAXOPBLOCKS
        ensures !TooBig(size, s)
      {
        ReachableInv(size, s);
        UnusedSplit(s.ops, o);
        assert forall p | p in s.ops - {o} :: OpInv(s.blocks, s.ops[p]);
        UnusedBound(s.ops - {o});
      }
    } else {
      var s := FilledReachable(size, if size - 1 < 0 then 0 else size - 1);
      assert 2 in s.ops && |s.ops[2].own| < MAXOPBLOCKS && TooBig(size, s);
    }
  }

  /** Some operation meets the panic when it logs, once more, a block that it has logged
      already: the check comes before the absorption. */
  ghost predicate AbsorbedWritePanics(size: int) {
    exists s, o, b :: Reachable(size, s) && o in s.ops && b in s.ops[o].own && TooBig(size, s)
  }

  /** A log area without a slot lets no operation log anything. */
  lemma {:induction false} NothingLogged(size: int, s: Log, steps: seq<Step>)
    requires size <= 1 && IsRun(size, s, steps) && s.blocks == [] && forall o | o in s.ops :: s.ops[o] == Op({}, None)
    ensures Final(size, s, steps).blocks == []
    ensures forall o | o in Final(size, s, steps).ops :: Final(size, s, steps).ops[o] == Op({}, None)
    decreases |steps|
  {
    if steps != [] {
      NothingLogged(size, Next(s, steps[0]), steps[1..]);
    }
  }

  /** However large the log area is, such a panic can be reached, unless nothing can be
      logged at all. */
  lemma AbsorbedWriteCanPanic(size: int)
    ensures AbsorbedWritePanics(size) <==> size >= 2
  {
    if size >= 2 {
      var s := FilledReachable(size, Min(LOGSIZE, size - 1));
      var b :| b in s.ops[0].own;
      assert 0 in s.ops && TooBig(size, s);
    } else {
      forall s, o, b | Reachable(size, s) && o in s.ops && b in s.ops[o].own
        ensures false
      {
        var steps :| IsRun(size, INIT, steps) && Final(size, INIT, steps) == s;
        NothingLogged(size, INIT, steps);
      }
    }
  }

  // ---------- when the log overruns its area ----------

  /** The recorded blocks have slots of their own inside the log area. */
  ghost predicate AreaSuffices(size: int) {
    forall s | Reachable(size, s) :: s.blocks == [] || |s.blocks| < size
  }

  /** Between the check of an operation and its recording, others record up to the limit of
      the check.  Operation 1 has checked block LOGSIZE; operations 0 and 2 fill the log;
      then operation 1 records one block more than the log area holds. */
  lemma OverrunReachable(size: int) returns (s: Log)
    requires 2 <= size <= LOGSIZE
    ensures Reachable(size, s) && |s.blocks| == size
  {
    var m := size - 1;
    var k1 := m - Min(m, 2 * MAXOPBLOCKS);
    var k0 := Min(m - k1, MAXOPBLOCKS);
    s := ThreeBegin(size);
    s := LogMany(size, s, 0, 1, k1);
    ReachableStep(size, s, Check(1, LOGSIZE));
    s := Next(s, Check(1, LOGSIZE));
    s := LogMany(size, s, k1, 0, k0);
    s := LogMany(size, s, k1 + k0, 2, m - k1 - k0);
    ReachableStep(size, s, Record(1));
    s := Next(s, Record(1));
  }

  /** log_write makes its check without log.lock.  The recorded blocks stay inside the log
      area exactly when it has room for LOGSIZE of them besides the header, or for none. */
  lemma AreaSufficesExactly(size: int)
    ensures AreaSuffices(size) <==> size <= 1 || size - 1 >= LOGSIZE
  {
    if size <= 1 {
      forall s | Reachable(size, s)
        ensures s.blocks == []
      {
        var steps :| IsRun(size, INIT, steps) && Final(size, INIT, steps) == s;
        NothingLogged(size, INIT, steps);
      }
    } else if size - 1 >= LOGSIZE {
      forall s | Reachable(size, s)
        ensures |s.blocks| < size
      {
        ReachableInv(size, s);
      }
    } else {
      var s := OverrunReachable(size);
      assert Reachable(size, s) && |s.blocks| == size;
    }
  }
}
