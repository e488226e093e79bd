/** Pipes, pipe.c: a ring of bytes with counters that wrap at 2^32, and the readers and
    writers that sleep on it. */
module Pipe {

  const PIPESIZE: nat := 512
  const UINT: nat := 0x1_0000_0000

  datatype Ring = Ring(data: seq<int>, nread: nat, nwrite: nat)

  predicate Shaped(r: Ring) {
    |r.data| == PIPESIZE && r.nread < UINT && r.nwrite < UINT
  }

  /** The tests of pipewrite and piperead. */
  predicate Full(r: Ring) {
    r.nwrite == (r.nread + PIPESIZE) % UINT
  }

  predicate Empty(r: Ring) {
    r.nread == r.nwrite
  }

  function PutByte(r: Ring, b: int): (r': Ring)
    requires Shaped(r)
    ensures Shaped(r')
  {
    Ring(r.data[r.nwrite % PIPESIZE := b], r.nread, (r.nwrite + 1) % UINT)
  }

  function TakeByte(r: Ring): (r': Ring)
    requires Shaped(r)
    ensures Shaped(r')
  {
    r.(nread := (r.nread + 1) % UINT)
  }

  /** The ring holds the bytes q, oldest first. */
  ghost predicate Holds(r: Ring, q: seq<int>) {
    && Shaped(r) && |q| <= PIPESIZE
    && r.nwrite == (r.nread + |q|) % UINT
    && (forall k | 0 <= k < |q| :: r.data[(r.nread + k) % PIPESIZE] == q[k])
  }

  /** The wrap-around of the counters does not disturb their remainders by PIPESIZE. */
  lemma WrapKeepsIndex(x: nat)
    requires x < 2 * UINT
    ensures x % UINT % PIPESIZE == x % PIPESIZE
  {
    if x >= UINT {
      assert x % UINT == x - UINT && UINT == 8388608 * PIPESIZE;
      assert x == (x - UINT) + 8388608 * PIPESIZE;
    }
  }

  /** Of the counters' differences modulo 2^32, none but 0 and PIPESIZE look empty or full. */
  lemma TestsAreExact(r: Ring, q: seq<int>)
    requires Holds(r, q)
    ensures Full(r) <==> |q| == PIPESIZE
    ensures Empty(r) <==> |q| == 0
  {
  }

  lemma PutHolds(r: Ring, q: seq<int>, b: int)
    requires Holds(r, q) && |q| < PIPESIZE
    ensures Holds(PutByte(r, b), q + [b])
  {
    var r' := PutByte(r, b);
    WrapKeepsIndex(r.nread + |q|);
    forall k | 0 <= k < |q|
      ensures r'.data[(r.nread + k) % PIPESIZE] == q[k]
    {
      NoClash(r.nread, k, |q|);
    }
  }

  lemma NoClash(x: nat, k: nat, l: nat)
    requires k < l < k + PIPESIZE
    ensures (x + k) % PIPESIZE != (x + l) % PIPESIZE
  {
    var a, b := (x + k) / PIPESIZE, (x + l) / PIPESIZE;
    assert l - k == (b - a) * PIPESIZE + (x + l) % PIPESIZE - (x + k) % PIPESIZE;
  }

  lemma TakeHolds(r: Ring, q: seq<int>)
    requires Holds(r, q) && |q| > 0
    ensures r.data[r.nread % PIPESIZE] == q[0] && Holds(TakeByte(r), q[1..])
  {
    var r' := TakeByte(r);
    assert r.data[(r.nread + 0) % PIPESIZE] == q[0];
    NextCount(r.nread, |q|);
    forall k | 0 <= k < |q| - 1
      ensures r'.data[(r'.nread + k) % PIPESIZE] == q[1..][k]
    {
      NextIndex(r.nread, k);
      assert r.data[(r.nread + (k + 1)) % PIPESIZE] == q[k + 1];
    }
  }

  lemma NextIndex(x: nat, k: nat)
    requires x < UINT
    ensures ((x + 1) % UINT + k) % PIPESIZE == (x + (k + 1)) % PIPESIZE
  {
    WrapKeepsIndex(x + 1);
    SameIndex((x + 1) % UINT, x + 1, k);
  }

  lemma NextCount(x: nat, n: nat)
    requires x < UINT && 0 < n <= PIPESIZE
    ensures ((x + 1) % UINT + (n - 1)) % UINT == (x + n) % UINT
  {
  }

  lemma SameIndex(x: nat, y: nat, k: nat)
    requires x % PIPESIZE == y % PIPESIZE
    ensures (x + k) % PIPESIZE == (y + k) % PIPESIZE
  {
    assert (x + k) % PIPESIZE == (x % PIPESIZE + k) % PIPESIZE;
    assert (y + k) % PIPESIZE == (y % PIPESIZE + k) % PIPESIZE;
  }

  // ---------- the loops of pipewrite and piperead ----------

  /** pipewrite's loop from byte i on, up to where it finds the ring full or is done. */
  function Fill(r: Ring, src: seq<int>, i: nat): (res: (Ring, nat))
    requires Shaped(r) && i <= |src|
    ensures Shaped(res.0) && i <= res.1 <= |src|
    decreases |src| - i
  {
    if i == |src| || Full(r) then (r, i) else Fill(PutByte(r, src[i]), src, i + 1)
  }

  /** piperead's loop: at most n bytes. */
  function Drain(r: Ring, n: nat): (res: (Ring, seq<int>))
    requires Shaped(r)
    ensures Shaped(res.0)
    decreases n
  {
    if n == 0 || Empty(r) then (r, [])
    else
      var rest := Drain(TakeByte(r), n - 1);
      (rest.0, [r.data[r.nread % PIPESIZE]] + rest.1)
  }

  function Min(a: int, b: int): int {
    if a < b then a else b
  }

  lemma {:induction false} FillHolds(r: Ring, q: seq<int>, src: seq<int>, i: nat)
    requires Holds(r, q) && i <= |src|
    ensures Fill(r, src, i).1 == Min(|src|, i + PIPESIZE - |q|)
    ensures Holds(Fill(r, src, i).0, q + src[i..Fill(r, src, i).1])
    decreases |src| - i
  {
    TestsAreExact(r, q);
    if i == |src| || Full(r) {
      assert q + src[i..i] == q;
    } else {
      PutHolds(r, q, src[i]);
      FillHolds(PutByte(r, src[i]), q + [src[i]], src, i + 1);
      var j := Fill(r, src, i).1;
      assert q + [src[i]] + src[i + 1..j] == q + src[i..j];
    }
  }

  lemma {:induction false} DrainHolds(r: Ring, q: seq<int>, n: nat)
    requires Holds(r, q)
    ensures Drain(r, n).1 == q[..Min(n, |q|)]
    ensures Holds(Drain(r, n).0, q[Min(n, |q|)..])
    decreases n
  {
    TestsAreExact(r, q);
    if n == 0 || Empty(r) {
    } else {
      TakeHolds(r, q);
      DrainHolds(TakeByte(r), q[1..], n - 1);
      assert [q[0]] + q[1..][..Min(n - 1, |q| - 1)] == q[..Min(n, |q|)];
      assert q[1..][Min(n - 1, |q| - 1)..] == q[Min(n, |q|)..];
    }
  }

  lemma DrainNext(r: Ring, n: nat, out: seq<int>)
    requires Shaped(r) && n > 0 && !Empty(r)
    ensures Drain(r, n).0 == Drain(TakeByte(r), n - 1).0
    ensures out + Drain(r, n).1 == out + [r.data[r.nread % PIPESIZE]] + Drain(TakeByte(r), n - 1).1
  {
  }

  class Buffer {
    const data: array<int>
    var nread: nat
    var nwrite: nat

    ghost predicate Valid()
      reads this, data
    {
      Shaped(View())
    }

    ghost function View(): Ring
      reads this, data
    {
      Ring(data[..], nread, nwrite)
    }

    /** pipealloc. */
    constructor ()
      ensures Valid() && fresh(data) && Holds(View(), [])
    {
      data := new int[PIPESIZE](_ => 0);
      nread, nwrite := 0, 0;
    }

    /** The bytes of addr from i on, while there is room. */
    method Write(addr: seq<int>, start: nat) returns (i: nat)
      requires Valid() && start <= |addr|
      modifies this`nwrite, data
      ensures Valid() && i <= |addr| && (View(), i) == Fill(old(View()), addr, start)
    {
      i := start;
      while i < |addr| && nwrite != (nread + PIPESIZE) % UINT
        invariant start <= i <= |addr| && Valid() && nread == old(nread)
        invariant Fill(View(), addr, i) == Fill(old(View()), addr, start)
      {
        ghost var r := View();
        data[nwrite % PIPESIZE] := addr[i];
        nwrite := (nwrite + 1) % UINT;
        assert View() == PutByte(r, addr[i]);
        i := i + 1;
      }
    }

    /** At most n bytes, while there are any. */
    method Read(n: nat) returns (out: seq<int>)
      requires Valid()
      modifies this`nread
      ensures Valid() && (View(), out) == Drain(old(View()), n)
    {
      out := [];
      var i := 0;
      assert [] + Drain(View(), n).1 == Drain(View(), n).1;
      while i < n && nread != nwrite
        invariant i <= n && Valid() && nwrite == old(nwrite) && |out| == i
        invariant Drain(old(View()), n) == (Drain(View(), n - i).0, out + Drain(View(), n - i).1)
      {
        ghost var r := View();
        out := out + [data[nread % PIPESIZE]];
        nread := (nread + 1) % UINT;
        assert View() == TakeByte(r);
        DrainNext(r, n - i, out[..i]);
        assert out[..i] + [r.data[r.nread % PIPESIZE]] == out;
        i := i + 1;
      }
      assert out + [] == out;
    }
  }

  // ---------- readers and writers ----------

  /** What a thread is doing with the pipe: waiting for its lock, or asleep. */
  datatype Thread =
    | Outside
    | Writing(src: seq<int>, i: nat)
    | WriterAsleep(src: seq<int>, i: nat)
    | Reading(n: nat)
    | ReaderAsleep(n: nat)

  /** `written` and `delivered` are all the bytes put into the pipe and taken out. */
  datatype Sys = Sys(ring: Ring, readopen: bool, writeopen: bool, threads: seq<Thread>, killed: seq<bool>,
                     written: seq<int>, delivered: seq<int>)

  /** An action is what a thread does while it has the lock of the pipe, or a kill. */
  datatype Act =
    | BeginWrite(t: nat, src: seq<int>) | BeginRead(t: nat, n: nat) | Write(t: nat) | Read(t: nat)
    | Kill(t: nat) | CloseWrite | CloseRead

  function WakeReader(x: Thread): Thread {
    if x.ReaderAsleep? then Reading(x.n) else x
  }

  function WakeWriter(x: Thread): Thread {
    if x.WriterAsleep? then Writing(x.src, x.i) else x
  }

  function WakeReaders(ts: seq<Thread>): (r: seq<Thread>) {
    seq(|ts|, k requires 0 <= k < |ts| => WakeReader(ts[k]))
  }

  function WakeWriters(ts: seq<Thread>): (r: seq<Thread>) {
    seq(|ts|, k requires 0 <= k < |ts| => WakeWriter(ts[k]))
  }

  predicate Uses(x: Thread, write: bool) {
    if write then x.Writing? || x.WriterAsleep? else x.Reading? || x.ReaderAsleep?
  }

  /** pipewrite, from where it has the lock to where it releases it or sleeps. */
  function WriteStep(s: Sys, t: nat): (r: Sys)
    requires Shaped(s.ring) && t < |s.threads| == |s.killed| && s.threads[t].Writing? &&
             s.threads[t].i <= |s.threads[t].src|
  {
    var Writing(src, i) := s.threads[t];
    var (ring, j) := Fill(s.ring, src, i);
    var s1 := s.(ring := ring, written := s.written + src[i..j]);
    if j == |src| then s1.(threads := WakeReaders(s.threads[t := Outside]))
    else if !s.readopen || s.killed[t] then s1.(threads := s.threads[t := Outside])
    else s1.(threads := WakeReaders(s.threads[t := WriterAsleep(src, j)]))
  }

  function ReadStep(s: Sys, t: nat): (r: Sys)
    requires Shaped(s.ring) && t < |s.threads| == |s.killed| && s.threads[t].Reading?
  {
    var n := s.threads[t].n;
    if Empty(s.ring) && s.writeopen then
      s.(threads := s.threads[t := if s.killed[t] then Outside else ReaderAsleep(n)])
    else
      var (ring, out) := Drain(s.ring, n);
      s.(ring := ring, delivered := s.delivered + out, threads := WakeWriters(s.threads[t := Outside]))
  }

  function Step(s: Sys, a: Act): (r: Sys)
    requires Shaped(s.ring) && |s.killed| == |s.threads| && forall t | 0 <= t < |s.threads| && s.threads[t].Writing? ::
             s.threads[t].i <= |s.threads[t].src|
  {
    match a
    case BeginWrite(t, src) =>
      if t < |s.threads| && s.threads[t].Outside? && s.writeopen then s.(threads := s.threads[t := Writing(src, 0)])
      else s
    case BeginRead(t, n) =>
      if t < |s.threads| && s.threads[t].Outside? && s.readopen then s.(threads := s.threads[t := Reading(n)])
      else s
    case Write(t) => if t < |s.threads| && s.threads[t].Writing? then WriteStep(s, t) else s
    case Read(t) => if t < |s.threads| && s.threads[t].Reading? then ReadStep(s, t) else s
    case Kill(t) =>
      if t < |s.threads| then
        s.(killed := s.killed[t := true], threads := s.threads[t := WakeWriter(WakeReader(s.threads[t]))])
      else s
    case CloseWrite =>
      if forall t | 0 <= t < |s.threads| :: !Uses(s.threads[t], true) then
        s.(writeopen := false, threads := WakeReaders(s.threads))
      else s
    case CloseRead =>
      if forall t | 0 <= t < |s.threads| :: !Uses(s.threads[t], false) then
        s.(readopen := false, threads := WakeWriters(s.threads))
      else s
  }

  /** The bytes taken out are the first ones put in, and the ring holds the rest. */
  ghost predicate Stream(s: Sys) {
    && |s.killed| == |s.threads|
    && s.delivered <= s.written && Holds(s.ring, s.written[|s.delivered|..])
    && (forall t | 0 <= t < |s.threads| :: ThreadOk(s, s.threads[t]))
  }

  predicate ThreadOk(s: Sys, x: Thread) {
    && ((x.Writing? || x.WriterAsleep?) ==> x.i <= |x.src| && s.writeopen)
    && ((x.Reading? || x.ReaderAsleep?) ==> s.readopen)
  }

  /** A reader sleeps only on an empty pipe, a writer only on a full one, and never when
      the other end is closed. */
  ghost predicate SleepOk(s: Sys) {
    && (forall t | 0 <= t < |s.threads| && s.threads[t].ReaderAsleep? :: Empty(s.ring) && s.writeopen)
    && (forall t | 0 <= t < |s.threads| && s.threads[t].WriterAsleep? :: Full(s.ring) && s.readopen)
  }

  lemma WriteStream(s: Sys, t: nat)
    requires Stream(s) && t < |s.threads| && s.threads[t].Writing?
    ensures Stream(Step(s, Write(t)))
  {
    var q, src, i := s.written[|s.delivered|..], s.threads[t].src, s.threads[t].i;
    assert ThreadOk(s, s.threads[t]);
    FillHolds(s.ring, q, src, i);
    var j := Fill(s.ring, src, i).1;
    assert (s.written + src[i..j])[|s.delivered|..] == q + src[i..j];
    hide Holds, Fill, Full, Empty;
  }

  lemma ReadStream(s: Sys, t: nat)
    requires Stream(s) && t < |s.threads| && s.threads[t].Reading?
    ensures Stream(Step(s, Read(t)))
  {
    var q := s.written[|s.delivered|..];
    var m := Min(s.threads[t].n, |q|);
    DrainHolds(s.ring, q, s.threads[t].n);
    assert s.written[|s.delivered| + m..] == q[m..];
    assert s.delivered + q[..m] == s.written[..|s.delivered| + m];
    hide Holds, Drain, Full, Empty;
  }

  lemma StepStream(s: Sys, a: Act)
    requires Stream(s)
    ensures Stream(Step(s, a))
  {
    if a.Write? && a.t < |s.threads| && s.threads[a.t].Writing? {
      WriteStream(s, a.t);
    } else if a.Read? && a.t < |s.threads| && s.threads[a.t].Reading? {
      ReadStream(s, a.t);
    } else {
      hide Holds, Full, Empty;
    }
  }

  /** The step leaves a reader asleep beside bytes that it wrote: a writer that was killed
      finds the pipe full, having written what was there to read, and does not wake. */
  predicate Abandons(s: Sys, a: Act) {
    && a.Write? && a.t < |s.threads| == |s.killed| && s.threads[a.t].Writing? && s.killed[a.t]
    && |s.threads[a.t].src| - s.threads[a.t].i > PIPESIZE
    && (exists r | 0 <= r < |s.threads| :: s.threads[r].ReaderAsleep?)
  }

  lemma WriteSleep(s: Sys, t: nat)
    requires Stream(s) && SleepOk(s) && t < |s.threads| && s.threads[t].Writing?
    ensures SleepOk(Step(s, Write(t))) <==> !Abandons(s, Write(t))
  {
    var q, src, i := s.written[|s.delivered|..], s.threads[t].src, s.threads[t].i;
    assert ThreadOk(s, s.threads[t]);
    FillHolds(s.ring, q, src, i);
    TestsAreExact(s.ring, q);
    var s', j := Step(s, Write(t)), Fill(s.ring, src, i).1;
    TestsAreExact(s'.ring, q + src[i..j]);
    assert forall r | 0 <= r < |s.threads| && s.threads[r].ReaderAsleep? :: |q| == 0 && s.readopen by {
      assert forall r | 0 <= r < |s.threads| :: ThreadOk(s, s.threads[r]);
    }
    hide Holds, Fill, Full, Empty;
    if Abandons(s, Write(t)) {
      var r :| 0 <= r < |s.threads| && s.threads[r].ReaderAsleep?;
      assert s'.threads[r].ReaderAsleep?;
    }
  }

  lemma ReadSleep(s: Sys, t: nat)
    requires Stream(s) && SleepOk(s) && t < |s.threads| && s.threads[t].Reading?
    ensures SleepOk(Step(s, Read(t)))
  {
    var q, n := s.written[|s.delivered|..], s.threads[t].n;
    DrainHolds(s.ring, q, n);
    TestsAreExact(s.ring, q);
    TestsAreExact(Drain(s.ring, n).0, q[Min(n, |q|)..]);
    hide Holds, Drain, Full, Empty;
  }

  /** Exactly one kind of step can leave a thread asleep that has something to do. */
  lemma StepSleep(s: Sys, a: Act)
    requires Stream(s) && SleepOk(s)
    ensures SleepOk(Step(s, a)) <==> !Abandons(s, a)
  {
    if a.Write? && a.t < |s.threads| && s.threads[a.t].Writing? {
      WriteSleep(s, a.t);
    } else if a.Read? && a.t < |s.threads| && s.threads[a.t].Reading? {
      ReadSleep(s, a.t);
    } else {
      hide Holds, Full, Empty;
    }
  }

  // ---------- runs ----------

  function Start(threads: nat): (r: Sys) {
    Sys(Ring(seq(PIPESIZE, _ => 0), 0, 0), true, true, seq(threads, _ => Outside), seq(threads, _ => false), [], [])
  }

  ghost predicate IsRun(states: seq<Sys>, acts: seq<Act>) {
    && |states| == |acts| + 1
    && (forall i | 0 <= i < |acts| :: Stream(states[i]) ==> states[i + 1] == Step(states[i], acts[i]))
  }

  lemma {:induction false} RunStream(threads: nat, states: seq<Sys>, acts: seq<Act>, i: nat)
    requires IsRun(states, acts) && states[0] == Start(threads) && i < |states|
    ensures Stream(states[i])
  {
    if i > 0 {
      RunStream(threads, states, acts, i - 1);
      StepStream(states[i - 1], acts[i - 1]);
      assert states[i - 1 + 1] == Step(states[i - 1], acts[i - 1]);
    }
  }

  /** In every run, any number of times round the counters, what has been read is what was
      written first, at most PIPESIZE bytes are on the way, and the counters tell a full
      pipe from an empty one. */
  lemma RunIsStream(threads: nat, states: seq<Sys>, acts: seq<Act>, i: nat)
    requires IsRun(states, acts) && states[0] == Start(threads) && i < |states|
    ensures states[i].delivered <= states[i].written && |states[i].written| - |states[i].delivered| <= PIPESIZE
    ensures Full(states[i].ring) <==> |states[i].written| == |states[i].delivered| + PIPESIZE
    ensures Empty(states[i].ring) <==> states[i].written == states[i].delivered
  {
    RunStream(threads, states, acts, i);
    TestsAreExact(states[i].ring, states[i].written[|states[i].delivered|..]);
  }

  /** Closing an end that nobody uses closes it, and wakes all who sleep for the other
      side. */
  lemma CloseWakes(s: Sys)
    requires Stream(s)
    ensures (forall t | 0 <= t < |s.threads| :: !Uses(s.threads[t], true)) ==>
              var s' := Step(s, CloseWrite);
              !s'.writeopen && s'.readopen == s.readopen && s'.ring == s.ring && |s'.threads| == |s.threads| &&
              forall t | 0 <= t < |s.threads| ::
                s'.threads[t] == if s.threads[t].ReaderAsleep? then Reading(s.threads[t].n) else s.threads[t]
    ensures (forall t | 0 <= t < |s.threads| :: !Uses(s.threads[t], false)) ==>
              var s' := Step(s, CloseRead);
              !s'.readopen && s'.writeopen == s.writeopen && s'.ring == s.ring && |s'.threads| == |s.threads| &&
              forall t | 0 <= t < |s.threads| ::
                s'.threads[t] == if s.threads[t].WriterAsleep? then Writing(s.threads[t].src, s.threads[t].i)
                                 else s.threads[t]
  {
    hide Holds;
  }

  /** A thread that was killed does not sleep. */
  predicate KilledAwake(s: Sys) {
    |s.killed| == |s.threads| &&
    forall t | 0 <= t < |s.threads| && s.killed[t] :: !s.threads[t].ReaderAsleep? && !s.threads[t].WriterAsleep?
  }

  /** A kill marks its victim, and wakes it inside the call that it is in. */
  lemma KillWakes(s: Sys, t: nat)
    requires Stream(s) && t < |s.threads|
    ensures var s', x := Step(s, Kill(t)), s.threads[t];
            && |s'.killed| == |s.killed| && s'.killed[t] && |s'.threads| == |s.threads|
            && s'.threads[t] == (if x.ReaderAsleep? then Reading(x.n)
                                 else if x.WriterAsleep? then Writing(x.src, x.i) else x)
            && (forall u | 0 <= u < |s.threads| && u != t ::
                s'.killed[u] == s.killed[u] && s'.threads[u] == s.threads[u])
  {
  }

  lemma StepKilledAwake(s: Sys, a: Act)
    requires Stream(s) && KilledAwake(s)
    ensures KilledAwake(Step(s, a))
  {
    hide Holds, Full, Empty, Fill, Drain;
    assert forall k | 0 <= k < |s.threads| :: ThreadOk(s, s.threads[k]);
  }

  /** In every run, no reader or writer that was killed sleeps. */
  lemma {:induction false} KilledNeverSleep(threads: nat, states: seq<Sys>, acts: seq<Act>, i: nat)
    requires IsRun(states, acts) && states[0] == Start(threads) && i < |states|
    ensures KilledAwake(states[i])
  {
    if i > 0 {
      KilledNeverSleep(threads, states, acts, i - 1);
      RunStream(threads, states, acts, i - 1);
      StepKilledAwake(states[i - 1], acts[i - 1]);
      assert states[i - 1 + 1] == Step(states[i - 1], acts[i - 1]);
    }
  }

  // ---------- one call of pipewrite or piperead ----------

  /** Only a writer at work puts bytes in, and only a reader at work takes bytes out. */
  lemma OthersKeepBytes(s: Sys, a: Act)
    requires Stream(s)
    ensures !a.Write? ==> Step(s, a).written == s.written
    ensures !a.Read? ==> Step(s, a).delivered == s.delivered
  {
    hide Holds, Full, Empty, Fill, Drain;
    assert forall k | 0 <= k < |s.threads| :: ThreadOk(s, s.threads[k]);
  }

  /** The bytes that go into the pipe from s to s'. */
  ghost function Added(s: Sys, s': Sys): (r: seq<int>) {
    if |s.written| <= |s'.written| then s'.written[|s.written|..] else []
  }

  /** The bytes that thread t puts into the pipe by actions a up to b. */
  ghost function PutBy(states: seq<Sys>, acts: seq<Act>, t: nat, a: nat, b: nat): (r: seq<int>)
    requires |states| == |acts| + 1 && a <= b <= |acts|
  {
    if a == b then []
    else PutBy(states, acts, t, a, b - 1) + if acts[b - 1] == Write(t) then Added(states[b - 1], states[b]) else []
  }

  /** Thread x is inside pipewrite of src, of which i bytes are in. */
  predicate InWrite(x: Thread, src: seq<int>, i: nat) {
    x == Writing(src, i) || x == WriterAsleep(src, i)
  }

  lemma WriterWaits(s: Sys, a: Act, t: nat, src: seq<int>, i: nat)
    requires Stream(s) && t < |s.threads| && InWrite(s.threads[t], src, i)
    requires !(a == Write(t) && s.threads[t].Writing?)
    ensures t < |Step(s, a).threads| && InWrite(Step(s, a).threads[t], src, i)
    ensures a == Write(t) ==> Step(s, a) == s
  {
    hide Holds, Full, Empty, Fill, Drain;
    assert forall k | 0 <= k < |s.threads| :: ThreadOk(s, s.threads[k]);
  }

  /** The writer at work: it puts in the next bytes, and goes on from there if it must wait. */
  lemma WriterMoves(s: Sys, t: nat, src: seq<int>, i: nat) returns (j: nat)
    requires Stream(s) && t < |s.threads| && s.threads[t] == Writing(src, i)
    ensures i <= j <= |src| && t < |Step(s, Write(t)).threads| && Added(s, Step(s, Write(t))) == src[i..j]
    ensures Step(s, Write(t)).threads[t] == WriterAsleep(src, j) || Step(s, Write(t)).threads[t] == Outside
    ensures Step(s, Write(t)).threads[t] == Outside && s.readopen && !s.killed[t] ==> j == |src|
    ensures j < |src| ==> Full(Step(s, Write(t)).ring)
  {
    var q := s.written[|s.delivered|..];
    assert ThreadOk(s, s.threads[t]);
    FillHolds(s.ring, q, src, i);
    j := Fill(s.ring, src, i).1;
    TestsAreExact(Fill(s.ring, src, i).0, q + src[i..j]);
  }

  lemma {:induction false} WriteSoFar(threads: nat, states: seq<Sys>, acts: seq<Act>, t: nat, src: seq<int>, a: nat,
                                      b: nat) returns (i: nat)
    requires IsRun(states, acts) && states[0] == Start(threads) && t < threads && a < b < |states|
    requires acts[a] == BeginWrite(t, src) && Begins(states[a], t)
    requires forall k | a < k <= b :: t < |states[k].threads| && !states[k].threads[t].Outside?
    ensures i <= |src| && InWrite(states[b].threads[t], src, i) && PutBy(states, acts, t, a + 1, b) == src[..i]
    decreases b
  {
    hide Stream, Step, PutBy, Start;
    var s, x := states[b - 1], acts[b - 1];
    RunSteps(threads, states, acts, b - 1);
    if b == a + 1 {
      i := 0;
      WriteBegins(s, t, src);
      PutNone(states, acts, t, b);
    } else {
      i := WriteSoFar(threads, states, acts, t, src, a, b - 1);
      PutNext(states, acts, t, a + 1, b);
      if x == Write(t) && s.threads[t].Writing? {
        var j := WriterMoves(s, t, src, i);
        assert src[..i] + src[i..j] == src[..j];
        i := j;
      } else {
        WriterWaits(s, x, t, src, i);
        assert src[..i] + [] == src[..i];
      }
    }
  }

  lemma RunSteps(threads: nat, states: seq<Sys>, acts: seq<Act>, k: nat)
    requires IsRun(states, acts) && states[0] == Start(threads) && k < |acts|
    ensures Stream(states[k]) && states[k + 1] == Step(states[k], acts[k])
  {
    RunStream(threads, states, acts, k);
  }

  lemma WriteBegins(s: Sys, t: nat, src: seq<int>)
    requires Stream(s) && Begins(s, t)
    ensures t < |Step(s, BeginWrite(t, src)).threads| && Step(s, BeginWrite(t, src)).threads[t] == Writing(src, 0)
  {
  }

  lemma PutNone(states: seq<Sys>, acts: seq<Act>, t: nat, a: nat)
    requires |states| == |acts| + 1 && a <= |acts|
    ensures PutBy(states, acts, t, a, a) == []
  {
  }

  lemma PutNext(states: seq<Sys>, acts: seq<Act>, t: nat, a: nat, b: nat)
    requires |states| == |acts| + 1 && a < b <= |acts|
    ensures PutBy(states, acts, t, a, b) == PutBy(states, acts, t, a, b - 1)
              + if acts[b - 1] == Write(t) then Added(states[b - 1], states[b]) else []
    ensures states[b] == states[b - 1] ==> Added(states[b - 1], states[b]) == []
  {
  }

  /** The thread may begin a call of pipewrite. */
  predicate Begins(s: Sys, t: nat) {
    t < |s.threads| && s.threads[t].Outside? && s.writeopen
  }

  /** A call of pipewrite that begins with action a and returns with action b has put in its
      bytes in order, each once: all of them, unless the read end was closed or the thread
      killed, and then it left a full pipe. */
  lemma WriteIsWhole(threads: nat, states: seq<Sys>, acts: seq<Act>, t: nat, src: seq<int>, a: nat, b: nat)
    requires IsRun(states, acts) && states[0] == Start(threads) && t < threads && a < b < |acts|
    requires acts[a] == BeginWrite(t, src) && Begins(states[a], t)
    requires forall k | a < k <= b :: t < |states[k].threads| && !states[k].threads[t].Outside?
    requires t < |states[b + 1].threads| && states[b + 1].threads[t].Outside?
    ensures PutBy(states, acts, t, a + 1, b + 1) <= src
    ensures t < |states[b].killed| && states[b].readopen && !states[b].killed[t] ==>
            PutBy(states, acts, t, a + 1, b + 1) == src
    ensures PutBy(states, acts, t, a + 1, b + 1) == src || Full(states[b + 1].ring)
  {
    var i := WriteSoFar(threads, states, acts, t, src, a, b);
    RunStream(threads, states, acts, b);
    assert states[b + 1] == Step(states[b], acts[b]);
    PutNext(states, acts, t, a + 1, b + 1);
    hide Stream, Step, PutBy, Full;
    if acts[b] == Write(t) && states[b].threads[t].Writing? {
      var j := WriterMoves(states[b], t, src, i);
      assert src[..i] + src[i..j] == src[..j];
      assert src[..|src|] == src;
    } else {
      WriterWaits(states[b], acts[b], t, src, i);
      assert false;
    }
  }

  /** Thread x is inside piperead for n bytes. */
  predicate InRead(x: Thread, n: nat) {
    x == Reading(n) || x == ReaderAsleep(n)
  }

  lemma ReaderWaits(s: Sys, a: Act, t: nat, n: nat)
    requires Stream(s) && t < |s.threads| && InRead(s.threads[t], n) && !(a == Read(t) && s.threads[t].Reading?)
    ensures t < |Step(s, a).threads| && InRead(Step(s, a).threads[t], n)
  {
    hide Holds, Full, Empty, Fill, Drain;
    assert forall k | 0 <= k < |s.threads| :: ThreadOk(s, s.threads[k]);
  }

  lemma {:induction false} ReadSoFar(threads: nat, states: seq<Sys>, acts: seq<Act>, t: nat, n: nat, a: nat, b: nat)
    requires IsRun(states, acts) && states[0] == Start(threads) && t < threads && a < b < |states|
    requires acts[a] == BeginRead(t, n) && t < |states[a].threads| && states[a].threads[t].Outside? &&
             states[a].readopen
    requires forall k | a < k <= b :: t < |states[k].threads| && !states[k].threads[t].Outside?
    ensures InRead(states[b].threads[t], n)
    decreases b
  {
    RunStream(threads, states, acts, b - 1);
    assert states[b - 1 + 1] == Step(states[b - 1], acts[b - 1]);
    if b > a + 1 {
      ReadSoFar(threads, states, acts, t, n, a, b - 1);
      var s, x := states[b - 1], acts[b - 1];
      if x == Read(t) && s.threads[t].Reading? {
        ReaderMoves(s, t, n);
      } else {
        ReaderWaits(s, x, t, n);
      }
    }
  }

  /** The reader at work: it takes the oldest bytes, or sleeps on an empty pipe. */
  lemma ReaderMoves(s: Sys, t: nat, n: nat)
    requires Stream(s) && t < |s.threads| && s.threads[t] == Reading(n)
    ensures var s' := Step(s, Read(t));
            var q := s.written[|s.delivered|..];
            && t < |s'.threads| && s'.written == s.written
            && if q == [] && s.writeopen && !s.killed[t] then s'.threads[t] == ReaderAsleep(n) &&
                 s'.delivered == s.delivered
               else s'.threads[t] == Outside && s'.delivered == s.delivered + q[..Min(n, |q|)]
  {
    var q := s.written[|s.delivered|..];
    DrainHolds(s.ring, q, n);
    TestsAreExact(s.ring, q);
    assert q == [] ==> s.delivered + q[..Min(n, |q|)] == s.delivered;
  }

  /** A call of piperead for n bytes that begins with action a and returns with action b takes,
      in that action, the oldest bytes, as many as it asked for and there are; it returns with
      none only if the write end is closed or the thread was killed. */
  lemma ReadTakesOldest(threads: nat, states: seq<Sys>, acts: seq<Act>, t: nat, n: nat, a: nat, b: nat)
    requires IsRun(states, acts) && states[0] == Start(threads) && t < threads && a < b < |acts|
    requires acts[a] == BeginRead(t, n) && t < |states[a].threads| && states[a].threads[t].Outside? &&
             states[a].readopen
    requires forall k | a < k <= b :: t < |states[k].threads| && !states[k].threads[t].Outside?
    requires t < |states[b + 1].threads| && states[b + 1].threads[t].Outside?
    ensures |states[b].delivered| <= |states[b].written|
    ensures var q := states[b].written[|states[b].delivered|..];
            && states[b + 1].delivered == states[b].delivered + q[..Min(n, |q|)]
            && (q == [] ==> !states[b].writeopen || (t < |states[b].killed| && states[b].killed[t]))
  {
    ReadSoFar(threads, states, acts, t, n, a, b);
    RunStream(threads, states, acts, b);
    assert states[b + 1] == Step(states[b], acts[b]);
    if acts[b] == Read(t) && states[b].threads[t].Reading? {
      ReaderMoves(states[b], t, n);
    } else {
      ReaderWaits(states[b], acts[b], t, n);
      assert false;
    }
  }

  ghost predicate NoKill(acts: seq<Act>) {
    forall i | 0 <= i < |acts| :: !acts[i].Kill?
  }

  lemma {:induction false} NobodyKilled(threads: nat, states: seq<Sys>, acts: seq<Act>, i: nat)
    requires IsRun(states, acts) && states[0] == Start(threads) && NoKill(acts) && i < |states|
    ensures forall t | 0 <= t < |states[i].killed| :: !states[i].killed[t]
  {
    if i > 0 {
      NobodyKilled(threads, states, acts, i - 1);
      RunStream(threads, states, acts, i - 1);
      assert states[i - 1 + 1] == Step(states[i - 1], acts[i - 1]);
    }
  }

  /** Without kill, a sleeping reader means an empty pipe and a sleeping writer a full one,
      so a reader and a writer are never asleep together. */
  lemma {:induction false} RunSleepOk(threads: nat, states: seq<Sys>, acts: seq<Act>, i: nat)
    requires IsRun(states, acts) && states[0] == Start(threads) && NoKill(acts) && i < |states|
    ensures SleepOk(states[i])
    ensures forall t, u | 0 <= t < |states[i].threads| && 0 <= u < |states[i].threads| &&
            states[i].threads[t].ReaderAsleep? :: !states[i].threads[u].WriterAsleep?
  {
    if i > 0 {
      RunSleepOk(threads, states, acts, i - 1);
      NobodyKilled(threads, states, acts, i - 1);
      RunStream(threads, states, acts, i - 1);
      StepSleep(states[i - 1], acts[i - 1]);
      assert states[i - 1 + 1] == Step(states[i - 1], acts[i - 1]);
    }
    RunIsStream(threads, states, acts, i);
  }

  /** With kill they may be.  A reader, thread 0, goes to sleep on the empty pipe; a writer,
      thread 1, begins to write one byte more than the pipe holds and is killed; it fills
      the pipe and leaves, and the reader sleeps on. */
  lemma KilledWriterAbandonsReader() returns (states: seq<Sys>, acts: seq<Act>)
    ensures acts == [BeginRead(0, 1), Read(0), BeginWrite(1, seq(PIPESIZE + 1, _ => 0)), Kill(1), Write(1)]
    ensures IsRun(states, acts) && states[0] == Start(2)
    ensures Stream(states[4]) && SleepOk(states[4]) && Abandons(states[4], Write(1))
    ensures states[5].threads == [ReaderAsleep(1), Outside] && !Empty(states[5].ring) && !SleepOk(states[5])
  {
    var src := seq(PIPESIZE + 1, _ => 0);
    var s0 := Start(2);
    var s1, s2 := s0.(threads := [Reading(1), Outside]), s0.(threads := [ReaderAsleep(1), Outside]);
    var s3 := s0.(threads := [ReaderAsleep(1), Writing(src, 0)]);
    var s4 := s3.(killed := [false, true]);
    assert s0.threads == [Outside, Outside] && s0.killed == [false, false];
    assert Stream(s0) && Step(s0, BeginRead(0, 1)) == s1 && Step(s1, Read(0)) == s2;
    assert Step(s2, BeginWrite(1, src)) == s3 && Step(s3, Kill(1)) == s4;
    AbandonedBy(s4, src);
    var s5 := Step(s4, Write(1));
    acts := [BeginRead(0, 1), Read(0), BeginWrite(1, src), Kill(1), Write(1)];
    states := [s0, s1, s2, s3, s4, s5];
  }

  lemma AbandonedBy(s: Sys, src: seq<int>)
    requires |src| == PIPESIZE + 1
    requires s == Start(2).(threads := [ReaderAsleep(1), Writing(src, 0)], killed := [false, true])
    ensures Stream(s) && SleepOk(s) && Abandons(s, Write(1)) && !SleepOk(Step(s, Write(1)))
    ensures Step(s, Write(1)).threads == [ReaderAsleep(1), Outside] && !Empty(Step(s, Write(1)).ring)
  {
    assert s.threads[0].ReaderAsleep?;
    StepSleep(s, Write(1));
    FillHolds(s.ring, [], src, 0);
    TestsAreExact(s.ring, []);
    var j := Fill(s.ring, src, 0).1;
    TestsAreExact(Fill(s.ring, src, 0).0, [] + src[0..j]);
  }
}
