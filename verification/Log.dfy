/** The write-ahead log of log.c.  The functions give the device contents after every
    single block write of commit and of recovery; LogManager performs those writes in the
    loops of log.c and is proved to produce exactly these contents, in this order.
    A crash keeps the device contents of one such moment and nothing else. */
module Log {
  import opened Params
  import opened Storage

  /** Words in a block: BSIZE / sizeof(int). */
  const WORDS: nat := 128

  datatype Layout = Layout(dev: nat, start: nat, size: nat) {
    function At(n: nat): Key { Key(dev, n) }
    function Head(): Key { At(start) }
    function Slot(i: nat): Key { At(start + 1 + i) }
    predicate InLog(k: Key) { k.dev == dev && start <= k.blockno < start + size }
  }

  // ---------- the log on the device ----------

  /** The header block: a count, then that many block numbers. */
  function EncodeHead(was: Block, blocks: seq<nat>): (b: Block)
    requires |blocks| < |was|
  {
    [|blocks|] + blocks + was[1 + |blocks|..]
  }

  ghost predicate HasHead(l: Layout, d: Disk) {
    && l.Head() in d
    && |d[l.Head()]| == WORDS
    && 0 <= d[l.Head()][0] <= LOGSIZE
    && forall i | 1 <= i <= d[l.Head()][0] :: d[l.Head()][i] >= 0
  }

  /** The block numbers that the header on the device lists. */
  ghost function Listed(l: Layout, d: Disk): (r: seq<nat>)
    requires HasHead(l, d)
  {
    seq(d[l.Head()][0], i requires 0 <= i < d[l.Head()][0] => d[l.Head()][i + 1])
  }

  /** What write_head writes, read_head reads, whatever the block held before. */
  lemma HeadRoundTrip(l: Layout, d: Disk, was: Block, blocks: seq<nat>)
    requires |was| == WORDS && |blocks| <= LOGSIZE
    requires l.Head() in d && d[l.Head()] == EncodeHead(was, blocks)
    ensures HasHead(l, d) && Listed(l, d) == blocks
  {
    var b := d[l.Head()];
    assert b[0] == |blocks|;
    forall i | 1 <= i <= |blocks|
      ensures b[i] == blocks[i - 1]
    {
    }
    assert Listed(l, d) == blocks;
  }

  /** Distinct blocks outside the log area, few enough for the header. */
  ghost predicate Recordable(l: Layout, keys: set<Key>, blocks: seq<nat>) {
    && |blocks| <= LOGSIZE
    && (forall i | 0 <= i < |blocks| :: l.At(blocks[i]) in keys && !l.InLog(l.At(blocks[i])))
    && (forall i, j | 0 <= i < j < |blocks| :: blocks[i] != blocks[j])
  }

  /** The log area has a slot for each of them. */
  ghost predicate Loggable(l: Layout, keys: set<Key>, blocks: seq<nat>) {
    Recordable(l, keys, blocks) && |blocks| < l.size
  }

  /** k is one of the first m blocks. */
  ghost predicate Among(l: Layout, blocks: seq<nat>, m: nat, k: Key)
    requires m <= |blocks|
  {
    exists j: nat :: j < m && l.At(blocks[j]) == k
  }

  ghost predicate WellFormed(l: Layout, d: Disk) {
    && HasHead(l, d)
    && (forall i: nat | i + 1 < l.size :: l.Slot(i) in d)
    && Loggable(l, d.Keys, Listed(l, d))
  }

  /** Everything outside the log area: what the file system is made of. */
  ghost function Home(l: Layout, d: Disk): (h: Disk) {
    map k | k in d && !l.InLog(k) :: d[k]
  }

  // ---------- recovery ----------

  /** The device after the first m block writes of install_trans. */
  ghost function Install(l: Layout, d: Disk, blocks: seq<nat>, m: nat): (r: Disk)
    requires m <= |blocks| && forall i: nat | i < m :: l.Slot(i) in d
  {
    if m == 0 then d else Install(l, d, blocks, m - 1)[l.At(blocks[m - 1]) := d[l.Slot(m - 1)]]
  }

  ghost function Cleared(l: Layout, d: Disk): (r: Disk)
    requires HasHead(l, d)
  {
    d[l.Head() := EncodeHead(d[l.Head()], [])]
  }

  /** The device after an undisturbed recovery. */
  ghost function Replay(l: Layout, d: Disk): (r: Disk)
    requires WellFormed(l, d)
  {
    InstallFrame(l, d, Listed(l, d), |Listed(l, d)|);
    Cleared(l, Install(l, d, Listed(l, d), |Listed(l, d)|))
  }

  lemma {:induction false} InstallFrame(l: Layout, d: Disk, blocks: seq<nat>, m: nat)
    requires WellFormed(l, d) && Loggable(l, d.Keys, blocks) && m <= |blocks|
    ensures Install(l, d, blocks, m).Keys == d.Keys
    ensures forall k | k in d && l.InLog(k) :: Install(l, d, blocks, m)[k] == d[k]
    ensures forall j: nat | j < m :: Install(l, d, blocks, m)[l.At(blocks[j])] == d[l.Slot(j)]
    ensures forall k | k in d && !Among(l, blocks, m, k) :: Install(l, d, blocks, m)[k] == d[k]
  {
    if m > 0 {
      InstallFrame(l, d, blocks, m - 1);
    }
  }

  /** The device after s block writes of recover_from_log. */
  ghost function Recovering(l: Layout, d: Disk, s: nat): (r: Disk)
    requires WellFormed(l, d) && s <= |Listed(l, d)| + 1
  {
    if s <= |Listed(l, d)| then Install(l, d, Listed(l, d), s) else Replay(l, d)
  }

  lemma SameHeadSameList(l: Layout, d: Disk, d': Disk)
    requires WellFormed(l, d) && d'.Keys == d.Keys && d'[l.Head()] == d[l.Head()]
    ensures WellFormed(l, d') && Listed(l, d') == Listed(l, d)
  {
    assert Listed(l, d') == Listed(l, d);
  }

  lemma ClearedList(l: Layout, d: Disk)
    requires WellFormed(l, d)
    ensures WellFormed(l, Cleared(l, d)) && Listed(l, Cleared(l, d)) == []
  {
  }

  lemma {:induction false} ReplayOfInstalled(l: Layout, d: Disk, s: nat)
    requires WellFormed(l, d) && s <= |Listed(l, d)|
    ensures WellFormed(l, Install(l, d, Listed(l, d), s))
    ensures Replay(l, Install(l, d, Listed(l, d), s)) == Replay(l, d)
  {
    var blocks, n := Listed(l, d), |Listed(l, d)|;
    var d' := Install(l, d, blocks, s);
    InstallFrame(l, d, blocks, s);
    SameHeadSameList(l, d, d');
    InstallFrame(l, d, blocks, n);
    InstallFrame(l, d', blocks, n);
    InstallAgrees(l, d, d', blocks);
  }

  /** Devices with the same log and the same blocks beside the listed ones install to the
      same device. */
  lemma InstallAgrees(l: Layout, d: Disk, d': Disk, blocks: seq<nat>)
    requires WellFormed(l, d) && WellFormed(l, d') && Loggable(l, d.Keys, blocks) && d'.Keys == d.Keys
    requires forall j: nat | j < |blocks| :: d'[l.Slot(j)] == d[l.Slot(j)]
    requires forall k | k in d && !Among(l, blocks, |blocks|, k) :: d'[k] == d[k]
    ensures Install(l, d', blocks, |blocks|) == Install(l, d, blocks, |blocks|)
  {
    hide Install, WellFormed, Among;
    InstallKeys(l, d, blocks);
    InstallKeys(l, d', blocks);
    forall k | k in d
      ensures Install(l, d, blocks, |blocks|)[k] == Install(l, d', blocks, |blocks|)[k]
    {
      InstallAt(l, d, d', blocks, k);
    }
  }

  lemma InstallKeys(l: Layout, d: Disk, blocks: seq<nat>)
    requires WellFormed(l, d) && Loggable(l, d.Keys, blocks)
    ensures forall i: nat | i < |blocks| :: l.Slot(i) in d
    ensures Install(l, d, blocks, |blocks|).Keys == d.Keys
  {
    InstallFrame(l, d, blocks, |blocks|);
  }

  lemma InstallAt(l: Layout, d: Disk, d': Disk, blocks: seq<nat>, k: Key)
    requires WellFormed(l, d) && WellFormed(l, d') && Loggable(l, d.Keys, blocks) && d'.Keys == d.Keys && k in d
    requires forall j: nat | j < |blocks| :: d'[l.Slot(j)] == d[l.Slot(j)]
    requires !Among(l, blocks, |blocks|, k) ==> d'[k] == d[k]
    ensures k in Install(l, d, blocks, |blocks|) && k in Install(l, d', blocks, |blocks|)
    ensures Install(l, d', blocks, |blocks|)[k] == Install(l, d, blocks, |blocks|)[k]
  {
    InstallFrame(l, d, blocks, |blocks|);
    InstallFrame(l, d', blocks, |blocks|);
    if Among(l, blocks, |blocks|, k) {
      var j: nat :| j < |blocks| && l.At(blocks[j]) == k;
    }
  }

  lemma ReplayIsClean(l: Layout, d: Disk)
    requires WellFormed(l, d)
    ensures WellFormed(l, Replay(l, d)) && Listed(l, Replay(l, d)) == []
  {
    ReplayOfInstalled(l, d, |Listed(l, d)|);
    ClearedList(l, Install(l, d, Listed(l, d), |Listed(l, d)|));
  }

  /** Recovery may be cut off after any number of block writes and started again. */
  lemma RecoveryRestarts(l: Layout, d: Disk, s: nat)
    requires WellFormed(l, d) && s <= |Listed(l, d)| + 1
    ensures WellFormed(l, Recovering(l, d, s)) && Replay(l, Recovering(l, d, s)) == Replay(l, d)
  {
    if s <= |Listed(l, d)| {
      ReplayOfInstalled(l, d, s);
    } else {
      ReplayOfInstalled(l, d, s - 1);
      ClearedList(l, Recovering(l, d, s - 1));
      assert Replay(l, Replay(l, d)) == Replay(l, d);
    }
  }

  // ---------- commit ----------

  /** The log is empty on the device, and the cached contents differ from the device
      only at the blocks recorded for this transaction. */
  ghost predicate Recording(l: Layout, st: Store, blocks: seq<nat>) {
    && WellFormed(l, st.disk) && Listed(l, st.disk) == []
    && Recordable(l, st.disk.Keys, blocks)
    && st.logical.Keys == st.disk.Keys
    && forall k | k in st.disk && !Among(l, blocks, |blocks|, k) :: st.logical[k] == st.disk[k]
  }

  /** The same, and the log area has a slot for every recorded block. */
  ghost predicate InTransaction(l: Layout, st: Store, blocks: seq<nat>) {
    Recording(l, st, blocks) && |blocks| < l.size
  }

  /** `base` after the first m block writes of write_log, copying from `src`. */
  ghost function Logged(l: Layout, base: Disk, src: Disk, blocks: seq<nat>, m: nat): (r: Disk)
    requires m <= |blocks| && forall i: nat | i < m :: l.At(blocks[i]) in src
  {
    if m == 0 then base else Logged(l, base, src, blocks, m - 1)[l.Slot(m - 1) := src[l.At(blocks[m - 1])]]
  }

  lemma {:induction false} LoggedFrame(l: Layout, base: Disk, src: Disk, blocks: seq<nat>, m: nat)
    requires WellFormed(l, base) && Loggable(l, base.Keys, blocks) && m <= |blocks|
    requires src.Keys == base.Keys
    ensures Logged(l, base, src, blocks, m).Keys == base.Keys
    ensures forall j: nat | j < m :: Logged(l, base, src, blocks, m)[l.Slot(j)] == src[l.At(blocks[j])]
    ensures forall k | k in base && !l.InLog(k) :: Logged(l, base, src, blocks, m)[k] == base[k]
    ensures Logged(l, base, src, blocks, m)[l.Head()] == base[l.Head()]
  {
    if m > 0 {
      LoggedFrame(l, base, src, blocks, m - 1);
    }
  }

  /** The device once write_head has listed the transaction: the commit point. */
  ghost function Sealed(l: Layout, st: Store, blocks: seq<nat>): (r: Disk)
    requires InTransaction(l, st, blocks)
  {
    Logged(l, st.disk, st.logical, blocks, |blocks|)[l.Head() := EncodeHead(st.disk[l.Head()], blocks)]
  }

  lemma SealedList(l: Layout, st: Store, blocks: seq<nat>)
    requires InTransaction(l, st, blocks)
    ensures WellFormed(l, Sealed(l, st, blocks)) && Listed(l, Sealed(l, st, blocks)) == blocks
    ensures Sealed(l, st, blocks).Keys == st.disk.Keys
  {
    LoggedFrame(l, st.disk, st.logical, blocks, |blocks|);
    HeadRoundTrip(l, Sealed(l, st, blocks), st.disk[l.Head()], blocks);
  }

  /** The number of block writes of commit. */
  function Writes(blocks: seq<nat>): nat {
    if blocks == [] then 0 else 2 * |blocks| + 2
  }

  /** The device after s block writes of commit. */
  ghost function Committing(l: Layout, st: Store, blocks: seq<nat>, s: nat): (r: Disk)
    requires InTransaction(l, st, blocks) && s <= Writes(blocks)
  {
    if s <= |blocks| then
      Logged(l, st.disk, st.logical, blocks, s)
    else
      SealedList(l, st, blocks);
      Recovering(l, Sealed(l, st, blocks), s - |blocks| - 1)
  }

  /** Recovery gives every home block the contents that the log holds for it. */
  lemma ReplayInstalls(l: Layout, d: Disk, d': Disk)
    requires WellFormed(l, d) && d'.Keys == d.Keys
    requires forall j: nat | j < |Listed(l, d)| :: d[l.Slot(j)] == d'[l.At(Listed(l, d)[j])]
    requires forall k | k in d && !l.InLog(k) && !Among(l, Listed(l, d), |Listed(l, d)|, k) :: d[k] == d'[k]
    ensures Home(l, Replay(l, d)) == Home(l, d')
  {
    var blocks := Listed(l, d);
    InstallFrame(l, d, blocks, |blocks|);
    var r := Install(l, d, blocks, |blocks|);
    forall k | k in d && !l.InLog(k)
      ensures r[k] == d'[k]
    {
      if Among(l, blocks, |blocks|, k) {
        var j: nat :| j < |blocks| && l.At(blocks[j]) == k;
      }
    }
    assert Home(l, Replay(l, d)) == Home(l, d');
  }

  lemma SealedReplay(l: Layout, st: Store, blocks: seq<nat>)
    requires InTransaction(l, st, blocks)
    ensures WellFormed(l, Sealed(l, st, blocks))
    ensures Home(l, Replay(l, Sealed(l, st, blocks))) == Home(l, st.logical)
  {
    SealedList(l, st, blocks);
    LoggedFrame(l, st.disk, st.logical, blocks, |blocks|);
    ReplayInstalls(l, Sealed(l, st, blocks), st.logical);
  }

  /** A crash after any number of block writes of commit, once recovered, leaves all
      home blocks as they were before, or all as the transaction left them; the
      header write alone decides which. */
  lemma CommitIsAtomic(l: Layout, st: Store, blocks: seq<nat>, s: nat)
    requires InTransaction(l, st, blocks) && s <= Writes(blocks)
    ensures WellFormed(l, Committing(l, st, blocks, s))
    ensures Home(l, Replay(l, Committing(l, st, blocks, s))) == Home(l, if s <= |blocks| then st.disk else st.logical)
    ensures forall k | k in st.disk && !l.InLog(k) ::
              && k in st.logical && k in Replay(l, Committing(l, st, blocks, s))
              && Replay(l, Committing(l, st, blocks, s))[k] == if s <= |blocks| then st.disk[k] else st.logical[k]
    ensures WellFormed(l, Replay(l, Committing(l, st, blocks, s)))
    ensures Listed(l, Replay(l, Committing(l, st, blocks, s))) == []
  {
    hide WellFormed, Replay, Home, Listed, Logged, Sealed, Recovering, InTransaction;
    if s <= |blocks| {
      UnsealedReplay(l, st, blocks, s);
    } else {
      SealedReplay(l, st, blocks);
      SealedList(l, st, blocks);
      RecoveryRestarts(l, Sealed(l, st, blocks), s - |blocks| - 1);
    }
    ReplayIsClean(l, Committing(l, st, blocks, s));
    SameKeys(l, st, blocks);
    forall k | k in st.disk && !l.InLog(k)
      ensures k in Replay(l, Committing(l, st, blocks, s))
      ensures Replay(l, Committing(l, st, blocks, s))[k] == if s <= |blocks| then st.disk[k] else st.logical[k]
    {
      HomeAt(l, if s <= |blocks| then st.disk else st.logical, Replay(l, Committing(l, st, blocks, s)), k);
    }
  }

  lemma SameKeys(l: Layout, st: Store, blocks: seq<nat>)
    requires InTransaction(l, st, blocks)
    ensures st.logical.Keys == st.disk.Keys
  {
  }

  /** Devices with the same home blocks hold the same in each of them. */
  lemma HomeAt(l: Layout, d: Disk, d': Disk, k: Key)
    requires Home(l, d') == Home(l, d) && k in d && !l.InLog(k)
    ensures k in d' && d'[k] == d[k]
  {
    assert k in Home(l, d) && Home(l, d)[k] == d[k];
  }

  /** Before the header write, recovery yields the home blocks as they were. */
  lemma UnsealedReplay(l: Layout, st: Store, blocks: seq<nat>, s: nat)
    requires InTransaction(l, st, blocks) && s <= |blocks|
    ensures forall i: nat | i < s :: l.At(blocks[i]) in st.logical
    ensures WellFormed(l, Logged(l, st.disk, st.logical, blocks, s))
    ensures Home(l, Replay(l, Logged(l, st.disk, st.logical, blocks, s))) == Home(l, st.disk)
  {
    var d := Logged(l, st.disk, st.logical, blocks, s);
    LoggedFrame(l, st.disk, st.logical, blocks, s);
    SameHeadSameList(l, st.disk, d);
    hide Logged;
    assert Replay(l, d) == Cleared(l, d);
  }

  /** Until the header lists the transaction, commit has not touched a home block. */
  ghost predicate LogsInside(l: Layout, d: Disk, blocks: seq<nat>) {
    forall logical, s: nat | Recording(l, Store(d, logical), blocks) && s <= |blocks| ::
      Home(l, Logged(l, d, logical, blocks, s)) == Home(l, d)
  }

  /** Contents for which write_log changes a home block, when it has more blocks than slots. */
  lemma OverrunWrites(l: Layout, d: Disk, blocks: seq<nat>) returns (logical: Disk)
    requires WellFormed(l, d) && Listed(l, d) == [] && Recordable(l, d.Keys, blocks) && |blocks| >= l.size
    ensures Recording(l, Store(d, logical), blocks) && !l.InLog(l.Slot(|blocks| - 1))
    ensures Home(l, Logged(l, d, logical, blocks, |blocks|)) != Home(l, d)
  {
    var n, k := |blocks|, l.Slot(|blocks| - 1);
    var data := if k in d then d[k] + [0] else [];
    logical := d[l.At(blocks[n - 1]) := data];
    assert Among(l, blocks, n, l.At(blocks[n - 1]));
    var r := Logged(l, d, logical, blocks, n);
    assert r[k] == data;
    assert k in Home(l, r) && Home(l, r)[k] == data;
    assert k in d ==> Home(l, d)[k] == d[k];
  }

  /** A commit is harmless before its commit point, whatever the contents, exactly when the
      log area has a slot for every recorded block: one block more and write_log overwrites
      the block behind the log area. */
  lemma LogsInsideExactly(l: Layout, d: Disk, blocks: seq<nat>)
    requires WellFormed(l, d) && Listed(l, d) == [] && Recordable(l, d.Keys, blocks)
    ensures LogsInside(l, d, blocks) <==> |blocks| < l.size
  {
    if |blocks| < l.size {
      forall logical, s: nat | Recording(l, Store(d, logical), blocks) && s <= |blocks|
        ensures Home(l, Logged(l, d, logical, blocks, s)) == Home(l, d)
      {
        LoggedFrame(l, d, logical, blocks, s);
      }
    } else {
      var logical := OverrunWrites(l, d, blocks);
    }
  }

  // ---------- the block writes one by one ----------

  ghost function InstallTrace(l: Layout, d: Disk, blocks: seq<nat>, m: nat): (r: seq<Disk>)
    requires m <= |blocks| && forall i: nat | i < m :: l.Slot(i) in d
    ensures |r| == m && forall s | 0 <= s < m :: r[s] == Install(l, d, blocks, s + 1)
  {
    if m == 0 then [] else InstallTrace(l, d, blocks, m - 1) + [Install(l, d, blocks, m)]
  }

  ghost function LoggedTrace(l: Layout, base: Disk, src: Disk, blocks: seq<nat>, m: nat): (r: seq<Disk>)
    requires m <= |blocks| && forall i: nat | i < m :: l.At(blocks[i]) in src
    ensures |r| == m && forall s | 0 <= s < m :: r[s] == Logged(l, base, src, blocks, s + 1)
  {
    if m == 0 then [] else LoggedTrace(l, base, src, blocks, m - 1) + [Logged(l, base, src, blocks, m)]
  }

  ghost function RecoveryTrace(l: Layout, d: Disk): (r: seq<Disk>)
    requires WellFormed(l, d)
    ensures |r| == |Listed(l, d)| + 1 && forall s | 0 <= s < |r| :: r[s] == Recovering(l, d, s + 1)
  {
    InstallTrace(l, d, Listed(l, d), |Listed(l, d)|) + [Replay(l, d)]
  }

  ghost function CommitTrace(l: Layout, st: Store, blocks: seq<nat>): (r: seq<Disk>)
    requires InTransaction(l, st, blocks)
    ensures |r| == Writes(blocks)
  {
    SealedList(l, st, blocks);
    if blocks == [] then [] else
    LoggedTrace(l, st.disk, st.logical, blocks, |blocks|) + [Sealed(l, st, blocks)] +
        RecoveryTrace(l, Sealed(l, st, blocks))
  }

  /** The devices that commit passes through are those of Committing, one by one. */
  lemma CommitTraceIs(l: Layout, st: Store, blocks: seq<nat>, s: nat)
    requires InTransaction(l, st, blocks) && s < Writes(blocks)
    ensures CommitTrace(l, st, blocks)[s] == Committing(l, st, blocks, s + 1)
  {
    SealedList(l, st, blocks);
    var d := Sealed(l, st, blocks);
    assert Recovering(l, d, 0) == d;
    hide Sealed, Logged, LoggedTrace, RecoveryTrace, Recovering;
  }

  // ---------- whole runs ----------

  /** One stretch of the life of the device.  A commit or a recovery either finishes
      or is cut off by a crash after `writes` block writes. */
  datatype Event =
    | Commit(updates: Disk, blocks: seq<nat>)
    | CrashedCommit(updates: Disk, blocks: seq<nat>, writes: nat)
    | Recover
    | CrashedRecovery(writes: nat)

  ghost function After(st: Disk, updates: Disk): (r: Store) {
    Store(st, st + updates)
  }

  /** Transactions start only on a recovered device. */
  ghost predicate Enabled(l: Layout, d: Disk, e: Event)
    requires WellFormed(l, d)
  {
    match e
    case Commit(u, blocks) => InTransaction(l, After(d, u), blocks)
    case CrashedCommit(u, blocks, s) => InTransaction(l, After(d, u), blocks) && s <= Writes(blocks)
    case Recover => true
    case CrashedRecovery(s) => s <= |Listed(l, d)| + 1
  }

  ghost function Next(l: Layout, d: Disk, e: Event): (r: Disk)
    requires WellFormed(l, d) && Enabled(l, d, e)
  {
    match e
    case Commit(u, blocks) => Committing(l, After(d, u), blocks, Writes(blocks))
    case CrashedCommit(u, blocks, s) => Committing(l, After(d, u), blocks, s)
    case Recover => Replay(l, d)
    case CrashedRecovery(s) => Recovering(l, d, s)
  }

  /** What the event means for the file system: nothing, or one whole transaction. */
  ghost function Effect(l: Layout, h: Disk, e: Event): (r: Disk) {
    match e
    case Commit(u, _) => h + Home(l, u)
    case CrashedCommit(u, blocks, s) => if s <= |blocks| then h else h + Home(l, u)
    case Recover => h
    case CrashedRecovery(_) => h
  }

  ghost predicate Run(l: Layout, d: Disk, events: seq<Event>)
    requires WellFormed(l, d)
    decreases |events|
  {
    events == [] ||
    (Enabled(l, d, events[0]) && WellFormed(l, Next(l, d, events[0])) && Run(l, Next(l, d, events[0]), events[1..]))
  }

  ghost function Final(l: Layout, d: Disk, events: seq<Event>): (r: Disk)
    requires WellFormed(l, d) && Run(l, d, events)
    ensures WellFormed(l, r)
    decreases |events|
  {
    if events == [] then d else Final(l, Next(l, d, events[0]), events[1..])
  }

  ghost function Effects(l: Layout, h: Disk, events: seq<Event>): (r: Disk)
    decreases |events|
  {
    if events == [] then h else Effects(l, Effect(l, h, events[0]), events[1..])
  }

  lemma HomeOfAfter(l: Layout, d: Disk, u: Disk)
    ensures Home(l, After(d, u).logical) == Home(l, d) + Home(l, u)
  {
  }

  lemma EventIsAtomic(l: Layout, d: Disk, e: Event)
    requires WellFormed(l, d) && Enabled(l, d, e)
    ensures WellFormed(l, Next(l, d, e))
    ensures Home(l, Replay(l, Next(l, d, e))) == Effect(l, Home(l, Replay(l, d)), e)
  {
    match e
    case Commit(u, blocks) =>
      CommitIsAtomic(l, After(d, u), blocks, 0);
      CommitIsAtomic(l, After(d, u), blocks, Writes(blocks));
      HomeOfAfter(l, d, u);
    case CrashedCommit(u, blocks, s) =>
      CommitIsAtomic(l, After(d, u), blocks, 0);
      CommitIsAtomic(l, After(d, u), blocks, s);
      HomeOfAfter(l, d, u);
    case Recover =>
      RecoveryRestarts(l, d, |Listed(l, d)| + 1);
    case CrashedRecovery(s) =>
      RecoveryRestarts(l, d, s);
  }

  /** Through any number of transactions, crashes and interrupted recoveries, the file
      system that recovery would restore is the initial one with exactly the
      transactions applied, whole and in order, that passed their commit point. */
  lemma {:induction false} RunIsAtomic(l: Layout, d: Disk, events: seq<Event>)
    requires WellFormed(l, d) && Run(l, d, events)
    ensures Home(l, Replay(l, Final(l, d, events))) == Effects(l, Home(l, Replay(l, d)), events)
    decreases |events|
  {
    if events != [] {
      EventIsAtomic(l, d, events[0]);
      RunIsAtomic(l, Next(l, d, events[0]), events[1..]);
    }
  }

  /** No event can get stuck on a damaged log: every enabled event leaves a log that
      recovery can read. */
  lemma {:induction false} RunExtends(l: Layout, d: Disk, events: seq<Event>, e: Event)
    requires WellFormed(l, d) && Run(l, d, events) && Enabled(l, Final(l, d, events), e)
    ensures Run(l, d, events + [e])
    decreases |events|
  {
    if events == [] {
      EventIsAtomic(l, d, e);
      assert ([e])[1..] == [];
    } else {
      assert (events + [e])[1..] == events[1..] + [e];
      RunExtends(l, Next(l, d, events[0]), events[1..], e);
    }
  }

  /** Transactions with something to lose exist: on a zeroed device with the log of mkfs.c,
      block 50 is recorded and its cached contents are new. */
  lemma SomeTransaction() returns (l: Layout, st: Store)
    ensures l == Layout(1, 2, LOGSIZE) && InTransaction(l, st, [50]) && Run(l, st.disk, [Commit(st.logical, [50])])
    ensures Home(l, st.disk) != Home(l, st.logical)
  {
    l := Layout(1, 2, LOGSIZE);
    var zero := seq(WORDS, _ => 0);
    var d: Disk := map b: nat | b < 100 :: l.At(b) := zero;
    st := Store(d, d[l.At(50) := zero[0 := 1]]);
    assert Listed(l, d) == [];
    assert l.At(50) in Home(l, st.disk) && Home(l, st.disk)[l.At(50)][0] == 0;
    assert Home(l, st.logical)[l.At(50)][0] == 1;
    var blocks := [50];
    assert l.At(blocks[0]) == l.At(50) && Among(l, blocks, 1, l.At(50));
    assert d + st.logical == st.logical;
    RunExtends(l, d, [], Commit(st.logical, [50]));
    assert [] + [Commit(st.logical, [50])] == [Commit(st.logical, [50])];
  }
}
