/** The functions of log.c, in their own imperative form, over the buffer cache.  `trace`
    records the device contents after every block write. */
module LogManager {
  import opened Params
  import opened Storage
  import opened BufferCache
  import opened Log
  import G = GroupCommit

  // ---------- the buffers that the log goes through ----------

  /** Some buffer can be taken over for a block that is not cached. */
  ghost predicate Spare(bufs: seq<Buf>) {
    exists j :: 0 <= j < |bufs| && Recyclable(bufs[j])
  }

  ghost predicate TwoSpare(bufs: seq<Buf>) {
    exists i, j :: 0 <= i < j < |bufs| && Recyclable(bufs[i]) && Recyclable(bufs[j])
  }

  ghost predicate Unlocked(bufs: seq<Buf>, k: Key) {
    forall j | 0 <= j < |bufs| && bufs[j].key == k :: !bufs[j].locked
  }

  /** No one but the log itself uses the log's blocks. */
  ghost predicate LogIdle(l: Layout, bufs: seq<Buf>) {
    forall j | 0 <= j < |bufs| && l.InLog(bufs[j].key) :: bufs[j].refcnt == 0
  }

  ghost predicate DirtyIn(l: Layout, bufs: seq<Buf>, blocks: seq<nat>) {
    forall j | 0 <= j < |bufs| && bufs[j].dirty :: bufs[j].key.dev == l.dev && bufs[j].key.blockno in blocks
  }

  ghost predicate AllPinned(l: Layout, bufs: seq<Buf>, blocks: seq<nat>) {
    forall b | b in blocks :: Pinned(bufs, l.At(b))
  }

  /** The recorded blocks are the dirty ones. */
  ghost predicate Quiet(l: Layout, bufs: seq<Buf>, blocks: seq<nat>) {
    LogIdle(l, bufs) && DirtyIn(l, bufs, blocks) && AllPinned(l, bufs, blocks)
  }

  /** commit need not wait for the holder of a recorded block. */
  ghost predicate HomesFree(l: Layout, bufs: seq<Buf>, blocks: seq<nat>) {
    forall b | b in blocks :: Unlocked(bufs, l.At(b))
  }

  /** The buffer is as it was, though a write of `to` may have cleaned it; or it was free
      for use before and is so again. */
  predicate Kept(b: Buf, b': Buf, to: Key) {
    && (b.locked ==> b' == b)
    && (|| (b'.key == b.key && b'.refcnt == b.refcnt && b'.locked == b.locked &&
            (b'.dirty == b.dirty || (b.key == to && !b'.dirty)))
        || (Recyclable(b) && Recyclable(b') && !b'.locked))
  }

  ghost predicate AllKept(bufs: seq<Buf>, bufs': seq<Buf>, to: Key) {
    |bufs'| == |bufs| && forall j | 0 <= j < |bufs| :: Kept(bufs[j], bufs'[j], to)
  }

  /** Whoever holds a reference to a buffer still holds it. */
  ghost predicate Undisturbed(bufs: seq<Buf>, bufs': seq<Buf>) {
    && |bufs'| == |bufs|
    && forall j | 0 <= j < |bufs| ::
         && bufs'[j].refcnt == bufs[j].refcnt
         && (bufs[j].refcnt > 0 ==> bufs'[j].key == bufs[j].key && bufs'[j].locked == bufs[j].locked)
         && (bufs[j].locked ==> bufs'[j] == bufs[j])
  }

  ghost predicate Available(bufs: seq<Buf>, k: Key) {
    exists j :: 0 <= j < |bufs| && (bufs[j].key == k || Recyclable(bufs[j]))
  }

  /** A block of the log that is cached sits in a buffer that can be taken over anyway. */
  lemma SlotAvailable(l: Layout, bufs: seq<Buf>, blocks: seq<nat>, k: Key)
    requires LogIdle(l, bufs) && DirtyIn(l, bufs, blocks) && l.InLog(k)
    requires forall b | b in blocks :: !l.InLog(l.At(b))
    ensures Available(bufs, k) <==> Spare(bufs)
    ensures Unlockable(bufs) ==> Unlocked(bufs, k)
  {
    forall j | 0 <= j < |bufs| && bufs[j].key == k
      ensures Recyclable(bufs[j])
    {
      assert bufs[j].dirty ==> bufs[j].key == l.At(bufs[j].key.blockno);
    }
  }

  /** A locked buffer is referenced. */
  ghost predicate Unlockable(bufs: seq<Buf>) {
    forall j | 0 <= j < |bufs| && bufs[j].locked :: bufs[j].refcnt > 0
  }

  /** b' is b after brelse, with a write in between if its block is `to`. */
  predicate Released(b: Buf, b': Buf, to: Key) {
    && b'.key == b.key && !b'.locked && b'.refcnt == b.refcnt - 1
    && (b'.dirty == b.dirty || (b.key == to && !b'.dirty))
  }

  /** Buffer i is taken by bread and given back by brelse. */
  lemma KeptOne(bufs: seq<Buf>, taken: seq<Buf>, bufs': seq<Buf>, i: nat, k: Key, to: Key)
    requires |bufs| == |taken| == |bufs'| && i < |bufs| && Unlockable(bufs)
    requires Taken(bufs[i], taken[i], k) && Released(taken[i], bufs'[i], to)
    requires forall j | 0 <= j < |bufs| && j != i :: taken[j] == bufs[j] && bufs'[j] == bufs[j]
    ensures AllKept(bufs, bufs', to)
  {
  }

  /** Two different blocks are read into two buffers. */
  lemma TwoTaken(bufs: seq<Buf>, bufs1: seq<Buf>, bufs2: seq<Buf>, i: nat, j: nat, k1: Key, k2: Key)
    requires |bufs| == |bufs1| == |bufs2| && i < |bufs| && j < |bufs| && k1 != k2
    requires Taken(bufs[i], bufs1[i], k1) && Taken(bufs1[j], bufs2[j], k2)
    requires forall m | 0 <= m < |bufs| && m != i :: bufs1[m] == bufs[m]
    requires forall m | 0 <= m < |bufs| && m != j :: bufs2[m] == bufs1[m]
    ensures i != j && bufs2[i] == bufs1[i]
  {
  }

  lemma KeptTwo(bufs: seq<Buf>, bufs1: seq<Buf>, bufs2: seq<Buf>, bufs': seq<Buf>, i: nat, j: nat, k1: Key, k2: Key,
                to: Key)
    requires |bufs| == |bufs1| == |bufs2| == |bufs'| && i < |bufs| && j < |bufs| && k1 != k2 && Unlockable(bufs)
    requires Taken(bufs[i], bufs1[i], k1) && Taken(bufs1[j], bufs2[j], k2)
    requires forall m | 0 <= m < |bufs| && m != i :: bufs1[m] == bufs[m]
    requires forall m | 0 <= m < |bufs| && m != j :: bufs2[m] == bufs1[m]
    requires Released(bufs2[i], bufs'[i], to) && Released(bufs2[j], bufs'[j], to)
    requires forall m | 0 <= m < |bufs| && m != i && m != j :: bufs'[m] == bufs2[m]
    ensures AllKept(bufs, bufs', to)
  {
    TwoTaken(bufs, bufs1, bufs2, i, j, k1, k2);
  }

  lemma Cleaned(bufs: seq<Buf>, i: nat, k: Key)
    requires Unique(bufs) && i < |bufs| && bufs[i].key == k && !bufs[i].dirty && k != FRESH
    ensures !Pinned(bufs, k)
  {
  }

  /** With one buffer taken for k1, block k2 can still be read. */
  lemma StillAvailable(bufs: seq<Buf>, bufs1: seq<Buf>, i: nat, k1: Key, k2: Key)
    requires |bufs1| == |bufs| && i < |bufs| && k1 != k2 && Taken(bufs[i], bufs1[i], k1)
    requires forall m | 0 <= m < |bufs| && m != i :: bufs1[m] == bufs[m]
    requires Unlocked(bufs, k2) && (Pinned(bufs, k2) || TwoSpare(bufs))
    ensures Available(bufs1, k2) && Unlocked(bufs1, k2)
  {
    if Pinned(bufs, k2) {
      var j :| 0 <= j < |bufs| && bufs[j].key == k2 && bufs[j].dirty;
      assert bufs1[j].key == k2;
    } else {
      var j, m :| 0 <= j < m < |bufs| && Recyclable(bufs[j]) && Recyclable(bufs[m]);
      assert Recyclable(bufs1[if j == i then m else j]);
    }
  }

  lemma KeptSpare(bufs: seq<Buf>, bufs': seq<Buf>, to: Key)
    requires AllKept(bufs, bufs', to)
    ensures Spare(bufs) ==> Spare(bufs')
    ensures TwoSpare(bufs) ==> TwoSpare(bufs')
  {
    if Spare(bufs) {
      var j :| 0 <= j < |bufs| && Recyclable(bufs[j]);
      assert Kept(bufs[j], bufs'[j], to);
    }
    if TwoSpare(bufs) {
      var i, j :| 0 <= i < j < |bufs| && Recyclable(bufs[i]) && Recyclable(bufs[j]);
      assert Recyclable(bufs'[i]) && Recyclable(bufs'[j]);
    }
  }

  /** What a read or write by the log leaves in place; block `to` is the one that may
      have been cleaned. */
  lemma KeptQuiet(l: Layout, bufs0: seq<Buf>, bufs: seq<Buf>, bufs': seq<Buf>, to: Key, all: seq<nat>, blocks: seq<nat>)
    requires AllKept(bufs, bufs', to) && Undisturbed(bufs0, bufs)
    requires LogIdle(l, bufs) && DirtyIn(l, bufs, blocks) && HomesFree(l, bufs, all)
    ensures LogIdle(l, bufs') && DirtyIn(l, bufs', blocks) && HomesFree(l, bufs', all) && Undisturbed(bufs0, bufs')
    ensures forall k | k != to && Pinned(bufs, k) :: Pinned(bufs', k)
  {
    forall k | k != to && Pinned(bufs, k)
      ensures Pinned(bufs', k)
    {
      var j :| 0 <= j < |bufs| && bufs[j].key == k && bufs[j].dirty;
      assert Kept(bufs[j], bufs'[j], to);
    }
    forall b | b in all
      ensures Unlocked(bufs', l.At(b))
    {
      assert Unlocked(bufs, l.At(b));
      forall j | 0 <= j < |bufs'| && bufs'[j].key == l.At(b)
        ensures !bufs'[j].locked
      {
        assert Kept(bufs[j], bufs'[j], to);
      }
    }
    assert forall j | 0 <= j < |bufs| :: Kept(bufs[j], bufs'[j], to);
  }

  /** The log may go through the buffers: no one else uses its own blocks, the dirty ones
      are among `blocks`, those of `all` need not be waited for, and whoever held a buffer
      in bufs0 has it still. */
  ghost predicate Calm(l: Layout, bufs0: seq<Buf>, bufs: seq<Buf>, all: seq<nat>, blocks: seq<nat>) {
    && LogIdle(l, bufs) && DirtyIn(l, bufs, blocks) && HomesFree(l, bufs, all) && Undisturbed(bufs0, bufs)
    && (forall b | b in blocks :: b in all) && (forall b | b in all :: !l.InLog(l.At(b)))
  }

  lemma CalmStarts(l: Layout, st: Store, bufs: seq<Buf>, blocks: seq<nat>)
    requires Recording(l, st, blocks) && Quiet(l, bufs, blocks) && HomesFree(l, bufs, blocks)
    ensures Calm(l, bufs, bufs, blocks, blocks) && AllPinned(l, bufs, blocks)
  {
    forall b | b in blocks
      ensures !l.InLog(l.At(b))
    {
      var i :| 0 <= i < |blocks| && blocks[i] == b;
    }
  }

  /** What log and home need before the log goes through block number b. */
  lemma CalmReady(l: Layout, bufs0: seq<Buf>, bufs: seq<Buf>, all: seq<nat>, blocks: seq<nat>, k: Key)
    requires Calm(l, bufs0, bufs, all, blocks) && l.InLog(k) && Unlockable(bufs)
    ensures Available(bufs, k) <==> Spare(bufs)
    ensures Unlocked(bufs, k)
    ensures forall b | b in all :: Unlocked(bufs, l.At(b)) && l.At(b) != k
  {
    SlotAvailable(l, bufs, blocks, k);
  }

  /** Writing a block of the log leaves the recorded blocks pinned. */
  lemma CalmLogged(l: Layout, bufs0: seq<Buf>, bufs: seq<Buf>, bufs': seq<Buf>, all: seq<nat>, blocks: seq<nat>,
                   to: Key)
    requires Calm(l, bufs0, bufs, all, blocks) && AllKept(bufs, bufs', to) && l.InLog(to)
    ensures Calm(l, bufs0, bufs', all, blocks)
    ensures Spare(bufs) ==> Spare(bufs')
    ensures AllPinned(l, bufs, blocks) ==> AllPinned(l, bufs', blocks)
    ensures TwoSpare(bufs) ==> TwoSpare(bufs')
  {
    KeptQuiet(l, bufs0, bufs, bufs', to, all, blocks);
    KeptSpare(bufs, bufs', to);
  }

  /** Writing a home block makes one recorded block clean. */
  lemma CalmInstalled(l: Layout, bufs0: seq<Buf>, bufs: seq<Buf>, bufs': seq<Buf>, all: seq<nat>, tail: nat)
    requires tail < |all| && Calm(l, bufs0, bufs, all, all[tail..]) && AllKept(bufs, bufs', l.At(all[tail]))
    requires !Pinned(bufs', l.At(all[tail])) && forall i, j | 0 <= i < j < |all| :: all[i] != all[j]
    requires Spare(bufs) && (AllPinned(l, bufs, all[tail..]) || TwoSpare(bufs))
    ensures Calm(l, bufs0, bufs', all, all[tail + 1..])
    ensures Spare(bufs') && (AllPinned(l, bufs', all[tail + 1..]) || TwoSpare(bufs'))
  {
    KeptQuiet(l, bufs0, bufs, bufs', l.At(all[tail]), all, all[tail..]);
    KeptSpare(bufs, bufs', l.At(all[tail]));
    assert all[tail..] == [all[tail]] + all[tail + 1..];
    forall j | 0 <= j < |bufs'| && bufs'[j].dirty
      ensures bufs'[j].key.dev == l.dev && bufs'[j].key.blockno in all[tail + 1..]
    {
      assert bufs'[j].key.blockno in all[tail..];
    }
    forall b | b in all[tail + 1..] && AllPinned(l, bufs, all[tail..])
      ensures Pinned(bufs', l.At(b))
    {
      assert Pinned(bufs, l.At(b)) && b != all[tail];
    }
  }

  /** A new cache. */
  lemma CalmFresh(l: Layout, bufs: seq<Buf>, keys: set<Key>, blocks: seq<nat>)
    requires |bufs| >= 2 && (forall j | 0 <= j < |bufs| :: Recyclable(bufs[j])) && Unlockable(bufs)
    requires Loggable(l, keys, blocks)
    ensures Calm(l, bufs, bufs, blocks, blocks) && Spare(bufs) && TwoSpare(bufs)
  {
    assert Recyclable(bufs[0]) && Recyclable(bufs[1]);
    forall b | b in blocks
      ensures !l.InLog(l.At(b))
    {
      var i :| 0 <= i < |blocks| && blocks[i] == b;
    }
  }

  /** Nothing is recorded and nothing is dirty. */
  lemma CalmEnds(l: Layout, bufs0: seq<Buf>, bufs: seq<Buf>, all: seq<nat>)
    requires Calm(l, bufs0, bufs, all, [])
    ensures Quiet(l, bufs, []) && Undisturbed(bufs0, bufs)
    ensures (forall j | 0 <= j < |bufs0| :: bufs0[j].refcnt == 0) ==>
              forall j | 0 <= j < |bufs| :: Recyclable(bufs[j])
  {
  }

  lemma PinnedAt(l: Layout, bufs: seq<Buf>, blocks: seq<nat>, i: nat)
    requires AllPinned(l, bufs, blocks) && i < |blocks|
    ensures Pinned(bufs, l.At(blocks[i]))
  {
  }

  lemma CalmFrom(l: Layout, bufs0: seq<Buf>, bufs: seq<Buf>, all: seq<nat>)
    requires Calm(l, bufs0, bufs, all, all)
    ensures Calm(l, bufs, bufs, all, all)
  {
  }

  lemma CalmThen(l: Layout, bufs0: seq<Buf>, bufs: seq<Buf>, bufs': seq<Buf>, all: seq<nat>)
    requires Calm(l, bufs0, bufs, all, all) && Calm(l, bufs, bufs', all, [])
    ensures Calm(l, bufs0, bufs', all, [])
  {
  }

  class LogState {
    const l: Layout
    const cache: Cache
    var n: nat
    var block: seq<nat>
    var outstanding: int
    var committing: bool
    ghost var trace: seq<Disk>

    /** The first n entries of `block` are the blocks recorded for this transaction, and
        the cache holds exactly those dirty. */
    ghost predicate Recorded()
      reads this, cache
    {
      && cache.Valid()
      && l.dev != 0
      && |block| == LOGSIZE
      && n <= LOGSIZE
      && (n > 0 ==> l.size >= 2)
      && Recording(l, cache.View(), block[..n])
      && Quiet(l, cache.bufs, block[..n])
    }

    /** Between the functions of log.c: blocks are recorded only while an operation is in
        progress. */
    ghost predicate Valid()
      reads this, cache
    {
      Recorded() && !committing && outstanding >= 0 && (n > 0 ==> outstanding >= 1)
    }

    /** initlog after a crash: only the device is left, the cache is new, and recovery runs
        at once. */
    constructor (l: Layout, disk: Disk, nbuf: nat)
      requires WellFormed(l, disk) && l.dev != 0 && nbuf >= 2
      ensures Valid() && fresh(cache) && this.l == l && cache.nbuf == nbuf
      ensures n == 0 && outstanding == 0
      ensures cache.View() == Store(Replay(l, disk), Replay(l, disk))
      ensures trace == RecoveryTrace(l, disk)
      ensures forall j | 0 <= j < nbuf :: Recyclable(cache.bufs[j])
    {
      hide WellFormed, HasHead, Listed, Replay, RecoveryTrace, Recording, Quiet, Ring, Aged, Unique, Coherent,
           AtMostOne;
      this.l := l;
      cache := new Cache(nbuf, disk);
      n, block, outstanding, committing := 0, seq(LOGSIZE, _ => 0), 0, false;
      trace := [];
      new;
      RecoverFromLog();
    }

    /** bread of a block that the disk has: -1 stands for the panic of bget. */
    method Get(k: Key) returns (i: int)
      requires cache.Valid() && k != FRESH && k in cache.disk && Unlocked(cache.bufs, k)
      modifies cache`bufs
      ensures cache.Valid() && cache.View() == old(cache.View())
      ensures i == -1 <==> !Available(old(cache.bufs), k)
      ensures i != -1 ==> 0 <= i < cache.nbuf && Taken(old(cache.bufs)[i], cache.bufs[i], k)
      ensures i != -1 ==> k in cache.stored && cache.bufs[i].data == cache.stored[k]
      ensures i != -1 ==> forall j | 0 <= j < cache.nbuf && j != i :: cache.bufs[j] == old(cache.bufs)[j]
    {
      var got;
      i, got := cache.Bread(k);
    }

    /** bwrite by the holder of buffer i, after it has changed the contents. */
    method WriteThrough(i: nat, data: Block)
      requires cache.Valid() && i < cache.nbuf && cache.bufs[i].locked
      requires cache.bufs[i].key != FRESH && cache.bufs[i].key in cache.disk
      modifies cache, this`trace
      ensures cache.Valid() && cache.View() == old(cache.View()).Write(cache.bufs[i].key, data)
      ensures cache.bufs == old(cache.bufs)[i := old(cache.bufs)[i].(data := data, dirty := false, valid := true)]
      ensures trace == old(trace) + [cache.disk]
    {
      cache.SetData(i, data);
      cache.Bwrite(i);
      trace := trace + [cache.disk];
    }

    /** The number of blocks is bounded by the header's own array. */
    method ReadHead()
      requires cache.Valid() && l.dev != 0 && HasHead(l, cache.disk) && cache.stored == cache.disk && |block| == LOGSIZE
      requires Available(cache.bufs, l.Head()) && Unlocked(cache.bufs, l.Head())
      modifies this`n, this`block, cache
      ensures cache.Valid() && cache.View() == old(cache.View()) && AllKept(old(cache.bufs), cache.bufs, l.Head())
      ensures n <= LOGSIZE == |block| && block[..n] == Listed(l, cache.disk)
    {
      hide Available, Unlocked, Kept, AllKept, Ring, Aged, Unique, Coherent;
      CacheFacts(cache);
      var buf := Get(l.Head());
      ghost var taken := cache.bufs;
      var hb := cache.bufs[buf].data;
      n := hb[0];
      var i := 0;
      while i < n
        invariant 0 <= i <= n == hb[0] && |block| == LOGSIZE
        invariant block[..i] == Listed(l, cache.disk)[..i]
        modifies this`block
      {
        block := block[i := hb[i + 1]];
        i := i + 1;
      }
      cache.Brelse(buf);
      KeptOne(old(cache.bufs), taken, cache.bufs, buf, l.Head(), l.Head());
    }

    method WriteHead()
      requires cache.Valid() && l.dev != 0 && HasHead(l, cache.disk) && n <= LOGSIZE == |block|
      requires Available(cache.bufs, l.Head()) && Unlocked(cache.bufs, l.Head())
      requires cache.stored[l.Head()] == cache.disk[l.Head()]
      modifies cache, this`trace
      ensures cache.Valid() && AllKept(old(cache.bufs), cache.bufs, l.Head())
      ensures cache.View() == old(cache.View()).Write(l.Head(), EncodeHead(old(cache.disk)[l.Head()], block[..n]))
      ensures trace == old(trace) + [cache.disk]
    {
      hide Available, Unlocked, Kept, AllKept, Ring, Aged, Unique, Coherent;
      CacheFacts(cache);
      var buf := Get(l.Head());
      ghost var taken := cache.bufs;
      var hb := cache.bufs[buf].data;
      ghost var was := hb;
      hb := hb[0 := n];
      var i := 0;
      while i < n
        invariant 0 <= i <= n && |hb| == |was|
        invariant hb == [n] + block[..i] + was[1 + i..]
      {
        hb := hb[i + 1 := block[i]];
        i := i + 1;
      }
      WriteThrough(buf, hb);
      cache.Brelse(buf);
      KeptOne(old(cache.bufs), taken, cache.bufs, buf, l.Head(), l.Head());
    }

    /** One round of write_log: the cached contents of `home` go to the log; `ok` is false
        where bget finds no buffer for the log's block. */
    method LogOne(slot: Key, home: Key) returns (ok: bool)
      requires cache.Valid() && slot != FRESH && home != FRESH && slot != home && slot in cache.disk &&
               home in cache.disk
      requires Pinned(cache.bufs, home) && Unlocked(cache.bufs, slot) && Unlocked(cache.bufs, home)
      modifies cache, this`trace
      ensures cache.Valid() && home in old(cache.stored)
      ensures ok <==> Available(old(cache.bufs), slot)
      ensures !ok ==> cache.View() == old(cache.View()) && trace == old(trace)
      ensures ok ==> cache.View() == old(cache.View()).Write(slot, old(cache.stored)[home])
      ensures ok ==> trace == old(trace) + [cache.disk] && AllKept(old(cache.bufs), cache.bufs, slot)
    {
      hide Available, TwoSpare, Pinned, Unlocked, Kept, AllKept, Ring, Aged, Coherent;
      CacheFacts(cache);
      var to := Get(slot);
      if to == -1 {
        return false;
      }
      ghost var bufs1 := cache.bufs;
      StillAvailable(old(cache.bufs), bufs1, to, slot, home);
      var from := Get(home);
      ghost var bufs2 := cache.bufs;
      TwoTaken(old(cache.bufs), bufs1, bufs2, to, from, slot, home);
      WriteThrough(to, cache.bufs[from].data);
      cache.Brelse(from);
      cache.Brelse(to);
      KeptTwo(old(cache.bufs), bufs1, bufs2, cache.bufs, to, from, slot, home, slot);
      return true;
    }

    /** One round of install_trans: the log's block goes to its home. */
    method InstallOne(slot: Key, home: Key)
      requires cache.Valid() && slot != FRESH && home != FRESH && slot != home && slot in cache.disk &&
               home in cache.disk
      requires Available(cache.bufs, slot) && Unlocked(cache.bufs, slot) && Unlocked(cache.bufs, home)
      requires Pinned(cache.bufs, home) || TwoSpare(cache.bufs)
      modifies cache, this`trace
      ensures cache.Valid() && slot in old(cache.stored)
      ensures cache.View() == old(cache.View()).Write(home, old(cache.stored)[slot])
      ensures trace == old(trace) + [cache.disk]
      ensures AllKept(old(cache.bufs), cache.bufs, home) && !Pinned(cache.bufs, home)
    {
      hide Available, TwoSpare, Pinned, Unlocked, Kept, AllKept, Ring, Aged, Coherent;
      CacheFacts(cache);
      var lbuf := Get(slot);
      ghost var bufs1 := cache.bufs;
      StillAvailable(old(cache.bufs), bufs1, lbuf, slot, home);
      var dbuf := Get(home);
      ghost var bufs2 := cache.bufs;
      TwoTaken(old(cache.bufs), bufs1, bufs2, lbuf, dbuf, slot, home);
      WriteThrough(dbuf, cache.bufs[lbuf].data);
      cache.Brelse(lbuf);
      cache.Brelse(dbuf);
      KeptTwo(old(cache.bufs), bufs1, bufs2, cache.bufs, lbuf, dbuf, slot, home, home);
      Cleaned(cache.bufs, dbuf, home);
    }

    /** Copy each recorded block from the cache to its slot in the log.  Only the first
        round can find no buffer, before anything is written. */
    method WriteLog() returns (ok: bool)
      requires Recorded() && HomesFree(l, cache.bufs, block[..n]) && (n < l.size || !Spare(cache.bufs))
      modifies cache, this`trace
      ensures ok <==> n == 0 || Spare(old(cache.bufs))
      ensures !ok ==> cache.View() == old(cache.View()) && trace == old(trace)
      ensures ok ==> cache.Valid() && Calm(l, old(cache.bufs), cache.bufs, block[..n], block[..n])
      ensures ok ==> AllPinned(l, cache.bufs, block[..n]) && (n > 0 ==> Spare(cache.bufs))
      ensures ok ==> cache.View() == Store(Logged(l, old(cache.disk), old(cache.stored), block[..n], n),
                                           Logged(l, old(cache.stored), old(cache.stored), block[..n], n))
      ensures ok ==> trace == old(trace) + LoggedTrace(l, old(cache.disk), old(cache.stored), block[..n], n)
    {
      hide Logging, Logged, LoggedTrace, InTransaction, Recording, Quiet, HomesFree, AllKept, Spare, Available, Calm;
      hide AllPinned;
      ghost var st0, bufs0, blocks := cache.View(), cache.bufs, block[..n];
      LoggingStarts(l, st0, trace, blocks);
      CalmStarts(l, st0, bufs0, blocks);
      var tail := 0;
      while tail < n
        invariant 0 <= tail <= n && cache.Valid()
        invariant Logging(l, st0, cache.View(), old(trace), trace, blocks, tail)
        invariant Calm(l, bufs0, cache.bufs, blocks, blocks) && AllPinned(l, cache.bufs, blocks)
        invariant tail > 0 ==> Spare(bufs0)
        invariant Spare(bufs0) <==> Spare(cache.bufs)
      {
        LoggingKeys(l, st0, cache.View(), old(trace), trace, blocks, tail);
        if n < l.size { LoggingNext(l, st0, cache.View(), old(trace), trace, blocks, tail); }
        CalmReady(l, bufs0, cache.bufs, blocks, blocks, l.Slot(tail));
        PinnedAt(l, cache.bufs, blocks, tail);
        ghost var bufs := cache.bufs;
        ok := LogOne(l.Slot(tail), l.At(block[tail]));
        if !ok {
          LoggingEnds(l, st0, cache.View(), old(trace), trace, blocks, 0);
          return;
        }
        CalmLogged(l, bufs0, bufs, cache.bufs, blocks, blocks, l.Slot(tail));
        tail := tail + 1;
      }
      LoggingEnds(l, st0, cache.View(), old(trace), trace, blocks, tail);
      ok := true;
    }

    /** Copy each logged block to its home, in the order of the header. */
    method InstallTrans()
      requires cache.Valid() && l.dev != 0 && n <= LOGSIZE == |block|
      requires WellFormed(l, cache.disk) && Listed(l, cache.disk) == block[..n] && SameLog(l, cache.View())
      requires Calm(l, cache.bufs, cache.bufs, block[..n], block[..n]) && Spare(cache.bufs)
      requires AllPinned(l, cache.bufs, block[..n]) || TwoSpare(cache.bufs)
      modifies cache, this`trace
      ensures cache.Valid() && Calm(l, old(cache.bufs), cache.bufs, block[..n], []) && Spare(cache.bufs)
      ensures cache.View() == Store(Install(l, old(cache.disk), block[..n], n),
                                    Install(l, old(cache.stored), block[..n], n))
      ensures trace == old(trace) + InstallTrace(l, old(cache.disk), block[..n], n)
    {
      hide WellFormed, HomesFree, AllKept, Spare, TwoSpare, Available, Calm, AllPinned, Installing, Pinned, Install,
           InstallTrace;
      ghost var st0, bufs0, blocks := cache.View(), cache.bufs, block[..n];
      InstallingStarts(l, st0, trace, blocks);
      assert blocks[0..] == blocks;
      var tail := 0;
      while tail < n
        invariant 0 <= tail <= n && cache.Valid()
        invariant Installing(l, st0, cache.View(), old(trace), trace, blocks, tail)
        invariant Calm(l, bufs0, cache.bufs, blocks, blocks[tail..]) && Spare(cache.bufs)
        invariant AllPinned(l, cache.bufs, blocks[tail..]) || TwoSpare(cache.bufs)
      {
        InstallingNext(l, st0, cache.View(), old(trace), trace, blocks, tail);
        CalmReady(l, bufs0, cache.bufs, blocks, blocks[tail..], l.Slot(tail));
        if AllPinned(l, cache.bufs, blocks[tail..]) { PinnedAt(l, cache.bufs, blocks[tail..], 0); }
        ghost var bufs := cache.bufs;
        InstallOne(l.Slot(tail), l.At(block[tail]));
        CalmInstalled(l, bufs0, bufs, cache.bufs, blocks, tail);
        tail := tail + 1;
      }
      assert blocks[n..] == [];
      InstallingEnds(l, st0, cache.View(), old(trace), trace, blocks);
    }

    /** The first half of commit, up to and including the header write. */
    method Seal() returns (ok: bool)
      requires Recorded() && HomesFree(l, cache.bufs, block[..n]) && n > 0 && (n < l.size || !Spare(cache.bufs))
      modifies cache, this`trace
      ensures ok <==> Spare(old(cache.bufs))
      ensures !ok ==> cache.View() == old(cache.View()) && trace == old(trace)
      ensures ok ==> cache.Valid() && Calm(l, old(cache.bufs), cache.bufs, block[..n], block[..n])
      ensures ok ==> AllPinned(l, cache.bufs, block[..n]) && Spare(cache.bufs)
      ensures ok ==>
              cache.View() == Store(Sealed(l, old(cache.View()), block[..n]),
                                    SealedCopy(l, old(cache.View()), block[..n]))
      ensures ok ==>
              trace == old(trace) + LoggedTrace(l, old(cache.disk), old(cache.stored), block[..n], n) + [cache.disk]
    {
      hide HomesFree, AllKept, Spare, Available, Calm, AllPinned, Quiet, Ring, Aged, Unique, Coherent;
      CacheFacts(cache);
      ghost var st0, bufs0, blocks := cache.View(), cache.bufs, block[..n];
      ok := WriteLog();
      if ok {
        CacheFacts(cache);
        SameHeadSameList(l, st0.disk, st0.logical);
        LoggedFrame(l, st0.disk, st0.logical, blocks, n);
        LoggedFrame(l, st0.logical, st0.logical, blocks, n);
        ghost var bufs := cache.bufs;
        CalmReady(l, bufs0, bufs, blocks, blocks, l.Head());
        WriteHead();
        CalmLogged(l, bufs0, bufs, cache.bufs, blocks, blocks, l.Head());
      }
    }

    /** What commit does after its commit point and recovery does at boot: install, then
        erase the transaction from the log. */
    method InstallAndErase(ghost bufs0: seq<Buf>)
      requires cache.Valid() && l.dev != 0 && n <= LOGSIZE == |block|
      requires WellFormed(l, cache.disk) && Listed(l, cache.disk) == block[..n] && SameLog(l, cache.View())
      requires Install(l, cache.stored, block[..n], n) == Install(l, cache.disk, block[..n], n)
      requires Calm(l, bufs0, cache.bufs, block[..n], block[..n]) && Spare(cache.bufs)
      requires AllPinned(l, cache.bufs, block[..n]) || TwoSpare(cache.bufs)
      modifies cache, this`n, this`trace
      ensures n == 0 && cache.Valid() && Calm(l, bufs0, cache.bufs, block[..old(n)], [])
      ensures cache.View() == Store(Replay(l, old(cache.disk)), Replay(l, old(cache.disk)))
      ensures trace == old(trace) + RecoveryTrace(l, old(cache.disk))
    {
      hide AllKept, Spare, TwoSpare, Available, Calm, AllPinned, Ring, Aged, Unique, Coherent;
      ghost var blocks := block[..n];
      InstallKeepsHead(l, cache.disk);
      CalmFrom(l, bufs0, cache.bufs, blocks);
      ghost var bufs1 := cache.bufs;
      InstallTrans();
      CalmThen(l, bufs0, bufs1, cache.bufs, blocks);
      CacheFacts(cache);
      n := 0;
      assert block[..n] == [];
      CalmReady(l, bufs0, cache.bufs, blocks, [], l.Head());
      ghost var bufs2 := cache.bufs;
      WriteHead();
      CalmLogged(l, bufs0, bufs2, cache.bufs, blocks, [], l.Head());
    }

    /** recover_from_log: used at boot, when the cache is new. */
    method RecoverFromLog()
      requires cache.Valid() && l.dev != 0 && cache.nbuf >= 2 && |block| == LOGSIZE
      requires WellFormed(l, cache.disk) && cache.stored == cache.disk
      requires forall j | 0 <= j < cache.nbuf :: Recyclable(cache.bufs[j])
      modifies cache, this`n, this`block, this`trace
      ensures Recorded() && n == 0 && forall j | 0 <= j < cache.nbuf :: Recyclable(cache.bufs[j])
      ensures cache.View() == Store(Replay(l, old(cache.disk)), Replay(l, old(cache.disk)))
      ensures trace == old(trace) + RecoveryTrace(l, old(cache.disk))
    {
      hide AllKept, Spare, TwoSpare, Available, Calm, AllPinned, Unlocked, Quiet;
      ghost var blocks, bufs0 := Listed(l, cache.disk), cache.bufs;
      CalmFresh(l, bufs0, cache.disk.Keys, blocks);
      ReplayIsClean(l, cache.disk);
      CalmReady(l, bufs0, bufs0, blocks, blocks, l.Head());
      ReadHead();
      CalmLogged(l, bufs0, bufs0, cache.bufs, blocks, blocks, l.Head());
      InstallAndErase(bufs0);
      CalmEnds(l, bufs0, cache.bufs, blocks);
    }

    /** commit: every block write is the one that the trace of the transaction prescribes,
        and at the end cache and device agree.  It fails, in bget and before its first
        write, exactly when no buffer can be taken over. */
    method Commit() returns (ok: bool)
      requires Recorded() && HomesFree(l, cache.bufs, block[..n]) && (n < l.size || !Spare(cache.bufs))
      modifies cache, this`n, this`trace
      ensures ok <==> old(n) == 0 || Spare(old(cache.bufs))
      ensures !ok ==> n == old(n) && cache.View() == old(cache.View()) && trace == old(trace)
      ensures ok ==> Recorded() && n == 0 && Undisturbed(old(cache.bufs), cache.bufs)
      ensures ok ==> cache.stored == cache.disk && Home(l, cache.disk) == Home(l, old(cache.stored))
      ensures ok ==> InTransaction(l, old(cache.View()), block[..old(n)])
      ensures ok ==> trace == old(trace) + CommitTrace(l, old(cache.View()), block[..old(n)])
    {
      hide Spare, Available, Calm, AllPinned, Quiet, HomesFree, Undisturbed, Ring, Aged, Unique, Coherent;
      hide Sealed, SealedCopy, LoggedTrace, RecoveryTrace, Home, CommitTrace, WellFormed, Listed, Replay, Install,
           SameLog;
      hide Recording;
      EmptyFits(l, cache.View(), block[..n]);
      if n > 0 {
        ghost var st, bufs0, blocks := cache.View(), cache.bufs, block[..n];
        ok := Seal();
        if ok {
          SealedCommits(l, st, blocks);
          CommitTraceParts(l, st, blocks, old(trace));
          InstallAndErase(bufs0);
          CalmEnds(l, bufs0, cache.bufs, blocks);
          assert block[..n] == [];
        }
      } else {
        NothingDisturbed(cache.bufs);
        assert block[..n] == [];
        EmptyTransaction(l, cache.View());
        ok := true;
      }
    }

    /** begin_op, up to the decision: an operation that is not admitted sleeps and tries
        again. */
    method BeginOp() returns (admitted: bool)
      requires Valid()
      modifies this`outstanding
      ensures Valid() && outstanding == old(outstanding) + if admitted then 1 else 0
      ensures admitted <==> n + (old(outstanding) + 1) * MAXOPBLOCKS <= LOGSIZE
      ensures admitted ==> outstanding * MAXOPBLOCKS <= LOGSIZE
    {
      if committing {
        admitted := false;
      } else if n + (outstanding + 1) * MAXOPBLOCKS > LOGSIZE {
        admitted := false;
      } else {
        outstanding := outstanding + 1;
        admitted := true;
      }
    }

    /** end_op: the last operation commits for all.  A crash at any block write of it, once
        recovered, leaves the file system as it was before the operations or as they left
        it. */
    method EndOp() returns (ok: bool)
      requires Valid() && outstanding >= 1 && (outstanding == 1 ==> HomesFree(l, cache.bufs, block[..n]))
      requires outstanding == 1 ==> n < l.size || !Spare(cache.bufs)
      modifies cache, this`n, this`outstanding, this`committing, this`trace
      ensures ok <==> old(outstanding) > 1 || old(n) == 0 || Spare(old(cache.bufs))
      ensures ok ==> Valid() && outstanding == old(outstanding) - 1 && Undisturbed(old(cache.bufs), cache.bufs)
      ensures !ok || outstanding > 0 ==> n == old(n) && cache.View() == old(cache.View()) && trace == old(trace)
      ensures ok && outstanding == 0 ==> n == 0 && cache.stored == cache.disk
      ensures ok && outstanding == 0 ==> Home(l, cache.disk) == Home(l, old(cache.stored))
      ensures old(trace) <= trace && forall s | |old(trace)| <= s < |trace| :: Restores(l, trace[s], old(cache.View()))
    {
      hide Restores, CommitTrace, InTransaction, Recording, Quiet, Spare, Undisturbed, HomesFree, Home, Ring, Aged,
           Unique,
           Coherent;
      NothingDisturbed(cache.bufs);
      outstanding := outstanding - 1;
      assert !committing;
      if outstanding == 0 {
        committing := true;
        ok := Commit();
        if ok {
          CommitTraceRestores(l, old(cache.View()), old(block[..n]));
        }
        if ok {
          committing := false;
        }
      } else {
        ok := true;
      }
    }

    /** The absorption loop of log_write: the position of b, or lh.n. */
    method Find(b: nat) returns (i: nat)
      requires n <= |block|
      ensures i <= n && b !in block[..i] && (i < n ==> block[i] == b)
    {
      i := 0;
      while i < n && block[i] != b
        invariant 0 <= i <= n
        invariant b !in block[..i]
      {
        i := i + 1;
      }
    }

    /** The checks of log_write, which it makes before it takes log.lock: `ok` is false where
        it panics. */
    method LogCheck() returns (ok: bool)
      requires Valid()
      ensures ok <==> n < LOGSIZE && n < l.size - 1 && outstanding >= 1
    {
      if n >= LOGSIZE || n >= l.size - 1 {
        return false;
      }
      if outstanding < 1 {
        return false;
      }
      return true;
    }

    /** What log_write does under log.lock for the holder of buffer `buf`, any time after its
        checks: others may have recorded blocks meanwhile.  A block recorded already is not
        recorded twice; a new one has room in the header, as GroupCommit shows. */
    method LogRecord(buf: nat)
      requires Valid() && buf < cache.nbuf && cache.bufs[buf].locked && cache.bufs[buf].valid
      requires cache.bufs[buf].key.dev == l.dev && !l.InLog(cache.bufs[buf].key)
      requires outstanding >= 1 && l.size >= 2 && (n < LOGSIZE || cache.bufs[buf].key.blockno in block[..n])
      modifies cache`bufs, cache`stored, this`n, this`block
      ensures Valid()
      ensures cache.View() == old(cache.View()).Pin(cache.bufs[buf].key, cache.bufs[buf].data)
      ensures block[..n] == Record(old(block[..n]), cache.bufs[buf].key.blockno)
      ensures cache.bufs == old(cache.bufs)[buf := old(cache.bufs)[buf].(dirty := true)]
    {
      hide Recording, Quiet, Ring, Aged, Unique, Coherent;
      var b := cache.bufs[buf].key.blockno;
      ghost var blocks := block[..n];
      var i := Find(b);
      block := block[i := b];
      if i == n {
        n := n + 1;
      }
      assert block[..n] == Record(blocks, b);
      HeldOnDisk(cache, buf);
      PinKeeps(l, cache.View(), blocks, b, cache.bufs[buf].data);
      PinQuiet(l, cache.bufs, blocks, buf);
      cache.MarkDirty(buf);
    }

    /** log_write without another one in between. */
    method LogWrite(buf: nat) returns (ok: bool)
      requires Valid() && buf < cache.nbuf && cache.bufs[buf].locked && cache.bufs[buf].valid
      requires cache.bufs[buf].key.dev == l.dev && !l.InLog(cache.bufs[buf].key)
      modifies cache`bufs, cache`stored, this`n, this`block
      ensures Valid()
      ensures ok <==> old(n) < LOGSIZE && old(n) < l.size - 1 && outstanding >= 1
      ensures !ok ==> n == old(n) && block == old(block) && cache.View() == old(cache.View())
      ensures ok ==> cache.View() == old(cache.View()).Pin(cache.bufs[buf].key, cache.bufs[buf].data)
      ensures ok ==> block[..n] == Record(old(block[..n]), cache.bufs[buf].key.blockno)
      ensures cache.bufs == if ok then old(cache.bufs)[buf := old(cache.bufs)[buf].(dirty := true)] else old(cache.bufs)
    {
      ok := LogCheck();
      if ok {
        LogRecord(buf);
      }
    }

    /** How an operation changes block b: bread, change the contents, log_write, brelse.
        `ok` is false where bget or log_write panics. */
    method Update(b: nat, data: Block) returns (ok: bool)
      requires Valid() && l.At(b) in cache.disk && !l.InLog(l.At(b)) && Unlocked(cache.bufs, l.At(b))
      modifies cache, this`n, this`block
      ensures ok <==> Available(old(cache.bufs), l.At(b)) && old(n) < LOGSIZE && old(n) < l.size - 1 && outstanding >= 1
      ensures cache.disk == old(cache.disk)
      ensures ok ==> Valid() && cache.View() == old(cache.View()).Pin(l.At(b), data)
      ensures ok ==> block[..n] == Record(old(block[..n]), b) && Undisturbed(old(cache.bufs), cache.bufs)
    {
      hide Recording, Quiet, Ring, Aged, Unique, Available, Unlocked, Undisturbed, Record;
      ghost var bufs0, blocks := cache.bufs, block[..n];
      var buf := Get(l.At(b));
      if buf == -1 {
        return false;
      }
      TakenQuiet(l, bufs0, cache.bufs, blocks, buf, l.At(b));
      ghost var bufs1 := cache.bufs;
      cache.SetData(buf, data);
      TouchedQuiet(l, bufs1, cache.bufs, blocks);
      ok := LogWrite(buf);
      if ok {
        ghost var bufs2 := cache.bufs;
        cache.Brelse(buf);
        TouchedQuiet(l, bufs2, cache.bufs, block[..n]);
        UpdateUndisturbed(bufs0, bufs1, cache.bufs, buf, l.At(b));
      }
    }
  }

  // ---------- when commit finds no buffer ----------

  function Numbers(bufs: seq<Buf>, d: set<nat>): (r: set<nat>)
    requires forall j | j in d :: j < |bufs|
  {
    set j | j in d :: bufs[j].key.blockno
  }

  lemma {:induction false} NumbersSize(bufs: seq<Buf>, d: set<nat>)
    requires forall j | j in d :: j < |bufs|
    requires forall i, j | i in d && j in d && i != j :: bufs[i].key.blockno != bufs[j].key.blockno
    ensures |Numbers(bufs, d)| == |d|
    decreases |d|
  {
    if j :| j in d {
      NumbersSize(bufs, d - {j});
      assert Numbers(bufs, d) == Numbers(bufs, d - {j}) + {bufs[j].key.blockno};
    } else {
      assert Numbers(bufs, d) == {};
    }
  }

  function SetOf(blocks: seq<nat>): (r: set<nat>) {
    set b | b in blocks
  }

  lemma {:induction false} DistinctSize(blocks: seq<nat>)
    requires forall i, j | 0 <= i < j < |blocks| :: blocks[i] != blocks[j]
    ensures |SetOf(blocks)| == |blocks|
  {
    if blocks == [] {
      assert SetOf(blocks) == {};
    } else {
      var m := |blocks| - 1;
      DistinctSize(blocks[..m]);
      assert SetOf(blocks) == SetOf(blocks[..m]) + {blocks[m]};
    }
  }

  function Below(m: nat): (r: set<nat>)
    ensures |r| == m && forall j: nat :: j in r <==> j < m
  {
    if m == 0 then {} else Below(m - 1) + {m - 1}
  }

  /** Each recorded block pins one buffer. */
  lemma DirtyCount(l: Layout, bufs: seq<Buf>, blocks: seq<nat>)
    requires Quiet(l, bufs, blocks) && Unique(bufs) && l.dev != 0
    requires forall i, j | 0 <= i < j < |blocks| :: blocks[i] != blocks[j]
    ensures |set j: nat | j < |bufs| && bufs[j].dirty| == |blocks|
  {
    var d := set j: nat | j < |bufs| && bufs[j].dirty;
    assert Numbers(bufs, d) == SetOf(blocks) by {
      forall b | b in blocks
        ensures b in Numbers(bufs, d)
      {
        assert Pinned(bufs, l.At(b));
        var j :| 0 <= j < |bufs| && bufs[j].key == l.At(b) && bufs[j].dirty;
        assert j in d;
      }
    }
    NumbersSize(bufs, d);
    DistinctSize(blocks);
  }

  /** With no buffer in use, commit finds a buffer for its log blocks exactly when the
      transaction is smaller than the cache. */
  lemma SpareExactly(l: Layout, bufs: seq<Buf>, blocks: seq<nat>)
    requires Quiet(l, bufs, blocks) && Unique(bufs) && l.dev != 0
    requires forall i, j | 0 <= i < j < |blocks| :: blocks[i] != blocks[j]
    requires forall j | 0 <= j < |bufs| :: bufs[j].refcnt == 0
    ensures |blocks| <= |bufs|
    ensures Spare(bufs) <==> |blocks| < |bufs|
  {
    var d := set j: nat | j < |bufs| && bufs[j].dirty;
    var all := Below(|bufs|);
    DirtyCount(l, bufs, blocks);
    assert d <= all;
    SubsetSize(d, all);
    if d != all {
      var j :| j in all && j !in d;
      assert Recyclable(bufs[j]);
    }
    if Spare(bufs) {
      var j :| 0 <= j < |bufs| && Recyclable(bufs[j]);
      assert j in all && j !in d;
    }
  }

  /** A cache no larger than the log area saves the blocks behind it: a transaction with more
      blocks than slots pins every buffer, and commit panics before its first write. */
  lemma SmallCacheStops(l: Layout, bufs: seq<Buf>, blocks: seq<nat>)
    requires Quiet(l, bufs, blocks) && Unique(bufs) && l.dev != 0 && |bufs| <= l.size
    requires forall i, j | 0 <= i < j < |blocks| :: blocks[i] != blocks[j]
    ensures |blocks| < l.size || !Spare(bufs)
  {
    var d := set j: nat | j < |bufs| && bufs[j].dirty;
    var all := Below(|bufs|);
    DirtyCount(l, bufs, blocks);
    assert d <= all;
    SubsetSize(d, all);
    if Spare(bufs) {
      var j :| 0 <= j < |bufs| && Recyclable(bufs[j]);
      assert j in all && j !in d;
    }
  }

  /** With the sizes of param.h, commit finds no buffer for a transaction as large as the
      header allows, and for no other if no buffer is in use. */
  lemma OnlyFullLogFails(l: Layout, bufs: seq<Buf>, blocks: seq<nat>)
    requires Quiet(l, bufs, blocks) && Unique(bufs) && l.dev != 0 && |bufs| == NBUF && |blocks| <= LOGSIZE
    requires forall i, j | 0 <= i < j < |blocks| :: blocks[i] != blocks[j]
    requires forall j | 0 <= j < |bufs| :: bufs[j].refcnt == 0
    ensures Spare(bufs) <==> |blocks| < LOGSIZE
  {
    SpareExactly(l, bufs, blocks);
  }

  /** Such a cache: every buffer holds a recorded block. */
  lemma FullCache(l: Layout) returns (bufs: seq<Buf>, blocks: seq<nat>)
    requires l.dev != 0 && l.start + l.size <= 1000
    ensures |bufs| == NBUF && |blocks| == LOGSIZE && Quiet(l, bufs, blocks) && Unique(bufs) && !Spare(bufs)
    ensures forall i | 0 <= i < |blocks| :: !l.InLog(l.At(blocks[i]))
    ensures forall i, j | 0 <= i < j < |blocks| :: blocks[i] != blocks[j]
    ensures forall j | 0 <= j < |bufs| :: bufs[j].refcnt == 0
  {
    blocks := seq(LOGSIZE, i requires 0 <= i => 1000 + i);
    bufs := seq(NBUF, i requires 0 <= i => Buf(l.At(1000 + i), true, true, 0, false, []));
    forall b | b in blocks
      ensures Pinned(bufs, l.At(b))
    {
      assert bufs[b - 1000].key == l.At(b) && bufs[b - 1000].dirty;
    }
    forall j | 0 <= j < |bufs|
      ensures bufs[j].key.blockno in blocks
    {
      assert blocks[j] == bufs[j].key.blockno;
    }
  }

  // ---------- the operations around a commit ----------

  /** Whatever the operations have recorded by the time of the commit fits the header; if the
      area has room for LOGSIZE blocks besides its header, it is a transaction of which Log
      proves that commit is atomic. */
  lemma ReachableIsRecordable(l: Layout, s: G.Log, keys: set<Key>)
    requires G.Reachable(l.size, s)
    requires forall b | b in s.blocks :: l.At(b) in keys && !l.InLog(l.At(b))
    ensures Recordable(l, keys, s.blocks)
    ensures l.size - 1 >= LOGSIZE ==> Loggable(l, keys, s.blocks)
  {
    G.ReachableInv(l.size, s);
  }

  lemma {:induction false} SubsetSize(a: set<nat>, b: set<nat>)
    requires a <= b
    ensures |a| <= |b| && (|a| == |b| <==> a == b)
    decreases |a|
  {
    if x :| x in a {
      SubsetSize(a - {x}, b - {x});
      assert a == a - {x} + {x} && b == b - {x} + {x};
    }
  }

  /** A crash that leaves device d costs the transaction of st wholly or not at all. */
  ghost predicate Restores(l: Layout, d: Disk, st: Store) {
    && WellFormed(l, d) && WellFormed(l, Replay(l, d)) && Listed(l, Replay(l, d)) == []
    && (Home(l, Replay(l, d)) == Home(l, st.disk) || Home(l, Replay(l, d)) == Home(l, st.logical))
  }

  lemma CommitTraceRestores(l: Layout, st: Store, blocks: seq<nat>)
    requires InTransaction(l, st, blocks)
    ensures forall s | 0 <= s < |CommitTrace(l, st, blocks)| :: Restores(l, CommitTrace(l, st, blocks)[s], st)
  {
    hide CommitTrace, Committing, InTransaction, WellFormed, Replay, Home, Listed;
    forall s | 0 <= s < |CommitTrace(l, st, blocks)|
      ensures Restores(l, CommitTrace(l, st, blocks)[s], st)
    {
      CommitTraceIs(l, st, blocks, s);
      CommitIsAtomic(l, st, blocks, s + 1);
    }
  }

  lemma CacheFacts(cache: Cache)
    requires cache.Valid()
    ensures Unlockable(cache.bufs) && cache.stored.Keys == cache.disk.Keys
  {
    assert forall j | 0 <= j < cache.nbuf :: Sane(cache.bufs[j], cache.disk, cache.stored);
  }

  lemma HeldOnDisk(cache: Cache, i: nat)
    requires cache.Valid() && i < cache.nbuf && cache.bufs[i].valid
    ensures cache.bufs[i].key in cache.disk
  {
    assert Sane(cache.bufs[i], cache.disk, cache.stored);
  }

  /** Pinning buffer i records its block and nothing else. */
  lemma PinQuiet(l: Layout, bufs: seq<Buf>, blocks: seq<nat>, i: nat)
    requires Quiet(l, bufs, blocks) && i < |bufs| && bufs[i].key.dev == l.dev && !l.InLog(bufs[i].key)
    ensures Quiet(l, bufs[i := bufs[i].(dirty := true)], Record(blocks, bufs[i].key.blockno))
  {
    var b := bufs[i].key.blockno;
    var bufs', blocks' := bufs[i := bufs[i].(dirty := true)], Record(blocks, b);
    assert b in blocks' && forall c :: c in blocks' <==> c in blocks || c == b;
    forall c | c in blocks'
      ensures Pinned(bufs', l.At(c))
    {
      if c == b {
        assert bufs'[i].key == l.At(c) && bufs'[i].dirty;
      } else {
        assert Pinned(bufs, l.At(c));
        var j :| 0 <= j < |bufs| && bufs[j].key == l.At(c) && bufs[j].dirty;
        assert bufs'[j].key == l.At(c) && bufs'[j].dirty;
      }
    }
  }

  lemma TakenQuiet(l: Layout, bufs: seq<Buf>, bufs': seq<Buf>, blocks: seq<nat>, i: nat, k: Key)
    requires Quiet(l, bufs, blocks) && |bufs'| == |bufs| && i < |bufs| && Taken(bufs[i], bufs'[i], k) && !l.InLog(k)
    requires forall j | 0 <= j < |bufs| && j != i :: bufs'[j] == bufs[j]
    ensures Quiet(l, bufs', blocks)
  {
    forall b | b in blocks
      ensures Pinned(bufs', l.At(b))
    {
      assert Pinned(bufs, l.At(b));
      var j :| 0 <= j < |bufs| && bufs[j].key == l.At(b) && bufs[j].dirty;
      assert bufs'[j].key == l.At(b) && bufs'[j].dirty;
    }
  }

  /** Contents, references and locks do not matter to the record. */
  lemma TouchedQuiet(l: Layout, bufs: seq<Buf>, bufs': seq<Buf>, blocks: seq<nat>)
    requires Quiet(l, bufs, blocks) && |bufs'| == |bufs|
    requires forall j | 0 <= j < |bufs| :: bufs'[j].key == bufs[j].key && bufs'[j].dirty == bufs[j].dirty
    requires forall j | 0 <= j < |bufs| :: bufs'[j].refcnt <= bufs[j].refcnt
    ensures Quiet(l, bufs', blocks)
  {
    forall b | b in blocks
      ensures Pinned(bufs', l.At(b))
    {
      assert Pinned(bufs, l.At(b));
      var j :| 0 <= j < |bufs| && bufs[j].key == l.At(b) && bufs[j].dirty;
      assert bufs'[j].key == l.At(b) && bufs'[j].dirty;
    }
  }

  lemma NothingDisturbed(bufs: seq<Buf>)
    ensures Undisturbed(bufs, bufs)
  {
  }

  lemma UpdateUndisturbed(bufs: seq<Buf>, bufs1: seq<Buf>, bufs': seq<Buf>, i: nat, k: Key)
    requires |bufs| == |bufs1| == |bufs'| && i < |bufs| && Taken(bufs[i], bufs1[i], k) && Unlockable(bufs)
    requires forall j | 0 <= j < |bufs| && j != i :: bufs1[j] == bufs[j] && bufs'[j] == bufs[j]
    requires bufs'[i].key == k && !bufs'[i].locked && bufs'[i].refcnt == bufs1[i].refcnt - 1
    ensures Undisturbed(bufs, bufs')
  {
  }

  /** Inside the log area the cache holds what the device holds. */
  ghost predicate SameLog(l: Layout, st: Store) {
    && st.logical.Keys == st.disk.Keys
    && forall k | k in st.disk && l.InLog(k) :: st.logical[k] == st.disk[k]
  }

  /** Inside write_log: the first `tail` blocks are copied. */
  ghost predicate Logging(l: Layout, st0: Store, st: Store, trace0: seq<Disk>, trace: seq<Disk>, blocks: seq<nat>,
                          tail: nat) {
    && Recording(l, st0, blocks) && tail <= |blocks| && (blocks != [] ==> l.size >= 2)
    && (tail > 0 ==> |blocks| < l.size)
    && (forall i: nat | i < |blocks| :: l.At(blocks[i]) in st0.logical)
    && st == Store(Logged(l, st0.disk, st0.logical, blocks, tail), Logged(l, st0.logical, st0.logical, blocks, tail))
    && trace == trace0 + LoggedTrace(l, st0.disk, st0.logical, blocks, tail)
  }

  lemma LoggingStarts(l: Layout, st: Store, trace: seq<Disk>, blocks: seq<nat>)
    requires Recording(l, st, blocks) && (blocks != [] ==> l.size >= 2)
    ensures Logging(l, st, st, trace, trace, blocks, 0)
  {
    assert trace + [] == trace;
  }

  /** The slot for the next block; the first one lies in the log area in any case. */
  lemma LoggingKeys(l: Layout, st0: Store, st: Store, trace0: seq<Disk>, trace: seq<Disk>, blocks: seq<nat>, tail: nat)
    requires Logging(l, st0, st, trace0, trace, blocks, tail) && tail < |blocks|
    ensures l.At(blocks[tail]) in st.logical && l.At(blocks[tail]) in st.disk
    ensures l.Slot(tail) in st.disk && l.InLog(l.Slot(tail))
  {
    if tail > 0 {
      SameHeadSameList(l, st0.disk, st0.logical);
      LoggedFrame(l, st0.disk, st0.logical, blocks, tail);
      LoggedFrame(l, st0.logical, st0.logical, blocks, tail);
    }
  }

  /** One more block copied to the log. */
  lemma LoggingNext(l: Layout, st0: Store, st: Store, trace0: seq<Disk>, trace: seq<Disk>, blocks: seq<nat>, tail: nat)
    requires Logging(l, st0, st, trace0, trace, blocks, tail) && tail < |blocks| < l.size
    ensures l.At(blocks[tail]) in st.logical
    ensures var st' := st.Write(l.Slot(tail), st.logical[l.At(blocks[tail])]);
            Logging(l, st0, st', trace0, trace + [st'.disk], blocks, tail + 1)
  {
    LoggingSource(l, st0, blocks, tail);
    hide Recording;
    var st' := st.Write(l.Slot(tail), st.logical[l.At(blocks[tail])]);
    assert trace + [st'.disk] == trace0 + (LoggedTrace(l, st0.disk, st0.logical, blocks, tail) + [st'.disk]);
  }

  /** write_log finds the recorded block as it was. */
  lemma LoggingSource(l: Layout, st: Store, blocks: seq<nat>, tail: nat)
    requires Recording(l, st, blocks) && tail < |blocks| < l.size
    ensures forall i: nat | i < |blocks| :: l.At(blocks[i]) in st.logical
    ensures l.At(blocks[tail]) in Logged(l, st.logical, st.logical, blocks, tail)
    ensures Logged(l, st.logical, st.logical, blocks, tail)[l.At(blocks[tail])] == st.logical[l.At(blocks[tail])]
  {
    SameHeadSameList(l, st.disk, st.logical);
    LoggedFrame(l, st.logical, st.logical, blocks, tail);
  }

  lemma LoggingEnds(l: Layout, st0: Store, st: Store, trace0: seq<Disk>, trace: seq<Disk>, blocks: seq<nat>, tail: nat)
    requires Logging(l, st0, st, trace0, trace, blocks, tail)
    ensures tail <= |blocks| && forall i: nat | i < |blocks| :: l.At(blocks[i]) in st0.logical
    ensures st == Store(Logged(l, st0.disk, st0.logical, blocks, tail),
                        Logged(l, st0.logical, st0.logical, blocks, tail))
    ensures trace == trace0 + LoggedTrace(l, st0.disk, st0.logical, blocks, tail)
  {
  }

  /** Inside install_trans: the first `tail` blocks are copied. */
  ghost predicate Installing(l: Layout, st0: Store, st: Store, trace0: seq<Disk>, trace: seq<Disk>, blocks: seq<nat>,
                             tail: nat) {
    && WellFormed(l, st0.disk) && Listed(l, st0.disk) == blocks && SameLog(l, st0) && tail <= |blocks|
    && (forall i: nat | i < |blocks| :: l.Slot(i) in st0.disk && l.Slot(i) in st0.logical)
    && st == Store(Install(l, st0.disk, blocks, tail), Install(l, st0.logical, blocks, tail))
    && trace == trace0 + InstallTrace(l, st0.disk, blocks, tail)
  }

  lemma InstallingStarts(l: Layout, st: Store, trace: seq<Disk>, blocks: seq<nat>)
    requires WellFormed(l, st.disk) && Listed(l, st.disk) == blocks && SameLog(l, st)
    ensures Installing(l, st, st, trace, trace, blocks, 0)
  {
    assert trace + [] == trace;
  }

  /** One more block copied to its home. */
  lemma InstallingNext(l: Layout, st0: Store, st: Store, trace0: seq<Disk>, trace: seq<Disk>, blocks: seq<nat>,
                       tail: nat)
    requires Installing(l, st0, st, trace0, trace, blocks, tail) && tail < |blocks|
    ensures l.Slot(tail) in st.disk && l.Slot(tail) in st.logical && l.InLog(l.Slot(tail)) &&
            l.At(blocks[tail]) in st.disk
    ensures forall i, j | 0 <= i < j < |blocks| :: blocks[i] != blocks[j]
    ensures var st' := st.Write(l.At(blocks[tail]), st.logical[l.Slot(tail)]);
            Installing(l, st0, st', trace0, trace + [st'.disk], blocks, tail + 1)
  {
    InstallingKeys(l, st0, blocks, tail);
    hide WellFormed, Listed, SameLog;
    var st' := st.Write(l.At(blocks[tail]), st.logical[l.Slot(tail)]);
    assert trace + [st'.disk] == trace0 + (InstallTrace(l, st0.disk, blocks, tail) + [st'.disk]);
  }

  /** The log stays as it is while its blocks are copied home. */
  lemma InstallingKeys(l: Layout, st: Store, blocks: seq<nat>, tail: nat)
    requires WellFormed(l, st.disk) && Listed(l, st.disk) == blocks && SameLog(l, st) && tail < |blocks|
    ensures forall i, j | 0 <= i < j < |blocks| :: blocks[i] != blocks[j]
    ensures forall i: nat | i < |blocks| :: l.Slot(i) in st.disk && l.Slot(i) in st.logical
    ensures l.InLog(l.Slot(tail))
    ensures l.Slot(tail) in Install(l, st.disk, blocks, tail) && l.At(blocks[tail]) in Install(l, st.disk, blocks, tail)
    ensures l.Slot(tail) in Install(l, st.logical, blocks, tail)
    ensures Install(l, st.logical, blocks, tail)[l.Slot(tail)] == st.disk[l.Slot(tail)] == st.logical[l.Slot(tail)]
  {
    SameHeadSameList(l, st.disk, st.logical);
    InstallFrame(l, st.disk, blocks, tail);
    InstallFrame(l, st.logical, blocks, tail);
  }

  lemma InstallingEnds(l: Layout, st0: Store, st: Store, trace0: seq<Disk>, trace: seq<Disk>, blocks: seq<nat>)
    requires Installing(l, st0, st, trace0, trace, blocks, |blocks|)
    ensures forall i: nat | i < |blocks| :: l.Slot(i) in st0.disk && l.Slot(i) in st0.logical
    ensures st == Store(Install(l, st0.disk, blocks, |blocks|), Install(l, st0.logical, blocks, |blocks|))
    ensures trace == trace0 + InstallTrace(l, st0.disk, blocks, |blocks|)
  {
  }

  /** The cache at the commit point; Sealed is the device. */
  ghost function SealedCopy(l: Layout, st: Store, blocks: seq<nat>): (r: Disk)
    requires InTransaction(l, st, blocks)
  {
    Logged(l, st.logical, st.logical, blocks, |blocks|)[l.Head() := EncodeHead(st.disk[l.Head()], blocks)]
  }

  lemma {:induction false} LoggedAgree(l: Layout, st: Store, blocks: seq<nat>, m: nat, k: Key)
    requires InTransaction(l, st, blocks) && m <= |blocks|
    requires k in st.disk && st.disk[k] == st.logical[k]
    ensures k in Logged(l, st.disk, st.logical, blocks, m) && k in Logged(l, st.logical, st.logical, blocks, m)
    ensures Logged(l, st.disk, st.logical, blocks, m)[k] == Logged(l, st.logical, st.logical, blocks, m)[k]
  {
    if m > 0 {
      LoggedAgree(l, st, blocks, m - 1, k);
    }
  }

  /** At the commit point cache and device differ only at the recorded blocks. */
  lemma SealedCache(l: Layout, st: Store, blocks: seq<nat>)
    requires InTransaction(l, st, blocks)
    ensures WellFormed(l, Sealed(l, st, blocks)) && Listed(l, Sealed(l, st, blocks)) == blocks
    ensures SealedCopy(l, st, blocks).Keys == Sealed(l, st, blocks).Keys
    ensures forall k | k in Sealed(l, st, blocks) && !Among(l, blocks, |blocks|, k) ::
              SealedCopy(l, st, blocks)[k] == Sealed(l, st, blocks)[k]
  {
    SealedList(l, st, blocks);
    SameHeadSameList(l, st.disk, st.logical);
    LoggedFrame(l, st.disk, st.logical, blocks, |blocks|);
    LoggedFrame(l, st.logical, st.logical, blocks, |blocks|);
    forall k | k in Sealed(l, st, blocks) && !Among(l, blocks, |blocks|, k)
      ensures SealedCopy(l, st, blocks)[k] == Sealed(l, st, blocks)[k]
    {
      LoggedAgree(l, st, blocks, |blocks|, k);
    }
  }

  /** Installing makes the recorded blocks agree too. */
  lemma InstalledCache(l: Layout, d: Disk, c: Disk, blocks: seq<nat>)
    requires WellFormed(l, d) && Loggable(l, d.Keys, blocks) && c.Keys == d.Keys
    requires forall k | k in d && !Among(l, blocks, |blocks|, k) :: c[k] == d[k]
    ensures Install(l, d, blocks, |blocks|) == Install(l, c, blocks, |blocks|)
  {
    SameHeadSameList(l, d, c);
    InstallAgrees(l, d, c, blocks);
  }

  /** The recorded blocks after log_write of block b. */
  function Record(blocks: seq<nat>, b: nat): (r: seq<nat>) {
    if b in blocks then blocks else blocks + [b]
  }

  lemma PinKeeps(l: Layout, st: Store, blocks: seq<nat>, b: nat, data: Block)
    requires Recording(l, st, blocks) && l.At(b) in st.disk && !l.InLog(l.At(b))
    requires |blocks| < LOGSIZE || b in blocks
    ensures Recording(l, st.Pin(l.At(b), data), Record(blocks, b))
  {
    var blocks' := Record(blocks, b);
    forall k | Among(l, blocks, |blocks|, k) || k == l.At(b)
      ensures Among(l, blocks', |blocks'|, k)
    {
      if k == l.At(b) {
        var j := if b in blocks then (var i :| 0 <= i < |blocks| && blocks[i] == b; i) else |blocks|;
        assert blocks'[j] == b;
      } else {
        var j: nat :| j < |blocks| && l.At(blocks[j]) == k;
        assert blocks'[j] == blocks[j];
      }
    }
  }

  lemma EmptyTransaction(l: Layout, st: Store)
    requires InTransaction(l, st, [])
    ensures st.logical == st.disk && CommitTrace(l, st, []) == []
  {
  }

  lemma EmptyFits(l: Layout, st: Store, blocks: seq<nat>)
    requires Recording(l, st, blocks)
    ensures blocks == [] ==> |blocks| < l.size
  {
  }

  /** From the commit point on, what is left of commit is a recovery, and it ends with
      cache and device equal and the transaction in place. */
  lemma SealedCommits(l: Layout, st: Store, blocks: seq<nat>)
    requires InTransaction(l, st, blocks)
    ensures WellFormed(l, Sealed(l, st, blocks)) && Listed(l, Sealed(l, st, blocks)) == blocks
    ensures SameLog(l, Store(Sealed(l, st, blocks), SealedCopy(l, st, blocks)))
    ensures Install(l, SealedCopy(l, st, blocks), blocks, |blocks|) ==
            Install(l, Sealed(l, st, blocks), blocks, |blocks|)
    ensures Home(l, Replay(l, Sealed(l, st, blocks))) == Home(l, st.logical)
    ensures InTransaction(l, Store(Replay(l, Sealed(l, st, blocks)), Replay(l, Sealed(l, st, blocks))), [])
  {
    var d := Sealed(l, st, blocks);
    SealedCache(l, st, blocks);
    SealedReplay(l, st, blocks);
    InstalledCache(l, d, SealedCopy(l, st, blocks), blocks);
    InstallFrame(l, d, blocks, |blocks|);
    ReplayIsClean(l, d);
  }

  lemma InstallKeepsHead(l: Layout, d: Disk)
    requires WellFormed(l, d)
    ensures HasHead(l, Install(l, d, Listed(l, d), |Listed(l, d)|))
    ensures Replay(l, d) == Cleared(l, Install(l, d, Listed(l, d), |Listed(l, d)|))
  {
    InstallFrame(l, d, Listed(l, d), |Listed(l, d)|);
  }

  lemma CommitTraceParts(l: Layout, st: Store, blocks: seq<nat>, before: seq<Disk>)
    requires InTransaction(l, st, blocks) && WellFormed(l, Sealed(l, st, blocks)) && blocks != []
    ensures before + LoggedTrace(l, st.disk, st.logical, blocks, |blocks|) + [Sealed(l, st, blocks)]
            + RecoveryTrace(l, Sealed(l, st, blocks))
         == before + CommitTrace(l, st, blocks)
  {
  }
}
