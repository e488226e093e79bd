/** filewrite down to the device: the file system of fs.c and file.c over the log of log.c
    and the buffer cache of bio.c. */
module Durable {
  import opened Params
  import opened Storage
  import opened BufferCache
  import opened Log
  import opened LogManager
  import F = FileSystem

  /** What the file system keeps in one block: data, bits of the bitmap, or inodes. */
  datatype Content = Content(data: seq<int>, bits: map<nat, bool>, inodes: map<nat, F.Inode>)

  function ContentAt(c: F.Config, st: F.State, b: nat): (r: Content)
    requires F.Shaped(c, st)
  {
    Content(if c.meta <= b < c.size then st.disk[b] else [],
            map x: nat | x < c.size && c.BBlock(x) == b :: st.bitmap[x],
            map i: nat | i < |st.dinodes| && c.IBlock(i) == b :: st.dinodes[i])
  }

  /** The device holds file system st, in some encoding of blocks. */
  ghost predicate Holds(l: Layout, encode: Content -> Block, c: F.Config, st: F.State, d: Disk) {
    && F.Shaped(c, st)
    && forall b: nat | F.Writable(c, |st.dinodes|, b) ::
         l.At(b) in d && d[l.At(b)] == encode(ContentAt(c, st, b))
  }

  /** If different contents are encoded differently, the device determines data, bitmap and
      inodes. */
  lemma HoldsDetermines(l: Layout, encode: Content -> Block, c: F.Config, st: F.State, st': F.State, d: Disk)
    requires Holds(l, encode, c, st, d) && Holds(l, encode, c, st', d) && |st'.dinodes| == |st.dinodes|
    requires forall x, y :: encode(x) == encode(y) ==> x == y
    ensures forall b | c.meta <= b < c.size :: st'.disk[b] == st.disk[b]
    ensures st'.bitmap == st.bitmap && st'.dinodes == st.dinodes
  {
    forall b: nat | F.Writable(c, |st.dinodes|, b)
      ensures ContentAt(c, st', b) == ContentAt(c, st, b)
    {
      assert encode(ContentAt(c, st', b)) == encode(ContentAt(c, st, b));
    }
    forall b: nat | c.meta <= b < c.size
      ensures st'.disk[b] == st.disk[b]
    {
      assert ContentAt(c, st', b).data == ContentAt(c, st, b).data;
    }
    forall x: nat | x < c.size
      ensures st'.bitmap[x] == st.bitmap[x]
    {
      assert F.Writable(c, |st.dinodes|, c.BBlock(x));
      assert ContentAt(c, st', c.BBlock(x)).bits[x] == ContentAt(c, st, c.BBlock(x)).bits[x];
    }
    forall i: nat | i < |st.dinodes|
      ensures st'.dinodes[i] == st.dinodes[i]
    {
      assert F.Writable(c, |st.dinodes|, c.IBlock(i));
      assert ContentAt(c, st', c.IBlock(i)).inodes[i] == ContentAt(c, st, c.IBlock(i)).inodes[i];
    }
  }

  /** Recovery of device d gives file system st. */
  ghost predicate Recovers(l: Layout, encode: Content -> Block, c: F.Config, st: F.State, d: Disk) {
    WellFormed(l, d) && Holds(l, encode, c, st, Replay(l, d))
  }

  /** The log area holds no block of the file system. */
  ghost predicate Apart(l: Layout, c: F.Config, ninodes: nat) {
    forall b: nat | F.Writable(c, ninodes, b) :: !l.InLog(l.At(b))
  }

  lemma SameHome(l: Layout, encode: Content -> Block, c: F.Config, st: F.State, d: Disk, d': Disk)
    requires Holds(l, encode, c, st, d) && Apart(l, c, |st.dinodes|) && Home(l, d') == Home(l, d)
    ensures Holds(l, encode, c, st, d')
  {
    forall b: nat | F.Writable(c, |st.dinodes|, b)
      ensures l.At(b) in d' && d'[l.At(b)] == encode(ContentAt(c, st, b))
    {
      assert l.At(b) in Home(l, d) && Home(l, d)[l.At(b)] == d[l.At(b)];
    }
  }

  /** A block that was not logged holds what it did. */
  lemma NotLogged(c: F.Config, st0: F.State, st: F.State, b: nat)
    requires F.Shaped(c, st0) && F.Shaped(c, st) && F.Tracks(c, st0, st) && b !in st.logged
    ensures ContentAt(c, st, b) == ContentAt(c, st0, b)
  {
  }

  /** `stored` is `d` with the blocks of `done` brought up to date with st. */
  ghost predicate Pushed(l: Layout, encode: Content -> Block, c: F.Config, st: F.State, d: Disk, stored: Disk,
                         done: set<int>) {
    && F.Shaped(c, st) && stored.Keys == d.Keys
    && (forall b: nat | b in done :: l.At(b) in stored && stored[l.At(b)] == encode(ContentAt(c, st, b)))
    && (forall k | k in d && (k.dev != l.dev || k.blockno !in done) :: stored[k] == d[k])
  }

  lemma PushedNext(l: Layout, encode: Content -> Block, c: F.Config, st: F.State, d: Disk, stored: Disk,
                   done: set<int>, b: nat)
    requires Pushed(l, encode, c, st, d, stored, done) && l.At(b) in d
    ensures Pushed(l, encode, c, st, d, stored[l.At(b) := encode(ContentAt(c, st, b))], done + {b})
  {
  }

  /** Once every logged block is up to date, the cache holds the new file system. */
  lemma PushedAll(l: Layout, encode: Content -> Block, c: F.Config, st0: F.State, st: F.State, d: Disk, stored: Disk)
    requires Holds(l, encode, c, st0, d) && Pushed(l, encode, c, st, d, stored, st.logged)
    requires F.Tracks(c, st0, st)
    ensures Holds(l, encode, c, st, stored)
  {
    forall b: nat | F.Writable(c, |st.dinodes|, b)
      ensures l.At(b) in stored && stored[l.At(b)] == encode(ContentAt(c, st, b))
    {
      if b !in st.logged {
        NotLogged(c, st0, st, b);
      }
    }
  }

  /** A crash that leaves device d costs the write of src to file i nothing, or all that comes
      after some whole chunks. */
  ghost predicate CrashLeaves(l: Layout, encode: Content -> Block, c: F.Config, files: seq<seq<int>>, i: nat, off: nat,
                              src: seq<int>, d: Disk) {
    exists st, m: nat :: Stage(c, files, i, off, src, st, m) && Recovers(l, encode, c, st, d)
  }

  /** st is a sound file system in which m bytes of src, in whole chunks, are written to file
      i, and all other files are as in `files`. */
  ghost predicate Stage(c: F.Config, files: seq<seq<int>>, i: nat, off: nat, src: seq<int>, st: F.State, m: nat) {
    && i < |files| && m <= |src| && (m % F.CHUNK == 0 || m == |src|)
    && var files' := files[i := F.Written(files[i], off, src[..m])];
       exists owner :: F.Sound(c, st, owner, files')
  }

  /** No buffer is in use. */
  ghost predicate Unused(bufs: seq<Buf>) {
    forall j | 0 <= j < |bufs| :: bufs[j].refcnt == 0
  }

  lemma StaysUnused(bufs: seq<Buf>, bufs': seq<Buf>)
    requires Unused(bufs) && Undisturbed(bufs, bufs')
    ensures Unused(bufs')
  {
  }

  class Files {
    const encode: Content -> Block
    const fs: F.Fs
    const log: LogState

    /** Between operations: nothing is recorded, no buffer is in use, and the device holds the
        file system. */
    ghost predicate Valid()
      reads this, fs, log, log.cache
    {
      && fs.Valid() && log.Valid() && log.outstanding == 0
      && log.cache.nbuf > MAXOPBLOCKS && log.l.size > MAXOPBLOCKS && Unused(log.cache.bufs)
      && Apart(log.l, fs.c, |fs.st.dinodes|)
      && Holds(log.l, encode, fs.c, fs.st, log.cache.disk)
    }

    /** Boot with a device that recovers to a sound file system. */
    constructor (encode: Content -> Block, l: Layout, disk: Disk, nbuf: nat, c: F.Config, st: F.State,
                 ghost owner: map<int, F.Slot>, ghost files: seq<seq<int>>)
      requires F.Sound(c, st, owner, files) && Recovers(l, encode, c, st, disk) && Apart(l, c, |st.dinodes|)
      requires l.dev != 0 && nbuf > MAXOPBLOCKS && l.size > MAXOPBLOCKS
      ensures Valid() && fs.files == files && fs.c == c && log.l == l && this.encode == encode
    {
      this.encode := encode;
      fs := new F.Fs(c, st, owner, files);
      log := new LogState(l, disk, nbuf);
    }

    /** Logging the blocks of st.logged: those of `done` are recorded. */
    ghost predicate Pushing(d: Disk, done: set<int>)
      reads this, fs, log, log.cache
    {
      && log.Valid() && log.outstanding == 1 && log.n <= |done| && done <= fs.st.logged
      && log.cache.nbuf > MAXOPBLOCKS && log.l.size > MAXOPBLOCKS && Unused(log.cache.bufs)
      && log.cache.disk == d && Pushed(log.l, encode, fs.c, fs.st, d, log.cache.stored, done)
      && |fs.st.logged| <= MAXOPBLOCKS && Placed(log.l, d, fs.st.logged)
    }

    method PushOne(b: nat, ghost d: Disk, ghost done: set<int>)
      requires Pushing(d, done) && b in fs.st.logged && b !in done
      modifies log, log.cache
      ensures Pushing(d, done + {b}) && log.trace == old(log.trace)
    {
      hide Pushed, Recording, Quiet, Spare, Available, Unlocked, Undisturbed, Unused;
      PushedShape(log.l, encode, fs.c, fs.st, d, log.cache.stored, done);
      Fewer(done, fs.st.logged, b);
      FreeBuffer(log, log.l.At(b));
      PushedNext(log.l, encode, fs.c, fs.st, d, log.cache.stored, done, b);
      var ok := log.Update(b, encode(ContentAt(fs.c, fs.st, b)));
      RecordAdds(old(log.block[..log.n]), b);
      StaysUnused(old(log.cache.bufs), log.cache.bufs);
    }

    method PushAll(ghost d: Disk)
      requires Pushing(d, {})
      modifies log, log.cache
      ensures Pushing(d, fs.st.logged) && log.trace == old(log.trace)
    {
      var todo := fs.st.logged;
      assert fs.st.logged - todo == {};
      while todo != {}
        invariant todo <= fs.st.logged && Pushing(d, fs.st.logged - todo) && log.trace == old(log.trace)
        decreases |todo|
      {
        NotEmpty(todo);
        var b :| b in todo;
        assert b in fs.st.logged;
        PushOne(b, d, fs.st.logged - todo);
        assert fs.st.logged - (todo - {b}) == fs.st.logged - todo + {b};
        todo := todo - {b};
      }
      assert fs.st.logged - todo == fs.st.logged;
    }

    /** One transaction of filewrite: begin_op, writei with its log_writes, end_op.  Neither the
        log nor the cache panics; `ok` is false when the disk is full. */
    method WriteChunk(i: nat, off: nat, src: seq<int>) returns (r: int, ok: bool)
      requires Valid() && i < |fs.files| && off < F.UINT && |src| <= F.CHUNK
      modifies fs, log, log.cache
      ensures ok ==> Valid() && |fs.files| == |old(fs.files)|
      ensures ok ==> r == if F.Refused(fs.c, |old(fs.files)[i]|, off, |src|) then -1 else |src|
      ensures ok && r == -1 ==> fs.files == old(fs.files)
      ensures ok && r != -1 ==>
              off <= |old(fs.files)[i]| && off + |src| < F.UINT &&
              fs.files == old(fs.files)[i := F.Splice(old(fs.files)[i], off, src)]
      ensures !ok ==> F.NoSpace(fs.st) && log.trace == old(log.trace)
      ensures old(log.trace) <= log.trace
      ensures forall s | |old(log.trace)| <= s < |log.trace| ::
                EitherRecovers(log.l, encode, fs.c, old(fs.st), fs.st, log.trace[s])
    {
      hide Holds, Recording, Quiet, Apart, Pushed, Placed, Spare, HomesFree, Undisturbed, Restores, EitherRecovers,
           Unused;
      hide F.Sound, F.Tracks, F.Shaped, F.Refused, F.Splice, F.NoSpace, Home;
      ghost var st0, d := fs.st, log.cache.disk;
      NothingRecorded(log);
      var admitted := log.BeginOp();
      ghost var tx;
      r, ok, tx := fs.Transaction(i, src, off);
      if !ok {
        return;
      }
      Finish(st0, d);
    }

    /** The second half of an operation that took the file system from st0 to fs.st: its
        log_writes and end_op. */
    method Finish(ghost st0: F.State, ghost d: Disk)
      requires fs.Valid() && log.Valid() && log.outstanding == 1 && log.n == 0 && Unused(log.cache.bufs)
      requires log.cache.nbuf > MAXOPBLOCKS && log.l.size > MAXOPBLOCKS && log.cache.disk == d == log.cache.stored
      requires Holds(log.l, encode, fs.c, st0, d) && Apart(log.l, fs.c, |st0.dinodes|)
      requires F.Tracks(fs.c, st0.(logged := {}), fs.st) && |fs.st.logged| <= MAXOPBLOCKS
      modifies log, log.cache
      ensures Valid() && old(log.trace) <= log.trace
      ensures forall s | |old(log.trace)| <= s < |log.trace| ::
                EitherRecovers(log.l, encode, fs.c, st0, fs.st, log.trace[s])
    {
      hide Holds, Recording, Quiet, Apart, Pushed, Placed, Spare, HomesFree, Undisturbed, Restores, EitherRecovers,
           Unused;
      hide F.Sound, F.Tracks, F.Shaped, Home;
      PushStarts(log.l, encode, fs.c, st0, fs.st, d, log.cache.stored, fs.owner, fs.files);
      PushAll(d);
      PushedAll(log.l, encode, fs.c, st0.(logged := {}), fs.st, d, log.cache.stored);
      FreeBuffer(log, log.l.Head());
      ghost var before, bufs := log.cache.View(), log.cache.bufs;
      var done := log.EndOp();
      StaysUnused(bufs, log.cache.bufs);
      SameHome(log.l, encode, fs.c, fs.st, before.logical, log.cache.disk);
      forall s | |old(log.trace)| <= s < |log.trace|
        ensures EitherRecovers(log.l, encode, fs.c, st0, fs.st, log.trace[s])
      {
        RestoresEither(log.l, encode, fs.c, st0, fs.st, before, log.trace[s]);
      }
    }

    /** itrunc in an operation of its own.  A crash after any block write, once recovered,
        leaves the file as it was or empty, and its blocks in use or free with it. */
    method Truncate(i: nat)
      requires Valid() && i < |fs.files| && |F.BitmapBlocks(fs.c)| < MAXOPBLOCKS
      modifies fs, log, log.cache
      ensures Valid() && fs.files == old(fs.files)[i := []]
      ensures old(log.trace) <= log.trace
      ensures forall s | |old(log.trace)| <= s < |log.trace| ::
                EitherRecovers(log.l, encode, fs.c, old(fs.st), fs.st, log.trace[s])
    {
      hide Holds, Recording, Quiet, Apart, EitherRecovers, Unused, F.Sound, F.Tracks, F.BitmapBlocks;
      ghost var st0, d := fs.st, log.cache.disk;
      NothingRecorded(log);
      var admitted := log.BeginOp();
      fs.Truncate(i);
      SoundConfig(fs.c, fs.st, fs.owner, fs.files);
      FewerThan(fs.st.logged, F.BitmapBlocks(fs.c) + {fs.c.IBlock(i)});
      Finish(st0, d);
    }

    /** filewrite: the bytes go to the file chunk by chunk, each chunk in a transaction of its
        own.  A crash after any block write, once recovered, leaves a sound file system in which
        some whole chunks are written and nothing else has changed. */
    method FileWrite(i: nat, off: nat, src: seq<int>) returns (r: int, off': nat, ok: bool)
      requires Valid() && i < |fs.files| && off < F.UINT && |src| < F.UINT
      modifies fs, log, log.cache
      ensures ok ==> Valid() && off' == off + F.Done(fs.c, |old(fs.files)[i]|, off, |src|)
      ensures ok ==> r == if F.Done(fs.c, |old(fs.files)[i]|, off, |src|) == |src| then |src| else -1
      ensures ok ==> fs.files == old(fs.files)[i := F.Written(old(fs.files)[i], off,
                                                  src[..F.Done(fs.c, |old(fs.files)[i]|, off, |src|)])]
      ensures !ok ==> F.NoSpace(fs.st)
      ensures old(log.trace) <= log.trace
      ensures forall s | |old(log.trace)| <= s < |log.trace| ::
                CrashLeaves(log.l, encode, fs.c, old(fs.files), i, off, src, log.trace[s])
    {
      hide F.Done, F.Written, F.NoSpace, CrashLeaves, F.Sound, Holds, Apart, Unused, Recording, Quiet, F.Refused;
      var n, k := |src|, 0;
      off', ok := off, true;
      ghost var f0 := fs.files[i];
      F.WrittenNothing(f0, off, src);
      assert old(fs.files)[i := f0] == old(fs.files);
      while k < n
        invariant 0 <= k <= n && off' == off + k < F.UINT && Chunked(old(fs.files), old(log.trace), i, off, src, k)
        invariant F.Done(fs.c, |f0|, off, n) == k + F.Done(fs.c, |fs.files[i]|, off', n - k)
      {
        F.DoneNext(fs.c, |fs.files[i]|, off', n - k);
        r, ok := WriteNext(i, off, src, k, old(fs.files), old(log.trace));
        if !ok {
          return;
        }
        if r < 0 {
          break;
        }
        off' := off' + r;
        k := k + r;
      }
      F.DoneStops(fs.c, |fs.files[i]|, off', n - k);
      r := if k == n then n else -1;
    }

    /** Every device since trace0 recovers to some whole chunks of the write. */
    ghost predicate CrashSafe(files0: seq<seq<int>>, trace0: seq<Disk>, i: nat, off: nat, src: seq<int>)
      reads this, fs, log
    {
      && trace0 <= log.trace
      && forall s | |trace0| <= s < |log.trace| ::
           CrashLeaves(log.l, encode, fs.c, files0, i, off, src, log.trace[s])
    }

    /** Inside filewrite: the first k bytes are written, in whole chunks. */
    ghost predicate Chunked(files0: seq<seq<int>>, trace0: seq<Disk>, i: nat, off: nat, src: seq<int>, k: nat)
      reads this, fs, log, log.cache
    {
      && Valid() && i < |files0| && k <= |src| && (k % F.CHUNK == 0 || k == |src|)
      && fs.files == files0[i := F.Written(files0[i], off, src[..k])] && (k > 0 ==> off <= |files0[i]|)
      && CrashSafe(files0, trace0, i, off, src)
    }

    /** One round of the loop of filewrite. */
    method WriteNext(i: nat, off: nat, src: seq<int>, k: nat, ghost files0: seq<seq<int>>, ghost trace0: seq<Disk>)
      returns (r: int, ok: bool)
      requires Chunked(files0, trace0, i, off, src, k) && k < |src| && off + k < F.UINT
      modifies fs, log, log.cache
      ensures CrashSafe(files0, trace0, i, off, src) && (!ok ==> F.NoSpace(fs.st))
      ensures ok ==> r >= -1 && Chunked(files0, trace0, i, off, src, if r == -1 then k else k + r)
      ensures var n1 := F.Min(|src| - k, F.CHUNK);
              && (ok ==> r == if F.Refused(fs.c, |old(fs.files)[i]|, off + k, n1) then -1 else n1)
              && (ok && r != -1 ==> off + k + n1 < F.UINT && |fs.files[i]| == F.Max(|old(fs.files)[i]|, off + k + n1))
    {
      hide F.Written, F.NoSpace, CrashLeaves, F.Sound, Holds, Apart, Unused, Recording, Quiet, F.Refused, Stage;
      hide EitherRecovers, F.Splice;
      var n1 := |src| - k;
      if n1 > F.CHUNK {
        n1 := F.CHUNK;
      }
      StageAt(fs.c, files0, i, off, src, fs.st, k, fs.owner);
      ghost var st0, trace1 := fs.st, log.trace;
      r, ok := WriteChunk(i, off + k, src[k..k + n1]);
      if !ok {
        return;
      }
      ghost var k' := if r == -1 then k else k + r;
      if r != -1 {
        RoundWritten(files0[i], off, src, k, n1);
      }
      assert fs.files == files0[i := F.Written(files0[i], off, src[..k'])];
      StageAt(fs.c, files0, i, off, src, fs.st, k', fs.owner);
      forall s | |trace1| <= s < |log.trace|
        ensures CrashLeaves(log.l, encode, fs.c, files0, i, off, src, log.trace[s])
      {
        EitherIsStage(log.l, encode, fs.c, files0, i, off, src, st0, k, fs.st, k', log.trace[s]);
      }
    }
  }

  lemma RoundWritten(f: seq<int>, off: nat, src: seq<int>, k: nat, m: nat)
    requires k + m <= |src| && off + k <= |F.Written(f, off, src[..k])| && (k > 0 ==> off <= |f|)
    ensures off <= |f|
    ensures F.Splice(F.Written(f, off, src[..k]), off + k, src[k..k + m]) == F.Written(f, off, src[..k + m])
    ensures |F.Written(f, off, src[..k + m])| == F.Max(|F.Written(f, off, src[..k])|, off + k + m)
  {
    F.WrittenNothing(f, off, src);
    F.WrittenNext(f, off, src, k, m);
  }

  lemma StageAt(c: F.Config, files: seq<seq<int>>, i: nat, off: nat, src: seq<int>, st: F.State, m: nat,
                owner: map<int, F.Slot>)
    requires i < |files| && m <= |src| && (m % F.CHUNK == 0 || m == |src|)
    requires F.Sound(c, st, owner, files[i := F.Written(files[i], off, src[..m])])
    ensures Stage(c, files, i, off, src, st, m)
  {
  }

  lemma EitherIsStage(l: Layout, encode: Content -> Block, c: F.Config, files: seq<seq<int>>, i: nat, off: nat,
                      src: seq<int>, st0: F.State, m0: nat, st: F.State, m: nat, d: Disk)
    requires Stage(c, files, i, off, src, st0, m0) && Stage(c, files, i, off, src, st, m)
    requires EitherRecovers(l, encode, c, st0, st, d)
    ensures CrashLeaves(l, encode, c, files, i, off, src, d)
  {
  }

  lemma SoundConfig(c: F.Config, st: F.State, owner: map<int, F.Slot>, files: seq<seq<int>>)
    requires F.Sound(c, st, owner, files)
    ensures c.bpb > 0 && c.ipb > 0
  {
  }

  /** Between operations the cache agrees with the device. */
  lemma NothingRecorded(log: LogState)
    requires log.Valid() && log.outstanding == 0
    ensures log.n == 0 && log.cache.stored == log.cache.disk
  {
    assert log.block[..log.n] == [];
    EmptyTransaction(log.l, log.cache.View());
  }

  lemma PushStarts(l: Layout, encode: Content -> Block, c: F.Config, st0: F.State, st: F.State, d: Disk, stored: Disk,
                   owner: map<int, F.Slot>, files: seq<seq<int>>)
    requires Holds(l, encode, c, st0, d) && Apart(l, c, |st0.dinodes|) && stored == d
    requires F.Sound(c, st, owner, files) && F.Tracks(c, st0.(logged := {}), st)
    ensures Pushed(l, encode, c, st, d, stored, {}) && Placed(l, d, st.logged) && F.Shaped(c, st)
    ensures Holds(l, encode, c, st0.(logged := {}), d) && Apart(l, c, |st.dinodes|)
  {
    hide F.Inv;
    F.InvShaped(c, st, owner, files);
    assert forall b: nat :: ContentAt(c, st0.(logged := {}), b) == ContentAt(c, st0, b);
    forall b | b in st.logged
      ensures b >= 0 && l.At(b) in d && !l.InLog(l.At(b))
    {
      assert F.Writable(c, |st.dinodes|, b);
    }
  }

  lemma RestoresEither(l: Layout, encode: Content -> Block, c: F.Config, st0: F.State, st: F.State, before: Store,
                       d: Disk)
    requires Holds(l, encode, c, st0, before.disk) && Holds(l, encode, c, st, before.logical)
    requires Apart(l, c, |st0.dinodes|) && Apart(l, c, |st.dinodes|) && Restores(l, d, before)
    ensures EitherRecovers(l, encode, c, st0, st, d)
  {
    hide Holds, Apart, Home;
    if Home(l, Replay(l, d)) == Home(l, before.disk) {
      SameHome(l, encode, c, st0, before.disk, Replay(l, d));
    } else {
      SameHome(l, encode, c, st, before.logical, Replay(l, d));
    }
  }

  /** Recovery of d gives the one or the other. */
  ghost predicate EitherRecovers(l: Layout, encode: Content -> Block, c: F.Config, st0: F.State, st: F.State, d: Disk) {
    Recovers(l, encode, c, st0, d) || Recovers(l, encode, c, st, d)
  }

  /** The blocks to log are home blocks of the device. */
  ghost predicate Placed(l: Layout, d: Disk, blocks: set<int>) {
    && (forall b | b in blocks :: b >= 0)
    && (forall b: nat | b in blocks :: l.At(b) in d && !l.InLog(l.At(b)))
  }

  lemma PushedShape(l: Layout, encode: Content -> Block, c: F.Config, st: F.State, d: Disk, stored: Disk,
                    done: set<int>)
    requires Pushed(l, encode, c, st, d, stored, done)
    ensures F.Shaped(c, st)
  {
  }

  lemma Fewer(done: set<int>, all: set<int>, b: int)
    requires done <= all && b in all && b !in done
    ensures |done| < |all| && |done + {b}| == |done| + 1 && done + {b} <= all
  {
    FewerThan(done + {b}, all);
  }

  lemma NotEmpty(s: set<int>)
    requires s != {}
    ensures exists x :: x in s
  {
    assert (forall x :: x !in s) ==> s == {};
  }

  lemma {:induction false} FewerThan(a: set<int>, b: set<int>)
    requires a <= b
    ensures |a| <= |b|
    decreases |a|
  {
    if a != {} {
      NotEmpty(a);
      var x :| x in a;
      FewerThan(a - {x}, b - {x});
      assert a == a - {x} + {x} && b == b - {x} + {x};
    }
  }

  lemma RecordAdds(blocks: seq<nat>, b: nat)
    ensures |Record(blocks, b)| <= |blocks| + 1
  {
  }

  /** With fewer blocks recorded than buffers, and none in use, any block can be read. */
  lemma FreeBuffer(log: LogState, k: Key)
    requires log.Recorded() && log.n < log.cache.nbuf && Unused(log.cache.bufs)
    ensures Spare(log.cache.bufs) && Available(log.cache.bufs, k) && Unlocked(log.cache.bufs, k)
    ensures HomesFree(log.l, log.cache.bufs, log.block[..log.n])
  {
    var bufs, blocks := log.cache.bufs, log.block[..log.n];
    SpareExactly(log.l, bufs, blocks);
    CacheFacts(log.cache);
    var j :| 0 <= j < |bufs| && Recyclable(bufs[j]);
    assert bufs[j].key == k || Recyclable(bufs[j]);
  }

  /** Such devices exist for every file system, as mkfs lays them out: the log area is zero,
      and every block of the file system holds what it should. */
  lemma Formatted(l: Layout, encode: Content -> Block, c: F.Config, st: F.State) returns (d: Disk)
    requires F.Shaped(c, st) && Apart(l, c, |st.dinodes|) && l.size > 0
    ensures Recovers(l, encode, c, st, d) && Listed(l, d) == []
  {
    var n := c.size + c.bmapstart + c.inodestart + |st.dinodes| + l.start + l.size;
    var zero := seq(WORDS, _ => 0);
    d := map k | k in KeysBelow(l, n) :: if l.InLog(k) then zero else encode(ContentAt(c, st, k.blockno));
    forall b: nat | F.Writable(c, |st.dinodes|, b)
      ensures l.At(b) in d && d[l.At(b)] == encode(ContentAt(c, st, b))
    {
      Within(c, |st.dinodes|, b);
      assert !l.InLog(l.At(b)) && b < n;
    }
    assert d[l.Head()] == zero;
    assert Listed(l, d) == [];
    assert Home(l, Replay(l, d)) == Home(l, d);
    SameHome(l, encode, c, st, d, Replay(l, d));
  }

  ghost function KeysBelow(l: Layout, n: nat): (r: set<Key>)
    ensures forall k :: k in r <==> k.dev == l.dev && k.blockno < n
  {
    if n == 0 then {} else KeysBelow(l, n - 1) + {l.At(n - 1)}
  }

  lemma Within(c: F.Config, ninodes: nat, b: nat)
    requires F.Writable(c, ninodes, b)
    ensures b < c.size + c.bmapstart + c.inodestart + ninodes
  {
    if !(c.meta <= b < c.size) {
      if x: nat :| c.bpb > 0 && x < c.size && c.BBlock(x) == b {
        QuotientBound(x, c.bpb);
      } else {
        var i: nat :| c.ipb > 0 && i < ninodes && c.IBlock(i) == b;
        QuotientBound(i, c.ipb);
      }
    }
  }

  lemma Product(a: nat, b: nat)
    ensures a * b >= 0
  {
  }

  lemma QuotientBound(x: nat, y: nat)
    requires y > 0
    ensures x / y <= x
  {
    var q := x / y;
    Product(y - 1, q);
    assert x == y * q + x % y;
    assert y * q == (y - 1) * q + q;
  }
}
