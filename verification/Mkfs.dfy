/** The builder of the initial disk image, mkfs.c.  Blocks are handed out in order, and
    the bitmap is written at the end to mark all that were. */
module Mkfs {
  import opened FileSystem

  /** The bitmap with the first n bits set. */
  function Marks(size: nat, n: nat): (r: seq<bool>) {
    seq(size, b => b < n)
  }

  /** f with zero bytes up to the end of its last block. */
  function Pad(f: seq<int>): (r: seq<int>) {
    f + Zeros(PadLength(|f|))
  }

  function PadLength(n: nat): nat {
    (BSIZE - n % BSIZE) % BSIZE
  }

  /** Appending within the last block fills part of the padding. */
  lemma PadAppend(f: seq<int>, part: seq<int>)
    requires |f| % BSIZE != 0 && |f| % BSIZE + |part| <= BSIZE
    ensures |f| <= |Pad(f)| && Splice(Pad(f), |f|, part) == Pad(f + part)
  {
    var n := |f| + |part|;
    assert |Pad(f)| == |f| - |f| % BSIZE + BSIZE;
    if |f| % BSIZE + |part| == BSIZE {
      assert n % BSIZE == 0;
    } else {
      assert n % BSIZE == |f| % BSIZE + |part|;
    }
    assert |Pad(f + part)| == |Pad(f)|;
  }

  /** Appending at a block boundary fills part of a new block. */
  lemma PadAppendNew(f: seq<int>, part: seq<int>)
    requires |f| % BSIZE == 0 && 0 < |part| <= BSIZE
    ensures Pad(f) == f && Splice(f + Zero(), |f|, part) == Pad(f + part)
  {
    if |part| == BSIZE {
      assert (|f| + |part|) % BSIZE == 0;
    } else {
      assert (|f| + |part|) % BSIZE == |part|;
    }
  }

  /** A newly allocated block extends the file by zero bytes. */
  lemma NewBlockIsZero(c: Config, st: State, owner: map<int, Slot>, i: nat, bn: nat, b: nat, f: seq<int>)
    requires i < |st.inodes| && bn < c.MaxFile() && CanAllocate(c, st, owner, DataSlot(c, i, bn), b)
    requires Holds(c, st, i, f) && |f| == bn * BSIZE
    ensures Shaped(c, Alloc(c, st, b)) && (DataSlot(c, i, bn).Entry? ==> 0 < Ref(c, Alloc(c, st, b), Ind(i)) < c.size)
    ensures Shaped(c, Allocated(c, st, DataSlot(c, i, bn), b))
    ensures Holds(c, Allocated(c, st, DataSlot(c, i, bn), b), i, f + Zero())
  {
    var s := DataSlot(c, i, bn);
    AllocKeeps(c, st, owner, s, b, i, f);
    AllocRefs(c, st, owner, s, b);
    var st' := Allocated(c, st, s, b);
    assert st'.disk[b] == Zero() by { FreshIsZero(c, st, owner, s, b); }
    assert Ref(c, st', s) == b;
    hide Allocated, CanAllocate, Ref;
    forall k: nat | k < |f + Zero()|
      ensures HasByte(c, st', i, k, (f + Zero())[k])
    {
      if k < |f| {
        assert HasByte(c, st', i, k, f[k]);
      } else {
        assert k / BSIZE == bn;
      }
    }
  }

  lemma FreshIsZero(c: Config, st: State, owner: map<int, Slot>, s: Slot, b: nat)
    requires CanAllocate(c, st, owner, s, b) && Shaped(c, Alloc(c, st, b))
    requires s.Entry? ==> 0 < Ref(c, Alloc(c, st, b), Ind(s.i)) < c.size
    ensures Allocated(c, st, s, b).disk[b] == Zero()
  {
    assert b !in owner;
    if s.Entry? { assert Ref(c, st, Ind(s.i)) in owner; }
  }

  // ---------- the image ----------

  /** The image as the kernel will find it, once the bitmap is written. */
  ghost function View(c: Config, disk: seq<Block>, inodes: seq<Inode>, freeblock: nat): (r: State) {
    State(Marks(c.size, freeblock), disk, inodes, inodes, {})
  }

  ghost predicate Tight(c: Config, st: State, gs: seq<seq<int>>)
    requires Shaped(c, st) && |gs| == |st.inodes|
  {
    forall i: nat, bn: nat | i < |gs| && bn < c.MaxFile() && bn * BSIZE >= |gs[i]| ::
        Ref(c, st, DataSlot(c, i, bn)) == 0
  }

  /** File i fills its blocks with gs[i] and has no others; the blocks handed out are
      exactly those below freeblock, and the rest are still zero. */
  ghost predicate Core(c: Config, disk: seq<Block>, inodes: seq<Inode>, freeblock: nat, owner: map<int, Slot>,
                       gs: seq<seq<int>>) {
    && c.meta <= freeblock <= c.size
    && Inv(c, View(c, disk, inodes, freeblock), owner, gs)
    && Tight(c, View(c, disk, inodes, freeblock), gs)
    && (forall i | 0 <= i < |gs| :: |gs[i]| % BSIZE == 0)
    && (forall b | freeblock <= b < c.size :: disk[b] == Zero())
  }

  /** Taking the next block for slot s, as the kernel's allocator would. */
  lemma TakeBlock(c: Config, disk: seq<Block>, inodes: seq<Inode>, fb: nat, owner: map<int, Slot>, gs: seq<seq<int>>,
                  s: Slot,
                  disk': seq<Block>, inodes': seq<Inode>)
    requires Core(c, disk, inodes, fb, owner, gs) && fb < c.size
    requires CanAllocate(c, View(c, disk, inodes, fb), owner, s, fb)
    requires Shaped(c, Alloc(c, View(c, disk, inodes, fb), fb)) &&
             (s.Entry? ==> 0 < Ref(c, Alloc(c, View(c, disk, inodes, fb), fb), Ind(s.i)) < c.size)
    requires disk' == Allocated(c, View(c, disk, inodes, fb), s, fb).disk
    requires inodes' == Allocated(c, View(c, disk, inodes, fb), s, fb).inodes
    ensures Inv(c, View(c, disk', inodes', fb + 1), owner[fb := s], gs)
    ensures RefsBut(c, View(c, disk, inodes, fb), View(c, disk', inodes', fb + 1), s, fb)
    ensures forall b | fb + 1 <= b < c.size :: disk'[b] == Zero()
  {
    var st, st2 := View(c, disk, inodes, fb), View(c, disk', inodes', fb + 1);
    AllocInv(c, st, owner, gs, s, fb);
    var st1 := Allocated(c, st, s, fb);
    SameSlots(c, st, s, fb, s);
    assert st1.bitmap == Marks(c.size, fb + 1);
    InvAgrees(c, st1, st2, owner[fb := s], gs);
    assert RefsBut(c, st, st2, s, fb) by { RefsAgree(c, st, st1, st2, s, fb); }
    if s.Entry? { assert Ref(c, st, Ind(s.i)) in owner; }
  }

  lemma RefsAgree(c: Config, st: State, st1: State, st2: State, s: Slot, b: int)
    requires Shaped(c, st) && Shaped(c, st1) && Shaped(c, st2) && RefsBut(c, st, st1, s, b)
    requires st2.disk == st1.disk && st2.inodes == st1.inodes
    ensures RefsBut(c, st, st2, s, b)
  {
    assert forall t | IsSlot(c, st1, t) :: IsSlot(c, st2, t) && Ref(c, st2, t) == Ref(c, st1, t);
  }

  /** A block that is not allocated lies at or after the end of the file. */
  lemma EmptySlotAtEnd(c: Config, st: State, owner: map<int, Slot>, gs: seq<seq<int>>, i: nat, bn: nat)
    requires Inv(c, st, owner, gs) && i < |gs| && bn < c.MaxFile()
    requires Ref(c, st, DataSlot(c, i, bn)) == 0
    ensures |gs[i]| <= bn * BSIZE
  {
    assert bn * BSIZE / BSIZE == bn;
    assert bn * BSIZE < |gs[i]| ==> HasByte(c, st, i, bn * BSIZE, gs[i][bn * BSIZE]);
  }

  lemma TightUnlessTaken(c: Config, st: State, st': State, gs: seq<seq<int>>, gs': seq<seq<int>>, s: Slot, b: int)
    requires Shaped(c, st) && Shaped(c, st') && |gs'| == |gs| == |st.inodes| == |st'.inodes| && Tight(c, st, gs)
    requires RefsBut(c, st, st', s, b)
    requires forall i | 0 <= i < |gs| :: |gs[i]| <= |gs'[i]|
    requires s.Ind? || (s.i < |gs| && exists bn: nat :: s == DataSlot(c, s.i, bn) && bn * BSIZE < |gs'[s.i]|)
    ensures Tight(c, st', gs')
  {
    hide Ref;
    forall i: nat, bn: nat | i < |gs'| && bn < c.MaxFile() && bn * BSIZE >= |gs'[i]|
      ensures Ref(c, st', DataSlot(c, i, bn)) == 0
    {
      assert IsSlot(c, st, DataSlot(c, i, bn));
      assert s != DataSlot(c, i, bn);
    }
  }

  /** iappend takes the next block for block bn of file i. */
  lemma TakeData(c: Config, disk: seq<Block>, inodes: seq<Inode>, fb: nat, owner: map<int, Slot>, gs: seq<seq<int>>,
                 i: nat, bn: nat,
                 disk': seq<Block>, inodes': seq<Inode>)
    requires Core(c, disk, inodes, fb, owner, gs) && fb < c.size && i < |gs| && bn < c.MaxFile() &&
             bn * BSIZE <= |gs[i]|
    requires Ref(c, View(c, disk, inodes, fb), DataSlot(c, i, bn)) == 0
    requires bn >= c.ndirect ==> 0 < inodes[i].addrs[c.ndirect] < c.size
    requires disk' == if bn < c.ndirect then disk else
               disk[inodes[i].addrs[c.ndirect] := SetWord(disk[inodes[i].addrs[c.ndirect]], bn - c.ndirect, fb)]
    requires inodes' == if bn < c.ndirect then inodes[i := inodes[i].(addrs := inodes[i].addrs[bn := fb])] else inodes
    ensures |gs[i]| == bn * BSIZE
    ensures Core(c, disk', inodes', fb + 1, owner[fb := DataSlot(c, i, bn)], gs[i := gs[i] + Zero()])
    ensures Ref(c, View(c, disk', inodes', fb + 1), DataSlot(c, i, bn)) == fb != 0
  {
    var st, s := View(c, disk, inodes, fb), DataSlot(c, i, bn);
    var st2, gs' := View(c, disk', inodes', fb + 1), gs[i := gs[i] + Zero()];
    EmptySlotAtEnd(c, st, owner, gs, i, bn);
    TakeDataInv(c, disk, inodes, fb, owner, gs, i, bn, disk', inodes');
    hide Holds, Owned, Ref, HasByte;
    TightUnlessTaken(c, st, st2, gs, gs', s, fb);
  }

  lemma TakeDataInv(c: Config, disk: seq<Block>, inodes: seq<Inode>, fb: nat, owner: map<int, Slot>, gs: seq<seq<int>>,
                    i: nat, bn: nat,
                    disk': seq<Block>, inodes': seq<Inode>)
    requires Core(c, disk, inodes, fb, owner, gs) && fb < c.size && i < |gs| && bn < c.MaxFile() &&
             bn * BSIZE == |gs[i]|
    requires Ref(c, View(c, disk, inodes, fb), DataSlot(c, i, bn)) == 0
    requires bn >= c.ndirect ==> 0 < inodes[i].addrs[c.ndirect] < c.size
    requires disk' == if bn < c.ndirect then disk else
               disk[inodes[i].addrs[c.ndirect] := SetWord(disk[inodes[i].addrs[c.ndirect]], bn - c.ndirect, fb)]
    requires inodes' == if bn < c.ndirect then inodes[i := inodes[i].(addrs := inodes[i].addrs[bn := fb])] else inodes
    ensures Inv(c, View(c, disk', inodes', fb + 1), owner[fb := DataSlot(c, i, bn)], gs[i := gs[i] + Zero()])
    ensures RefsBut(c, View(c, disk, inodes, fb), View(c, disk', inodes', fb + 1), DataSlot(c, i, bn), fb)
    ensures forall b | fb + 1 <= b < c.size :: disk'[b] == Zero()
  {
    var st, s := View(c, disk, inodes, fb), DataSlot(c, i, bn);
    assert CanAllocate(c, st, owner, s, fb);
    AllocOwned(c, st, owner, s, fb);
    assert disk[fb := Zero()] == disk;
    TakeBlock(c, disk, inodes, fb, owner, gs, s, disk', inodes');
    NewBlockIsZero(c, st, owner, i, bn, fb, gs[i]);
    HoldsAgree(c, Allocated(c, st, s, fb), View(c, disk', inodes', fb + 1), i, gs[i] + Zero());
  }

  lemma HoldsAgree(c: Config, st: State, st': State, i: nat, f: seq<int>)
    requires Shaped(c, st) && Shaped(c, st') && st'.disk == st.disk && st'.inodes == st.inodes && Holds(c, st, i, f)
    ensures Holds(c, st', i, f)
  {
    assert forall k: nat | k < |f| :: HasByte(c, st, i, k, f[k]);
    assert forall t | IsSlot(c, st, t) :: Ref(c, st', t) == Ref(c, st, t);
  }

  /** iappend takes the next block for the indirect block of file i. */
  lemma TakeInd(c: Config, disk: seq<Block>, inodes: seq<Inode>, fb: nat, owner: map<int, Slot>, gs: seq<seq<int>>,
                i: nat, inodes': seq<Inode>)
    requires Core(c, disk, inodes, fb, owner, gs) && fb < c.size && i < |gs|
    requires inodes[i].addrs[c.ndirect] == 0
    requires inodes' == inodes[i := inodes[i].(addrs := inodes[i].addrs[c.ndirect := fb])]
    ensures Core(c, disk, inodes', fb + 1, owner[fb := Ind(i)], gs)
  {
    var st, s := View(c, disk, inodes, fb), Ind(i);
    assert CanAllocate(c, st, owner, s, fb);
    AllocOwned(c, st, owner, s, fb);
    assert disk[fb := Zero()] == disk;
    TakeBlock(c, disk, inodes, fb, owner, gs, s, disk, inodes');
    hide Holds, Owned, Allocated, CanAllocate, Ref;
    TightUnlessTaken(c, st, View(c, disk, inodes', fb + 1), gs, gs, s, fb);
  }

  /** The data that iappend copies into block bn of file i. */
  lemma PatchCore(c: Config, disk: seq<Block>, inodes: seq<Inode>, fb: nat, owner: map<int, Slot>, gs: seq<seq<int>>,
                  i: nat, bn: nat, a: int, o: nat, part: seq<int>)
    requires Core(c, disk, inodes, fb, owner, gs) && i < |gs| && bn < c.MaxFile() &&
             a == Ref(c, View(c, disk, inodes, fb), DataSlot(c, i, bn)) != 0
    requires o + |part| <= BSIZE && (bn + 1) * BSIZE <= |gs[i]|
    ensures 0 <= a < |disk| && |disk[a]| == BSIZE
    ensures Core(c, disk[a := disk[a][..o] + part + disk[a][o + |part|..]], inodes, fb, owner,
                 gs[i := Splice(gs[i], bn * BSIZE + o, part)])
  {
    var st := View(c, disk, inodes, fb);
    assert owner[a] == DataSlot(c, i, bn);
    PatchInv(c, st, owner, gs, i, bn, a, o, part);
    var st1, st2, gs' := Patch(st, a, o, part), View(c, Patch(st, a, o, part).disk, inodes, fb),
        gs[i := Splice(gs[i], bn * BSIZE + o, part)];
    InvAgrees(c, st1, st2, owner, gs');
    assert |gs'[i]| == |gs[i]|;
    forall j: nat, k: nat | j < |gs'| && k < c.MaxFile() && k * BSIZE >= |gs'[j]|
      ensures Ref(c, st2, DataSlot(c, j, k)) == 0
    {
      PatchRef(c, st, owner, a, o, part, DataSlot(c, j, k));
    }
  }

  /** The blocks that a file of n bytes takes, with its indirect block. */
  function Blocks(c: Config, n: nat): (r: nat) {
    (n + BSIZE - 1) / BSIZE + if n > c.ndirect * BSIZE then 1 else 0
  }

  lemma BlocksPad(c: Config, f: seq<int>)
    ensures Blocks(c, |Pad(f)|) == Blocks(c, |f|)
  {
    var n := |Pad(f)|;
    assert n % BSIZE == 0 && |f| <= n < |f| + BSIZE;
  }

  lemma BlocksNext(c: Config, bn: nat)
    ensures Blocks(c, bn * BSIZE + BSIZE) == Blocks(c, bn * BSIZE) + if bn == c.ndirect then 2 else 1
  {
  }

  lemma BlocksGrow(c: Config, a: nat, b: nat)
    requires a <= b
    ensures Blocks(c, a) <= Blocks(c, b)
  {
  }

  /** A file has an indirect block only if it needs it. */
  ghost predicate IndTight(c: Config, inodes: seq<Inode>, gs: seq<seq<int>>) {
    |inodes| == |gs| && forall j | 0 <= j < |gs| && |inodes[j].addrs| == c.ndirect + 1 ::
      inodes[j].addrs[c.ndirect] != 0 ==> |gs[j]| > c.ndirect * BSIZE
  }

  lemma IndTightSame(c: Config, inodes: seq<Inode>, gs: seq<seq<int>>, gs': seq<seq<int>>)
    requires IndTight(c, inodes, gs) && |gs'| == |gs| && forall j | 0 <= j < |gs| :: |gs'[j]| == |gs[j]|
    ensures IndTight(c, inodes, gs')
  {
  }

  /** The inode that no file uses. */
  function Empty(c: Config): Inode {
    Inode(0, seq(c.ndirect + 1, _ => 0))
  }

  /** The image between calls: file i holds files[i], with zeros to the end of its last
      block, and the inodes not handed out are empty. */
  ghost predicate Whole(c: Config, disk: seq<Block>, dinodes: seq<Inode>, fb: nat, fi: nat, owner: map<int, Slot>,
                        gs: seq<seq<int>>, files: seq<seq<int>>) {
    Core(c, disk, dinodes, fb, owner, gs) && Contents(c, dinodes, fi, gs, files) && IndTight(c, dinodes, gs)
  }

  ghost predicate Contents(c: Config, dinodes: seq<Inode>, fi: nat, gs: seq<seq<int>>, files: seq<seq<int>>) {
    && |gs| == |files| == |dinodes| && fi <= |files|
    && (forall i | 0 <= i < |files| :: gs[i] == Pad(files[i]) && dinodes[i].size == |files[i]| <= c.MaxFile() * BSIZE)
    && (forall i | fi <= i < |files| :: files[i] == [] && dinodes[i] == Empty(c))
  }

  /** Inside iappend: the bytes of file i are f, found through `din`, and its inode is not
      written yet. */
  ghost predicate Appending(c: Config, disk: seq<Block>, dinodes: seq<Inode>, fb: nat, owner: map<int, Slot>,
                            gs: seq<seq<int>>, gs0: seq<seq<int>>,
                            i: nat, din: Inode, f: seq<int>) {
    && i < |dinodes| && i < |gs0| && |din.addrs| == c.ndirect + 1
    && Core(c, disk, dinodes[i := din], fb, owner, gs) && IndTight(c, dinodes[i := din], gs)
    && gs == gs0[i := Pad(f)] && |f| <= c.MaxFile() * BSIZE
  }

  lemma AppendStarts(c: Config, disk: seq<Block>, dinodes: seq<Inode>, fb: nat, fi: nat, owner: map<int, Slot>,
                     gs: seq<seq<int>>, files: seq<seq<int>>, i: nat)
    requires Whole(c, disk, dinodes, fb, fi, owner, gs, files) && i < |files|
    ensures i < |dinodes| && dinodes[i].size == |files[i]|
    ensures Appending(c, disk, dinodes, fb, owner, gs, gs, i, dinodes[i], files[i])
  {
    assert dinodes[i := dinodes[i]] == dinodes;
  }

  /** iappend stops only at a file of the largest size. */
  lemma AppendingFits(c: Config, disk: seq<Block>, dinodes: seq<Inode>, fb: nat, owner: map<int, Slot>,
                      gs: seq<seq<int>>, gs0: seq<seq<int>>,
                      i: nat, din: Inode, f: seq<int>)
    requires Appending(c, disk, dinodes, fb, owner, gs, gs0, i, din, f) && |f| / BSIZE >= c.MaxFile()
    ensures |f| == c.MaxFile() * BSIZE
  {
  }

  lemma AppendBounds(c: Config, disk: seq<Block>, dinodes: seq<Inode>, fb: nat, owner: map<int, Slot>,
                     gs: seq<seq<int>>, gs0: seq<seq<int>>, i: nat, din: Inode, f: seq<int>)
    requires Appending(c, disk, dinodes, fb, owner, gs, gs0, i, din, f)
    ensures fb <= c.size && |f| <= c.MaxFile() * BSIZE
  {
  }

  lemma AppendEnds(c: Config, disk: seq<Block>, dinodes: seq<Inode>, fb: nat, fi: nat, owner: map<int, Slot>,
                   gs: seq<seq<int>>, gs0: seq<seq<int>>,
                   files: seq<seq<int>>, i: nat, din: Inode, f: seq<int>)
    requires Appending(c, disk, dinodes, fb, owner, gs, gs0, i, din, f)
    requires Contents(c, dinodes, fi, gs0, files)
    requires i < |files| && i < fi
    ensures i < |dinodes| && Whole(c, disk, dinodes[i := din.(size := |f|)], fb, fi, owner, gs, files[i := f])
  {
    ResizeCore(c, disk, dinodes[i := din], dinodes[i := din.(size := |f|)], fb, owner, gs);
  }

  lemma ResizeCore(c: Config, disk: seq<Block>, inodes: seq<Inode>, inodes': seq<Inode>, fb: nat, owner: map<int, Slot>,
                   gs: seq<seq<int>>)
    requires Core(c, disk, inodes, fb, owner, gs) && |inodes'| == |inodes|
    requires forall i | 0 <= i < |inodes| :: inodes'[i].addrs == inodes[i].addrs
    ensures Core(c, disk, inodes', fb, owner, gs)
  {
    InvAgrees(c, View(c, disk, inodes, fb), View(c, disk, inodes', fb), owner, gs);
  }

  class Image {
    const c: Config
    var disk: seq<Block>
    var dinodes: seq<Inode>
    var freeblock: nat
    var freeinode: nat
    ghost var owner: map<int, Slot>
    ghost var gs: seq<seq<int>>

    /** Between calls: file i holds files[i] and zeros to the end of its last block, and
        inodes not handed out are empty. */
    ghost predicate Ready(files: seq<seq<int>>)
      reads this
    {
      Whole(c, disk, dinodes, freeblock, freeinode, owner, gs, files)
    }

    /** The image of zero blocks, and no inode handed out. */
    constructor (c: Config, ninodes: nat)
      requires c.Valid() && 0 < ninodes
      ensures this.c == c && freeblock == c.meta && freeinode == 1
      ensures Ready(seq(ninodes, _ => []))
    {
      this.c := c;
      disk, dinodes := seq(c.size, _ => Zero()), seq(ninodes, _ => Empty(c));
      freeblock, freeinode := c.meta, 1;
      owner, gs := map[], seq(ninodes, _ => []);
    }

    lemma ReadyInode(files: seq<seq<int>>, i: nat)
      requires Ready(files) && i < freeinode
      ensures i < |files| == |dinodes| && c.meta <= freeblock <= c.size
    {
    }

    lemma ReadyInodes(files: seq<seq<int>>, ninodes: nat)
      requires Ready(files) && |files| == ninodes
      ensures |dinodes| == ninodes
    {
    }

    lemma ReadyBounds(files: seq<seq<int>>, i: nat)
      requires Ready(files) && i < |files|
      ensures |files[i]| <= c.MaxFile() * BSIZE && freeblock <= c.size
    {
    }

    /** ialloc: the next inode, with no contents. */
    method Ialloc(ghost files: seq<seq<int>>) returns (inum: nat, ok: bool)
      requires Ready(files)
      modifies this`dinodes, this`freeinode
      ensures ok == (old(freeinode) < |old(dinodes)|)
      ensures Ready(files)
      ensures ok ==> inum == old(freeinode) == freeinode - 1 && inum < |files| && files[inum] == []
    {
      inum, ok := freeinode, freeinode < |dinodes|;
      if ok {
        freeinode := freeinode + 1;
        assert dinodes[inum := Empty(c)] == dinodes;
        dinodes := dinodes[inum := Empty(c)];
      }
    }

    /** iappend: file i is extended by src.  `ok` is false exactly when the program stops at the
        assertion on the file size, or needs more blocks than the image has. */
    method Iappend(i: nat, src: seq<int>, ghost files: seq<seq<int>>) returns (ok: bool)
      requires Ready(files) && i < |files| && i < freeinode
      modifies this`disk, this`dinodes, this`freeblock, this`owner, this`gs
      ensures ok ==> Ready(files[i := files[i] + src])
      ensures ok ==> freeblock == old(freeblock) + Blocks(c, |files[i]| + |src|) - Blocks(c, |files[i]|)
      ensures ok <==> |files[i]| + |src| <= c.MaxFile() * BSIZE &&
                      old(freeblock) + Blocks(c, |files[i]| + |src|) - Blocks(c, |files[i]|) <= c.size
    {
      hide Core, Pad, Appending, Contents, IndTight, Blocks;
      AppendStarts(c, disk, dinodes, freeblock, freeinode, owner, gs, files, i);
      ghost var gs0 := gs;
      var din;
      din, ok := AppendLoop(i, dinodes[i], dinodes[i].size, src, files[i]);
      if ok {
        AppendBounds(c, disk, dinodes, freeblock, owner, gs, gs0, i, din, files[i] + src);
        AppendEnds(c, disk, dinodes, freeblock, freeinode, owner, gs, gs0, files, i, din, files[i] + src);
        dinodes := dinodes[i := din.(size := dinodes[i].size + |src|)];
      }
    }

    method AppendLoop(i: nat, d: Inode, size: nat, src: seq<int>, ghost f: seq<int>) returns (din: Inode, ok: bool)
      requires size == |f| && Appending(c, disk, dinodes, freeblock, owner, gs, gs, i, d, f)
      modifies this`disk, this`freeblock, this`owner, this`gs
      ensures if ok then Appending(c, disk, dinodes, freeblock, owner, gs, old(gs), i, din, f + src)
              else |f| + |src| > c.MaxFile() * BSIZE ||
                   old(freeblock) + Blocks(c, |f| + |src|) - Blocks(c, |f|) > c.size
      ensures ok ==> freeblock == old(freeblock) + Blocks(c, |f| + |src|) - Blocks(c, |f|)
    {
      hide Core, Pad, Appending, Blocks;
      var off, done := size, 0;
      din, ok := d, true;
      assert f + src[..0] == f;
      while done < |src|
        invariant ok && done <= |src| && off == |f| + done
        invariant Appending(c, disk, dinodes, freeblock, owner, gs, old(gs), i, din, f + src[..done])
        invariant freeblock == old(freeblock) + Blocks(c, |f| + done) - Blocks(c, |f|)
      {
        if off / BSIZE >= c.MaxFile() {
          AppendingFits(c, disk, dinodes, freeblock, owner, gs, old(gs), i, din, f + src[..done]);
          return din, false;
        }
        var n1 := Min(|src| - done, BSIZE - off % BSIZE);
        BlocksGrow(c, |f| + done + n1, |f| + |src|);
        assert f + src[..done] + src[done..done + n1] == f + src[..done + n1];
        din, ok := AppendRound(i, din, f + src[..done], off, src[done..done + n1], old(gs));
        if !ok { return; }
        done, off := done + n1, off + n1;
      }
      assert src[..done] == src;
    }

    /** The block of file i that holds block fbn, as iappend finds or takes it.  `ok` is
        false when the image is full. */
    method BlockFor(i: nat, din: Inode, fbn: nat) returns (din': Inode, x: int, ok: bool)
      requires i < |dinodes| && |din.addrs| == c.ndirect + 1 && Core(c, disk, dinodes[i := din], freeblock, owner, gs)
      requires IndTight(c, dinodes[i := din], gs)
      requires i < |gs| && fbn < c.MaxFile() && fbn * BSIZE <= |gs[i]|
      modifies this`disk, this`freeblock, this`owner, this`gs
      ensures |din'.addrs| == c.ndirect + 1 && din'.size == din.size
      ensures if ok then Core(c, disk, dinodes[i := din'], freeblock, owner, gs) else freeblock == c.size
      ensures ok ==> IndTight(c, dinodes[i := din'], gs)
      ensures ok ==> i < |old(gs)| && gs == old(gs)[i := Reaching(old(gs)[i], fbn)]
      ensures ok ==> x == Ref(c, View(c, disk, dinodes[i := din'], freeblock), DataSlot(c, i, fbn)) != 0
      ensures ok ==> freeblock == old(freeblock) + Blocks(c, |gs[i]|) - Blocks(c, |old(gs)[i]|)
      ensures !ok ==> i < |old(gs)| &&
                      old(freeblock) + Blocks(c, |Reaching(old(gs)[i], fbn)|) - Blocks(c, |old(gs)[i]|) > c.size
    {
      if fbn < c.ndirect {
        din', x, ok := DirectBlock(i, din, fbn);
      } else {
        din', x, ok := IndirectBlock(i, din, fbn);
      }
    }

    /** One round of iappend: `part` follows the bytes f of the file, within one block. */
    method AppendRound(i: nat, din: Inode, ghost f: seq<int>, off: nat, part: seq<int>, ghost gs0: seq<seq<int>>)
      returns (din': Inode, ok: bool)
      requires Appending(c, disk, dinodes, freeblock, owner, gs, gs0, i, din, f)
      requires off == |f| && off / BSIZE < c.MaxFile() && 0 < |part| <= BSIZE - off % BSIZE
      modifies this`disk, this`freeblock, this`owner, this`gs
      ensures if ok then Appending(c, disk, dinodes, freeblock, owner, gs, gs0, i, din', f + part)
              else old(freeblock) + Blocks(c, |f| + |part|) - Blocks(c, |f|) > c.size
      ensures ok ==> freeblock == old(freeblock) + Blocks(c, |f| + |part|) - Blocks(c, |f|)
    {
      hide Core, Pad, Splice, Ref, Blocks, IndTight;
      BlocksPad(c, f);
      BlocksPad(c, f + part);
      var fbn := off / BSIZE;
      PadReaches(f);
      PadFills(f, part);
      var x;
      din', x, ok := BlockFor(i, din, fbn);
      if !ok { return; }
      PatchCore(c, disk, dinodes[i := din'], freeblock, owner, gs, i, fbn, x, off % BSIZE, part);
      disk := disk[x := disk[x][..off % BSIZE] + part + disk[x][off % BSIZE + |part|..]];
      ghost var gs1 := gs;
      gs := gs[i := Splice(gs[i], off, part)];
      assert gs == gs0[i := Pad(f + part)];
      IndTightSame(c, dinodes[i := din'], gs1, gs);
    }

    method DirectBlock(i: nat, din: Inode, fbn: nat) returns (din': Inode, x: int, ok: bool)
      requires i < |dinodes| && |din.addrs| == c.ndirect + 1 && Core(c, disk, dinodes[i := din], freeblock, owner, gs)
      requires IndTight(c, dinodes[i := din], gs)
      requires i < |gs| && fbn < c.ndirect && fbn * BSIZE <= |gs[i]|
      modifies this`freeblock, this`owner, this`gs
      ensures |din'.addrs| == c.ndirect + 1 && din'.size == din.size
      ensures if ok then Core(c, disk, dinodes[i := din'], freeblock, owner, gs) else freeblock == c.size
      ensures ok ==> IndTight(c, dinodes[i := din'], gs)
      ensures ok ==> i < |old(gs)| && gs == old(gs)[i := Reaching(old(gs)[i], fbn)]
      ensures ok ==> x == Ref(c, View(c, disk, dinodes[i := din'], freeblock), DataSlot(c, i, fbn)) != 0
      ensures ok ==> freeblock == old(freeblock) + Blocks(c, |gs[i]|) - Blocks(c, |old(gs)[i]|)
      ensures !ok ==> i < |old(gs)| &&
                      old(freeblock) + Blocks(c, |Reaching(old(gs)[i], fbn)|) - Blocks(c, |old(gs)[i]|) > c.size
    {
      din', x, ok := din, din.addrs[fbn], true;
      assert x == Ref(c, View(c, disk, dinodes[i := din], freeblock), DataSlot(c, i, fbn));
      if x == 0 {
        EmptySlotAtEnd(c, View(c, disk, dinodes[i := din], freeblock), owner, gs, i, fbn);
        BlocksNext(c, fbn);
        if freeblock >= c.size {
          return din', x, false;
        }
        din' := din.(addrs := din.addrs[fbn := freeblock]);
        x := freeblock;
        TakeData(c, disk, dinodes[i := din], freeblock, owner, gs, i, fbn, disk, dinodes[i := din']);
        owner, gs := owner[freeblock := DataSlot(c, i, fbn)], gs[i := gs[i] + Zero()];
        freeblock := freeblock + 1;
      } else {
        FilledSlotInside(c, View(c, disk, dinodes[i := din], freeblock), gs, i, fbn);
      }
    }

    method IndirectBlock(i: nat, din: Inode, fbn: nat) returns (din': Inode, x: int, ok: bool)
      requires i < |dinodes| && |din.addrs| == c.ndirect + 1 && Core(c, disk, dinodes[i := din], freeblock, owner, gs)
      requires IndTight(c, dinodes[i := din], gs)
      requires i < |gs| && c.ndirect <= fbn < c.MaxFile() && fbn * BSIZE <= |gs[i]|
      modifies this`disk, this`freeblock, this`owner, this`gs
      ensures |din'.addrs| == c.ndirect + 1 && din'.size == din.size
      ensures if ok then Core(c, disk, dinodes[i := din'], freeblock, owner, gs) else freeblock == c.size
      ensures ok ==> IndTight(c, dinodes[i := din'], gs)
      ensures ok ==> i < |old(gs)| && gs == old(gs)[i := Reaching(old(gs)[i], fbn)]
      ensures ok ==> x == Ref(c, View(c, disk, dinodes[i := din'], freeblock), DataSlot(c, i, fbn)) != 0
      ensures ok ==> freeblock == old(freeblock) + Blocks(c, |gs[i]|) - Blocks(c, |old(gs)[i]|)
      ensures !ok ==> i < |old(gs)| &&
                      old(freeblock) + Blocks(c, |Reaching(old(gs)[i], fbn)|) - Blocks(c, |old(gs)[i]|) > c.size
    {
      din', x, ok := din, 0, true;
      BlocksNext(c, fbn);
      if din'.addrs[c.ndirect] == 0 {
        EmptySlotAtEnd(c, View(c, disk, dinodes[i := din], freeblock), owner, gs, i, c.ndirect);
        if freeblock >= c.size {
          return din', x, false;
        }
        din' := din.(addrs := din.addrs[c.ndirect := freeblock]);
        TakeInd(c, disk, dinodes[i := din], freeblock, owner, gs, i, dinodes[i := din']);
        owner, freeblock := owner[freeblock := Ind(i)], freeblock + 1;
      }
      x, ok := EntryBlock(i, din', fbn);
    }

    method EntryBlock(i: nat, din: Inode, fbn: nat) returns (x: int, ok: bool)
      requires i < |dinodes| && |din.addrs| == c.ndirect + 1 && Core(c, disk, dinodes[i := din], freeblock, owner, gs)
      requires i < |gs| && c.ndirect <= fbn < c.MaxFile() && fbn * BSIZE <= |gs[i]| && din.addrs[c.ndirect] != 0
      modifies this`disk, this`freeblock, this`owner, this`gs
      ensures if ok then Core(c, disk, dinodes[i := din], freeblock, owner, gs) else freeblock == c.size
      ensures ok ==> i < |old(gs)| && gs == old(gs)[i := Reaching(old(gs)[i], fbn)]
      ensures ok ==> x == Ref(c, View(c, disk, dinodes[i := din], freeblock), DataSlot(c, i, fbn)) != 0
      ensures |old(gs)[i]| == fbn * BSIZE ==> (ok <==> old(freeblock) < c.size)
      ensures |old(gs)[i]| != fbn * BSIZE ==> ok
      ensures ok ==> freeblock == old(freeblock) + if |old(gs)[i]| == fbn * BSIZE then 1 else 0
    {
      ghost var st := View(c, disk, dinodes[i := din], freeblock);
      var ind := din.addrs[c.ndirect];
      assert ind == Ref(c, st, Ind(i)) && ind in owner;
      x, ok := Word(disk[ind], fbn - c.ndirect), true;
      assert x == Ref(c, st, DataSlot(c, i, fbn));
      if x == 0 {
        EmptySlotAtEnd(c, st, owner, gs, i, fbn);
        if freeblock >= c.size {
          return x, false;
        }
        ghost var disk0 := disk;
        x := freeblock;
        disk := disk[ind := SetWord(disk[ind], fbn - c.ndirect, freeblock)];
        TakeData(c, disk0, dinodes[i := din], freeblock, owner, gs, i, fbn, disk, dinodes[i := din]);
        owner, gs := owner[freeblock := DataSlot(c, i, fbn)], gs[i := gs[i] + Zero()];
        freeblock := freeblock + 1;
      } else {
        FilledSlotInside(c, st, gs, i, fbn);
      }
    }
  }

  lemma PadReaches(f: seq<int>)
    ensures |f| / BSIZE * BSIZE <= |Pad(f)|
    ensures |Reaching(Pad(f), |f| / BSIZE)| == (|f| / BSIZE + 1) * BSIZE
  {
    if |f| % BSIZE == 0 {
      assert Pad(f) == f;
    }
  }

  lemma PadFills(f: seq<int>, part: seq<int>)
    requires 0 < |part| <= BSIZE - |f| % BSIZE
    ensures |f| <= |Reaching(Pad(f), |f| / BSIZE)|
    ensures Splice(Reaching(Pad(f), |f| / BSIZE), |f|, part) == Pad(f + part)
    ensures |Reaching(Pad(f), |f| / BSIZE)| == |Pad(f + part)|
  {
    if |f| % BSIZE == 0 {
      PadAppendNew(f, part);
    } else {
      PadAppend(f, part);
      assert |Pad(f)| == |f| - |f| % BSIZE + BSIZE;
    }
  }

  lemma FilledSlotInside(c: Config, st: State, gs: seq<seq<int>>, i: nat, bn: nat)
    requires Shaped(c, st) && |gs| == |st.inodes| && Tight(c, st, gs) && i < |gs| && bn < c.MaxFile()
    requires Ref(c, st, DataSlot(c, i, bn)) != 0
    ensures bn * BSIZE < |gs[i]|
  {
  }

  /** The file with a zero block added if it ends where block fbn starts. */
  function Reaching(g: seq<int>, fbn: nat): (r: seq<int>) {
    if |g| == fbn * BSIZE then g + Zero() else g
  }

  // ---------- the whole image ----------

  /** A host file: its name, and the bytes as successive reads return them. */
  datatype Input = Input(name: seq<int>, chunks: seq<seq<int>>)

  const ROOTINO: nat := 1

  /** The bytes of a directory entry: the inode number, and the name cut or filled with
      zeros to dirsiz bytes. */
  function Dirent(dirsiz: nat, inum: nat, name: seq<int>): (r: seq<int>)
    ensures |r| == 2 + dirsiz
  {
    [inum % 0x100, inum / 0x100 % 0x100] + seq(dirsiz, k => if 0 <= k < |name| then name[k] else 0)
  }

  /** The entry read back: the inode number from its two bytes, low byte first, and the name,
      cut to dirsiz bytes, with zeros after it. */
  lemma DirentReadsBack(dirsiz: nat, inum: nat, name: seq<int>)
    requires inum < 0x1_0000
    ensures var e := Dirent(dirsiz, inum, name);
            && 0 <= e[0] < 0x100 && 0 <= e[1] < 0x100 && e[0] + 0x100 * e[1] == inum
            && (forall k | 0 <= k < dirsiz :: e[2 + k] == if k < |name| then name[k] else 0)
  {
  }

  function Flat(chunks: seq<seq<int>>): (r: seq<int>) {
    if chunks == [] then [] else Flat(chunks[..|chunks| - 1]) + chunks[|chunks| - 1]
  }

  /** The chunks of a file one after the other, however they are grouped. */
  lemma {:induction false} FlatJoins(a: seq<seq<int>>, b: seq<seq<int>>, chunk: seq<int>)
    ensures Flat([chunk]) == chunk && Flat(a + b) == Flat(a) + Flat(b)
    decreases |b|
  {
    assert [chunk][..0] == [];
    if b == [] {
      assert a + b == a;
    } else {
      var n := |b| - 1;
      assert (a + b)[..|a + b| - 1] == a + b[..n];
      FlatJoins(a, b[..n], chunk);
    }
  }

  /** The root directory after the first k inputs. */
  function Root(dirsiz: nat, inputs: seq<Input>, k: nat): (r: seq<int>)
    requires k <= |inputs|
    ensures |r| == (2 + k) * (2 + dirsiz)
  {
    if k == 0 then Dirent(dirsiz, ROOTINO, [46]) + Dirent(dirsiz, ROOTINO, [46, 46])
    else Root(dirsiz, inputs, k - 1) + Dirent(dirsiz, k + 1, inputs[k - 1].name)
  }

  /** Entry j of the root directory: itself, its parent, which is itself, and the inputs, with
      the inodes 2, 3 and so on. */
  lemma {:induction false} RootEntry(dirsiz: nat, inputs: seq<Input>, k: nat, j: nat)
    requires j < 2 + k && k <= |inputs|
    ensures var n := 2 + dirsiz;
            && (j + 1) * n <= |Root(dirsiz, inputs, k)|
            && Root(dirsiz, inputs, k)[j * n..(j + 1) * n] ==
               if j == 0 then Dirent(dirsiz, ROOTINO, ['.' as int])
               else if j == 1 then Dirent(dirsiz, ROOTINO, ['.' as int, '.' as int])
               else Dirent(dirsiz, j, inputs[j - 2].name)
  {
    hide Dirent;
    var n := 2 + dirsiz;
    RootLength(dirsiz, j, k);
    assert (j + 1) * n == j * n + n;
    if k == 0 {
      Slices(Dirent(dirsiz, ROOTINO, [46]), Dirent(dirsiz, ROOTINO, [46, 46]), 0, n);
    } else {
      var before, last := Root(dirsiz, inputs, k - 1), Dirent(dirsiz, k + 1, inputs[k - 1].name);
      if j < 1 + k {
        RootEntry(dirsiz, inputs, k - 1, j);
        RootLength(dirsiz, j, k - 1);
        Slices(before, last, j * n, (j + 1) * n);
      } else {
        Slices(before, last, 0, 0);
      }
    }
  }

  lemma Slices(a: seq<int>, b: seq<int>, lo: nat, hi: nat)
    requires lo <= hi <= |a|
    ensures (a + b)[lo..hi] == a[lo..hi] && (a + b)[|a|..|a| + |b|] == b && a[0..|a|] == a
  {
  }

  lemma RootLength(dirsiz: nat, j: nat, k: nat)
    requires j < 2 + k
    ensures (j + 1) * (2 + dirsiz) <= (2 + k) * (2 + dirsiz)
  {
    assert (1 + k - j) * (2 + dirsiz) >= 0;
    assert (2 + k) * (2 + dirsiz) == (j + 1) * (2 + dirsiz) + (1 + k - j) * (2 + dirsiz);
  }

  /** All files after the first k inputs. */
  function Expected(ninodes: nat, dirsiz: nat, inputs: seq<Input>, k: nat): (r: seq<seq<int>>)
    requires k <= |inputs|
  {
    seq(ninodes, i => if i == ROOTINO then Root(dirsiz, inputs, k)
                      else if 2 <= i < 2 + k then Flat(inputs[i - 2].chunks)
                      else [])
  }

  /** The size that the end of the program gives to the root directory. */
  function Rounded(n: nat): nat {
    (n / BSIZE + 1) * BSIZE
  }

  function Resized(dinodes: seq<Inode>): (r: seq<Inode>)
    requires ROOTINO < |dinodes|
  {
    dinodes[ROOTINO := dinodes[ROOTINO].(size := Rounded(dinodes[ROOTINO].size))]
  }

  /** The image is a sound file system exactly when the root directory does not end at a
      block boundary: otherwise its size covers a block that was never allocated. */
  lemma RootRounding(c: Config, disk: seq<Block>, dinodes: seq<Inode>, fb: nat, fi: nat, owner: map<int, Slot>,
                     gs: seq<seq<int>>, files: seq<seq<int>>)
    requires Whole(c, disk, dinodes, fb, fi, owner, gs, files) && ROOTINO < |files|
    ensures |files[ROOTINO]| % BSIZE != 0 ==>
            Sound(c, View(c, disk, Resized(dinodes), fb), owner, files[ROOTINO := Pad(files[ROOTINO])])
    ensures |files[ROOTINO]| % BSIZE != 0 <==> exists o, fs :: Sound(c, View(c, disk, Resized(dinodes), fb), o, fs)
  {
    ResizeCore(c, disk, dinodes, Resized(dinodes), fb, owner, gs);
    if |files[ROOTINO]| % BSIZE != 0 {
      RoundedIsSound(c, disk, dinodes, fb, fi, owner, gs, files);
    } else {
      forall o, fs
        ensures !Sound(c, View(c, disk, Resized(dinodes), fb), o, fs)
      {
        if Sound(c, View(c, disk, Resized(dinodes), fb), o, fs) {
          NothingPastEnd(c, disk, Resized(dinodes), fb, owner, gs, ROOTINO, fs[ROOTINO]);
        }
      }
    }
  }

  lemma RoundedIsSound(c: Config, disk: seq<Block>, dinodes: seq<Inode>, fb: nat, fi: nat, owner: map<int, Slot>,
                       gs: seq<seq<int>>, files: seq<seq<int>>)
    requires Whole(c, disk, dinodes, fb, fi, owner, gs, files) && ROOTINO < |files| && |files[ROOTINO]| % BSIZE != 0
    requires Core(c, disk, Resized(dinodes), fb, owner, gs)
    ensures Sound(c, View(c, disk, Resized(dinodes), fb), owner, files[ROOTINO := Pad(files[ROOTINO])])
  {
    var st, files' := View(c, disk, Resized(dinodes), fb), files[ROOTINO := Pad(files[ROOTINO])];
    forall i | 0 <= i < |files'|
      ensures Holds(c, st, i, files'[i])
    {
      assert Holds(c, st, i, gs[i]);
      hide Owned, HasByte;
      assert files'[i] <= gs[i];
    }
  }

  /** No contents reach past the last block of a file. */
  lemma NothingPastEnd(c: Config, disk: seq<Block>, inodes: seq<Inode>, fb: nat, owner: map<int, Slot>,
                       gs: seq<seq<int>>, i: nat, g: seq<int>)
    requires Core(c, disk, inodes, fb, owner, gs) && i < |gs| && Holds(c, View(c, disk, inodes, fb), i, g)
    ensures |g| <= |gs[i]|
  {
    var st, n := View(c, disk, inodes, fb), |gs[i]|;
    assert n / BSIZE * BSIZE == n;
    assert |g| > n ==> HasByte(c, st, i, n, g[n]);
  }

  /** balloc: the bitmap marks the first `used` blocks; it stops when one bitmap block
      cannot hold them. */
  method Balloc(size: nat, used: nat) returns (bitmap: seq<bool>, ok: bool)
    requires used <= size
    ensures ok == (used < BSIZE * 8)
    ensures ok ==> bitmap == Marks(size, used)
  {
    ok := used < BSIZE * 8;
    bitmap := seq(size, _ => false);
    if !ok { return; }
    var i := 0;
    while i < used
      invariant i <= used && bitmap == Marks(size, i)
    {
      bitmap := bitmap[i := true];
      i := i + 1;
    }
  }

  /** The reads of a host file, appended one by one. */
  method AppendChunks(image: Image, inum: nat, chunks: seq<seq<int>>, ghost files: seq<seq<int>>) returns (ok: bool)
    requires image.Ready(files) && inum < image.freeinode
    modifies image`disk, image`dinodes, image`freeblock, image`owner, image`gs
    ensures inum < |files| && (ok ==> image.Ready(files[inum := files[inum] + Flat(chunks)]))
    ensures var n := |files[inum]| + |Flat(chunks)|;
            var fb := old(image.freeblock) + Blocks(image.c, n) - Blocks(image.c, |files[inum]|);
            (ok <==> n <= image.c.MaxFile() * BSIZE && fb <= image.c.size) && (ok ==> image.freeblock == fb)
  {
    hide Core, Contents, IndTight, Blocks;
    image.ReadyInode(files, inum);
    var k := 0;
    ok := true;
    assert files[inum] + Flat(chunks[..0]) == files[inum] && files[inum := files[inum]] == files;
    while k < |chunks|
      invariant ok && k <= |chunks|
      invariant image.Ready(files[inum := files[inum] + Flat(chunks[..k])])
      invariant image.freeblock == old(image.freeblock) +
                Blocks(image.c, |files[inum]| + |Flat(chunks[..k])|) - Blocks(image.c, |files[inum]|)
    {
      ghost var now := files[inum := files[inum] + Flat(chunks[..k])];
      FlatNext(chunks, k);
      FlatGrows(chunks, k + 1);
      BlocksGrow(image.c, |files[inum]| + |Flat(chunks[..k + 1])|, |files[inum]| + |Flat(chunks)|);
      ok := image.Iappend(inum, chunks[k], now);
      if !ok { return; }
      assert files[inum] + Flat(chunks[..k]) + chunks[k] == files[inum] + Flat(chunks[..k + 1]);
      assert now[inum := now[inum] + chunks[k]] == files[inum := files[inum] + Flat(chunks[..k + 1])];
      k := k + 1;
    }
    assert chunks[..k] == chunks;
    image.ReadyBounds(files[inum := files[inum] + Flat(chunks)], inum);
  }

  lemma FlatNext(chunks: seq<seq<int>>, k: nat)
    requires k < |chunks|
    ensures Flat(chunks[..k + 1]) == Flat(chunks[..k]) + chunks[k]
  {
    assert chunks[..k + 1][..k] == chunks[..k];
  }

  lemma {:induction false} FlatGrows(chunks: seq<seq<int>>, k: nat)
    requires k <= |chunks|
    ensures |Flat(chunks[..k])| <= |Flat(chunks)|
    decreases |chunks| - k
  {
    if k == |chunks| {
      assert chunks[..k] == chunks;
    } else {
      FlatNext(chunks, k);
      FlatGrows(chunks, k + 1);
    }
  }

  /** Some file of the image would be larger than an inode can address. */
  predicate TooBig(c: Config, dirsiz: nat, inputs: seq<Input>) {
    || |Root(dirsiz, inputs, |inputs|)| > c.MaxFile() * BSIZE
    || exists k | 0 <= k < |inputs| :: |Flat(inputs[k].chunks)| > c.MaxFile() * BSIZE
  }

  function InputBlocks(c: Config, inputs: seq<Input>, k: nat): (r: nat)
    requires k <= |inputs|
  {
    if k == 0 then 0 else InputBlocks(c, inputs, k - 1) + Blocks(c, |Flat(inputs[k - 1].chunks)|)
  }

  /** The blocks that the root directory and the first k inputs take. */
  function Usage(c: Config, dirsiz: nat, inputs: seq<Input>, k: nat): (r: nat)
    requires k <= |inputs|
  {
    Blocks(c, |Root(dirsiz, inputs, k)|) + InputBlocks(c, inputs, k)
  }

  lemma {:induction false} UsageGrows(c: Config, dirsiz: nat, inputs: seq<Input>, k: nat)
    requires k <= |inputs|
    ensures Usage(c, dirsiz, inputs, k) <= Usage(c, dirsiz, inputs, |inputs|)
    decreases |inputs| - k
  {
    if k < |inputs| {
      BlocksGrow(c, |Root(dirsiz, inputs, k)|, |Root(dirsiz, inputs, k + 1)|);
      UsageGrows(c, dirsiz, inputs, k + 1);
    }
  }

  /** Everything has its place: enough inodes and blocks, one bitmap block, and no file
      larger than an inode can address. */
  predicate Fits(c: Config, ninodes: nat, dirsiz: nat, inputs: seq<Input>) {
    && 2 + |inputs| <= ninodes && !TooBig(c, dirsiz, inputs)
    && c.meta + Usage(c, dirsiz, inputs, |inputs|) <= c.size
    && c.meta + Usage(c, dirsiz, inputs, |inputs|) < BSIZE * 8
  }

  lemma {:induction false} RootGrows(dirsiz: nat, inputs: seq<Input>, k: nat)
    requires k <= |inputs|
    ensures |Root(dirsiz, inputs, k)| <= |Root(dirsiz, inputs, |inputs|)|
    decreases |inputs| - k
  {
    if k < |inputs| {
      RootGrows(dirsiz, inputs, k + 1);
    }
  }

  lemma RootExpected(ninodes: nat, dirsiz: nat, inputs: seq<Input>)
    requires ROOTINO < ninodes
    ensures |Expected(ninodes, dirsiz, inputs, |inputs|)| == ninodes
    ensures Expected(ninodes, dirsiz, inputs, |inputs|)[ROOTINO] == Root(dirsiz, inputs, |inputs|)
    ensures |Root(dirsiz, inputs, |inputs|)| == (2 + |inputs|) * (2 + dirsiz)
  {
  }

  lemma ExpectedLength(ninodes: nat, dirsiz: nat, inputs: seq<Input>, k: nat)
    requires k <= |inputs|
    ensures |Expected(ninodes, dirsiz, inputs, k)| == ninodes
  {
  }

  lemma ExpectedNext(ninodes: nat, dirsiz: nat, inputs: seq<Input>, k: nat)
    requires k < |inputs| && 2 + k < ninodes
    ensures |Expected(ninodes, dirsiz, inputs, k)| == ninodes
    ensures Expected(ninodes, dirsiz, inputs, k)[ROOTINO] +
            Dirent(dirsiz, 2 + k, inputs[k].name) == Root(dirsiz, inputs, k + 1)
    ensures Expected(ninodes, dirsiz, inputs, k)[2 + k] == []
    ensures Expected(ninodes, dirsiz, inputs, k)
              [ROOTINO := Root(dirsiz, inputs, k + 1)][2 + k := Flat(inputs[k].chunks)]
            == Expected(ninodes, dirsiz, inputs, k + 1)
  {
  }

  /** The whole program: it reaches its end exactly when everything has its place; then the
      image holds the root directory and the inputs, and the kernel may mount it exactly when
      the root directory does not end at a block boundary. */
  method Build(c: Config, ninodes: nat, dirsiz: nat, inputs: seq<Input>)
    returns (st: State, used: nat, ok: bool, ghost owner: map<int, Slot>)
    requires c.Valid() && 1 < ninodes
    ensures ok <==> Fits(c, ninodes, dirsiz, inputs)
    ensures ok ==> used == c.meta + Usage(c, dirsiz, inputs, |inputs|) && st.bitmap == Marks(c.size, used)
    ensures ok && (2 + |inputs|) * (2 + dirsiz) % BSIZE != 0 ==>
              Sound(c, st, owner,
                    Expected(ninodes, dirsiz, inputs, |inputs|)[ROOTINO := Pad(Root(dirsiz, inputs, |inputs|))])
    ensures ok ==> ((2 + |inputs|) * (2 + dirsiz) % BSIZE != 0 <==> exists o, fs :: Sound(c, st, o, fs))
  {
    hide Core, Contents, Sound, Pad, IndTight, Blocks, Usage, Root, Expected;
    var image := new Image(c, ninodes);
    st, owner := State([], [], [], [], {}), map[];
    UsageGrows(c, dirsiz, inputs, 0);
    ok := MakeRoot(image, ninodes, dirsiz, inputs);
    used := image.freeblock;
    if !ok { return; }
    var k := 0;
    while k < |inputs|
      invariant ok && k <= |inputs| && image.c == c
      invariant image.freeinode == 2 + k <= ninodes && image.Ready(Expected(ninodes, dirsiz, inputs, k))
      invariant image.freeblock == c.meta + Usage(c, dirsiz, inputs, k)
      invariant forall j | 0 <= j < k :: |Flat(inputs[j].chunks)| <= c.MaxFile() * BSIZE
      invariant |Root(dirsiz, inputs, k)| <= c.MaxFile() * BSIZE
    {
      UsageGrows(c, dirsiz, inputs, k + 1);
      RootGrows(dirsiz, inputs, k + 1);
      ok := AddInput(image, ninodes, dirsiz, inputs, k);
      used := image.freeblock;
      if !ok { return; }
      k := k + 1;
    }
    ghost var files := Expected(ninodes, dirsiz, inputs, |inputs|);
    image.ReadyInode(files, ROOTINO);
    RootExpected(ninodes, dirsiz, inputs);
    assert files[ROOTINO] == Root(dirsiz, inputs, |inputs|);
    RootRounding(c, image.disk, image.dinodes, image.freeblock, image.freeinode, image.owner, image.gs, files);
    var dinodes := Resized(image.dinodes);
    var bitmap;
    used := image.freeblock;
    bitmap, ok := Balloc(c.size, used);
    st, owner := State(bitmap, image.disk, dinodes, dinodes, {}), image.owner;
    assert ok ==> st == View(c, image.disk, Resized(image.dinodes), image.freeblock);
  }

  method MakeRoot(image: Image, ninodes: nat, dirsiz: nat, inputs: seq<Input>) returns (ok: bool)
    requires 1 < ninodes && image.freeinode == 1 && image.Ready(seq(ninodes, _ => [])) &&
             image.freeblock == image.c.meta
    modifies image
    ensures ok ==> image.freeinode == 2 && image.Ready(Expected(ninodes, dirsiz, inputs, 0))
    ensures ok <==> |Root(dirsiz, inputs, 0)| <= image.c.MaxFile() * BSIZE &&
                    image.c.meta + Usage(image.c, dirsiz, inputs, 0) <= image.c.size
    ensures ok ==> image.freeblock == image.c.meta + Usage(image.c, dirsiz, inputs, 0)
  {
    hide Core, Contents, IndTight, Blocks;
    ghost var files: seq<seq<int>> := seq(ninodes, _ => []);
    image.ReadyInodes(files, ninodes);
    var root;
    root, ok := image.Ialloc(files);
    var dot, dotdot := Dirent(dirsiz, root, [46]), Dirent(dirsiz, root, [46, 46]);
    assert files[root] + dot == dot;
    assert dot + dotdot == Root(dirsiz, inputs, 0);
    BlocksGrow(image.c, |dot|, |dot + dotdot|);
    NoBlocks(image.c);
    ok := image.Iappend(root, dot, files);
    if !ok { return; }
    ok := image.Iappend(root, dotdot, files[root := files[root] + dot]);
    assert files[root := files[root] + dot][root := dot + dotdot] == Expected(ninodes, dirsiz, inputs, 0);
  }

  lemma NoBlocks(c: Config)
    ensures Blocks(c, 0) == 0
  {
  }

  method AddInput(image: Image, ninodes: nat, dirsiz: nat, inputs: seq<Input>, k: nat) returns (ok: bool)
    requires k < |inputs| && 1 < ninodes && image.freeinode == 2 + k &&
             image.Ready(Expected(ninodes, dirsiz, inputs, k))
    requires image.freeblock == image.c.meta + Usage(image.c, dirsiz, inputs, k)
    modifies image
    ensures ok ==> image.freeinode == 3 + k <= ninodes && image.Ready(Expected(ninodes, dirsiz, inputs, k + 1))
    ensures ok ==> image.freeblock == image.c.meta + Usage(image.c, dirsiz, inputs, k + 1)
    ensures ok <==> 3 + k <= ninodes && |Root(dirsiz, inputs, k + 1)| <= image.c.MaxFile() * BSIZE &&
                    |Flat(inputs[k].chunks)| <= image.c.MaxFile() * BSIZE &&
                    image.c.meta + Usage(image.c, dirsiz, inputs, k + 1) <= image.c.size
  {
    hide Core, Contents, IndTight, Blocks, Flat, Expected, Dirent, Root, Config.MaxFile, InputBlocks;
    ghost var files := Expected(ninodes, dirsiz, inputs, k);
    ExpectedLength(ninodes, dirsiz, inputs, k);
    image.ReadyInodes(files, ninodes);
    var inum;
    inum, ok := image.Ialloc(files);
    if !ok { return; }
    ExpectedNext(ninodes, dirsiz, inputs, k);
    UsageNext(image.c, dirsiz, inputs, k);
    NoBlocks(image.c);
    var de := Dirent(dirsiz, inum, inputs[k].name);
    ok := image.Iappend(ROOTINO, de, files);
    if !ok { return; }
    ghost var files1 := files[ROOTINO := files[ROOTINO] + de];
    ok := AppendChunks(image, inum, inputs[k].chunks, files1);
    assert files1[inum] + Flat(inputs[k].chunks) == Flat(inputs[k].chunks);
  }

  lemma UsageNext(c: Config, dirsiz: nat, inputs: seq<Input>, k: nat)
    requires k < |inputs|
    ensures Usage(c, dirsiz, inputs, k + 1) == Usage(c, dirsiz, inputs, k)
              + Blocks(c, |Root(dirsiz, inputs, k + 1)|) - Blocks(c, |Root(dirsiz, inputs, k)|)
              + Blocks(c, |Flat(inputs[k].chunks)|)
  {
  }

  /** Thirty empty inputs with names of up to 14 bytes: with its own two entries the root
      directory fills one block, and the image cannot be mounted. */
  method BoundaryImage(c: Config) returns (st: State, ok: bool)
    requires c.Valid() && c.meta < c.size && c.meta + 1 < BSIZE * 8
    ensures ok && !exists o, fs :: Sound(c, st, o, fs)
  {
    hide Fits, Sound;
    var inputs := seq(30, _ => Input([], []));
    BoundaryFits(c, inputs);
    var used;
    ghost var owner;
    st, used, ok, owner := Build(c, 32, 14, inputs);
  }

  lemma BoundaryFits(c: Config, inputs: seq<Input>)
    requires c.Valid() && c.meta < c.size && c.meta + 1 < BSIZE * 8
    requires |inputs| == 30 && forall k | 0 <= k < 30 :: inputs[k] == Input([], [])
    ensures Fits(c, 32, 14, inputs)
  {
    hide Root;
    RootExpected(32, 14, inputs);
    NoInputBlocks(c, inputs, 30);
  }

  lemma {:induction false} NoInputBlocks(c: Config, inputs: seq<Input>, k: nat)
    requires k <= |inputs| && forall j | 0 <= j < k :: inputs[j].chunks == []
    ensures InputBlocks(c, inputs, k) == 0
  {
    if k > 0 {
      NoInputBlocks(c, inputs, k - 1);
    }
  }
}
