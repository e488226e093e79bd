/** Disk blocks, inodes and file contents as fs.c keeps them: the free bitmap, the
    direct and indirect addresses of every inode, and the bytes of every block. */
module FileSystem {
  import opened Params

  const BSIZE: nat := 512
  /** Addresses in an indirect block: BSIZE / sizeof(uint). */
  const NINDIRECT: nat := 128
  const UINT: nat := 0x1_0000_0000

  type Block = seq<int>

  /** The superblock, and the constants of the on-disk layout. */
  datatype Config = Config(ndirect: nat, size: nat, meta: nat, bpb: nat, bmapstart: nat, ipb: nat, inodestart: nat) {
    predicate Valid() {
      0 < ndirect && 0 < meta <= size < UINT && 0 < bpb && 0 < ipb && MaxFile() * BSIZE + BSIZE < UINT
    }
    function MaxFile(): nat { ndirect + NINDIRECT }
    /** The bitmap block that holds the bit of block b. */
    function BBlock(b: nat): nat requires bpb > 0 { b / bpb + bmapstart }
    /** The block that holds inode i. */
    function IBlock(i: nat): nat requires ipb > 0 { i / ipb + inodestart }
  }

  /** addrs holds ndirect data blocks and then the indirect block; 0 is no block. */
  datatype Inode = Inode(size: nat, addrs: seq<int>)

  /** `inodes` are the in-memory inodes, `dinodes` the ones on disk. */
  datatype State = State(bitmap: seq<bool>, disk: seq<Block>, inodes: seq<Inode>, dinodes: seq<Inode>, logged: set<int>)

  // ---------- the words of an indirect block ----------

  function Word(b: Block, i: nat): int
    requires i < NINDIRECT && |b| == BSIZE
  {
    b[4 * i] + 0x100 * b[4 * i + 1] + 0x1_0000 * b[4 * i + 2] + 0x100_0000 * b[4 * i + 3]
  }

  function SetWord(b: Block, i: nat, v: nat): (r: Block)
    requires i < NINDIRECT && |b| == BSIZE
    ensures |r| == BSIZE
  {
    b[4 * i := v % 0x100][4 * i + 1 := v / 0x100 % 0x100]
     [4 * i + 2 := v / 0x1_0000 % 0x100][4 * i + 3 := v / 0x100_0000]
  }

  lemma WordOfSetWord(b: Block, i: nat, v: nat, j: nat)
    requires i < NINDIRECT && j < NINDIRECT && |b| == BSIZE
    ensures Word(SetWord(b, i, v), j) == if j == i then v else Word(b, j)
  {
    if j == i {
      var v1 := v / 0x100;
      var v2 := v1 / 0x100;
      assert v / 0x1_0000 == v2;
      assert v / 0x100_0000 == v2 / 0x100;
    }
  }

  function Zero(): (r: Block)
    ensures |r| == BSIZE
  {
    seq(BSIZE, _ => 0)
  }

  lemma WordOfZero(j: nat)
    requires j < NINDIRECT
    ensures Word(Zero(), j) == 0
  {
  }

  // ---------- where blocks are referenced ----------

  datatype Slot = Direct(i: nat, k: nat) | Ind(i: nat) | Entry(i: nat, j: nat)

  ghost predicate Shaped(c: Config, st: State) {
    && c.Valid()
    && |st.bitmap| == |st.disk| == c.size
    && (forall b | 0 <= b < c.size :: |st.disk[b]| == BSIZE)
    && |st.dinodes| == |st.inodes|
    && (forall i | 0 <= i < |st.inodes| :: |st.inodes[i].addrs| == c.ndirect + 1)
  }

  predicate IsSlot(c: Config, st: State, s: Slot) {
    && s.i < |st.inodes|
    && (s.Direct? ==> s.k < c.ndirect)
    && (s.Entry? ==> s.j < NINDIRECT)
  }

  /** The block number that the slot holds. */
  ghost function Ref(c: Config, st: State, s: Slot): int
    requires Shaped(c, st) && IsSlot(c, st, s)
  {
    match s
    case Direct(i, k) => st.inodes[i].addrs[k]
    case Ind(i) => st.inodes[i].addrs[c.ndirect]
    case Entry(i, j) =>
      var a := st.inodes[i].addrs[c.ndirect];
      if 0 < a < c.size then Word(st.disk[a], j) else 0
  }

  /** The bitmap marks the metadata blocks and the blocks of `owner`, and each of these
      is referenced from exactly one place, the slot that `owner` gives. */
  ghost predicate Owned(c: Config, st: State, owner: map<int, Slot>) {
    && Shaped(c, st)
    && (forall s | IsSlot(c, st, s) && Ref(c, st, s) != 0 :: Ref(c, st, s) in owner && owner[Ref(c, st, s)] == s)
    && (forall b | b in owner :: c.meta <= b < c.size && IsSlot(c, st, owner[b]) && Ref(c, st, owner[b]) == b)
    && (forall b | 0 <= b < c.size :: st.bitmap[b] <==> b < c.meta || b in owner)
  }

  // ---------- allocation ----------

  /** balloc: the block is marked, zeroed, and both changes are logged. */
  function Alloc(c: Config, st: State, b: nat): (r: State)
    requires b < |st.bitmap| && b < |st.disk| && c.bpb > 0
  {
    State(st.bitmap[b := true], st.disk[b := Zero()], st.inodes, st.dinodes, st.logged + {c.BBlock(b), b})
  }

  /** Store b in a slot, as bmap does. */
  ghost function SetRef(c: Config, st: State, s: Slot, b: nat): (r: State)
    requires Shaped(c, st) && IsSlot(c, st, s)
    requires s.Entry? ==> 0 < Ref(c, st, Ind(s.i)) < c.size
  {
    match s
    case Direct(i, k) => st.(inodes := st.inodes[i := st.inodes[i].(addrs := st.inodes[i].addrs[k := b])])
    case Ind(i) => st.(inodes := st.inodes[i := st.inodes[i].(addrs := st.inodes[i].addrs[c.ndirect := b])])
    case Entry(i, j) =>
      var a := st.inodes[i].addrs[c.ndirect];
      st.(disk := st.disk[a := SetWord(st.disk[a], j, b)], logged := st.logged + {a})
  }

  /** A free block that goes into an empty slot: the slot then holds it, and every other
      slot is as before. */
  lemma AllocatedRef(c: Config, st: State, owner: map<int, Slot>, s: Slot, b: nat, t: Slot)
    requires Owned(c, st, owner) && b < c.size && !st.bitmap[b] && IsSlot(c, st, s) && Ref(c, st, s) == 0
    requires s.Entry? ==> 0 < Ref(c, st, Ind(s.i)) < c.size
    requires IsSlot(c, st, t)
    ensures Shaped(c, Alloc(c, st, b)) && IsSlot(c, Alloc(c, st, b), s)
    ensures s.Entry? ==> 0 < Ref(c, Alloc(c, st, b), Ind(s.i)) < c.size
    ensures Shaped(c, SetRef(c, Alloc(c, st, b), s, b)) && IsSlot(c, SetRef(c, Alloc(c, st, b), s, b), t)
    ensures Ref(c, SetRef(c, Alloc(c, st, b), s, b), t) == if t == s then b else Ref(c, st, t)
  {
    assert b !in owner;
    if t.Entry? {
      var a := Ref(c, st, Ind(t.i));
      WordOfZero(t.j);
      if s.Entry? {
        assert Ref(c, st, Ind(s.i)) in owner && (a != 0 ==> a in owner);
        WordOfSetWord(st.disk[Ref(c, st, Ind(s.i))], s.j, b, t.j);
      } else {
        assert a != 0 ==> a in owner;
      }
    }
  }

  ghost function Allocated(c: Config, st: State, s: Slot, b: nat): (r: State)
    requires Shaped(c, st) && IsSlot(c, st, s) && b < c.size && Shaped(c, Alloc(c, st, b))
    requires s.Entry? ==> 0 < Ref(c, Alloc(c, st, b), Ind(s.i)) < c.size
  {
    SetRef(c, Alloc(c, st, b), s, b)
  }

  /** The block may be allocated to the slot. */
  ghost predicate CanAllocate(c: Config, st: State, owner: map<int, Slot>, s: Slot, b: nat) {
    && Owned(c, st, owner) && b < c.size && !st.bitmap[b]
    && IsSlot(c, st, s) && Ref(c, st, s) == 0
    && (s.Entry? ==> Ref(c, st, Ind(s.i)) != 0)
  }

  /** Allocation keeps the partition of the disk: the block goes from free to owned. */
  lemma AllocOwned(c: Config, st: State, owner: map<int, Slot>, s: Slot, b: nat)
    requires CanAllocate(c, st, owner, s, b)
    ensures Shaped(c, Alloc(c, st, b)) && (s.Entry? ==> 0 < Ref(c, Alloc(c, st, b), Ind(s.i)) < c.size)
    ensures Owned(c, Allocated(c, st, s, b), owner[b := s])
  {
    if s.Entry? { assert Ref(c, st, Ind(s.i)) in owner; }
    AllocatedRef(c, st, owner, s, b, s);
    var st' := Allocated(c, st, s, b);
    hide Ref, SetRef;
    forall t | IsSlot(c, st', t)
      ensures IsSlot(c, st, t) && Ref(c, st', t) == if t == s then b else Ref(c, st, t)
    {
      assert IsSlot(c, st, t) by { SameSlots(c, st, s, b, t); }
      AllocatedRef(c, st, owner, s, b, t);
    }
    forall t | IsSlot(c, st, t)
      ensures IsSlot(c, st', t)
    {
      AllocatedRef(c, st, owner, s, b, t);
    }
    assert st'.bitmap == st.bitmap[b := true] by { SameSlots(c, st, s, b, s); }
  }

  lemma SameSlots(c: Config, st: State, s: Slot, b: nat, t: Slot)
    requires Shaped(c, st) && IsSlot(c, st, s) && b < c.size && Shaped(c, Alloc(c, st, b))
    requires s.Entry? ==> 0 < Ref(c, Alloc(c, st, b), Ind(s.i)) < c.size
    ensures IsSlot(c, Allocated(c, st, s, b), t) <==> IsSlot(c, st, t)
    ensures Allocated(c, st, s, b).bitmap == st.bitmap[b := true]
  {
  }

  // ---------- file contents ----------

  /** Where the bn-th block of file i is referenced. */
  function DataSlot(c: Config, i: nat, bn: nat): (r: Slot)
    ensures r.i == i && !r.Ind?
  {
    if bn < c.ndirect then Direct(i, bn) else Entry(i, bn - c.ndirect)
  }

  /** Byte k of file i is on disk, with value v. */
  ghost predicate HasByte(c: Config, st: State, i: nat, k: nat, v: int)
    requires Shaped(c, st)
  {
    && IsSlot(c, st, DataSlot(c, i, k / BSIZE))
    && var a := Ref(c, st, DataSlot(c, i, k / BSIZE));
       0 < a < c.size && st.disk[a][k % BSIZE] == v
  }

  /** The first bytes of file i are f, with no hole among them. */
  ghost predicate Holds(c: Config, st: State, i: nat, f: seq<int>)
    requires Shaped(c, st)
  {
    forall k: nat | k < |f| :: HasByte(c, st, i, k, f[k])
  }

  lemma AllocKeepsByte(c: Config, st: State, owner: map<int, Slot>, s: Slot, b: nat, i: nat, k: nat, v: int)
    requires CanAllocate(c, st, owner, s, b) && HasByte(c, st, i, k, v)
    ensures Shaped(c, Alloc(c, st, b)) && (s.Entry? ==> 0 < Ref(c, Alloc(c, st, b), Ind(s.i)) < c.size)
    ensures Shaped(c, Allocated(c, st, s, b)) && HasByte(c, Allocated(c, st, s, b), i, k, v)
  {
    var t := DataSlot(c, i, k / BSIZE);
    var a := Ref(c, st, t);
    assert a in owner && owner[a] == t;
    assert b !in owner;
    if s.Entry? {
      assert owner[Ref(c, st, Ind(s.i))] == Ind(s.i);
    }
    AllocatedRef(c, st, owner, s, b, t);
  }

  /** Allocation changes no byte of any file. */
  lemma AllocKeeps(c: Config, st: State, owner: map<int, Slot>, s: Slot, b: nat, i: nat, f: seq<int>)
    requires CanAllocate(c, st, owner, s, b) && Holds(c, st, i, f)
    ensures Shaped(c, Alloc(c, st, b)) && (s.Entry? ==> 0 < Ref(c, Alloc(c, st, b), Ind(s.i)) < c.size)
    ensures Shaped(c, Allocated(c, st, s, b)) && Holds(c, Allocated(c, st, s, b), i, f)
  {
    AllocOwned(c, st, owner, s, b);
    hide CanAllocate, Allocated, HasByte, Owned;
    forall k: nat | k < |f|
      ensures HasByte(c, Allocated(c, st, s, b), i, k, f[k])
    {
      AllocKeepsByte(c, st, owner, s, b, i, k, f[k]);
    }
  }

  // ---------- writing into a block ----------

  /** The first bytes of src replace those of f from offset off on. */
  function Splice(f: seq<int>, off: nat, src: seq<int>): (r: seq<int>)
    requires off <= |f|
  {
    f[..off] + src + if off + |src| < |f| then f[off + |src|..] else []
  }

  /** memmove into the buffer of block a, then log_write. */
  function Patch(st: State, a: nat, o: nat, src: seq<int>): (r: State)
    requires a < |st.disk| && o + |src| <= |st.disk[a]|
  {
    State(st.bitmap, st.disk[a := st.disk[a][..o] + src + st.disk[a][o + |src|..]], st.inodes, st.dinodes,
          st.logged + {a})
  }

  /** Data blocks hold no addresses, so writing into one changes no reference. */
  lemma PatchRef(c: Config, st: State, owner: map<int, Slot>, a: nat, o: nat, src: seq<int>, t: Slot)
    requires Owned(c, st, owner) && a in owner && !owner[a].Ind? && o + |src| <= BSIZE
    requires IsSlot(c, st, t)
    ensures a < c.size && Shaped(c, Patch(st, a, o, src)) && IsSlot(c, Patch(st, a, o, src), t)
    ensures Ref(c, Patch(st, a, o, src), t) == Ref(c, st, t)
  {
    if t.Entry? && Ref(c, st, Ind(t.i)) != 0 {
      assert owner[Ref(c, st, Ind(t.i))] == Ind(t.i);
    }
  }

  lemma PatchOwned(c: Config, st: State, owner: map<int, Slot>, a: nat, o: nat, src: seq<int>)
    requires Owned(c, st, owner) && a in owner && !owner[a].Ind? && o + |src| <= BSIZE
    ensures a < c.size && Owned(c, Patch(st, a, o, src), owner)
  {
    PatchRef(c, st, owner, a, o, src, owner[a]);
    var st' := Patch(st, a, o, src);
    assert st'.bitmap == st.bitmap && |st'.inodes| == |st.inodes|;
    hide Ref, Patch;
    forall t | IsSlot(c, st', t)
      ensures IsSlot(c, st, t) && Ref(c, st', t) == Ref(c, st, t)
    {
      PatchRef(c, st, owner, a, o, src, t);
    }
    forall b | b in owner
      ensures IsSlot(c, st', owner[b]) && Ref(c, st', owner[b]) == b
    {
      PatchRef(c, st, owner, a, o, src, owner[b]);
    }
  }

  /** Writing into block bn of file i changes exactly the bytes it should. */
  lemma PatchByte(c: Config, st: State, owner: map<int, Slot>, i: nat, bn: nat, a: nat, o: nat, src: seq<int>, j: nat,
                  k: nat, v: int)
    requires Owned(c, st, owner) && IsSlot(c, st, DataSlot(c, i, bn)) && a == Ref(c, st, DataSlot(c, i, bn)) != 0 &&
             o + |src| <= BSIZE
    requires IsSlot(c, st, DataSlot(c, j, k / BSIZE))
    requires if j == i && bn * BSIZE + o <= k < bn * BSIZE + o + |src| then v == src[k - bn * BSIZE - o]
             else HasByte(c, st, j, k, v)
    ensures a < c.size && Shaped(c, Patch(st, a, o, src)) && HasByte(c, Patch(st, a, o, src), j, k, v)
  {
    var t := DataSlot(c, j, k / BSIZE);
    assert owner[a] == DataSlot(c, i, bn);
    PatchRef(c, st, owner, a, o, src, t);
    if j == i && bn * BSIZE + o <= k < bn * BSIZE + o + |src| {
      assert k / BSIZE == bn && k % BSIZE == k - bn * BSIZE;
    } else if Ref(c, st, t) == a {
      assert owner[a] == t;
      assert k / BSIZE == bn && j == i;
      assert k % BSIZE == k - bn * BSIZE;
    }
  }

  lemma PatchFile(c: Config, st: State, owner: map<int, Slot>, i: nat, bn: nat, a: nat, o: nat, src: seq<int>,
                  f: seq<int>)
    requires Owned(c, st, owner) && IsSlot(c, st, DataSlot(c, i, bn)) && a == Ref(c, st, DataSlot(c, i, bn)) != 0 &&
             o + |src| <= BSIZE
    requires Holds(c, st, i, f) && bn * BSIZE + o <= |f|
    ensures a < c.size && Shaped(c, Patch(st, a, o, src)) &&
            Holds(c, Patch(st, a, o, src), i, Splice(f, bn * BSIZE + o, src))
  {
    var f' := Splice(f, bn * BSIZE + o, src);
    PatchOwned(c, st, owner, a, o, src);
    forall k: nat | k < |f'|
      ensures HasByte(c, Patch(st, a, o, src), i, k, f'[k])
    {
      if bn * BSIZE + o <= k < bn * BSIZE + o + |src| {
        assert k / BSIZE == bn;
      } else {
        assert HasByte(c, st, i, k, f[k]);
      }
      hide HasByte, Owned, Patch;
      PatchByte(c, st, owner, i, bn, a, o, src, i, k, f'[k]);
    }
  }

  lemma PatchOther(c: Config, st: State, owner: map<int, Slot>, i: nat, bn: nat, a: nat, o: nat, src: seq<int>, j: nat,
                   f: seq<int>)
    requires Owned(c, st, owner) && IsSlot(c, st, DataSlot(c, i, bn)) && a == Ref(c, st, DataSlot(c, i, bn)) != 0 &&
             o + |src| <= BSIZE
    requires Holds(c, st, j, f) && j != i
    ensures a < c.size && Shaped(c, Patch(st, a, o, src)) && Holds(c, Patch(st, a, o, src), j, f)
  {
    PatchOwned(c, st, owner, a, o, src);
    forall k: nat | k < |f|
      ensures HasByte(c, Patch(st, a, o, src), j, k, f[k])
    {
      assert HasByte(c, st, j, k, f[k]);
      PatchByte(c, st, owner, i, bn, a, o, src, j, k, f[k]);
    }
  }

  // ---------- the file system ----------

  /** The blocks are partitioned, and file i starts with the bytes files[i]. */
  ghost predicate Inv(c: Config, st: State, owner: map<int, Slot>, files: seq<seq<int>>) {
    && Shaped(c, st) && Owned(c, st, owner)
    && |files| == |st.inodes|
    && (forall i | 0 <= i < |files| :: Holds(c, st, i, files[i]))
  }

  /** The slots of st' hold what those of st do, but for s, which holds b. */
  ghost predicate RefsBut(c: Config, st: State, st': State, s: Slot, b: int)
    requires Shaped(c, st) && Shaped(c, st')
  {
    forall t | IsSlot(c, st, t) :: IsSlot(c, st', t) && Ref(c, st', t) == if t == s then b else Ref(c, st, t)
  }

  lemma AllocInv(c: Config, st: State, owner: map<int, Slot>, files: seq<seq<int>>, s: Slot, b: nat)
    requires Inv(c, st, owner, files) && CanAllocate(c, st, owner, s, b)
    ensures Shaped(c, Alloc(c, st, b)) && (s.Entry? ==> 0 < Ref(c, Alloc(c, st, b), Ind(s.i)) < c.size)
    ensures Inv(c, Allocated(c, st, s, b), owner[b := s], files)
    ensures b > 0 && RefsBut(c, st, Allocated(c, st, s, b), s, b)
  {
    AllocOwned(c, st, owner, s, b);
    SameSlots(c, st, s, b, s);
    var st' := Allocated(c, st, s, b);
    assert |st'.inodes| == |st.inodes|;
    hide Allocated, CanAllocate, Owned, Ref;
    forall i | 0 <= i < |files|
      ensures Holds(c, st', i, files[i])
    {
      AllocKeeps(c, st, owner, s, b, i, files[i]);
    }
    AllocRefs(c, st, owner, s, b);
  }

  lemma AllocRefs(c: Config, st: State, owner: map<int, Slot>, s: Slot, b: nat)
    requires CanAllocate(c, st, owner, s, b)
    ensures Shaped(c, Alloc(c, st, b)) && (s.Entry? ==> 0 < Ref(c, Alloc(c, st, b), Ind(s.i)) < c.size)
    ensures Shaped(c, Allocated(c, st, s, b))
    ensures b > 0 && RefsBut(c, st, Allocated(c, st, s, b), s, b)
  {
    if s.Entry? { assert Ref(c, st, Ind(s.i)) in owner; }
    forall t | IsSlot(c, st, t)
      ensures Shaped(c, Alloc(c, st, b)) && (s.Entry? ==> 0 < Ref(c, Alloc(c, st, b), Ind(s.i)) < c.size)
      ensures Shaped(c, Allocated(c, st, s, b)) && IsSlot(c, Allocated(c, st, s, b), t)
              && Ref(c, Allocated(c, st, s, b), t) == if t == s then b else Ref(c, st, t)
    {
      AllocatedRef(c, st, owner, s, b, t);
    }
    assert IsSlot(c, st, s);
  }

  lemma PatchInv(c: Config, st: State, owner: map<int, Slot>, files: seq<seq<int>>, i: nat, bn: nat, a: nat, o: nat,
                 src: seq<int>)
    requires Inv(c, st, owner, files) && i < |files| && bn < c.MaxFile() && a == Ref(c, st, DataSlot(c, i, bn)) != 0
    requires o + |src| <= BSIZE && bn * BSIZE + o <= |files[i]|
    ensures a < c.size && Inv(c, Patch(st, a, o, src), owner, files[i := Splice(files[i], bn * BSIZE + o, src)])
    ensures Ref(c, Patch(st, a, o, src), Ind(i)) == Ref(c, st, Ind(i)) && |st.disk| == c.size && |st.disk[a]| == BSIZE
  {
    assert owner[a] == DataSlot(c, i, bn);
    PatchOwned(c, st, owner, a, o, src);
    PatchFile(c, st, owner, i, bn, a, o, src, files[i]);
    var st' := Patch(st, a, o, src);
    assert |st'.inodes| == |st.inodes|;
    hide Patch, Owned;
    forall j | 0 <= j < |files| && j != i
      ensures Holds(c, st', j, files[j])
    {
      PatchOther(c, st, owner, i, bn, a, o, src, j, files[j]);
    }
  }

  /** Every block is marked in the bitmap: balloc panics. */
  /** A block that the file system writes: a data block, or one that holds bits of the bitmap
      or inodes. */
  ghost predicate Writable(c: Config, ninodes: nat, b: int) {
    || c.meta <= b < c.size
    || (c.bpb > 0 && exists x: nat :: x < c.size && c.BBlock(x) == b)
    || (c.ipb > 0 && exists i: nat :: i < ninodes && c.IBlock(i) == b)
  }

  /** All that changed on disk from st0 to st was logged, and nothing was logged but blocks
      that the file system may write. */
  ghost predicate Tracks(c: Config, st0: State, st: State) {
    && c.bpb > 0 && c.ipb > 0
    && |st.disk| == |st0.disk| && |st.bitmap| == |st0.bitmap| && |st.dinodes| == |st0.dinodes|
    && st0.logged <= st.logged
    && (forall b | b in st.logged && b !in st0.logged :: Writable(c, |st.dinodes|, b))
    && (forall b: nat | b < |st.disk| && st.disk[b] != st0.disk[b] :: b in st.logged)
    && (forall b: nat | b < |st.bitmap| && st.bitmap[b] != st0.bitmap[b] :: c.BBlock(b) in st.logged)
    && (forall i: nat | i < |st.dinodes| && st.dinodes[i] != st0.dinodes[i] :: c.IBlock(i) in st.logged)
  }

  lemma TracksNothing(c: Config, st: State)
    requires Shaped(c, st)
    ensures Tracks(c, st, st)
  {
  }

  lemma TracksThen(c: Config, st0: State, st1: State, st2: State)
    requires Tracks(c, st0, st1) && Tracks(c, st1, st2)
    ensures Tracks(c, st0, st2)
  {
  }

  /** In-memory inodes are not on disk. */
  lemma TracksMemory(c: Config, st0: State, st: State, st': State)
    requires Tracks(c, st0, st) && st' == st.(inodes := st'.inodes)
    ensures Tracks(c, st0, st')
  {
  }

  lemma TracksAlloc(c: Config, st: State, owner: map<int, Slot>, b: nat)
    requires Owned(c, st, owner) && b < c.size && !st.bitmap[b]
    ensures Tracks(c, st, Alloc(c, st, b))
  {
    assert c.BBlock(b) == c.BBlock(b);
  }

  /** Bit r of the k-th bitmap block is for block k * bpb + r, and inode r of the k-th inode
      block is inode k * ipb + r. */
  lemma BlocksInOrder(c: Config, k: nat, r: nat)
    requires c.bpb > 0 && c.ipb > 0
    ensures r < c.bpb ==> c.BBlock(k * c.bpb + r) == c.bmapstart + k
    ensures r < c.ipb ==> c.IBlock(k * c.ipb + r) == c.inodestart + k
  {
    if r < c.bpb { Quotient(k, r, c.bpb); }
    if r < c.ipb { Quotient(k, r, c.ipb); }
  }

  lemma Quotient(k: nat, r: nat, n: nat)
    requires r < n
    ensures (k * n + r) / n == k
  {
    var x := k * n + r;
    var q := x / n;
    var d := k - q;
    assert x == q * n + x % n;
    Multiple(d, n);
    Multiple(-d, n);
    assert d * n == k * n - q * n;
    assert -d * n == -(d * n);
  }

  lemma Multiple(d: int, n: nat)
    ensures d >= 1 ==> d * n >= n
  {
    if d >= 1 {
      assert d * n == (d - 1) * n + n;
      assert (d - 1) * n >= 0;
    }
  }

  /** The blocks of the bitmap. */
  ghost function BitmapBlocks(c: Config): (r: set<int>)
    requires c.bpb > 0
  {
    set x: nat | x < c.size :: c.BBlock(x)
  }

  lemma TracksFree(c: Config, st0: State, st: State, b: nat, inodes: seq<Inode>)
    requires Shaped(c, st) && b < c.size && Tracks(c, st0, st) && st.logged <= st0.logged + BitmapBlocks(c)
    ensures var st' := st.(bitmap := st.bitmap[b := false], logged := st.logged + {c.BBlock(b)}, inodes := inodes);
            Tracks(c, st0, st') && st'.logged <= st0.logged + BitmapBlocks(c)
  {
    var st1 := st.(bitmap := st.bitmap[b := false], logged := st.logged + {c.BBlock(b)});
    assert c.BBlock(b) in BitmapBlocks(c);
    assert Tracks(c, st, st1) by { assert c.BBlock(b) == c.BBlock(b); }
    TracksThen(c, st0, st, st1);
    TracksMemory(c, st0, st1, st1.(inodes := inodes));
  }

  lemma TracksData(c: Config, st: State, a: nat, x: Block)
    requires Shaped(c, st) && c.meta <= a < c.size
    ensures Tracks(c, st, st.(disk := st.disk[a := x], logged := st.logged + {a}))
  {
  }

  lemma TracksInode(c: Config, st: State, i: nat)
    requires Shaped(c, st) && i < |st.inodes|
    ensures Tracks(c, st, st.(dinodes := st.dinodes[i := st.inodes[i]], logged := st.logged + {c.IBlock(i)}))
  {
    assert c.IBlock(i) == c.IBlock(i);
  }

  predicate NoSpace(st: State) {
    forall b | 0 <= b < |st.bitmap| :: st.bitmap[b]
  }

  /** The file system with contents `files` that the kernel may start from. */
  ghost predicate Sound(c: Config, st: State, owner: map<int, Slot>, files: seq<seq<int>>) {
    && Inv(c, st, owner, files)
    && st.dinodes == st.inodes
    && (forall i | 0 <= i < |files| :: |files[i]| == st.inodes[i].size <= c.MaxFile() * BSIZE)
  }

  class Fs {
    const c: Config
    var st: State
    ghost var owner: map<int, Slot>
    ghost var files: seq<seq<int>>

    /** Between operations the inodes on disk equal those in memory, and the file
        contents are as long as the inodes say. */
    ghost predicate Valid()
      reads this
    {
      Sound(c, st, owner, files)
    }

    /** A disk image is mounted when it is a sound file system. */
    constructor (c: Config, st: State, ghost owner: map<int, Slot>, ghost files: seq<seq<int>>)
      requires Sound(c, st, owner, files)
      ensures Valid() && this.c == c && this.st == st && this.files == files
    {
      this.c, this.st, this.owner, this.files := c, st, owner, files;
    }

    /** balloc: the lowest free block, or the panic when there is none. */
    method Balloc() returns (r: nat, ok: bool)
      requires Shaped(c, st)
      modifies this`st
      ensures ok <==> exists b :: 0 <= b < c.size && !old(st).bitmap[b]
      ensures ok ==> r < c.size && !old(st).bitmap[r] && forall b | 0 <= b < r :: old(st).bitmap[b]
      ensures ok ==> st == Alloc(c, old(st), r)
      ensures !ok ==> st == old(st) && NoSpace(st)
    {
      var b := 0;
      while b < c.size
        invariant forall k | 0 <= k < b && k < c.size :: st.bitmap[k]
        invariant st == old(st)
      {
        var bi := 0;
        while bi < c.bpb && b + bi < c.size
          invariant 0 <= bi <= c.bpb
          invariant forall k | 0 <= k < b + bi && k < c.size :: st.bitmap[k]
          invariant st == old(st)
        {
          if !st.bitmap[b + bi] {
            st := Alloc(c, st, b + bi);
            return b + bi, true;
          }
          bi := bi + 1;
        }
        b := b + c.bpb;
      }
      return 0, false;
    }

    /** bmap: the block that holds block bn of file i, allocated if there is none, and
        with it, if need be, the indirect block.  `bms` are the bitmap blocks logged. */
    method Bmap(i: nat, bn: nat) returns (addr: int, ok: bool, ghost bms: set<int>)
      requires Inv(c, st, owner, files) && i < |files| && bn < c.MaxFile()
      modifies this`st, this`owner
      ensures Inv(c, st, owner, files)
      ensures ok ==> 0 < addr == Ref(c, st, DataSlot(c, i, bn))
      ensures Ref(c, old(st), DataSlot(c, i, bn)) != 0 ==> ok && st == old(st)
      ensures SameButAddrs(old(st), st, i)
      ensures forall t | IsSlot(c, st, t) && Ref(c, old(st), t) != 0 :: Ref(c, st, t) == Ref(c, old(st), t)
      ensures ok ==> st.logged <= old(st).logged + bms + {addr} + IndBlock(c, st, i)
      ensures |bms| <= (if Ref(c, old(st), DataSlot(c, i, bn)) == 0 then 1 else 0) + NewInd(c, old(st), st, i)
      ensures Tracks(c, old(st), st)
      ensures !ok ==> NoSpace(st)
    {
      hide Tracks;
      TracksNothing(c, st);
      bms := {};
      if bn < c.ndirect {
        addr := st.inodes[i].addrs[bn];
        assert addr == Ref(c, st, Direct(i, bn)) && (addr != 0 ==> addr in owner);
        if addr == 0 {
          var b;
          b, ok := Balloc();
          if !ok { return; }
          AllocInv(c, old(st), owner, files, Direct(i, bn), b);
          TracksAlloc(c, old(st), owner, b);
          ghost var mid := st;
          st := st.(inodes := st.inodes[i := st.inodes[i].(addrs := st.inodes[i].addrs[bn := b])]);
          TracksMemory(c, old(st), mid, st);
          addr, owner, bms := b, owner[b := Direct(i, bn)], {c.BBlock(b)};
        }
        return addr, true, bms;
      }
      addr, ok, bms := BmapIndirect(i, bn - c.ndirect);
    }

    /** The second half of bmap. */
    method BmapIndirect(i: nat, j: nat) returns (addr: int, ok: bool, ghost bms: set<int>)
      requires Inv(c, st, owner, files) && i < |files| && j < NINDIRECT
      modifies this`st, this`owner
      ensures Inv(c, st, owner, files)
      ensures ok ==> 0 < addr == Ref(c, st, Entry(i, j))
      ensures Ref(c, old(st), Entry(i, j)) != 0 ==> ok && st == old(st)
      ensures SameButAddrs(old(st), st, i)
      ensures forall t | IsSlot(c, st, t) && Ref(c, old(st), t) != 0 :: Ref(c, st, t) == Ref(c, old(st), t)
      ensures ok ==> st.logged <= old(st).logged + bms + {addr} + IndBlock(c, st, i)
      ensures |bms| <= (if Ref(c, old(st), Entry(i, j)) == 0 then 1 else 0) + NewInd(c, old(st), st, i)
      ensures Tracks(c, old(st), st)
      ensures !ok ==> NoSpace(st)
    {
      hide Tracks;
      var ind;
      ind, ok, bms := IndirectBlock(i);
      if !ok { return 0, false, bms; }
      ghost var mid := st;
      assert Ref(c, st, Ind(i)) in owner;
      addr := Word(st.disk[ind], j);
      assert addr == Ref(c, st, Entry(i, j)) && (addr != 0 ==> addr in owner);
      if addr == 0 {
        var b;
        b, ok := Balloc();
        if !ok { return addr, false, bms; }
        AllocInv(c, mid, owner, files, Entry(i, j), b);
        TracksAlloc(c, mid, owner, b);
        TracksThen(c, old(st), mid, st);
        TracksData(c, st, ind, SetWord(st.disk[ind], j, b));
        ghost var mid' := st;
        st := st.(disk := st.disk[ind := SetWord(st.disk[ind], j, b)], logged := st.logged + {ind});
        TracksThen(c, old(st), mid', st);
        addr, owner, bms := b, owner[b := Entry(i, j)], bms + {c.BBlock(b)};
      }
    }

    method IndirectBlock(i: nat) returns (ind: int, ok: bool, ghost bms: set<int>)
      requires Inv(c, st, owner, files) && i < |files|
      modifies this`st, this`owner
      ensures Inv(c, st, owner, files)
      ensures ok ==> ind == Ref(c, st, Ind(i)) != 0
      ensures Ref(c, old(st), Ind(i)) != 0 ==> ok && st == old(st) && bms == {}
      ensures SameButAddrs(old(st), st, i)
      ensures RefsBut(c, old(st), st, Ind(i), Ref(c, st, Ind(i)))
      ensures ok ==> st.logged <= old(st).logged + bms + {ind}
      ensures |bms| <= NewInd(c, old(st), st, i) && Tracks(c, old(st), st)
      ensures !ok ==> NoSpace(st)
    {
      hide Tracks;
      TracksNothing(c, st);
      bms := {};
      ind := st.inodes[i].addrs[c.ndirect];
      if ind == 0 {
        var b;
        b, ok := Balloc();
        if !ok { return; }
        AllocInv(c, old(st), owner, files, Ind(i), b);
        TracksAlloc(c, old(st), owner, b);
        ghost var mid := st;
        st := st.(inodes := st.inodes[i := st.inodes[i].(addrs := st.inodes[i].addrs[c.ndirect := b])]);
        TracksMemory(c, old(st), mid, st);
        ind, owner, bms := b, owner[b := Ind(i)], {c.BBlock(b)};
      }
      ok := true;
    }

    /** iupdate: copy the inode to disk. */
    method Iupdate(i: nat)
      requires Shaped(c, st) && i < |st.inodes|
      modifies this`st
      ensures st == old(st).(dinodes := old(st).dinodes[i := old(st).inodes[i]],
                             logged := old(st).logged + {c.IBlock(i)})
    {
      st := st.(dinodes := st.dinodes[i := st.inodes[i]], logged := st.logged + {c.IBlock(i)});
    }

    /** writei.  -1 is a refusal; `ok` is false where balloc panics for want of a free block.  The file contents
        become those with src spliced in at off.  `data` and `bms` are the data blocks and
        the bitmap blocks logged. */
    method WriteI(i: nat, src: seq<int>, off: nat) returns (r: int, ok: bool, ghost data: set<int>, ghost bms: set<int>)
      requires Valid() && i < |files| && off < UINT && |src| < UINT
      modifies this`st, this`owner, this`files
      ensures ok ==> Valid()
      ensures ok ==> r == if Refused(c, |old(files)[i]|, off, |src|) then -1 else |src|
      ensures r == -1 ==> ok && st == old(st) && files == old(files)
      ensures ok && r != -1 ==> files == old(files)[i := Splice(old(files)[i], off, src)]
      ensures |st.inodes| == |old(st).inodes| && st.inodes == old(st).inodes[i := st.inodes[i]]
      ensures ok ==> st.logged <= old(st).logged + data + bms + IndBlock(c, st, i) + {c.IBlock(i)}
      ensures ok ==> |data| <= Touched(off, |src|)
      ensures ok ==> |bms| <= Touched(off, |src|) - (if Rem(off) != 0 && |src| > 0 then 1 else 0) + 1
      ensures ok ==> Tracks(c, old(st), st)
      ensures !ok ==> NoSpace(st)
    {
      hide Owned, Holds, Splice, NoSpace, Touched, Tracks;
      TracksNothing(c, st);
      data, bms, ok := {}, {}, true;
      var n := |src|;
      if off > st.inodes[i].size || (off + n) % UINT < off {
        return -1, true, data, bms;
      }
      if (off + n) % UINT > c.MaxFile() * BSIZE {
        return -1, true, data, bms;
      }
      SpliceNothing(files[i], off);
      ok, data, bms := WriteLoop(i, src, off);
      if !ok {
        return n, false, data, bms;
      }
      if n > 0 && off + n > st.inodes[i].size {
        ghost var mid := st;
        st := st.(inodes := st.inodes[i := st.inodes[i].(size := off + n)]);
        ghost var mid' := st;
        TracksMemory(c, old(st), mid, mid');
        TracksInode(c, mid', i);
        Iupdate(i);
        TracksThen(c, old(st), mid', st);
        assert st.dinodes == st.inodes;
        InvAgrees(c, mid, st, owner, files);
      }
      r := n;
    }

    /** The loop of writei. */
    method WriteLoop(i: nat, src: seq<int>, off: nat) returns (ok: bool, ghost data: set<int>, ghost bms: set<int>)
      requires Inv(c, st, owner, files) && i < |files| == |st.inodes| && off <= |files[i]|
      requires Shaped(c, st) && off + |src| <= c.MaxFile() * BSIZE
      modifies this`st, this`owner, this`files
      ensures SameButAddrs(old(st), st, i)
      ensures ok && off + |src| <= |old(files)[i]| ==> st.inodes == old(st).inodes
      ensures ok ==> Inv(c, st, owner, files) && files == old(files)[i := Splice(old(files)[i], off, src)]
      ensures ok ==> st.logged <= old(st).logged + data + bms + IndBlock(c, st, i)
      ensures ok ==> |data| <= Touched(off, |src|)
      ensures ok ==> |bms| <= Touched(off, |src|) - (if Rem(off) != 0 && |src| > 0 then 1 else 0) + 1
      ensures ok ==> Tracks(c, old(st), st)
      ensures !ok ==> NoSpace(st)
    {
      hide *;
      data, bms, ok := {}, {}, true;
      var n := |src|;
      var tot := 0;
      WritingStarts(c, st, owner, files, i, src, off);
      while tot < n
        invariant 0 <= tot <= n
        invariant Writing(c, old(st), old(files), st, owner, files, i, src, off, tot, data, bms)
      {
        var m;
        m, ok, data, bms := WriteRound(i, src, off, tot, old(st), old(files), data, bms);
        if !ok {
          return;
        }
        tot := tot + m;
      }
      WritingDone(c, old(st), old(files), st, owner, files, i, src, off, data, bms);
    }

    /** One round of the loop of writei, and what it adds to the account. */
    method WriteRound(i: nat, src: seq<int>, off: nat, tot: nat, ghost st0: State, ghost files0: seq<seq<int>>,
                      ghost data0: set<int>, ghost bms0: set<int>)
      returns (m: nat, ok: bool, ghost data: set<int>, ghost bms: set<int>)
      requires Writing(c, st0, files0, st, owner, files, i, src, off, tot, data0, bms0) && tot < |src|
      modifies this`st, this`owner, this`files
      ensures SameButAddrs(st0, st, i)
      ensures 0 < m && tot + m <= |src|
      ensures ok ==> Writing(c, st0, files0, st, owner, files, i, src, off, tot + m, data, bms)
      ensures !ok ==> NoSpace(st)
    {
      hide Inv, Ref, Splice, Touched, Shaped, IndBlock, NewInd, Accounted, SameButAddrs, Tracks;
      ghost var mid := st;
      m := Min(|src| - tot, BSIZE - Rem(off + tot));
      SpliceAgain(files0[i], off, src, tot, m);
      SpliceNothing(files0[i], off);
      TouchedNext(off, tot, |src|, m, c.MaxFile());
      hide Rem;
      ghost var a, b;
      ok, a, b := WriteStep(i, off + tot, src[tot..tot + m]);
      SameButAddrsTrans(st0, mid, st, i);
      data, bms := data0 + {a}, bms0 + b;
      if ok {
        AccountStep(c, st0, mid, st, i, off, tot, m, data0, bms0, a, b);
        TracksThen(c, st0, mid, st);
      }
    }

    /** One round of the loop of writei. */
    method WriteStep(i: nat, off: nat, part: seq<int>) returns (ok: bool, ghost a: int, ghost bms: set<int>)
      requires Inv(c, st, owner, files) && i < |files| && off <= |files[i]| && off / BSIZE < c.MaxFile()
      requires 0 < |part| <= BSIZE - Rem(off)
      modifies this`st, this`owner, this`files
      ensures SameButAddrs(old(st), st, i)
      ensures off < |old(files)[i]| ==> st.inodes == old(st).inodes
      ensures ok ==> Inv(c, st, owner, files) && files == old(files)[i := Splice(old(files)[i], off, part)]
      ensures ok ==> Shaped(c, st) && |st.inodes| == |files|
      ensures ok ==> st.logged <= old(st).logged + {a} + bms + IndBlock(c, st, i)
      ensures ok && Ref(c, old(st), Ind(i)) != 0 ==> Ref(c, st, Ind(i)) == Ref(c, old(st), Ind(i))
      ensures ok ==> |bms| <= (if Rem(off) != 0 then 0 else 1) + NewInd(c, old(st), st, i)
      ensures ok ==> Tracks(c, old(st), st)
      ensures !ok ==> NoSpace(st)
    {
      hide Inv, Ref, Splice, Shaped, IndBlock, NewInd, SameButAddrs, IsSlot, NoSpace, Patch, DataSlot, Rem, Tracks;
      OffsetParts(off);
      InvShaped(c, st, owner, files);
      UnalignedIsAllocated(c, st, owner, files, i, off);
      var addr;
      addr, ok, bms := Bmap(i, off / BSIZE);
      a := addr;
      if ok {
        ghost var mid := st;
        InvShaped(c, st, owner, files);
        IndIsSlot(c, st, i);
        PatchInv(c, st, owner, files, i, off / BSIZE, addr, off % BSIZE, part);
        PatchTracks(c, st, owner, files, i, off / BSIZE, addr, off % BSIZE, part);
        files := files[i := Splice(files[i], off, part)];
        st := Patch(st, addr, off % BSIZE, part);
        InvShaped(c, st, owner, files);
        PatchFacts(c, mid, addr, off % BSIZE, part, i, old(st));
        TracksThen(c, old(st), mid, st);
      }
    }

    /** readi.  -1 is a refusal.  Every block below the size is allocated, so nothing is
        allocated by reading and nothing changes. */
    method ReadI(i: nat, off: nat, count: nat) returns (r: int, dst: seq<int>)
      requires Valid() && i < |files| && off < UINT && count < UINT
      modifies this`st, this`owner
      ensures Valid() && st == old(st)
      ensures r == -1 <==> off > |files[i]| || (off + count) % UINT < off
      ensures r != -1 ==> r == |dst| && dst == files[i][off..Min(off + count, |files[i]|)]
    {
      dst := [];
      if off > st.inodes[i].size || (off + count) % UINT < off {
        return -1, dst;
      }
      NoWrap(off, count);
      var n := count;
      if off + n > st.inodes[i].size {
        n := st.inodes[i].size - off;
      }
      dst := ReadLoop(i, off, n);
      r := n;
    }

    method ReadLoop(i: nat, off: nat, n: nat) returns (dst: seq<int>)
      requires Inv(c, st, owner, files) && i < |files| && off + n <= |files[i]| <= c.MaxFile() * BSIZE
      modifies this`st, this`owner
      ensures Inv(c, st, owner, files) && st == old(st)
      ensures dst == files[i][off..off + n]
    {
      hide *;
      dst := [];
      var tot := 0;
      while tot < n
        invariant 0 <= tot <= n
        invariant Inv(c, st, owner, files) && st == old(st)
        invariant dst == files[i][off..off + tot]
      {
        var m, part := ReadRound(i, off + tot, n - tot);
        SliceNext(files[i], off, tot, m);
        dst := dst + part;
        tot := tot + m;
      }
    }

    /** One round of the loop of readi. */
    method ReadRound(i: nat, off: nat, left: nat) returns (m: nat, part: seq<int>)
      requires Inv(c, st, owner, files) && i < |files| && 0 < left && off + left <= |files[i]| <= c.MaxFile() * BSIZE
      modifies this`st, this`owner
      ensures Inv(c, st, owner, files) && st == old(st)
      ensures 0 < m <= left && part == files[i][off..off + m]
    {
      UnalignedIsAllocated(c, st, owner, files, i, off);
      var addr, ok, bms := Bmap(i, off / BSIZE);
      assert addr in owner;
      m := Min(left, BSIZE - off % BSIZE);
      part := st.disk[addr][off % BSIZE..off % BSIZE + m];
      forall k | 0 <= k < m
        ensures part[k] == files[i][off + k]
      {
        assert HasByte(c, st, i, off + k, files[i][off + k]);
        assert (off + k) / BSIZE == off / BSIZE && (off + k) % BSIZE == off % BSIZE + k;
      }
    }

    /** bfree: the panic, if the block is free already. */
    method Bfree(b: nat) returns (ok: bool)
      requires Shaped(c, st) && b < c.size
      modifies this`st
      ensures ok <==> old(st).bitmap[b]
      ensures st == if ok
                    then old(st).(bitmap := old(st).bitmap[b := false], logged := old(st).logged + {c.BBlock(b)})
                    else old(st)
    {
      if !st.bitmap[b] {
        return false;
      }
      st := st.(bitmap := st.bitmap[b := false], logged := st.logged + {c.BBlock(b)});
      return true;
    }

    /** The body of the first loop of itrunc. */
    method FreeDirect(i: nat, k: nat, ghost st0: State)
      requires Freeing(c, st0, owner, st, i, k, 0) && k < c.ndirect
      modifies this`st
      ensures Freeing(c, st0, owner, st, i, k + 1, 0)
    {
      hide Tracks, BitmapBlocks;
      BitsStep(c, st0, owner, st.bitmap, i, k, 0, Direct(i, k), k + 1, 0);
      var b := st.inodes[i].addrs[k];
      if b != 0 {
        TracksFree(c, st0, st, b, st.inodes[i := st.inodes[i].(addrs := st.inodes[i].addrs[k := 0])]);
        var ok := Bfree(b);
        assert ok;
        st := st.(inodes := st.inodes[i := st.inodes[i].(addrs := st.inodes[i].addrs[k := 0])]);
      }
    }

    /** The second half of itrunc: the blocks that the indirect block lists, then itself. */
    method FreeIndirect(i: nat, ghost st0: State)
      requires Freeing(c, st0, owner, st, i, c.ndirect, 0)
      modifies this`st
      ensures Freeing(c, st0, owner, st, i, c.ndirect, NINDIRECT + 1)
    {
      hide Tracks, BitmapBlocks;
      var ind := st.inodes[i].addrs[c.ndirect];
      if ind != 0 {
        assert Ref(c, st0, Ind(i)) == ind && ind in owner;
        var j := 0;
        while j < NINDIRECT
          invariant 0 <= j <= NINDIRECT && st.inodes == old(st).inodes
          invariant Freeing(c, st0, owner, st, i, c.ndirect, j)
        {
          FreeEntry(i, j, ind, st0);
          j := j + 1;
        }
        BitsStep(c, st0, owner, st.bitmap, i, c.ndirect, NINDIRECT, Ind(i), c.ndirect, NINDIRECT + 1);
        TracksFree(c, st0, st, ind, st.inodes[i := st.inodes[i].(addrs := st.inodes[i].addrs[c.ndirect := 0])]);
        var ok := Bfree(ind);
        assert ok;
        st := st.(inodes := st.inodes[i := st.inodes[i].(addrs := st.inodes[i].addrs[c.ndirect := 0])]);
      } else {
        forall b | b in owner
          ensures Passed(owner[b], i, c.ndirect, NINDIRECT + 1) <==> Passed(owner[b], i, c.ndirect, 0)
        {
          assert Ref(c, st0, owner[b]) == b;
        }
      }
    }

    method FreeEntry(i: nat, j: nat, ind: int, ghost st0: State)
      requires Freeing(c, st0, owner, st, i, c.ndirect, j) && j < NINDIRECT
      requires ind == st.inodes[i].addrs[c.ndirect] && 0 < ind < c.size
      modifies this`st
      ensures Freeing(c, st0, owner, st, i, c.ndirect, j + 1) && st.inodes == old(st).inodes
    {
      hide Tracks, BitmapBlocks;
      BitsStep(c, st0, owner, st.bitmap, i, c.ndirect, j, Entry(i, j), c.ndirect, j + 1);
      var b := Word(st.disk[ind], j);
      assert b == Ref(c, st0, Entry(i, j));
      if b != 0 {
        TracksFree(c, st0, st, b, st.inodes);
        var ok := Bfree(b);
        assert ok;
      }
    }

    /** itrunc: frees exactly the blocks of inode i, without a panic. */
    method Itrunc(i: nat)
      requires Valid() && i < |files|
      modifies this`st, this`owner, this`files
      ensures Valid()
      ensures files == old(files)[i := []]
      ensures owner == map b | b in old(owner) && old(owner)[b].i != i :: old(owner)[b]
      ensures st.disk == old(st).disk
      ensures |st.inodes| == |old(st).inodes| && st.inodes == old(st).inodes[i := Inode(0, Zeros(c.ndirect + 1))]
      ensures forall b | 0 <= b < c.size ::
                st.bitmap[b] <==> old(st).bitmap[b] && !(b in old(owner) && old(owner)[b].i == i)
      ensures Tracks(c, old(st), st) && st.logged <= old(st).logged + BitmapBlocks(c) + {c.IBlock(i)}
    {
      ghost var st0 := st;
      hide Owned, Holds, Bits, Tracks, BitmapBlocks;
      FreeBlocks(i);
      FreedAddrs(c, st0, owner, st, i);
      ghost var st1 := st;
      st := st.(inodes := st.inodes[i := st.inodes[i].(size := 0)]);
      ghost var st2 := st;
      TracksMemory(c, st0, st1, st2);
      TracksInode(c, st2, i);
      Iupdate(i);
      TracksThen(c, st0, st2, st);
      assert st.dinodes == st.inodes;
      TruncDone(c, st0, owner, files, st, i);
      owner := map b | b in owner && owner[b].i != i :: owner[b];
      files := files[i := []];
    }

    /** Discarding a file's contents in a transaction of its own. */
    method Truncate(i: nat)
      requires Valid() && i < |files|
      modifies this`st, this`owner, this`files
      ensures Valid() && files == old(files)[i := []]
      ensures Tracks(c, old(st).(logged := {}), st) && st.logged <= BitmapBlocks(c) + {c.IBlock(i)}
    {
      hide Owned, Holds, Tracks, BitmapBlocks;
      InvAgrees(c, st, st.(logged := {}), owner, files);
      st := st.(logged := {});
      Itrunc(i);
    }

    method FreeBlocks(i: nat)
      requires Inv(c, st, owner, files) && i < |files|
      modifies this`st
      ensures Freeing(c, old(st), owner, st, i, c.ndirect, NINDIRECT + 1)
    {
      hide *;
      TruncStarts(c, st, owner, files, i);
      var k := 0;
      while k < c.ndirect
        invariant 0 <= k <= c.ndirect
        invariant Freeing(c, old(st), owner, st, i, k, 0)
      {
        FreeDirect(i, k, old(st));
        k := k + 1;
      }
      FreeIndirect(i, old(st));
    }

    /** filewrite on a regular file at offset off: one transaction for each chunk.  -1
        if a chunk was refused; the chunks before it stay written and the offset stays
        past them.  `txs` are the blocks that each transaction logged. */
    method FileWrite(i: nat, off: nat, src: seq<int>) returns (r: int, off': nat, ok: bool, ghost txs: seq<set<int>>)
      requires Valid() && i < |files| && off < UINT && |src| < UINT
      modifies this`st, this`owner, this`files
      ensures ok ==> Valid()
      ensures ok ==> off' == off + Done(c, |old(files)[i]|, off, |src|)
      ensures ok ==> r == if Done(c, |old(files)[i]|, off, |src|) == |src| then |src| else -1
      ensures ok ==> files == old(files)[i := Written(old(files)[i], off, src[..Done(c, |old(files)[i]|, off, |src|)])]
      ensures ok ==> forall t | t in txs :: |t| <= MAXOPBLOCKS
      ensures !ok ==> NoSpace(st)
    {
      hide Inv, Done, Written, Splice, Refused;
      var n := |src|;
      var k := 0;
      off', ok, txs := off, true, [];
      ghost var f0 := files[i];
      WrittenNothing(f0, off, src);
      while k < n
        invariant 0 <= k <= n && i < |files| && off' == off + k < UINT
        invariant Valid()
        invariant files == old(files)[i := Written(f0, off, src[..k])]
        invariant k > 0 ==> off <= |f0|
        invariant Done(c, |f0|, off, n) == k + Done(c, |files[i]|, off', n - k)
        invariant forall t | t in txs :: |t| <= MAXOPBLOCKS
      {
        var n1 := n - k;
        if n1 > CHUNK {
          n1 := CHUNK;
        }
        ghost var size1 := |files[i]|;
        ghost var tx;
        DoneNext(c, size1, off', n - k);
        r, ok, tx := Transaction(i, src[k..k + n1], off');
        if !ok {
          return;
        }
        txs := txs + [tx];
        if r < 0 {
          break;
        }
        WrittenNext(f0, off, src, k, n1);
        off' := off' + r;
        k := k + r;
      }
      DoneStops(c, |files[i]|, off', n - k);
      r := if k == n then n else -1;
    }

    /** One round of the loop of filewrite: begin_op, writei, end_op. */
    method Transaction(i: nat, src: seq<int>, off: nat) returns (r: int, ok: bool, ghost tx: set<int>)
      requires Valid() && i < |files| && off < UINT && |src| <= CHUNK
      modifies this`st, this`owner, this`files
      ensures ok ==> Valid() && |files| == |old(files)|
      ensures ok ==> r == if Refused(c, |old(files)[i]|, off, |src|) then -1 else |src|
      ensures ok && r == -1 ==> files == old(files)
      ensures ok && r != -1 ==>
              off <= |old(files)[i]| && off + |src| < UINT && files == old(files)[i := Splice(old(files)[i], off, src)]
      ensures ok ==> |tx| <= MAXOPBLOCKS && tx == st.logged && Tracks(c, old(st).(logged := {}), st)
      ensures !ok ==> NoSpace(st)
    {
      hide Owned, Holds, Tracks;
      InvAgrees(c, st, st.(logged := {}), owner, files);
      st := st.(logged := {});
      if !Refused(c, |files[i]|, off, |src|) {
        NoWrap(off, |src|);
      }
      ghost var data, bms;
      r, ok, data, bms := WriteI(i, src, off);
      tx := st.logged;
      if ok {
        ReservationFits(tx, data, bms, IndBlock(c, st, i), c.IBlock(i), off, |src|);
      }
    }

    /** fileread on a regular file: the offset advances by what was read. */
    method FileRead(i: nat, off: nat, count: nat) returns (r: int, dst: seq<int>, off': nat)
      requires Valid() && i < |files| && off < UINT && count < UINT
      modifies this`st, this`owner
      ensures Valid() && st == old(st)
      ensures r == -1 <==> off > |files[i]| || (off + count) % UINT < off
      ensures r == -1 ==> off' == off
      ensures r != -1 ==> off' == off + |dst| && dst == files[i][off..Min(off + count, |files[i]|)]
    {
      r, dst := ReadI(i, off, count);
      off' := if r > 0 then off + r else off;
    }
  }

  /** The most that filewrite writes in one transaction. */
  const CHUNK: nat := (MAXOPBLOCKS - 1 - 1 - 2) / 2 * 512

  /** A transaction of filewrite, at any offset, logs no more blocks than begin_op has
      reserved for it: four data blocks, four bitmap blocks, the indirect block and the
      inode's.  A first block that is not written from its start is allocated already. */
  lemma ReservationFits(tx: set<int>, data: set<int>, bms: set<int>, ind: set<int>, iblock: int, off: nat, n: nat)
    requires n <= CHUNK && tx <= data + bms + ind + {iblock}
    requires |data| <= Touched(off, n) && |ind| <= 1
    requires |bms| <= Touched(off, n) - (if Rem(off) != 0 && n > 0 then 1 else 0) + 1
    ensures |data| <= 4 && |bms| <= 4 && |tx| <= MAXOPBLOCKS
  {
    UnionBound(data, bms);
    UnionBound(data + bms, ind);
    UnionBound(data + bms + ind, {iblock});
    SubsetBound(tx, data + bms + ind + {iblock});
  }

  lemma UnionBound(s: set<int>, t: set<int>)
    ensures |s + t| <= |s| + |t|
  {
    assert |s + t| + |s * t| == |s| + |t|;
  }

  lemma SubsetBound(s: set<int>, t: set<int>)
    requires s <= t
    ensures |s| <= |t|
  {
    assert |t - s| + |s| == |t| by { assert t == (t - s) + s; }
  }

  /** How many of n bytes filewrite gets written before a chunk is refused. */
  function Done(c: Config, size: nat, off: nat, n: nat): (r: nat)
    ensures r <= n
    decreases n
  {
    var n1 := Min(n, CHUNK);
    if n == 0 || Refused(c, size, off, n1) then 0
    else n1 + Done(c, Max(size, off + n1), off + n1, n - n1)
  }

  lemma DoneStops(c: Config, size: nat, off: nat, n: nat)
    ensures n == 0 ==> Done(c, size, off, n) == 0
    ensures Done(c, size, off, n) <= n
  {
  }

  /** A write that starts one chunk below the largest file size and is one byte longer: the
      second chunk is refused, and the first stays. */
  lemma SecondChunkRefused(c: Config)
    requires CHUNK <= c.MaxFile() * BSIZE < UINT
    ensures Done(c, c.MaxFile() * BSIZE - CHUNK, c.MaxFile() * BSIZE - CHUNK, CHUNK + 1) == CHUNK
  {
    var m := c.MaxFile() * BSIZE;
    DoneNext(c, m - CHUNK, m - CHUNK, CHUNK + 1);
    DoneNext(c, m, m, 1);
  }

  lemma DoneNext(c: Config, size: nat, off: nat, n: nat)
    requires n > 0
    ensures Done(c, size, off, n) ==
            if Refused(c, size, off, Min(n, CHUNK)) then 0
            else Min(n, CHUNK) + Done(c, Max(size, off + Min(n, CHUNK)), off + Min(n, CHUNK), n - Min(n, CHUNK))
  {
  }

  /** filewrite writes everything exactly when the file has room for it. */
  lemma {:induction false} DoneIsAll(c: Config, size: nat, off: nat, n: nat)
    requires c.Valid() && off <= size <= c.MaxFile() * BSIZE && n < UINT
    ensures Done(c, size, off, n) == n <==> off + n <= c.MaxFile() * BSIZE
    decreases n
  {
    var n1 := Min(n, CHUNK);
    ModOnce(off + n1);
    if n > 0 && !Refused(c, size, off, n1) {
      DoneIsAll(c, Max(size, off + n1), off + n1, n - n1);
    }
  }

  /** The file contents after src has been written at off; nothing if there is no src. */
  function Written(f: seq<int>, off: nat, src: seq<int>): (r: seq<int>) {
    if off <= |f| then Splice(f, off, src) else f
  }

  lemma WrittenNothing(f: seq<int>, off: nat, src: seq<int>)
    ensures Written(f, off, src[..0]) == f
  {
  }

  lemma WrittenNext(f: seq<int>, off: nat, src: seq<int>, k: nat, m: nat)
    requires off <= |f| && k + m <= |src|
    ensures off + k <= |Written(f, off, src[..k])|
    ensures Splice(Written(f, off, src[..k]), off + k, src[k..k + m]) == Written(f, off, src[..k + m])
    ensures |Written(f, off, src[..k + m])| == Max(|Written(f, off, src[..k])|, off + k + m)
  {
    SpliceAgain(f, off, src, k, m);
  }

  function Zeros(n: nat): (r: seq<int>)
    ensures |r| == n && forall k | 0 <= k < n :: r[k] == 0
  {
    seq(n, _ => 0)
  }

  /** itrunc has passed slot s of inode i once it has freed k direct blocks and j entries
      of the indirect block (j is NINDIRECT + 1 once it has freed that block too). */
  predicate Passed(s: Slot, i: nat, k: nat, j: nat) {
    s.i == i && match s { case Direct(_, k') => k' < k  case Entry(_, j') => j' < j  case Ind(_) => j > NINDIRECT }
  }

  /** The bits of the blocks passed are clear, all others are as before. */
  ghost predicate Bits(c: Config, st0: State, owner: map<int, Slot>, bitmap: seq<bool>, i: nat, k: nat, j: nat) {
    && |st0.bitmap| == |bitmap| == c.size
    && forall b | 0 <= b < c.size :: bitmap[b] <==> st0.bitmap[b] && !(b in owner && Passed(owner[b], i, k, j))
  }

  /** Between the steps of itrunc. */
  ghost predicate Freeing(c: Config, st0: State, owner: map<int, Slot>, st: State, i: nat, k: nat, j: nat) {
    && Owned(c, st0, owner) && Shaped(c, st) && i < |st0.inodes| == |st.inodes|
    && st.disk == st0.disk && st.dinodes == st0.dinodes
    && st.inodes == st0.inodes[i := st0.inodes[i].(addrs := st.inodes[i].addrs)]
    && (forall m | 0 <= m < c.ndirect :: st.inodes[i].addrs[m] == if m < k then 0 else st0.inodes[i].addrs[m])
    && st.inodes[i].addrs[c.ndirect] == (if j > NINDIRECT then 0 else st0.inodes[i].addrs[c.ndirect])
    && Bits(c, st0, owner, st.bitmap, i, k, j)
    && Tracks(c, st0, st) && st.logged <= st0.logged + BitmapBlocks(c)
  }

  /** Passing one more slot clears the bit of the block it holds, if any, which was set. */
  lemma BitsStep(c: Config, st0: State, owner: map<int, Slot>, bitmap: seq<bool>, i: nat, k: nat, j: nat, s: Slot,
                 k': nat, j': nat)
    requires Owned(c, st0, owner) && Bits(c, st0, owner, bitmap, i, k, j) && IsSlot(c, st0, s)
    requires !Passed(s, i, k, j) && forall t | IsSlot(c, st0, t) ::
               Passed(t, i, k', j') <==> Passed(t, i, k, j) || t == s
    ensures Ref(c, st0, s) == 0 ==> Bits(c, st0, owner, bitmap, i, k', j')
    ensures Ref(c, st0, s) != 0 ==> 0 < Ref(c, st0, s) < c.size && bitmap[Ref(c, st0, s)]
                                    && Bits(c, st0, owner, bitmap[Ref(c, st0, s) := false], i, k', j')
  {
    assert Ref(c, st0, s) != 0 ==> Ref(c, st0, s) in owner;
  }

  lemma TruncStarts(c: Config, st: State, owner: map<int, Slot>, files: seq<seq<int>>, i: nat)
    requires Inv(c, st, owner, files) && i < |files|
    ensures Freeing(c, st, owner, st, i, 0, 0)
  {
    TracksNothing(c, st);
    forall b | b in owner
      ensures !Passed(owner[b], i, 0, 0)
    {
    }
  }

  lemma FreedAddrs(c: Config, st0: State, owner: map<int, Slot>, st: State, i: nat)
    requires Freeing(c, st0, owner, st, i, c.ndirect, NINDIRECT + 1)
    ensures st.inodes[i].addrs == Zeros(c.ndirect + 1)
    ensures Bits(c, st0, owner, st.bitmap, i, c.ndirect, NINDIRECT + 1)
  {
  }

  lemma TruncatedRef(c: Config, st0: State, st: State, i: nat, t: Slot)
    requires Shaped(c, st0) && Shaped(c, st) && i < |st0.inodes| == |st.inodes|
    requires st.disk == st0.disk && st.inodes == st0.inodes[i := st.inodes[i]] &&
             st.inodes[i].addrs == Zeros(c.ndirect + 1)
    requires IsSlot(c, st0, t)
    ensures IsSlot(c, st, t) && Ref(c, st, t) == if t.i == i then 0 else Ref(c, st0, t)
  {
  }

  lemma TruncDone(c: Config, st0: State, owner: map<int, Slot>, files: seq<seq<int>>, st: State, i: nat)
    requires Inv(c, st0, owner, files) && st0.dinodes == st0.inodes && Shaped(c, st) && i < |files| == |st.inodes|
    requires st.disk == st0.disk && st.inodes == st0.inodes[i := st.inodes[i]] &&
             st.inodes[i].addrs == Zeros(c.ndirect + 1)
    requires Bits(c, st0, owner, st.bitmap, i, c.ndirect, NINDIRECT + 1)
    ensures Inv(c, st, map b | b in owner && owner[b].i != i :: owner[b], files[i := []])
    ensures forall b | 0 <= b < c.size :: st.bitmap[b] <==> st0.bitmap[b] && !(b in owner && owner[b].i == i)
  {
    var owner': map<int, Slot> := map b | b in owner && owner[b].i != i :: owner[b];
    forall t | IsSlot(c, st0, t)
      ensures IsSlot(c, st, t) && Ref(c, st, t) == if t.i == i then 0 else Ref(c, st0, t)
    {
      TruncatedRef(c, st0, st, i, t);
    }
    assert forall t | IsSlot(c, st, t) :: IsSlot(c, st0, t);
    hide Ref;
    forall b | b in owner
      ensures Passed(owner[b], i, c.ndirect, NINDIRECT + 1) <==> owner[b].i == i
    {
      assert IsSlot(c, st0, owner[b]);
    }
    assert Owned(c, st, owner');
    forall m | 0 <= m < |files| && m != i
      ensures Holds(c, st, m, files[m])
    {
      assert forall k: nat | k < |files[m]| :: HasByte(c, st0, m, k, files[m][k]);
    }
  }

  lemma ModOnce(x: nat)
    requires x < 2 * UINT
    ensures x % UINT == if x < UINT then x else x - UINT
  {
  }

  lemma NoWrap(off: nat, n: nat)
    requires off < UINT && n < UINT && (off + n) % UINT >= off
    ensures off + n < UINT
  {
    ModOnce(off + n);
  }

  lemma SliceNext(f: seq<int>, off: nat, tot: nat, m: nat)
    requires off + tot + m <= |f|
    ensures f[off..off + tot] + f[off + tot..off + tot + m] == f[off..off + (tot + m)]
  {
  }

  function Max(a: int, b: int): int {
    if a < b then b else a
  }

  function Min(a: int, b: int): int {
    if a < b then a else b
  }

  /** A byte offset inside the file, or just after an incomplete block of it, lies in a
      block that is allocated. */
  lemma UnalignedIsAllocated(c: Config, st: State, owner: map<int, Slot>, files: seq<seq<int>>, i: nat, off: nat)
    requires Inv(c, st, owner, files) && i < |files| && off <= |files[i]| && off / BSIZE < c.MaxFile()
    ensures off % BSIZE != 0 || off < |files[i]| ==> Ref(c, st, DataSlot(c, i, off / BSIZE)) != 0
  {
    if off % BSIZE != 0 || off < |files[i]| {
      var k := if off < |files[i]| then off else off - 1;
      assert k / BSIZE == off / BSIZE;
      assert HasByte(c, st, i, k, files[i][k]);
    }
  }

  /** The sizes of the inodes, the inodes on disk and the log play no part in where the
      blocks of files are. */
  lemma InvAgrees(c: Config, st: State, st': State, owner: map<int, Slot>, files: seq<seq<int>>)
    requires Inv(c, st, owner, files)
    requires st'.bitmap == st.bitmap && st'.disk == st.disk && |st'.inodes| == |st.inodes| == |st'.dinodes|
    requires forall i | 0 <= i < |st.inodes| :: st'.inodes[i].addrs == st.inodes[i].addrs
    ensures Inv(c, st', owner, files)
  {
    assert forall t | IsSlot(c, st, t) || IsSlot(c, st', t) ::
           IsSlot(c, st, t) && IsSlot(c, st', t) && Ref(c, st', t) == Ref(c, st, t);
    hide Ref;
    forall j | 0 <= j < |files|
      ensures Holds(c, st', j, files[j])
    {
      assert forall k: nat | k < |files[j]| :: HasByte(c, st, j, k, files[j][k]);
    }
  }

  lemma SpliceNothing(f: seq<int>, off: nat)
    requires off <= |f|
    ensures Splice(f, off, []) == f
    ensures forall src: seq<int> :: |Splice(f, off, src)| == Max(|f|, off + |src|)
  {
  }

  lemma SpliceAgain(f: seq<int>, off: nat, src: seq<int>, tot: nat, m: nat)
    requires off <= |f| && tot + m <= |src|
    ensures off + tot <= |Splice(f, off, src[..tot])|
    ensures Splice(Splice(f, off, src[..tot]), off + tot, src[tot..tot + m]) == Splice(f, off, src[..tot + m])
  {
    assert src[..tot + m] == src[..tot] + src[tot..tot + m];
  }

  /** The indirect block, once allocated, stays; so it is new at most once. */
  lemma IndGrows(c: Config, st0: State, st1: State, st2: State, i: nat)
    requires Shaped(c, st0) && Shaped(c, st1) && Shaped(c, st2) && i < |st0.inodes| == |st1.inodes| == |st2.inodes|
    requires Ref(c, st0, Ind(i)) != 0 ==> Ref(c, st1, Ind(i)) == Ref(c, st0, Ind(i))
    requires Ref(c, st1, Ind(i)) != 0 ==> Ref(c, st2, Ind(i)) == Ref(c, st1, Ind(i))
    ensures IndBlock(c, st1, i) <= IndBlock(c, st2, i)
    ensures NewInd(c, st0, st2, i) == NewInd(c, st0, st1, i) + NewInd(c, st1, st2, i)
  {
  }

  /** What the loop of writei has logged after tot bytes: at most one data block for each
      block touched, one bitmap block for each of these that may have been allocated,
      and one for the indirect block if it is new. */
  ghost predicate Accounted(c: Config, st0: State, st: State, i: nat, off: nat, tot: nat, data: set<int>, bms: set<int>)
    requires Shaped(c, st0) && Shaped(c, st) && i < |st0.inodes| && i < |st.inodes|
  {
    && st.logged <= st0.logged + data + bms + IndBlock(c, st, i)
    && (Ref(c, st0, Ind(i)) != 0 ==> Ref(c, st, Ind(i)) == Ref(c, st0, Ind(i)))
    && |data| <= Touched(off, tot)
    && |bms| <= Touched(off, tot) - (if Rem(off) != 0 && tot > 0 then 1 else 0) + NewInd(c, st0, st, i)
  }

  lemma AccountStep(c: Config, st0: State, st1: State, st2: State, i: nat, off: nat, tot: nat, m: nat,
                    data: set<int>, bms: set<int>, a: int, b: set<int>)
    requires Shaped(c, st0) && Shaped(c, st1) && Shaped(c, st2) && i < |st0.inodes| == |st1.inodes| == |st2.inodes|
    requires Accounted(c, st0, st1, i, off, tot, data, bms)
    requires m > 0 && Touched(off, tot + m) == Touched(off, tot) + 1 && (tot == 0 || Rem(off + tot) == 0)
    requires st2.logged <= st1.logged + {a} + b + IndBlock(c, st2, i)
    requires Ref(c, st1, Ind(i)) != 0 ==> Ref(c, st2, Ind(i)) == Ref(c, st1, Ind(i))
    requires |b| <= (if Rem(off + tot) != 0 then 0 else 1) + NewInd(c, st1, st2, i)
    ensures Accounted(c, st0, st2, i, off, tot + m, data + {a}, bms + b)
  {
    hide Shaped, Ref, Touched, Rem;
    IndGrows(c, st0, st1, st2, i);
    AddLogged(st0.logged, st1.logged, st2.logged, data, a, bms, b, IndBlock(c, st1, i), IndBlock(c, st2, i));
  }

  /** The loop of writei after tot bytes. */
  ghost predicate Writing(c: Config, st0: State, files0: seq<seq<int>>, st: State, owner: map<int, Slot>,
                          files: seq<seq<int>>,
                          i: nat, src: seq<int>, off: nat, tot: nat, data: set<int>, bms: set<int>) {
    && Shaped(c, st0) && Shaped(c, st) && i < |files0| == |st0.inodes| == |st.inodes| == |files|
    && off <= |files0[i]| && tot <= |src| && off + |src| <= c.MaxFile() * BSIZE
    && Inv(c, st, owner, files) && SameButAddrs(st0, st, i) && Tracks(c, st0, st)
    && (off + |src| <= |files0[i]| ==> st.inodes == st0.inodes)
    && files == files0[i := Splice(files0[i], off, src[..tot])]
    && (tot == 0 || tot == |src| || Rem(off + tot) == 0)
    && Accounted(c, st0, st, i, off, tot, data, bms)
  }

  lemma WritingStarts(c: Config, st: State, owner: map<int, Slot>, files: seq<seq<int>>, i: nat, src: seq<int>,
                      off: nat)
    requires Inv(c, st, owner, files) && i < |files| && off <= |files[i]| && off + |src| <= c.MaxFile() * BSIZE
    ensures Writing(c, st, files, st, owner, files, i, src, off, 0, {}, {})
  {
    SpliceNothing(files[i], off);
    TracksNothing(c, st);
  }

  lemma WritingDone(c: Config, st0: State, files0: seq<seq<int>>, st: State, owner: map<int, Slot>,
                    files: seq<seq<int>>,
                    i: nat, src: seq<int>, off: nat, data: set<int>, bms: set<int>)
    requires Writing(c, st0, files0, st, owner, files, i, src, off, |src|, data, bms)
    ensures SameButAddrs(st0, st, i) && Inv(c, st, owner, files) && Shaped(c, st) && Tracks(c, st0, st)
    ensures i < |files0| && (off + |src| <= |files0[i]| ==> st.inodes == st0.inodes)
    ensures off <= |files0[i]| && files == files0[i := Splice(files0[i], off, src)]
    ensures i < |st.inodes| && st.logged <= st0.logged + data + bms + IndBlock(c, st, i)
    ensures |data| <= Touched(off, |src|)
    ensures |bms| <= Touched(off, |src|) - (if Rem(off) != 0 && |src| > 0 then 1 else 0) + 1
  {
    assert src[..|src|] == src;
  }

  lemma AddLogged(l0: set<int>, l1: set<int>, l2: set<int>, data: set<int>, a: int, bms: set<int>, b: set<int>,
                  ind1: set<int>, ind2: set<int>)
    requires l1 <= l0 + data + bms + ind1 && l2 <= l1 + {a} + b + ind2 && ind1 <= ind2
    ensures l2 <= l0 + (data + {a}) + (bms + b) + ind2
    ensures |data + {a}| <= |data| + 1 && |bms + b| <= |bms| + |b|
  {
    assert |bms + b| + |bms * b| == |bms| + |b|;
  }

  lemma TouchedNext(off: nat, tot: nat, n: nat, m: int, max: nat)
    requires tot < n && m == Min(n - tot, BSIZE - Rem(off + tot)) && (tot == 0 || Rem(off + tot) == 0)
    requires off + n <= max * BSIZE
    ensures 0 < m <= BSIZE - Rem(off + tot) && tot + m <= n && (off + tot) / BSIZE < max
    ensures Touched(off, tot + m) == Touched(off, tot) + 1
    ensures tot + m == n || Rem(off + (tot + m)) == 0
  {
    if tot > 0 {
      assert (off % BSIZE + tot) % BSIZE == 0;
    }
  }

  /** When writei and readi refuse a request, with off + n computed in 32 bits. */
  predicate Refused(c: Config, size: nat, off: nat, n: nat) {
    off > size || (off + n) % UINT < off || (off + n) % UINT > c.MaxFile() * BSIZE
  }

  /** The offset inside its block. */
  function Rem(off: nat): nat {
    off % BSIZE
  }

  /** How many blocks n bytes at offset off lie in. */
  function Touched(off: nat, n: nat): nat {
    if n == 0 then 0 else (off % BSIZE + n + BSIZE - 1) / BSIZE
  }

  /** Only the addresses of inode i, the disk, the bitmap and the log may differ. */
  ghost predicate SameButAddrs(st: State, st': State, i: nat) {
    && st'.dinodes == st.dinodes && |st'.inodes| == |st.inodes| && i < |st.inodes|
    && st'.inodes == st.inodes[i := st.inodes[i].(addrs := st'.inodes[i].addrs)]
  }

  lemma PatchTracks(c: Config, st: State, owner: map<int, Slot>, files: seq<seq<int>>, i: nat, bn: nat, a: nat, o: nat,
                    src: seq<int>)
    requires Inv(c, st, owner, files) && i < |files| && bn < c.MaxFile() && a == Ref(c, st, DataSlot(c, i, bn)) != 0
    requires o + |src| <= BSIZE
    ensures a < c.size && |st.disk| == c.size && |st.disk[a]| == BSIZE && Tracks(c, st, Patch(st, a, o, src))
  {
    BitmapIsExact(c, st, owner);
    TracksData(c, st, a, Patch(st, a, o, src).disk[a]);
  }

  lemma PatchFacts(c: Config, st: State, a: nat, o: nat, src: seq<int>, i: nat, st0: State)
    requires Shaped(c, st0) && Shaped(c, st) && a < c.size && o + |src| <= BSIZE && i < |st0.inodes| == |st.inodes| &&
             SameButAddrs(st0, st, i)
    requires Shaped(c, Patch(st, a, o, src))
    ensures SameButAddrs(st0, Patch(st, a, o, src), i) && Patch(st, a, o, src).inodes == st.inodes
    ensures Patch(st, a, o, src).logged == st.logged + {a}
    ensures IndBlock(c, Patch(st, a, o, src), i) == IndBlock(c, st, i)
    ensures NewInd(c, st0, Patch(st, a, o, src), i) == NewInd(c, st0, st, i)
  {
  }

  lemma OffsetParts(off: nat)
    ensures Rem(off) == off % BSIZE && off / BSIZE * BSIZE + off % BSIZE == off
  {
  }

  lemma IndIsSlot(c: Config, st: State, i: nat)
    requires Shaped(c, st) && i < |st.inodes|
    ensures IsSlot(c, st, Ind(i))
  {
  }

  lemma InvShaped(c: Config, st: State, owner: map<int, Slot>, files: seq<seq<int>>)
    requires Inv(c, st, owner, files)
    ensures Shaped(c, st) && |st.inodes| == |files|
  {
  }

  lemma SameButAddrsTrans(st0: State, st1: State, st2: State, i: nat)
    requires SameButAddrs(st0, st1, i) && SameButAddrs(st1, st2, i)
    ensures SameButAddrs(st0, st2, i)
  {
  }

  /** The indirect block of inode i, if it has one. */
  ghost function IndBlock(c: Config, st: State, i: nat): (r: set<int>)
    requires Shaped(c, st) && i < |st.inodes|
    ensures |r| <= 1
  {
    if Ref(c, st, Ind(i)) == 0 then {} else {Ref(c, st, Ind(i))}
  }

  ghost function NewInd(c: Config, st: State, st': State, i: nat): (r: nat)
    requires Shaped(c, st) && Shaped(c, st') && i < |st.inodes| && i < |st'.inodes|
  {
    if Ref(c, st, Ind(i)) == 0 && Ref(c, st', Ind(i)) != 0 then 1 else 0
  }

  // ---------- what the invariants say outright ----------

  /** The bitmap marks exactly the metadata blocks and the blocks that some slot of some
      inode holds, and no block is held by two slots. */
  lemma BitmapIsExact(c: Config, st: State, owner: map<int, Slot>)
    requires Owned(c, st, owner)
    ensures forall b | 0 <= b < c.size ::
              st.bitmap[b] <==> b < c.meta || exists s :: IsSlot(c, st, s) && Ref(c, st, s) == b
    ensures forall s, t | IsSlot(c, st, s) && IsSlot(c, st, t) && s != t && Ref(c, st, s) != 0 ::
            Ref(c, st, s) != Ref(c, st, t)
    ensures forall s | IsSlot(c, st, s) && Ref(c, st, s) != 0 :: c.meta <= Ref(c, st, s) < c.size
  {
    hide Ref;
    forall b | 0 <= b < c.size
      ensures st.bitmap[b] <==> b < c.meta || exists s :: IsSlot(c, st, s) && Ref(c, st, s) == b
    {
      if b in owner { assert IsSlot(c, st, owner[b]) && Ref(c, st, owner[b]) == b; }
    }
    forall s, t | IsSlot(c, st, s) && IsSlot(c, st, t) && s != t && Ref(c, st, s) != 0
      ensures Ref(c, st, s) != Ref(c, st, t)
    {
      assert owner[Ref(c, st, s)] == s;
    }
  }

  /** Reading back what was written gives it, and everything else is as before. */
  lemma SpliceReadsBack(f: seq<int>, off: nat, src: seq<int>, k: nat)
    requires off <= |f| && k < |Splice(f, off, src)|
    ensures |Splice(f, off, src)| == Max(|f|, off + |src|)
    ensures Splice(f, off, src)[off..off + |src|] == src
    ensures k < off || k >= off + |src| ==> k < |f| && Splice(f, off, src)[k] == f[k]
  {
  }
}
