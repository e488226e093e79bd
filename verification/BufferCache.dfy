/** The buffer cache of bio.c: a fixed set of buffers on a circular doubly linked
    list kept in order of last release.  Every section that bio.c runs under
    bcache.lock, and every step that it takes while holding one buffer's sleep-lock,
    is one method here; a run of the cache is any sequence of them. */
module BufferCache {
  import opened Storage

  datatype Buf = Buf(key: Key, valid: bool, dirty: bool, refcnt: nat, locked: bool, data: Block)

  // ---------- the circular doubly linked list ----------

  /** The p-th node of the ring; one step off either end is the head. */
  function At(nodes: seq<nat>, head: nat, p: int): nat {
    if 0 <= p < |nodes| then nodes[p] else head
  }

  /** The next and prev pointers run through exactly `nodes`, in order, starting and
      ending at the head. */
  ghost predicate Ring(next: seq<nat>, prev: seq<nat>, nodes: seq<nat>, head: nat) {
    && head < |next| == |prev|
    && (forall p | 0 <= p < |nodes| :: nodes[p] < |next| && nodes[p] != head)
    && (forall p, q | 0 <= p < q < |nodes| :: nodes[p] != nodes[q])
    && (forall p | -1 <= p < |nodes| :: next[At(nodes, head, p)] == At(nodes, head, p + 1))
    && (forall p | 0 <= p <= |nodes| :: prev[At(nodes, head, p)] == At(nodes, head, p - 1))
  }

  function Without(nodes: seq<nat>, p: nat): (r: seq<nat>)
    requires p < |nodes|
  {
    nodes[..p] + nodes[p + 1..]
  }

  /** b->next->prev = b->prev; b->prev->next = b->next */
  lemma Unlink(next: seq<nat>, prev: seq<nat>, nodes: seq<nat>, head: nat, p: nat)
    requires Ring(next, prev, nodes, head) && p < |nodes|
    ensures next[nodes[p]] < |prev| && prev[nodes[p]] < |next| && next[nodes[p]] != nodes[p]
    ensures Ring(next[prev[nodes[p]] := next[nodes[p]]], prev[next[nodes[p]] := prev[nodes[p]]],
                 Without(nodes, p), head)
  {
    var b, r := nodes[p], Without(nodes, p);
    assert next[At(nodes, head, p)] == At(nodes, head, p + 1);
    assert prev[At(nodes, head, p)] == At(nodes, head, p - 1);
    forall q | -1 <= q < |r|
      ensures next[prev[b] := next[b]][At(r, head, q)] == At(r, head, q + 1)
    {
      UnlinkNext(next, prev, nodes, head, p, q);
    }
    forall q | 0 <= q <= |r|
      ensures prev[next[b] := prev[b]][At(r, head, q)] == At(r, head, q - 1)
    {
      UnlinkPrev(next, prev, nodes, head, p, q);
    }
  }

  lemma UnlinkNext(next: seq<nat>, prev: seq<nat>, nodes: seq<nat>, head: nat, p: nat, q: int)
    requires Ring(next, prev, nodes, head) && p < |nodes| && -1 <= q < |nodes| - 1
    ensures prev[nodes[p]] < |next| && At(Without(nodes, p), head, q) < |next|
    ensures next[prev[nodes[p]] := next[nodes[p]]][At(Without(nodes, p), head, q)] == At(Without(nodes, p), head, q + 1)
  {
    var s := if q < p then q else q + 1;
    assert next[At(nodes, head, p)] == At(nodes, head, p + 1);
    assert prev[At(nodes, head, p)] == At(nodes, head, p - 1);
    assert At(Without(nodes, p), head, q) == At(nodes, head, s);
    assert next[At(nodes, head, s)] == At(nodes, head, s + 1);
  }

  lemma UnlinkPrev(next: seq<nat>, prev: seq<nat>, nodes: seq<nat>, head: nat, p: nat, q: int)
    requires Ring(next, prev, nodes, head) && p < |nodes| && 0 <= q <= |nodes| - 1
    ensures next[nodes[p]] < |prev| && At(Without(nodes, p), head, q) < |prev|
    ensures prev[next[nodes[p]] := prev[nodes[p]]][At(Without(nodes, p), head, q)] == At(Without(nodes, p), head, q - 1)
  {
    var s := if q < p then q else q + 1;
    assert next[At(nodes, head, p)] == At(nodes, head, p + 1);
    assert prev[At(nodes, head, p)] == At(nodes, head, p - 1);
    assert At(Without(nodes, p), head, q) == At(nodes, head, s);
    assert prev[At(nodes, head, s)] == At(nodes, head, s - 1);
  }

  /** b->next = head.next; b->prev = &head; head.next->prev = b; head.next = b */
  lemma LinkFront(next: seq<nat>, prev: seq<nat>, nodes: seq<nat>, head: nat, b: nat)
    requires Ring(next, prev, nodes, head) && b < |next| && b != head && b !in nodes
    ensures next[head] < |prev| && next[head] != b
    ensures Ring(next[b := next[head]][head := b], prev[b := head][next[head] := b],
                 [b] + nodes, head)
  {
    var r := [b] + nodes;
    var next' := next[b := next[head]][head := b];
    assert next[At(nodes, head, -1)] == At(nodes, head, 0);
    var prev' := prev[b := head][next[head] := b];
    forall q | -1 <= q < |r|
      ensures next'[At(r, head, q)] == At(r, head, q + 1)
    {
      if q >= 1 {
        assert next[At(nodes, head, q - 1)] == At(nodes, head, q);
      }
    }
    forall q | 0 <= q <= |r|
      ensures prev'[At(r, head, q)] == At(r, head, q - 1)
    {
      if q >= 1 {
        assert prev[At(nodes, head, q - 1)] == At(nodes, head, q - 2);
      }
    }
  }

  // ---------- what the cache maintains ----------

  /** The key that every buffer carries before its first use. */
  const FRESH := Key(0, 0)

  /** At most one buffer holds a block, unless it is the all-zero key. */
  ghost predicate Unique(bufs: seq<Buf>) {
    forall i, j | 0 <= i < j < |bufs| && bufs[i].key == bufs[j].key :: bufs[i].key == FRESH
  }

  ghost predicate AtMostOne(bufs: seq<Buf>, k: Key) {
    forall i, j | 0 <= i < j < |bufs| :: bufs[i].key != k || bufs[j].key != k
  }

  /** An unlocked valid buffer shows the last value stored, and a block whose last
      stored value has not reached the device is held by a dirty buffer. */
  ghost predicate Coherent(bufs: seq<Buf>, disk: Disk, stored: Disk) {
    && stored.Keys == disk.Keys
    && (forall i | 0 <= i < |bufs| :: Sane(bufs[i], disk, stored))
    && (forall k | k in disk && k != FRESH && stored[k] != disk[k] :: Pinned(bufs, k))
  }

  ghost predicate Sane(b: Buf, disk: Disk, stored: Disk) {
    && (b.locked ==> b.refcnt > 0)
    && (b.dirty ==> b.valid)
    && (b.valid ==> b.key in disk)
    && (b.valid && !b.locked && b.key != FRESH ==> b.key in stored && b.data == stored[b.key])
  }

  ghost predicate Pinned(bufs: seq<Buf>, k: Key) {
    exists i :: 0 <= i < |bufs| && bufs[i].key == k && bufs[i].dirty
  }

  /** Right after binit, when every buffer carries the same key. */
  lemma AllFresh(bufs: seq<Buf>, disk: Disk)
    requires forall i | 0 <= i < |bufs| :: bufs[i] == Buf(FRESH, false, false, 0, false, [])
    ensures Unique(bufs) && Coherent(bufs, disk, disk)
    ensures forall k :: AtMostOne(bufs, k) <==> k != FRESH || |bufs| < 2
  {
    assert |bufs| >= 2 ==> bufs[0].key == bufs[1].key == FRESH;
  }

  /** Changing one buffer keeps the cache coherent if it loses no pinned contents. */
  lemma CoherentUpdate(bufs: seq<Buf>, disk: Disk, stored: Disk, i: nat, b: Buf)
    requires Coherent(bufs, disk, stored) && i < |bufs|
    requires Sane(b, disk, stored)
    requires bufs[i].dirty ==> b.dirty && b.key == bufs[i].key
    ensures Coherent(bufs[i := b], disk, stored)
  {
    forall k | k in disk && k != FRESH && stored[k] != disk[k]
      ensures Pinned(bufs[i := b], k)
    {
      assert Pinned(bufs, k);
      var j :| 0 <= j < |bufs| && bufs[j].key == k && bufs[j].dirty;
      assert bufs[i := b][j].key == k && bufs[i := b][j].dirty;
    }
  }

  lemma Freed(bufs: seq<Buf>, disk: Disk, stored: Disk, i: nat)
    requires Coherent(bufs, disk, stored) && Unique(bufs) && i < |bufs| && !bufs[i].locked
    ensures var bufs' := bufs[i := bufs[i].(refcnt := 0)]; Coherent(bufs', disk, stored) && Unique(bufs')
  {
    CoherentUpdate(bufs, disk, stored, i, bufs[i].(refcnt := 0));
  }

  predicate Recyclable(b: Buf) {
    b.refcnt == 0 && !b.dirty
  }

  /** b' is b after bread has found it for `key`, or has taken it over. */
  predicate Taken(b: Buf, b': Buf, key: Key) {
    && b'.key == key && b'.valid && b'.locked
    && if b.key == key then b'.refcnt == b.refcnt + 1 && b'.dirty == b.dirty && !b.locked
       else Recyclable(b) && b'.refcnt == 1 && !b'.dirty
  }

  /** Someone has the lock of a buffer for the block. */
  ghost predicate Held(bufs: seq<Buf>, key: Key) {
    exists j :: 0 <= j < |bufs| && bufs[j].key == key && bufs[j].locked
  }

  /** Unreferenced buffers stand on the list in order of the time at which their
      reference count last reached zero, the latest first. */
  ghost predicate Aged(bufs: seq<Buf>, lru: seq<nat>, freedAt: seq<int>, clock: int)
    requires |lru| == |bufs| == |freedAt|
    requires forall p | 0 <= p < |lru| :: lru[p] < |bufs|
  {
    && (forall i | 0 <= i < |freedAt| :: freedAt[i] < clock)
    && (forall p, q | 0 <= p < q < |lru| && bufs[lru[p]].refcnt == 0 && bufs[lru[q]].refcnt == 0 ::
          freedAt[lru[p]] > freedAt[lru[q]])
  }

  /** Storing new contents for buffer i's block, pinned or written through. */
  lemma CoherentStore(bufs: seq<Buf>, disk: Disk, stored: Disk, i: nat, b: Buf, disk': Disk, stored': Disk)
    requires Coherent(bufs, disk, stored) && Unique(bufs) && i < |bufs|
    requires b.key == bufs[i].key && b.key != FRESH && b.key in disk && b.valid && b.locked && b.refcnt > 0
    requires stored' == stored[b.key := b.data]
    requires (disk' == disk && b.dirty) || disk' == disk[b.key := b.data]
    ensures Coherent(bufs[i := b], disk', stored')
  {
    var bufs' := bufs[i := b];
    forall k | k in disk' && k != FRESH && stored'[k] != disk'[k]
      ensures Pinned(bufs', k)
    {
      if k == b.key {
        assert bufs'[i].key == k && bufs'[i].dirty;
      } else {
        assert Pinned(bufs, k);
        var j :| 0 <= j < |bufs| && bufs[j].key == k && bufs[j].dirty;
        assert bufs'[j].key == k && bufs'[j].dirty;
      }
    }
    forall j | 0 <= j < |bufs'|
      ensures Sane(bufs'[j], disk', stored')
    {
      assert Sane(bufs[j], disk, stored);
    }
  }

  lemma FrontCovers(lru: seq<nat>, p: nat, lru': seq<nat>, n: nat)
    requires p < |lru| && lru' == [lru[p]] + Without(lru, p)
    requires forall b: nat | b < n :: b in lru
    ensures forall b: nat | b < n :: b in lru'
  {
    forall b: nat | b < n
      ensures b in lru'
    {
      assert b in lru;
      var q :| 0 <= q < |lru| && lru[q] == b;
      assert lru'[if q == p then 0 else if q < p then q + 1 else q] == b;
    }
  }

  lemma FrontIsYoungest(bufs: seq<Buf>, lru: seq<nat>, freedAt: seq<int>, clock: int, p: nat,
                        bufs': seq<Buf>, lru': seq<nat>)
    requires |lru| == |bufs| == |freedAt| && p < |lru| && (forall q | 0 <= q < |lru| :: lru[q] < |bufs|)
    requires forall q, r | 0 <= q < r < |lru| :: lru[q] != lru[r]
    requires Aged(bufs, lru, freedAt, clock)
    requires lru' == [lru[p]] + Without(lru, p)
    requires |bufs'| == |bufs| && forall j | 0 <= j < |bufs| && j != lru[p] :: bufs'[j] == bufs[j]
    ensures Aged(bufs', lru', freedAt[lru[p] := clock], clock + 1)
  {
    var freedAt' := freedAt[lru[p] := clock];
    forall q, r | 0 <= q < r < |lru'| && bufs'[lru'[q]].refcnt == 0 && bufs'[lru'[r]].refcnt == 0
      ensures freedAt'[lru'[q]] > freedAt'[lru'[r]]
    {
      var r' := if r <= p then r - 1 else r;
      assert lru'[r] == lru[r'] != lru[p];
      if q > 0 {
        var q' := if q <= p then q - 1 else q;
        assert lru'[q] == lru[q'] != lru[p];
      }
    }
  }

  class Cache {
    const nbuf: nat
    var bufs: seq<Buf>
    var next: seq<nat>
    var prev: seq<nat>
    var disk: Disk
    ghost var stored: Disk        // last value stored through log_write or bwrite
    ghost var lru: seq<nat>       // the list, from head.next to head.prev
    ghost var freedAt: seq<int>   // when each buffer's refcnt last reached 0
    ghost var clock: int

    ghost predicate Valid()
      reads this
    {
      && |bufs| == |lru| == |freedAt| == nbuf
      && |next| == nbuf + 1
      && Ring(next, prev, lru, nbuf)
      && (forall b: nat | b < nbuf :: b in lru)
      && Unique(bufs)
      && Coherent(bufs, disk, stored)
      && Aged(bufs, lru, freedAt, clock)
    }

    ghost function View(): (s: Store)
      reads this
    {
      Store(disk, stored)
    }

    /** binit: every buffer is linked at the front, in turn. */
    constructor (nbuf: nat, disk: Disk)
      ensures Valid() && this.nbuf == nbuf && this.disk == disk
      ensures View() == Store(disk, disk)
      ensures forall i | 0 <= i < nbuf :: bufs[i] == Buf(FRESH, false, false, 0, false, [])
      ensures lru == seq(nbuf, p requires 0 <= p < nbuf => nbuf - 1 - p)
      ensures forall k :: AtMostOne(bufs, k) <==> k != FRESH || nbuf < 2
    {
      this.nbuf, this.disk, this.stored := nbuf, disk, disk;
      bufs := seq(nbuf, _ => Buf(FRESH, false, false, 0, false, []));
      next := seq(nbuf + 1, _ => nbuf);
      prev := seq(nbuf + 1, _ => nbuf);
      lru, clock := [], nbuf;
      freedAt := seq(nbuf, i => i);
      new;
      for b := 0 to nbuf
        invariant |next| == nbuf + 1 && Ring(next, prev, lru, nbuf)
        invariant lru == seq(b, p requires 0 <= p < b => b - 1 - p)
        invariant this.disk == this.stored == disk && clock == nbuf
        invariant bufs == seq(nbuf, _ => Buf(FRESH, false, false, 0, false, []))
        invariant freedAt == seq(nbuf, i => i)
      {
        Insert(b);
      }
      forall b: nat | b < nbuf
        ensures b in lru
      {
        assert lru[nbuf - 1 - b] == b;
      }
      AllFresh(bufs, disk);
      hide Unique, AtMostOne, Coherent;
    }

    /** Whatever the cache has been through, at most one buffer holds a block; only the
        key that every buffer starts with is not covered. */
    lemma OneBufferPerBlock(k: Key)
      requires Valid() && k != FRESH
      ensures AtMostOne(bufs, k)
    {
      forall i, j | 0 <= i < j < nbuf
        ensures bufs[i].key != k || bufs[j].key != k
      {
        assert bufs[i].key == bufs[j].key ==> bufs[i].key == FRESH;
      }
    }

    /** bget, the part under bcache.lock: a hit takes another reference; a miss takes
        over the clean unreferenced buffer that has been unreferenced longest; -1
        stands for the panic when there is none. */
    method Bget(key: Key) returns (i: int)
      requires Valid()
      modifies this`bufs
      ensures Valid() && View() == old(View())
      ensures i == -1 <==> (forall j | 0 <= j < nbuf :: old(bufs)[j].key != key && !Recyclable(old(bufs)[j]))
      ensures i == -1 ==> bufs == old(bufs)
      ensures i != -1 ==> 0 <= i < nbuf && bufs[i].key == key
      ensures i != -1 && old(bufs)[i].key == key ==>
                bufs == old(bufs)[i := old(bufs)[i].(refcnt := old(bufs)[i].refcnt + 1)]
      ensures i != -1 && old(bufs)[i].key != key ==>
                && (forall j | 0 <= j < nbuf :: old(bufs)[j].key != key)
                && Recyclable(old(bufs)[i])
                && (forall j | 0 <= j < nbuf && Recyclable(old(bufs)[j]) && j != i :: freedAt[i] < freedAt[j])
                && bufs == old(bufs)[i := Buf(key, false, false, 1, false, old(bufs)[i].data)]
    {
      i := FindCached(key);
      if i != -1 {
        bufs := bufs[i := bufs[i].(refcnt := bufs[i].refcnt + 1)];
        CoherentUpdate(old(bufs), disk, stored, i, bufs[i]);
        return;
      }
      i := FindVictim();
      if i != -1 {
        bufs := bufs[i := Buf(key, false, false, 1, bufs[i].locked, bufs[i].data)];
        CoherentUpdate(old(bufs), disk, stored, i, bufs[i]);
      }
    }

    /** The first loop of bget, from head.next. */
    method FindCached(key: Key) returns (i: int)
      requires Valid()
      ensures i == -1 ==> forall j | 0 <= j < nbuf :: bufs[j].key != key
      ensures i != -1 ==> 0 <= i < nbuf && bufs[i].key == key
    {
      var b := next[nbuf];
      ghost var pos := 0;
      assert next[At(lru, nbuf, -1)] == At(lru, nbuf, 0);
      while b != nbuf
        invariant 0 <= pos <= nbuf && b == At(lru, nbuf, pos)
        invariant forall q | 0 <= q < pos :: bufs[lru[q]].key != key
        decreases nbuf - pos
      {
        if bufs[b].key == key {
          return b;
        }
        assert next[At(lru, nbuf, pos)] == At(lru, nbuf, pos + 1);
        b, pos := next[b], pos + 1;
      }
      forall j: nat | j < nbuf
        ensures bufs[j].key != key
      {
        assert j in lru;
      }
      return -1;
    }

    /** The second loop of bget, from head.prev. */
    method FindVictim() returns (i: int)
      requires Valid()
      ensures i == -1 ==> forall j | 0 <= j < nbuf :: !Recyclable(bufs[j])
      ensures i != -1 ==> 0 <= i < nbuf && Recyclable(bufs[i])
      ensures i != -1 ==> forall j | 0 <= j < nbuf && Recyclable(bufs[j]) && j != i :: freedAt[i] < freedAt[j]
    {
      var b := prev[nbuf];
      ghost var pos := nbuf - 1;
      assert prev[At(lru, nbuf, nbuf)] == At(lru, nbuf, nbuf - 1);
      while b != nbuf
        invariant -1 <= pos < nbuf && b == At(lru, nbuf, pos)
        invariant forall q | pos < q < nbuf :: !Recyclable(bufs[lru[q]])
        decreases pos
      {
        if bufs[b].refcnt == 0 && !bufs[b].dirty {
          forall j: nat | j < nbuf && Recyclable(bufs[j]) && j != b
            ensures freedAt[b] < freedAt[j]
          {
            assert j in lru;
            var q :| 0 <= q < nbuf && lru[q] == j;
            assert q < pos;
          }
          return b;
        }
        assert prev[At(lru, nbuf, pos)] == At(lru, nbuf, pos - 1);
        b, pos := prev[b], pos - 1;
      }
      forall j: nat | j < nbuf
        ensures !Recyclable(bufs[j])
      {
        assert j in lru;
      }
      return -1;
    }

    /** bread: -1 stands for a panic, of bget or of the disk driver.  If another holder has the
        lock of the block's buffer, the caller is left with its reference and sleeps. */
    method Bread(key: Key) returns (i: int, got: bool)
      requires Valid()
      modifies this`bufs
      ensures Valid() && View() == old(View())
      ensures !Held(old(bufs), key) ==> got
      ensures !Held(old(bufs), key) ==>
              (i == -1 <==>
               key !in disk || forall j | 0 <= j < nbuf :: old(bufs)[j].key != key && !Recyclable(old(bufs)[j]))
      ensures Held(old(bufs), key) && key != FRESH ==> !got
      ensures !got ==> 0 <= i < nbuf && old(bufs)[i].key == key && old(bufs)[i].locked &&
                       bufs == old(bufs)[i := old(bufs)[i].(refcnt := old(bufs)[i].refcnt + 1)]
      ensures got && i != -1 ==> 0 <= i < nbuf && Taken(old(bufs)[i], bufs[i], key)
      ensures got && i != -1 && key != FRESH ==> key in stored && bufs[i].data == stored[key]
      ensures got && i != -1 ==> forall j | 0 <= j < nbuf && j != i :: bufs[j] == old(bufs)[j]
    {
      got := true;
      i := Bget(key);
      if i != -1 {
        got := Lock(i);
        if got {
          var ok := Fill(i);
          if !ok {
            i := -1;
          }
        }
      }
    }

    /** brelse */
    method Brelse(i: nat)
      requires Valid() && i < nbuf && bufs[i].locked
      requires bufs[i].valid && bufs[i].key != FRESH ==> bufs[i].key in stored && bufs[i].data == stored[bufs[i].key]
      modifies this`bufs, this`next, this`prev, this`lru, this`freedAt, this`clock
      ensures Valid() && View() == old(View())
      ensures bufs == old(bufs)[i := old(bufs)[i].(locked := false, refcnt := old(bufs)[i].refcnt - 1)]
    {
      Unlock(i);
      Put(i);
    }

    /** acquiresleep on the buffer, up to its first sleep. */
    method Lock(i: nat) returns (got: bool)
      requires Valid() && i < nbuf && bufs[i].refcnt > 0
      modifies this`bufs
      ensures Valid() && View() == old(View()) && got == !old(bufs)[i].locked
      ensures bufs == old(bufs)[i := old(bufs)[i].(locked := true)]
    {
      got := !bufs[i].locked;
      if !got {
        return;
      }
      bufs := bufs[i := bufs[i].(locked := true)];
      CoherentUpdate(old(bufs), disk, stored, i, bufs[i]);
    }

    /** The part of bread after bget: read the block unless the buffer is valid.
        `ok` is false where the disk driver panics on a block that does not exist. */
    method Fill(i: nat) returns (ok: bool)
      requires Valid() && i < nbuf && bufs[i].locked
      requires bufs[i].valid && bufs[i].key != FRESH ==> bufs[i].key in stored && bufs[i].data == stored[bufs[i].key]
      modifies this`bufs
      ensures Valid() && View() == old(View())
      ensures ok <==> old(bufs)[i].valid || old(bufs)[i].key in disk
      ensures !ok ==> bufs == old(bufs)
      ensures ok ==> bufs == old(bufs)[i := old(bufs)[i].(valid := true, data := bufs[i].data)]
      ensures ok && bufs[i].key != FRESH ==> bufs[i].key in stored && bufs[i].data == stored[bufs[i].key]
    {
      if !bufs[i].valid {
        if bufs[i].key !in disk {
          return false;
        }
        bufs := bufs[i := bufs[i].(valid := true, data := disk[bufs[i].key])];
        CoherentUpdate(old(bufs), disk, stored, i, bufs[i]);
      }
      return true;
    }

    /** The holder changes the contents of the buffer in memory. */
    method SetData(i: nat, data: Block)
      requires Valid() && i < nbuf && bufs[i].locked
      modifies this`bufs
      ensures Valid() && View() == old(View())
      ensures bufs == old(bufs)[i := old(bufs)[i].(data := data)]
    {
      bufs := bufs[i := bufs[i].(data := data)];
      CoherentUpdate(old(bufs), disk, stored, i, bufs[i]);
    }

    /** What log_write does to the buffer: B_DIRTY, so that it is not recycled. */
    method MarkDirty(i: nat)
      requires Valid() && i < nbuf && bufs[i].locked && bufs[i].valid && bufs[i].key != FRESH
      modifies this`bufs, this`stored
      ensures Valid() && View() == old(View()).Pin(bufs[i].key, bufs[i].data)
      ensures bufs == old(bufs)[i := old(bufs)[i].(dirty := true)]
    {
      bufs := bufs[i := bufs[i].(dirty := true)];
      stored := stored[bufs[i].key := bufs[i].data];
      CoherentStore(old(bufs), disk, old(stored), i, bufs[i], disk, stored);
    }

    /** bwrite with the disk driver's iderw: the contents reach the device. */
    method Bwrite(i: nat)
      requires Valid() && i < nbuf && bufs[i].locked && bufs[i].key != FRESH && bufs[i].key in disk
      modifies this`bufs, this`disk, this`stored
      ensures Valid() && View() == old(View()).Write(bufs[i].key, bufs[i].data)
      ensures bufs == old(bufs)[i := old(bufs)[i].(dirty := false, valid := true)]
    {
      disk := disk[bufs[i].key := bufs[i].data];
      stored := stored[bufs[i].key := bufs[i].data];
      bufs := bufs[i := bufs[i].(dirty := false, valid := true)];
      CoherentStore(old(bufs), old(disk), old(stored), i, bufs[i], disk, stored);
    }

    /** releasesleep: the holder must have stored what it changed. */
    method Unlock(i: nat)
      requires Valid() && i < nbuf && bufs[i].locked
      requires bufs[i].valid && bufs[i].key != FRESH ==> bufs[i].key in stored && bufs[i].data == stored[bufs[i].key]
      modifies this`bufs
      ensures Valid() && View() == old(View())
      ensures bufs == old(bufs)[i := old(bufs)[i].(locked := false)]
    {
      bufs := bufs[i := bufs[i].(locked := false)];
      CoherentUpdate(old(bufs), disk, stored, i, bufs[i]);
    }

    /** brelse, the part under bcache.lock: drop a reference; the last one moves the
        buffer to the front of the list. */
    method Put(i: nat)
      requires Valid() && i < nbuf && bufs[i].refcnt > 0
      requires bufs[i].refcnt == 1 ==> !bufs[i].locked
      modifies this`bufs, this`next, this`prev, this`lru, this`freedAt, this`clock
      ensures Valid() && View() == old(View())
      ensures bufs == old(bufs)[i := old(bufs)[i].(refcnt := old(bufs)[i].refcnt - 1)]
      ensures bufs[i].refcnt > 0 ==> lru == old(lru)
      ensures bufs[i].refcnt == 0 ==>
                exists p :: 0 <= p < nbuf && old(lru)[p] == i && lru == [i] + Without(old(lru), p)
    {
      if bufs[i].refcnt == 1 {
        PutLast(i);
      } else {
        bufs := bufs[i := bufs[i].(refcnt := bufs[i].refcnt - 1)];
        CoherentUpdate(old(bufs), disk, stored, i, bufs[i]);
      }
    }

    method PutLast(i: nat)
      requires Valid() && i < nbuf && bufs[i].refcnt == 1 && !bufs[i].locked
      modifies this`bufs, this`next, this`prev, this`lru, this`freedAt, this`clock
      ensures Valid() && View() == old(View())
      ensures bufs == old(bufs)[i := old(bufs)[i].(refcnt := 0)]
      ensures exists p :: 0 <= p < nbuf && old(lru)[p] == i && lru == [i] + Without(old(lru), p)
    {
      hide Coherent, Unique, Aged;
      Freed(bufs, disk, stored, i);
      bufs := bufs[i := bufs[i].(refcnt := 0)];
      ghost var p := MoveToFront(i);
      FrontIsYoungest(old(bufs), old(lru), old(freedAt), old(clock), p, bufs, lru);
      freedAt, clock := freedAt[i := clock], clock + 1;
    }

    /** The six pointer assignments of brelse. */
    method MoveToFront(i: nat) returns (ghost p: nat)
      requires Ring(next, prev, lru, nbuf) && i < nbuf && forall b: nat | b < nbuf :: b in lru
      modifies this`next, this`prev, this`lru
      ensures Ring(next, prev, lru, nbuf) && |next| == old(|next|) && |lru| == old(|lru|)
      ensures forall b: nat | b < nbuf :: b in lru
      ensures p < |lru| && old(lru)[p] == i && lru == [i] + Without(old(lru), p)
    {
      assert i in lru;
      p :| 0 <= p < |lru| && lru[p] == i;
      FrontCovers(lru, p, [i] + Without(lru, p), nbuf);
      Unlink(next, prev, lru, nbuf, p);
      prev := prev[next[i] := prev[i]];
      next := next[prev[i] := next[i]];
      lru := Without(lru, p);
      Insert(i);
    }

    /** Link buffer i in behind the head. */
    method Insert(i: nat)
      requires Ring(next, prev, lru, nbuf) && i < nbuf && i !in lru
      modifies this`next, this`prev, this`lru
      ensures Ring(next, prev, lru, nbuf) && |next| == old(|next|) && lru == [i] + old(lru)
    {
      LinkFront(next, prev, lru, nbuf, i);
      hide Ring;
      var first := next[nbuf];
      next := next[i := first];
      prev := prev[i := nbuf];
      prev := prev[first := i];
      next := next[nbuf := i];
      lru := [i] + lru;
    }
  }
}
