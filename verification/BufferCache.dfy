/** The buffer cache of kern/bio.c with the flag transitions of kern/dev.c.

Buffers are named by their index in bcache.buf; `order` is the clink list, front first.  The device is
the disk image, written one block at a time; `writes` is the history of those writes.
*/
module BufferCache {
  import opened Common
  import opened RedoLog

  const NBUF := MAXOPBLOCKS * 3

  /** B_BUSY, B_VALID and B_DIRTY with the block the buffer stands for. */
  datatype Buf = Buf(busy: bool, valid: bool, dirty: bool, addr: Addr, data: Block)

  /** What a call that may block ends in: a result, a sleep on a busy buffer, or a kernel panic. */
  datatype Got = Held(id: nat) | Sleeps | Panics

  /** binit leaves every buffer at (0,0), so only other addresses are unique. */
  const NOWHERE := Addr(0, 0)

  /** Two buffers never stand for the same block. */
  predicate Unique(bufs: seq<Buf>) {
    forall i, j | 0 <= i < j < |bufs| :: bufs[i].addr == bufs[j].addr ==> bufs[i].addr == NOWHERE
  }

  /** A buffer that nobody holds and that is not pinned agrees with the disk. */
  predicate Clean(b: Buf, disk: Image) {
    b.valid && !b.busy && !b.dirty && b.addr != NOWHERE ==> b.addr in disk && b.data == disk[b.addr]
  }

  predicate Coherent(bufs: seq<Buf>, disk: Image) {
    && (forall i | 0 <= i < |bufs| :: Clean(bufs[i], disk))
    && (forall i | 0 <= i < |bufs| :: bufs[i].dirty ==> bufs[i].valid)
    && (forall i | 0 <= i < |bufs| :: bufs[i].valid ==> bufs[i].addr in disk)
  }

  /** The buffer that stands for block a, if any. */
  ghost function Find(bufs: seq<Buf>, a: Addr): (r: Option<nat>)
    ensures r.Some? ==> r.value < |bufs| && bufs[r.value].addr == a
    ensures r.None? ==> forall i | 0 <= i < |bufs| :: bufs[i].addr != a
  {
    if i: nat :| i < |bufs| && bufs[i].addr == a then Some(i) else None
  }

  /** The logical contents of block a: the buffer if it is valid, else the disk. */
  ghost function View(bufs: seq<Buf>, disk: Image, a: Addr): (r: Block)
    requires a in disk
  {
    var f := Find(bufs, a);
    if f.Some? && bufs[f.value].valid then bufs[f.value].data else disk[a]
  }

  /** The logical contents of every block: what clients read. */
  ghost function Logical(bufs: seq<Buf>, disk: Image): (r: Image) {
    map a | a in disk && a != NOWHERE :: View(bufs, disk, a)
  }

  /** The pinned blocks. */
  ghost function DirtySet(bufs: seq<Buf>): (r: set<Addr>) {
    set i | 0 <= i < |bufs| && bufs[i].dirty :: bufs[i].addr
  }

  lemma FindUnique(bufs: seq<Buf>, i: nat)
    requires Unique(bufs) && i < |bufs| && bufs[i].addr != NOWHERE
    ensures Find(bufs, bufs[i].addr) == Some(i)
  {
  }

  /** Replacing buffer i by one for another or the same block moves the view of those blocks only. */
  lemma ViewUpdate(bufs: seq<Buf>, disk: Image, i: nat, b: Buf, a: Addr)
    requires Unique(bufs) && i < |bufs| && Unique(bufs[i := b])
    requires a in disk && a != NOWHERE && a != b.addr && a != bufs[i].addr
    ensures View(bufs[i := b], disk, a) == View(bufs, disk, a)
  {
    var f, g := Find(bufs, a), Find(bufs[i := b], a);
    if f.Some? {
      assert bufs[i := b][f.value].addr == a;
      FindUnique(bufs[i := b], f.value);
    }
    if g.Some? {
      assert bufs[g.value].addr == a;
    }
  }

  /** Buffer i may be handed out for block a: it already stands for a, or no buffer does and i is unused. */
  predicate Free(bufs: seq<Buf>, i: nat, a: Addr) {
    && i < |bufs| && !bufs[i].busy
    && (bufs[i].addr != a ==> !bufs[i].dirty && forall j | 0 <= j < |bufs| :: bufs[j].addr != a)
  }

  /** Buffer b after bread took it for block a. */
  function Loaded(b: Buf, disk: Image, a: Addr): (r: Buf)
    requires a in disk
  {
    if b.addr == a && b.valid then b.(busy := true) else Buf(true, true, false, a, disk[a])
  }

  lemma LoadKeepsViews(bufs: seq<Buf>, disk: Image, i: nat, a: Addr)
    requires Unique(bufs) && Coherent(bufs, disk) && a in disk && a != NOWHERE && Free(bufs, i, a)
    ensures var bufs' := bufs[i := Loaded(bufs[i], disk, a)];
      && Unique(bufs')
      && bufs'[i].data == View(bufs, disk, a)
      && Logical(bufs', disk) == Logical(bufs, disk)
      && DirtySet(bufs') == DirtySet(bufs)
  {
    var bufs' := bufs[i := Loaded(bufs[i], disk, a)];
    FindUnique(bufs', i);
    if bufs[i].addr == a { FindUnique(bufs, i); }
    forall b | b in disk && b != NOWHERE ensures View(bufs', disk, b) == View(bufs, disk, b) {
      if b != a {
        if b == bufs[i].addr {
          FindUnique(bufs, i);
          assert Find(bufs', b).None?;
        } else {
          ViewUpdate(bufs, disk, i, bufs'[i], b);
        }
      }
    }
    DirtyUpdate(bufs, i, bufs'[i]);
  }

  /** Changing buffer i in place moves the pinned set by block i only. */
  lemma DirtyUpdate(bufs: seq<Buf>, i: nat, b: Buf)
    requires i < |bufs|
    requires (Unique(bufs) && bufs[i].addr != NOWHERE) || !bufs[i].dirty
    ensures DirtySet(bufs[i := b]) ==
      (DirtySet(bufs) - if bufs[i].dirty then {bufs[i].addr} else {}) + if b.dirty then {b.addr} else {}
  {
    var bufs' := bufs[i := b];
    forall a ensures a in DirtySet(bufs') <==>
      (a in DirtySet(bufs) && !(bufs[i].dirty && a == bufs[i].addr)) || (b.dirty && a == b.addr)
    {
      if b.dirty && a == b.addr {
        assert bufs'[i].addr == a;
      } else {
        if j :| 0 <= j < |bufs| && bufs[j].dirty && bufs[j].addr == a {
          if j != i { assert bufs'[j] == bufs[j]; }
        }
        if j :| 0 <= j < |bufs'| && bufs'[j].dirty && bufs'[j].addr == a {
          assert j != i && bufs[j] == bufs'[j];
        }
      }
    }
  }

  lemma NotTwiceDirty(bufs: seq<Buf>, i: nat)
    requires Unique(bufs) && i < |bufs| && bufs[i].addr != NOWHERE && !bufs[i].dirty
    ensures bufs[i].addr !in DirtySet(bufs)
  {
  }

  /** Storing into a valid buffer, and perhaps writing it through, changes one logical block. */
  lemma StoreView(bufs: seq<Buf>, disk: Image, disk': Image, i: nat, b: Buf)
    requires Unique(bufs) && i < |bufs| && bufs[i].valid && b.valid
    requires b.addr == bufs[i].addr && b.addr != NOWHERE && b.addr in disk
    requires disk' == disk || disk' == disk[b.addr := b.data]
    ensures Unique(bufs[i := b])
    ensures Logical(bufs[i := b], disk') == Logical(bufs, disk)[b.addr := b.data]
  {
    var bufs' := bufs[i := b];
    assert Unique(bufs');
    FindUnique(bufs', i);
    forall a | a in disk && a != NOWHERE
      ensures View(bufs', disk', a) == if a == b.addr then b.data else View(bufs, disk, a)
    {
      if a != b.addr {
        ViewUpdate(bufs, disk, i, b, a);
        assert disk'[a] == disk[a];
      }
    }
  }

  /** A buffer handed out for a block that is not pinned holds what the disk holds. */
  lemma FreshLoad(bufs: seq<Buf>, disk: Image, i: nat, a: Addr)
    requires Coherent(bufs, disk) && a in disk && a != NOWHERE && Free(bufs, i, a)
    requires a !in DirtySet(bufs)
    ensures Loaded(bufs[i], disk, a) == Buf(true, true, false, a, disk[a])
  {
    assert Clean(bufs[i], disk);
  }

  /** A buffer handed out for a pinned block is the pinned buffer itself. */
  lemma PinnedLoad(bufs: seq<Buf>, disk: Image, i: nat, a: Addr)
    requires Unique(bufs) && Coherent(bufs, disk) && a in disk && a != NOWHERE && Free(bufs, i, a)
    requires a in DirtySet(bufs)
    ensures bufs[i].addr == a && bufs[i].dirty && Loaded(bufs[i], disk, a) == bufs[i].(busy := true)
  {
    var j :| 0 <= j < |bufs| && bufs[j].dirty && bufs[j].addr == a;
    assert i == j;
  }

  lemma LoadFetches(bufs: seq<Buf>, disk: Image, i: nat, a: Addr)
    requires Unique(bufs) && Coherent(bufs, disk) && a in disk && Free(bufs, i, a)
    ensures var bufs' := bufs[i := Loaded(bufs[i], disk, a)];
      && Logical(bufs', disk) == Logical(bufs, disk)
      && (a != NOWHERE ==>
            && DirtySet(bufs') == DirtySet(bufs)
            && bufs'[i].data == Logical(bufs', disk)[a]
            && (bufs'[i].dirty || bufs'[i].data == disk[a])
            && (a !in DirtySet(bufs) ==> bufs'[i].data == disk[a]))
  {
    var bufs' := bufs[i := Loaded(bufs[i], disk, a)];
    if a == NOWHERE {
      forall b | b in disk && b != NOWHERE ensures View(bufs', disk, b) == View(bufs, disk, b) {
        if b == bufs[i].addr {
          FindUnique(bufs, i);
          assert Find(bufs', b).None?;
        } else {
          ViewUpdate(bufs, disk, i, bufs'[i], b);
        }
      }
    } else {
      LoadKeepsViews(bufs, disk, i, a);
      if a in DirtySet(bufs) {
        PinnedLoad(bufs, disk, i, a);
      } else {
        FreshLoad(bufs, disk, i, a);
      }
    }
  }

  // ---------------------------------------------------------------- when bread gives no buffer

  /** Somebody holds the buffer of block a. */
  ghost predicate Locked(bufs: seq<Buf>, a: Addr) {
    exists i :: 0 <= i < |bufs| && bufs[i].addr == a && bufs[i].busy
  }

  predicate NoneBusy(bufs: seq<Buf>) {
    forall i | 0 <= i < |bufs| :: !bufs[i].busy
  }

  /** bget has nothing to recycle. */
  predicate Exhausted(bufs: seq<Buf>) {
    forall i | 0 <= i < |bufs| :: bufs[i].busy || bufs[i].dirty
  }

  predicate Cached(bufs: seq<Buf>, a: Addr) {
    exists i :: 0 <= i < |bufs| && bufs[i].addr == a
  }

  /** The same buffers are held and their holders see no change. */
  predicate SameHeld(bufs: seq<Buf>, bufs': seq<Buf>) {
    && |bufs'| == |bufs|
    && forall i | 0 <= i < |bufs| :: bufs'[i].busy == bufs[i].busy && (bufs[i].busy ==> bufs'[i] == bufs[i])
  }

  /** Nobody holds a buffer and not all are pinned: any block can be read. */
  ghost predicate Spare(bufs: seq<Buf>) {
    NoneBusy(bufs) && NOWHERE !in DirtySet(bufs) && |DirtySet(bufs)| < |bufs|
  }

  /** Any block can be read, and then b too. */
  ghost predicate Roomy(bufs: seq<Buf>, b: Addr) {
    Spare(bufs) && 1 < |bufs| && (b in DirtySet(bufs) || DirtySet(bufs) == {})
  }

  /** The pinned blocks count the pinned buffers. */
  lemma {:induction false} PinCount(bufs: seq<Buf>)
    requires Unique(bufs) && NOWHERE !in DirtySet(bufs)
    ensures |DirtySet(bufs)| <= |bufs|
    ensures |DirtySet(bufs)| == |bufs| <==> forall i | 0 <= i < |bufs| :: bufs[i].dirty
  {
    if bufs != [] {
      var front, last := bufs[..|bufs| - 1], bufs[|bufs| - 1];
      forall i | 0 <= i < |front| ensures front[i] == bufs[i] {}
      assert DirtySet(front) <= DirtySet(bufs);
      PinCount(front);
      if last.dirty {
        assert last.addr in DirtySet(bufs);
        assert last.addr !in DirtySet(front);
        assert DirtySet(bufs) == DirtySet(front) + {last.addr};
      } else {
        assert DirtySet(bufs) == DirtySet(front);
      }
    }
  }

  lemma FirstBread(bufs: seq<Buf>, a: Addr)
    requires Unique(bufs) && Spare(bufs)
    ensures !Locked(bufs, a) && !Exhausted(bufs)
  {
    PinCount(bufs);
  }

  /** What is left for block b after buffer i was taken for block a. */
  lemma SecondBread(bufs: seq<Buf>, disk: Image, i: nat, a: Addr, b: Addr)
    requires a in disk && a != b && Free(bufs, i, a)
    ensures var bufs' := bufs[i := Loaded(bufs[i], disk, a)];
      && (Locked(bufs', b) ==> Locked(bufs, b))
      && (Roomy(bufs, b) ==> !Locked(bufs', b) && (Cached(bufs', b) || !Exhausted(bufs')))
  {
    var bufs' := bufs[i := Loaded(bufs[i], disk, a)];
    assert forall j | 0 <= j < |bufs| && j != i :: bufs'[j] == bufs[j];
    if Roomy(bufs, b) {
      if b in DirtySet(bufs) {
        var j :| 0 <= j < |bufs| && bufs[j].dirty && bufs[j].addr == b;
        assert bufs'[j].addr == b;
      } else {
        var j := if i == 0 then 1 else 0;
        assert bufs[j].addr in DirtySet(bufs) || !bufs[j].dirty;
        assert !bufs'[j].busy && !bufs'[j].dirty;
      }
    }
  }

  /** Two buffers that nobody held were taken, and are free again. */
  lemma HeldApart(bufs: seq<Buf>, i: nat, j: nat, x: Buf, y: Buf, x': Buf, y': Buf)
    requires i < |bufs| && j < |bufs| && !bufs[i].busy && !bufs[j].busy && !x'.busy && !y'.busy
    ensures SameHeld(bufs, bufs[i := x][j := y][i := x'][j := y'])
    ensures SameHeld(bufs, bufs[j := y][i := x][i := x'][j := y'])
  {
  }

  /** A buffer that nobody held was taken, and is free again. */
  lemma OneApart(bufs: seq<Buf>, i: nat, x: Buf, x': Buf)
    requires i < |bufs| && !bufs[i].busy && !x'.busy
    ensures SameHeld(bufs, bufs[i := x']) && SameHeld(bufs, bufs[i := x][i := x'])
  {
  }

  lemma LockedBefore(bufs: seq<Buf>, bufs': seq<Buf>, a: Addr)
    requires SameHeld(bufs, bufs') && Locked(bufs', a)
    ensures Locked(bufs, a)
  {
  }

  // ---------------------------------------------------------------- the list of buffers

  /** The list holds every buffer once. */
  predicate Listed(order: seq<nat>) {
    && |order| == NBUF
    && (forall k | 0 <= k < NBUF :: order[k] < NBUF)
    && (forall i | 0 <= i < NBUF :: i in order)
    && NoDup(order)
  }

  /** Position k of the list is the first buffer that stands for block a. */
  predicate FirstHit(bufs: seq<Buf>, order: seq<nat>, k: nat, a: Addr)
    requires forall j | 0 <= j < |order| :: order[j] < |bufs|
  {
    k < |order| && bufs[order[k]].addr == a && forall j | 0 <= j < k :: bufs[order[j]].addr != a
  }

  /** Position k of the list is the last buffer that may be recycled. */
  predicate LastSpare(bufs: seq<Buf>, order: seq<nat>, k: nat)
    requires forall j | 0 <= j < |order| :: order[j] < |bufs|
  {
    && k < |order| && !bufs[order[k]].busy && !bufs[order[k]].dirty
    && forall j | k < j < |order| :: bufs[order[j]].busy || bufs[order[j]].dirty
  }

  /** list_drop and list_push_back of the buffer at position k. */
  function MovedBack(order: seq<nat>, k: nat): (r: seq<nat>)
    requires k < |order|
  {
    order[..k] + order[k + 1..] + [order[k]]
  }

  lemma MovedKeeps(order: seq<nat>, k: nat)
    requires k < |order| && NoDup(order)
    ensures NoDup(MovedBack(order, k)) && |MovedBack(order, k)| == |order|
    ensures forall i :: i in MovedBack(order, k) <==> i in order
    ensures forall j | 0 <= j < |order| && order[j] == order[k] :: j == k
  {
    var r := MovedBack(order, k);
    forall m | 0 <= m < |order| ensures r[m] == order[if m < k then m else if m < |order| - 1 then m + 1 else k] {}
    forall i | i in order ensures i in r {
      var m :| 0 <= m < |order| && order[m] == i;
      assert r[if m < k then m else if m == k then |order| - 1 else m - 1] == i;
    }
  }

  /** The list after the buffers 0, ..., n - 1 were released once each, in that order. */
  function Rotated(n: nat): (r: seq<nat>)
    requires n <= NBUF
  {
    seq(NBUF, i requires 0 <= i => if i + n < NBUF then i + n else i + n - NBUF)
  }

  /** Letting go of a buffer changes no view. */
  lemma ReleaseKeeps(bufs: seq<Buf>, disk: Image, i: nat)
    requires Unique(bufs) && Coherent(bufs, disk) && i < |bufs| && bufs[i].valid && bufs[i].addr in disk
    requires bufs[i].dirty || bufs[i].addr == NOWHERE || bufs[i].data == disk[bufs[i].addr]
    ensures var bufs' := bufs[i := bufs[i].(busy := false)];
      && Unique(bufs') && Coherent(bufs', disk)
      && (bufs[i].addr != NOWHERE ==> Logical(bufs', disk) == Logical(bufs, disk) && DirtySet(bufs') == DirtySet(bufs))
  {
    if bufs[i].addr != NOWHERE {
      StoreView(bufs, disk, disk, i, bufs[i].(busy := false));
      FindUnique(bufs, i);
      DirtyUpdate(bufs, i, bufs[i].(busy := false));
    }
  }

  class Cache {
    var bufs: seq<Buf>
    var order: seq<nat>
    var disk: Image
    ghost var writes: seq<Write>

    ghost predicate Valid()
      reads this
    {
      && |bufs| == NBUF
      && Listed(order)
      && Unique(bufs)
      && Coherent(bufs, disk)
    }

    ghost predicate Holds(i: nat, a: Addr)
      requires Valid()
      reads this
    {
      i < NBUF && bufs[i].busy && bufs[i].addr == a
    }

    /** binit. */
    constructor (image: Image)
      ensures Valid()
      ensures disk == image && writes == []
      ensures forall i | 0 <= i < NBUF :: !bufs[i].busy && !bufs[i].valid && !bufs[i].dirty && bufs[i].addr == NOWHERE
      ensures order == seq(NBUF, i => i)
    {
      bufs := seq(NBUF, _ => Buf(false, false, false, NOWHERE, seq(BLOCK_WORDS, _ => 0)));
      order := seq(NBUF, i => i);
      disk := image;
      writes := [];
      new;
      forall i | 0 <= i < NBUF ensures i in order {
        assert order[i] == i;
      }
    }

    /** The two list walks of bget.  The first buffer of the list that stands for the block is handed out
        unless it is busy; without one, the last buffer of the list that is neither busy nor dirty is
        recycled. */
    method Bget(a: Addr) returns (r: Got)
      requires Valid()
      modifies this`bufs
      ensures Valid()
      ensures r.Held? ==>
        && r.id < NBUF && !old(bufs)[r.id].busy
        && bufs == old(bufs)[r.id := if old(bufs)[r.id].addr == a
                                     then old(bufs)[r.id].(busy := true)
                                     else Buf(true, false, false, a, old(bufs)[r.id].data)]
        && (old(bufs)[r.id].addr != a ==> !old(bufs)[r.id].dirty && !Cached(old(bufs), a))
      ensures !r.Held? ==> bufs == old(bufs)
      ensures r.Sleeps? ==> Locked(bufs, a)
      ensures a != NOWHERE && Locked(old(bufs), a) ==> r.Sleeps?
      ensures r.Panics? <==> !Cached(old(bufs), a) && Exhausted(old(bufs))
      ensures forall k: nat | FirstHit(old(bufs), order, k, a) ::
        r == if old(bufs)[order[k]].busy then Sleeps else Held(order[k])
      ensures forall k: nat | LastSpare(old(bufs), order, k) && !Cached(old(bufs), a) :: r == Held(order[k])
    {
      var k := 0;
      while k < |order|
        invariant 0 <= k <= NBUF
        invariant forall j | 0 <= j < k :: bufs[order[j]].addr != a
      {
        var i := order[k];
        if bufs[i].addr == a {
          if !bufs[i].busy {
            bufs := bufs[i := bufs[i].(busy := true)];
            return Held(i);
          }
          return Sleeps;
        }
        k := k + 1;
      }
      forall i | 0 <= i < NBUF ensures bufs[i].addr != a {
        assert i in order;
      }
      k := |order|;
      while k > 0
        invariant 0 <= k <= NBUF
        invariant forall j | k <= j < NBUF :: bufs[order[j]].busy || bufs[order[j]].dirty
      {
        k := k - 1;
        var i := order[k];
        if !bufs[i].busy && !bufs[i].dirty {
          bufs := bufs[i := Buf(true, false, false, a, bufs[i].data)];
          return Held(i);
        }
      }
      forall i | 0 <= i < NBUF ensures bufs[i].busy || bufs[i].dirty {
        assert i in order;
      }
      return Panics;
    }

    /** devrw with dev_start: one block is transferred and the flags become VALID, not DIRTY.  A block
        past the end of the partition fails dev_start's assertion. */
    method Devrw(i: nat) returns (ok: bool)
      requires Valid() && i < NBUF && bufs[i].busy
      modifies this`bufs, this`disk, this`writes
      ensures Valid()
      ensures ok <==> old(bufs)[i].addr in old(disk)
      ensures !ok ==> bufs == old(bufs) && disk == old(disk) && writes == old(writes)
      ensures ok && old(bufs)[i].dirty ==>
        && bufs == old(bufs)[i := old(bufs)[i].(valid := true, dirty := false)]
        && disk == old(disk)[bufs[i].addr := bufs[i].data]
        && writes == old(writes) + [Write(bufs[i].addr, bufs[i].data)]
      ensures ok && !old(bufs)[i].dirty ==>
        && bufs == old(bufs)[i := old(bufs)[i].(valid := true, data := old(disk)[old(bufs)[i].addr])]
        && disk == old(disk) && writes == old(writes)
    {
      var b := bufs[i];
      if b.addr !in disk {
        return false;
      }
      if b.dirty {
        disk := disk[b.addr := b.data];
        writes := writes + [Write(b.addr, b.data)];
      } else {
        b := b.(data := disk[b.addr]);
      }
      bufs := bufs[i := b.(valid := true, dirty := false)];
      return true;
    }

    /** Buffer i is held for block a and has its contents. */
    ghost predicate Fetched(i: nat, a: Addr)
      reads this
    {
      && i < |bufs| && bufs[i].busy && bufs[i].valid && bufs[i].addr == a && a in disk && a != NOWHERE
      && bufs[i].data == Logical(bufs, disk)[a]
      && (bufs[i].dirty || bufs[i].data == disk[a])
      && (a !in DirtySet(bufs) ==> bufs[i].data == disk[a])
    }

    /** bread returns the latest logical contents, takes the one lock of the block, changes no view,
        writes nothing and never gives up a pinned or held buffer. */
    method Bread(a: Addr) returns (r: Got)
      requires Valid()
      modifies this`bufs, this`disk, this`writes
      ensures Valid()
      ensures disk == old(disk) && writes == old(writes)
      ensures r.Held? ==>
        && a in disk && Free(old(bufs), r.id, a)
        && bufs == old(bufs)[r.id := Loaded(old(bufs)[r.id], disk, a)]
        && (a != NOWHERE ==> Fetched(r.id, a) && DirtySet(bufs) == DirtySet(old(bufs)))
        && Logical(bufs, disk) == Logical(old(bufs), disk)
      ensures r.Sleeps? ==> bufs == old(bufs) && Locked(bufs, a)
      ensures a != NOWHERE && Locked(old(bufs), a) ==> r.Sleeps?
      ensures a in disk && r.Panics? ==> bufs == old(bufs)
      ensures a in disk ==> (r.Panics? <==> !Cached(old(bufs), a) && Exhausted(old(bufs)))
      ensures forall k: nat | a in disk && FirstHit(old(bufs), order, k, a) && !old(bufs)[order[k]].busy ::
        r == Held(order[k])
    {
      r := Bget(a);
      if r.Held? && !bufs[r.id].valid {
        var ok := Devrw(r.id);
        if !ok {
          r := Panics;
        }
      }
      if r.Held? {
        assert bufs == old(bufs)[r.id := Loaded(old(bufs)[r.id], disk, a)];
        LoadFetches(old(bufs), disk, r.id, a);
      }
    }

    /** Write the held buffer through to the disk. */
    method Bwrite(i: nat) returns (ok: bool)
      requires Valid() && i < NBUF && bufs[i].busy && bufs[i].valid
      modifies this`bufs, this`disk, this`writes
      ensures Valid()
      ensures ok
      ensures bufs == old(bufs)[i := old(bufs)[i].(valid := true, dirty := false)]
      ensures disk == old(disk)[bufs[i].addr := bufs[i].data]
      ensures writes == old(writes) + [Write(bufs[i].addr, bufs[i].data)]
      ensures bufs[i].addr != NOWHERE ==>
        && Logical(bufs, disk) == Logical(old(bufs), old(disk))
        && DirtySet(bufs) == DirtySet(old(bufs)) - {bufs[i].addr}
    {
      bufs := bufs[i := bufs[i].(dirty := true)];
      ok := Devrw(i);
      if bufs[i].addr != NOWHERE {
        StoreView(old(bufs), old(disk), disk, i, bufs[i]);
        FindUnique(old(bufs), i);
        DirtyUpdate(old(bufs), i, bufs[i]);
        if !old(bufs)[i].dirty {
          NotTwiceDirty(old(bufs), i);
        }
      }
    }

    /** A holder's change to b->data. */
    method Modify(i: nat, data: Block)
      requires Valid() && i < NBUF && bufs[i].busy
      modifies this`bufs
      ensures Valid()
      ensures bufs == old(bufs)[i := old(bufs)[i].(data := data)]
      ensures bufs[i].addr != NOWHERE && bufs[i].valid ==>
        && Logical(bufs, disk) == Logical(old(bufs), disk)[bufs[i].addr := data]
        && DirtySet(bufs) == DirtySet(old(bufs))
    {
      bufs := bufs[i := bufs[i].(data := data)];
      if bufs[i].addr != NOWHERE && bufs[i].valid {
        StoreView(old(bufs), disk, disk, i, bufs[i]);
        DirtyUpdate(old(bufs), i, bufs[i]);
      }
    }

    /** A client may let go of a buffer it changed only after log_write or bwrite.  The buffer moves to the
        end of the list, where bget looks first for one to recycle. */
    method Brelse(i: nat)
      requires Valid() && i < NBUF && bufs[i].busy && bufs[i].valid
      requires bufs[i].dirty || bufs[i].addr == NOWHERE || bufs[i].data == disk[bufs[i].addr]
      modifies this`bufs, this`order
      ensures Valid()
      ensures bufs == old(bufs)[i := old(bufs)[i].(busy := false)]
      ensures forall k | 0 <= k < NBUF && old(order)[k] == i :: order == MovedBack(old(order), k)
      ensures bufs[i].addr != NOWHERE ==>
        Logical(bufs, disk) == Logical(old(bufs), disk) && DirtySet(bufs) == DirtySet(old(bufs))
    {
      assert bufs[i].addr in disk;
      hide Unique, Coherent, NoDup, Logical, DirtySet, MovedBack;
      ReleaseKeeps(bufs, disk, i);
      assert i in order;
      var k: nat :| k < |order| && order[k] == i;
      MovedKeeps(order, k);
      order := MovedBack(order, k);
      bufs := bufs[i := bufs[i].(busy := false)];
    }

    /** Take the locks of two blocks, one after the other. */
    method BreadBoth(first: Addr, second: Addr) returns (r: Got, i: nat, j: nat)
      requires Valid() && first in disk && second in disk
      requires first != second && first != NOWHERE && second != NOWHERE
      modifies this`bufs, this`disk, this`writes
      ensures Valid() && disk == old(disk) && writes == old(writes)
      ensures r.Held? ==>
        && Fetched(i, first) && Fetched(j, second)
        && !old(bufs)[i].busy && !old(bufs)[j].busy && bufs == old(bufs)[i := bufs[i]][j := bufs[j]]
        && Logical(bufs, disk) == Logical(old(bufs), disk) && DirtySet(bufs) == DirtySet(old(bufs))
      ensures r.Sleeps? ==> Locked(old(bufs), first) || Locked(old(bufs), second)
      ensures r.Panics? ==> Exhausted(bufs)
      ensures Roomy(old(bufs), second) ==> r.Held?
      ensures !Cached(old(bufs), first) && Exhausted(old(bufs)) ==> r.Panics?
    {
      hide Unique, Coherent, Logical, DirtySet, Spare, Locked, Cached, Exhausted, NoDup;
      i, j := 0, 0;
      if Roomy(bufs, second) {
        FirstBread(bufs, first);
      }
      r := Bread(first);
      if !r.Held? { return; }
      i := r.id;
      SecondBread(old(bufs), disk, i, first, second);
      r := Bread(second);
      if !r.Held? { return; }
      j := r.id;
    }

    /** Copy one held block to another, write it through and release both. */
    method Transfer(from: nat, to: nat, src: Addr, dst: Addr)
      requires Valid() && src != dst && Fetched(from, src) && Fetched(to, dst)
      modifies this
      ensures Valid()
      ensures var b := Logical(old(bufs), old(disk))[src];
        && bufs == old(bufs)[from := old(bufs)[from].(busy := false)][to := Buf(false, true, false, dst, b)]
        && disk == old(disk)[dst := b]
        && writes == old(writes) + [Write(dst, b)]
        && Logical(bufs, disk) == Logical(old(bufs), old(disk))[dst := b]
        && DirtySet(bufs) == DirtySet(old(bufs)) - {dst}
    {
      hide Unique, Coherent, Logical, DirtySet, NoDup;
      Modify(to, bufs[from].data);
      var ok := Bwrite(to);
      Brelse(from);
      Brelse(to);
      assert bufs == old(bufs)[from := old(bufs)[from].(busy := false)][to := bufs[to]];
    }

    /** The loop body shared by write_log (destination first) and install_trans: fetch both blocks, copy,
        write the destination through, release both. */
    method CopyBlock(src: Addr, dst: Addr, dstFirst: bool) returns (r: Got)
      requires Valid() && src in disk && dst in disk
      requires src != dst && src != NOWHERE && dst != NOWHERE
      modifies this
      ensures Valid()
      ensures !r.Held? ==> disk == old(disk) && writes == old(writes)
      ensures r.Held? ==>
        var b := Logical(old(bufs), old(disk))[src];
        && disk == old(disk)[dst := b] && disk.Keys == old(disk).Keys
        && writes == old(writes) + [Write(dst, b)]
        && Logical(bufs, disk) == Logical(old(bufs), old(disk))[dst := b]
        && DirtySet(bufs) == DirtySet(old(bufs)) - {dst}
        && (src !in DirtySet(old(bufs)) ==> b == old(disk)[src])
        && SameHeld(old(bufs), bufs)
      ensures r.Sleeps? ==> Locked(old(bufs), src) || Locked(old(bufs), dst)
      ensures r.Panics? ==> Exhausted(bufs)
      ensures Roomy(old(bufs), if dstFirst then src else dst) ==> r.Held?
      ensures !Cached(old(bufs), if dstFirst then dst else src) && Exhausted(old(bufs)) ==> r.Panics?
    {
      hide Unique, Coherent, Logical, DirtySet, NoDup, Locked, Cached, Exhausted, Roomy, SameHeld;
      var from, to;
      if dstFirst {
        r, to, from := BreadBoth(dst, src);
      } else {
        r, from, to := BreadBoth(src, dst);
      }
      if !r.Held? { return; }
      ghost var x, y := bufs[from], bufs[to];
      Transfer(from, to, src, dst);
      HeldApart(old(bufs), from, to, x, y, bufs[from], bufs[to]);
    }
  }

  lemma RotateOne(n: nat)
    requires n < NBUF
    ensures Rotated(n)[0] == n && MovedBack(Rotated(n), 0) == Rotated(n + 1)
  {
  }

  /** bread of (0,0) with every buffer free at (0,0): the front of the list is taken. */
  method TakeFront(c: Cache, n: nat) returns (i: nat)
    requires c.Valid() && NOWHERE in c.disk && n <= NBUF && c.order == Rotated(n)
    requires forall j | 0 <= j < NBUF :: c.bufs[j].addr == NOWHERE && !c.bufs[j].busy && !c.bufs[j].dirty
    modifies c`bufs, c`disk, c`writes
    ensures c.Valid() && c.disk == old(c.disk)
    ensures i == Rotated(n)[0] && c.bufs == old(c.bufs)[i := Loaded(old(c.bufs)[i], c.disk, NOWHERE)]
  {
    assert FirstHit(c.bufs, c.order, 0, NOWHERE);
    var r := c.Bread(NOWHERE);
    i := r.id;
  }

  /** Every buffer is free at (0,0); the first n were read and released once, the second also written. */
  ghost predicate Around(c: Cache, n: nat, image: Image, y: Block)
    requires NOWHERE in image
    reads c
  {
    && c.Valid() && n <= NBUF && c.order == Rotated(n)
    && c.disk == (if n < 2 then image else image[NOWHERE := y])
    && (forall j | 0 <= j < NBUF :: c.bufs[j].addr == NOWHERE && !c.bufs[j].busy && !c.bufs[j].dirty)
    && (forall j | n <= j < NBUF :: !c.bufs[j].valid)
    && (n > 0 ==> c.bufs[0].valid && c.bufs[0].data == image[NOWHERE])
  }

  method GoAround(c: Cache, n: nat, image: Image, y: Block)
    requires NOWHERE in image && n < NBUF && Around(c, n, image, y)
    modifies c
    ensures Around(c, n + 1, image, y)
  {
    hide Unique, Coherent, NoDup, Logical, DirtySet, Rotated, MovedBack;
    RotateOne(n);
    var r := TakeFront(c, n);
    if n == 1 {
      c.Modify(r, y);
      var ok := c.Bwrite(r);
    }
    assert c.order[0] == r;
    c.Brelse(r);
  }

  /** bread can return what the disk no longer holds, though nothing is pinned: binit leaves every buffer at
      (0,0), so a second buffer is written through while the first keeps the old block, and the list comes
      round to the first. */
  method StaleBread(image: Image, y: Block) returns (c: Cache, i: nat)
    requires NOWHERE in image && y != image[NOWHERE]
    ensures fresh(c) && c.Valid() && c.disk == image[NOWHERE := y] && DirtySet(c.bufs) == {}
    ensures i < NBUF && c.bufs[i].busy && c.bufs[i].valid && c.bufs[i].addr == NOWHERE
    ensures c.bufs[i].data == image[NOWHERE] != c.disk[NOWHERE]
  {
    c := new Cache(image);
    assert c.order == Rotated(0);
    var n := 0;
    while n < NBUF
      invariant fresh(c) && 0 <= n <= NBUF && Around(c, n, image, y)
    {
      GoAround(c, n, image, y);
      n := n + 1;
    }
    i := TakeFront(c, n);
  }
}
