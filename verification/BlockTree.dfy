/** The block pointers of v6 inodes (kern/v6.c): bytes, the free bitmap and the tree of direct, indirect and
double-indirect pointers, as values.
*/
module BlockTree {
  import opened Common

  const BSIZE := 4096
  const NDIRECT := 11
  const NINDIRECT := 1024
  const MAXFILE := 1049611
  const BPB := 32768
  const WORD := 0x1_0000_0000

  type Block = b: seq<Byte> | |b| == BSIZE witness seq(BSIZE, _ => 0)

  function Zeros(): (b: Block) {
    seq(BSIZE, _ => 0)
  }

  // ---------------------------------------------------------------- words in a block

  /** ((uint32_t *) data)[j], little endian. */
  function Word(b: Block, j: nat): (v: nat)
    requires j < NINDIRECT
    ensures v < WORD
  {
    var b0: int, b1: int, b2: int, b3: int := b[4 * j], b[4 * j + 1], b[4 * j + 2], b[4 * j + 3];
    b0 + 0x100 * b1 + 0x1_0000 * b2 + 0x100_0000 * b3
  }

  function PutWord(b: Block, j: nat, v: nat): (r: Block)
    requires j < NINDIRECT && v < WORD
  {
    b[4 * j := v % 0x100][4 * j + 1 := v / 0x100 % 0x100][4 * j + 2 := v / 0x1_0000 % 0x100][4 * j + 3 := v / 0x100_0000]
  }

  lemma WordPut(b: Block, j: nat, v: nat, i: nat)
    requires j < NINDIRECT && v < WORD && i < NINDIRECT
    ensures Word(PutWord(b, j, v), i) == if i == j then v else Word(b, i)
  {
    if i == j {
      BytesOf(v);
    } else {
      var r := PutWord(b, j, v);
      assert forall m | 0 <= m < BSIZE && !(4 * j <= m < 4 * j + 4) :: r[m] == b[m];
    }
  }

  lemma BytesOf(v: nat)
    requires v < WORD
    ensures v % 0x100 + 0x100 * (v / 0x100 % 0x100) + 0x1_0000 * (v / 0x1_0000 % 0x100) + 0x100_0000 * (v / 0x100_0000) == v
  {
    var a := v / 0x100;
    var c := a / 0x100;
    assert v / 0x1_0000 == c && v / 0x100_0000 == c / 0x100;
  }

  /** On disk the entry is four bytes, the lowest first. */
  lemma WordBytes(b: Block, j: nat)
    requires j < NINDIRECT
    ensures var v := Word(b, j);
      && b[4 * j] == v % 0x100 && b[4 * j + 1] == v / 0x100 % 0x100
      && b[4 * j + 2] == v / 0x1_0000 % 0x100 && b[4 * j + 3] == v / 0x100_0000
  {
    var v, b0: int, b1: int, b2: int, b3: int := Word(b, j), b[4 * j], b[4 * j + 1], b[4 * j + 2], b[4 * j + 3];
    var a := b1 + 0x100 * b2 + 0x1_0000 * b3;
    var c := b2 + 0x100 * b3;
    assert v == b0 + 0x100 * a && a == b1 + 0x100 * c;
    assert v / 0x100 == a && a / 0x100 == c;
    assert v / 0x1_0000 == c && v / 0x100_0000 == b3;
  }

  // ---------------------------------------------------------------- the free bitmap

  function Pow2(i: nat): (r: nat)
    ensures r > 0
  {
    if i == 0 then 1 else 2 * Pow2(i - 1)
  }

  /** (x & (1 << i)) != 0 */
  predicate Bit(x: nat, i: nat) {
    if i == 0 then x % 2 == 1 else Bit(x / 2, i - 1)
  }

  lemma {:induction false} BitIs(x: nat, i: nat)
    requires i < 8
    ensures Bit(x, i) <==> x / Pow2(i) % 2 == 1
  {
    if i > 0 {
      BitIs(x / 2, i - 1);
      Halved(x, i);
      hide Pow2;
    }
  }

  lemma Halved(x: nat, i: nat)
    requires 1 <= i < 8
    ensures x / 2 / Pow2(i - 1) == x / Pow2(i)
  {
    assert Pow2(0) == 1 && Pow2(1) == 2 && Pow2(2) == 4 && Pow2(3) == 8;
    assert Pow2(4) == 16 && Pow2(5) == 32 && Pow2(6) == 64 && Pow2(7) == 128;
    hide Pow2;
    match i
    case 1 =>
    case 2 => assert x / 2 / 2 == x / 4;
    case 3 => assert x / 2 / 4 == x / 8;
    case 4 => assert x / 2 / 8 == x / 16;
    case 5 => assert x / 2 / 16 == x / 32;
    case 6 => assert x / 2 / 32 == x / 64;
    case 7 => assert x / 2 / 64 == x / 128;
  }

  /** Adding a clear bit sets that bit and no other. */
  lemma {:induction false} SetBit(x: nat, i: nat, j: nat)
    requires !Bit(x, i)
    ensures Bit(x + Pow2(i), j) <==> j == i || Bit(x, j)
    decreases i
  {
    if i > 0 {
      assert (x + Pow2(i)) / 2 == x / 2 + Pow2(i - 1);
      if j > 0 { SetBit(x / 2, i - 1, j - 1); }
    }
  }

  lemma {:induction false} SetBitBound(x: nat, i: nat, n: nat)
    requires !Bit(x, i) && i < n && x < Pow2(n)
    ensures x + Pow2(i) < Pow2(n)
    decreases i
  {
    if i > 0 {
      SetBitBound(x / 2, i - 1, n - 1);
    } else {
      assert Pow2(n) == 2 * Pow2(n - 1);
    }
  }

  lemma ByteBound(x: Byte, i: nat)
    requires !Bit(x, i) && i < 8
    ensures 0 <= x + Pow2(i) < 256
  {
    assert Pow2(8) == 256 by { assert Pow2(4) == 16; }
    SetBitBound(x, i, 8);
  }

  type Bitmap = seq<Block>

  /** Block b is in use. */
  predicate Marked(bm: Bitmap, b: nat) {
    b / BPB < |bm| && Bit(bm[b / BPB][b % BPB / 8], b % 8)
  }

  /** Block b has bit b % 8, from the low end, of byte b / 8 of its bitmap block. */
  lemma MarkedBit(bm: Bitmap, b: nat)
    requires b / 32768 < |bm|
    ensures Marked(bm, b) <==> bm[b / 32768][b % 32768 / 8] / Pow2(b % 8) % 2 == 1
  {
    BitIs(bm[b / 32768][b % 32768 / 8], b % 8);
  }

  function Mark(bm: Bitmap, b: nat): (r: Bitmap)
    requires b / BPB < |bm| && !Marked(bm, b)
  {
    var k, i := b / BPB, b % BPB / 8;
    ByteBound(bm[k][i], b % 8);
    bm[k := bm[k][i := bm[k][i] + Pow2(b % 8)]]
  }

  lemma MarkOnly(bm: Bitmap, b: nat, c: nat)
    requires b / BPB < |bm| && !Marked(bm, b)
    ensures |Mark(bm, b)| == |bm|
    ensures Marked(Mark(bm, b), c) <==> c == b || Marked(bm, c)
  {
    if c / BPB == b / BPB && c % BPB / 8 == b % BPB / 8 {
      SetBit(bm[b / BPB][b % BPB / 8], b % 8, c % 8);
    }
  }

  // ---------------------------------------------------------------- inodes and pointers

  datatype Inode = Inode(size: nat, addrs: seq<nat>)

  datatype Fs = Fs(bitmap: Bitmap, blocks: map<nat, Block>, inodes: map<nat, Inode>)

  /** A place that holds a block pointer: an entry of addrs, or an entry of an indirect block. */
  datatype Slot =
    | Direct(i: nat)
    | Single
    | Double
    | SingleAt(j: nat)
    | DoubleAt(i: nat)
    | Double2At(i: nat, j: nat)

  datatype Loc = Loc(ino: nat, slot: Slot)

  predicate SlotOk(s: Slot) {
    match s
    case Direct(i) => i < NDIRECT
    case Single => true
    case Double => true
    case SingleAt(j) => j < NINDIRECT
    case DoubleAt(i) => i < NINDIRECT
    case Double2At(i, j) => i < NINDIRECT && j < NINDIRECT
  }

  /** The slot whose block holds slot s, for slots in indirect blocks. */
  function Parent(s: Slot): (r: Slot)
    requires s.SingleAt? || s.DoubleAt? || s.Double2At?
  {
    match s
    case SingleAt(_) => Single
    case DoubleAt(_) => Double
    case Double2At(i, _) => DoubleAt(i)
  }

  function Depth(s: Slot): (d: nat) {
    if s.Double2At? then 2 else if s.SingleAt? || s.DoubleAt? then 1 else 0
  }

  predicate InIndirect(s: Slot) {
    s.SingleAt? || s.DoubleAt? || s.Double2At?
  }

  /** The entry of the parent block that s is. */
  function EntryOf(s: Slot): (j: nat)
    requires InIndirect(s)
  {
    match s
    case SingleAt(j) => j
    case DoubleAt(i) => i
    case Double2At(_, j) => j
  }

  /** The entry of addrs that s is. */
  function AddrIndex(s: Slot): (i: nat)
    requires !InIndirect(s)
  {
    match s
    case Direct(i) => i
    case Single => NDIRECT
    case Double => NDIRECT + 1
  }

  predicate Shaped(fs: Fs) {
    forall ino | ino in fs.inodes :: |fs.inodes[ino].addrs| == NDIRECT + 2
  }

  predicate LocOk(fs: Fs, l: Loc) {
    l.ino in fs.inodes && SlotOk(l.slot)
  }

  function Deref(fs: Fs, p: nat, j: nat): (r: nat)
    requires j < NINDIRECT
  {
    if p == 0 || p !in fs.blocks then 0 else Word(fs.blocks[p], j)
  }

  /** The pointer stored at l; 0 when it or the block that would hold it is missing. */
  function PtrAt(fs: Fs, l: Loc): (p: nat)
    requires Shaped(fs) && LocOk(fs, l)
    decreases Depth(l.slot)
  {
    if InIndirect(l.slot) then Deref(fs, PtrAt(fs, Loc(l.ino, Parent(l.slot))), EntryOf(l.slot))
    else fs.inodes[l.ino].addrs[AddrIndex(l.slot)]
  }

  /** The data blocks are the last nblocks of the size blocks. */
  datatype Super = Super(size: nat, nblocks: nat, ninodes: nat) {
    /** The first data block; super block, log, inodes and bitmap come before it. */
    function First(): (b: nat) {
      if nblocks <= size then size - nblocks else 0
    }
  }

  /** The blocks before the data blocks are marked in use.  Pointers lead to distinct data blocks that exist and are
      marked in use; block 0 is none of them, so that pointer 0 can mean none. */
  ghost predicate Tree(fs: Fs, sb: Super) {
    && Shaped(fs)
    && 0 < sb.First() && (forall b | 0 <= b < sb.First() :: Marked(fs.bitmap, b))
    && sb.size <= WORD
    && sb.size <= |fs.bitmap| * BPB
    && (forall b | 0 <= b < sb.size :: b in fs.blocks)
    && (forall l | LocOk(fs, l) && PtrAt(fs, l) != 0 :: sb.First() <= PtrAt(fs, l) < sb.size && Marked(fs.bitmap, PtrAt(fs, l)))
    && (forall k, l | LocOk(fs, k) && LocOk(fs, l) && k != l && PtrAt(fs, k) != 0 :: PtrAt(fs, k) != PtrAt(fs, l))
  }

  /** A pointer in an indirect block means that the block is there. */
  lemma ParentThere(fs: Fs, sb: Super, l: Loc)
    requires Tree(fs, sb) && LocOk(fs, l) && InIndirect(l.slot)
    ensures LocOk(fs, Loc(l.ino, Parent(l.slot)))
    ensures PtrAt(fs, l) != 0 ==> PtrAt(fs, Loc(l.ino, Parent(l.slot))) != 0
  {
    hide Tree;
  }

  /** Storing pointer b at l, in the inode or in the indirect block that holds l. */
  function Store(fs: Fs, l: Loc, b: nat): (r: Fs)
    requires Shaped(fs) && LocOk(fs, l) && b < WORD
    requires InIndirect(l.slot) ==> PtrAt(fs, Loc(l.ino, Parent(l.slot))) in fs.blocks
  {
    if InIndirect(l.slot) then
      var p := PtrAt(fs, Loc(l.ino, Parent(l.slot)));
      fs.(blocks := fs.blocks[p := PutWord(fs.blocks[p], EntryOf(l.slot), b)])
    else
      var ip := fs.inodes[l.ino];
      fs.(inodes := fs.inodes[l.ino := ip.(addrs := ip.addrs[AddrIndex(l.slot) := b])])
  }

  /** Changing a block that no indirect pointer leads to moves no pointer. */
  lemma LeafWriteKeepsPtrs(fs: Fs, b: nat, data: Block, l: Loc)
    requires Shaped(fs) && LocOk(fs, l)
    requires forall k | LocOk(fs, k) && (k.slot.Single? || k.slot.Double? || k.slot.DoubleAt?) :: PtrAt(fs, k) != b
    ensures PtrAt(fs.(blocks := fs.blocks[b := data]), l) == PtrAt(fs, l)
    decreases Depth(l.slot)
  {
    if InIndirect(l.slot) {
      var p := Loc(l.ino, Parent(l.slot));
      assert LocOk(fs, p);
      LeafWriteKeepsPtrs(fs, b, data, p);
    }
  }

  lemma ZeroWord(j: nat)
    requires j < NINDIRECT
    ensures Word(Zeros(), j) == 0
  {
  }

  /** Storing a zeroed block in an empty entry of addrs. */
  lemma StoreAddr(fs: Fs, l: Loc, b: nat, k: Loc)
    requires Shaped(fs) && LocOk(fs, l) && LocOk(fs, k) && !InIndirect(l.slot)
    requires PtrAt(fs, l) == 0 && 0 < b < WORD && b in fs.blocks && fs.blocks[b] == Zeros()
    ensures PtrAt(Store(fs, l, b), k) == if k == l then b else PtrAt(fs, k)
    decreases Depth(k.slot)
  {
    if InIndirect(k.slot) {
      StoreAddr(fs, l, b, Loc(k.ino, Parent(k.slot)));
      ZeroWord(EntryOf(k.slot));
    }
  }

  /** Storing a zeroed block in an empty entry of an indirect block that only one pointer leads to. */
  lemma StoreEntry(fs: Fs, l: Loc, b: nat, k: Loc)
    requires Shaped(fs) && LocOk(fs, l) && LocOk(fs, k) && InIndirect(l.slot)
    requires PtrAt(fs, l) == 0 && 0 < b < WORD && b in fs.blocks && fs.blocks[b] == Zeros()
    requires var lp := Loc(l.ino, Parent(l.slot)); var p := PtrAt(fs, lp);
      p != 0 && p in fs.blocks && p != b && forall m | LocOk(fs, m) && m != lp :: PtrAt(fs, m) != p
    ensures PtrAt(Store(fs, l, b), k) == if k == l then b else PtrAt(fs, k)
    decreases Depth(k.slot)
  {
    if InIndirect(k.slot) {
      var lp, kp := Loc(l.ino, Parent(l.slot)), Loc(k.ino, Parent(k.slot));
      StoreEntry(fs, l, b, kp);
      ZeroWord(EntryOf(k.slot));
      WordPut(fs.blocks[PtrAt(fs, lp)], EntryOf(l.slot), b, EntryOf(k.slot));
    }
  }

  /** The file system after a free block b has been zeroed, marked and hung in at l. */
  function Hung(fs: Fs, l: Loc, b: nat): (r: Fs)
    requires Shaped(fs) && LocOk(fs, l) && b < WORD
    requires b / BPB < |fs.bitmap| && !Marked(fs.bitmap, b)
    requires var fs1 := fs.(blocks := fs.blocks[b := Zeros()]);
      InIndirect(l.slot) ==> PtrAt(fs1, Loc(l.ino, Parent(l.slot))) in fs1.blocks
  {
    Store(fs.(blocks := fs.blocks[b := Zeros()]), l, b).(bitmap := Mark(fs.bitmap, b))
  }

  /** l is empty and the block that holds it is there. */
  ghost predicate CanHang(fs: Fs, l: Loc) {
    && Shaped(fs) && LocOk(fs, l) && PtrAt(fs, l) == 0
    && (InIndirect(l.slot) ==> PtrAt(fs, Loc(l.ino, Parent(l.slot))) != 0)
  }

  lemma HangWellFormed(fs: Fs, sb: Super, l: Loc, b: nat)
    requires Tree(fs, sb) && CanHang(fs, l) && b < sb.size && !Marked(fs.bitmap, b)
    ensures b / BPB < |fs.bitmap|
    ensures var fs1 := fs.(blocks := fs.blocks[b := Zeros()]);
      && (InIndirect(l.slot) ==> PtrAt(fs1, Loc(l.ino, Parent(l.slot))) in fs1.blocks)
      && forall k | LocOk(fs, k) :: PtrAt(fs1, k) == PtrAt(fs, k)
  {
    var fs1 := fs.(blocks := fs.blocks[b := Zeros()]);
    forall k | LocOk(fs, k) ensures PtrAt(fs1, k) == PtrAt(fs, k) {
      LeafWriteKeepsPtrs(fs, b, Zeros(), k);
    }
    if InIndirect(l.slot) {
      assert LocOk(fs, Loc(l.ino, Parent(l.slot)));
    }
  }

  /** Hanging in a free block changes exactly one pointer. */
  lemma HangMovesOne(fs: Fs, sb: Super, l: Loc, b: nat, k: Loc)
    requires Tree(fs, sb) && CanHang(fs, l) && b < sb.size && !Marked(fs.bitmap, b)
    requires LocOk(fs, k)
    ensures b / BPB < |fs.bitmap|
    ensures var fs1 := fs.(blocks := fs.blocks[b := Zeros()]);
      InIndirect(l.slot) ==> PtrAt(fs1, Loc(l.ino, Parent(l.slot))) in fs1.blocks
    ensures Shaped(Hung(fs, l, b)) && LocOk(Hung(fs, l, b), k)
    ensures PtrAt(Hung(fs, l, b), k) == if k == l then b else PtrAt(fs, k)
  {
    HangWellFormed(fs, sb, l, b);
    var fs1 := fs.(blocks := fs.blocks[b := Zeros()]);
    SamePtr(Store(fs1, l, b), Hung(fs, l, b), k);
    if InIndirect(l.slot) {
      var lp := Loc(l.ino, Parent(l.slot));
      assert LocOk(fs, lp);
      StoreEntry(fs1, l, b, k);
    } else {
      StoreAddr(fs1, l, b, k);
    }
  }

  lemma SamePtr(fs: Fs, fs': Fs, k: Loc)
    requires Shaped(fs) && fs'.blocks == fs.blocks && fs'.inodes == fs.inodes && LocOk(fs, k)
    ensures PtrAt(fs', k) == PtrAt(fs, k)
    decreases Depth(k.slot)
  {
    if InIndirect(k.slot) {
      SamePtr(fs, fs', Loc(k.ino, Parent(k.slot)));
    }
  }

  /** The tree stays a tree. */
  lemma HangKeepsTree(fs: Fs, sb: Super, l: Loc, b: nat)
    requires Tree(fs, sb) && CanHang(fs, l) && b < sb.size && !Marked(fs.bitmap, b)
    requires b / BPB < |fs.bitmap|
    requires var fs1 := fs.(blocks := fs.blocks[b := Zeros()]);
      InIndirect(l.slot) ==> PtrAt(fs1, Loc(l.ino, Parent(l.slot))) in fs1.blocks
    ensures Tree(Hung(fs, l, b), sb)
  {
    var fs' := Hung(fs, l, b);
    forall k | LocOk(fs', k) ensures LocOk(fs, k) && PtrAt(fs', k) == if k == l then b else PtrAt(fs, k) {
      HangMovesOne(fs, sb, l, b, k);
    }
    forall c ensures Marked(fs'.bitmap, c) <==> c == b || Marked(fs.bitmap, c) {
      MarkOnly(fs.bitmap, b, c);
    }
  }

  // ---------------------------------------------------------------- files

  predicate IsLeaf(s: Slot) {
    s.Direct? || s.SingleAt? || s.Double2At?
  }

  /** The slot that leads to the bn-th data block of a file. */
  function Leaf(bn: nat): (s: Slot)
    requires bn < MAXFILE
    ensures SlotOk(s) && IsLeaf(s)
  {
    if bn < NDIRECT then Direct(bn)
    else if bn - NDIRECT < NINDIRECT then SingleAt(bn - NDIRECT)
    else Double2At((bn - NDIRECT - NINDIRECT) / NINDIRECT, (bn - NDIRECT - NINDIRECT) % NINDIRECT)
  }

  /** Block bn of file ino is block b: the first NDIRECT numbers are in addrs, the next NINDIRECT in the block
      addrs[NDIRECT], the others in the blocks that addrs[NDIRECT + 1] lists. */
  predicate MapsTo(fs: Fs, ino: nat, bn: nat, b: nat) {
    && ino in fs.inodes && |fs.inodes[ino].addrs| == NDIRECT + 2 && bn < NDIRECT + NINDIRECT + NINDIRECT * NINDIRECT
    && var addrs := fs.inodes[ino].addrs;
       if bn < NDIRECT then b == addrs[bn]
       else if bn < NDIRECT + NINDIRECT then
         addrs[NDIRECT] in fs.blocks && b == Word(fs.blocks[addrs[NDIRECT]], bn - NDIRECT)
       else
         var n := bn - NDIRECT - NINDIRECT;
         && addrs[NDIRECT + 1] in fs.blocks
         && var p := Word(fs.blocks[addrs[NDIRECT + 1]], n / NINDIRECT);
            p in fs.blocks && b == Word(fs.blocks[p], n % NINDIRECT)
  }

  lemma PtrMapsTo(fs: Fs, ino: nat, bn: nat)
    requires Shaped(fs) && ino in fs.inodes && bn < MAXFILE && PtrAt(fs, Loc(ino, Leaf(bn))) != 0
    ensures MapsTo(fs, ino, bn, PtrAt(fs, Loc(ino, Leaf(bn))))
  {
    if bn < NDIRECT {
    } else if bn < NDIRECT + NINDIRECT {
      assert PtrAt(fs, Loc(ino, Single)) == fs.inodes[ino].addrs[NDIRECT];
    } else {
      var n := bn - NDIRECT - NINDIRECT;
      assert PtrAt(fs, Loc(ino, Double)) == fs.inodes[ino].addrs[NDIRECT + 1];
      assert PtrAt(fs, Loc(ino, DoubleAt(n / NINDIRECT))) == Deref(fs, fs.inodes[ino].addrs[NDIRECT + 1], n / NINDIRECT);
    }
  }

  lemma LeafInjective(m: nat, n: nat)
    requires m < MAXFILE && n < MAXFILE && Leaf(m) == Leaf(n)
    ensures m == n
  {
  }

  /** fs' has everything fs has: no pointer of fs moved, no data block of fs changed, and the blocks that were
      added were free; data blocks that were added are zero. */
  ghost predicate Extends(fs: Fs, fs': Fs)
    requires Shaped(fs) && Shaped(fs')
  {
    && fs'.inodes.Keys == fs.inodes.Keys
    && (forall ino | ino in fs.inodes :: fs'.inodes[ino].size == fs.inodes[ino].size)
    && (forall l | LocOk(fs, l) :: LocOk(fs', l))
    && (forall b | Marked(fs.bitmap, b) :: Marked(fs'.bitmap, b))
    && (forall l | LocOk(fs, l) && PtrAt(fs, l) != 0 :: PtrAt(fs', l) == PtrAt(fs, l))
    && (forall l | LocOk(fs, l) && PtrAt(fs, l) == 0 && PtrAt(fs', l) != 0 :: !Marked(fs.bitmap, PtrAt(fs', l)))
    && (forall l | LocOk(fs, l) && IsLeaf(l.slot) && PtrAt(fs', l) != 0 :: PtrAt(fs', l) in fs'.blocks)
    && (forall l | LocOk(fs, l) && IsLeaf(l.slot) && PtrAt(fs', l) != 0 ::
          fs'.blocks[PtrAt(fs', l)] == if PtrAt(fs, l) != 0 && PtrAt(fs, l) in fs.blocks then fs.blocks[PtrAt(fs, l)] else Zeros())
  }

  lemma ExtendsSelf(fs: Fs, sb: Super)
    requires Tree(fs, sb)
    ensures Extends(fs, fs)
  {
  }

  lemma ExtendsTrans(a: Fs, b: Fs, c: Fs, sb: Super)
    requires Tree(a, sb) && Tree(b, sb) && Tree(c, sb) && Extends(a, b) && Extends(b, c)
    ensures Extends(a, c)
  {
  }

  /** Hanging in a block leaves every data block alone. */
  lemma HangKeepsData(fs: Fs, sb: Super, l: Loc, b: nat, k: Loc)
    requires Tree(fs, sb) && CanHang(fs, l) && b < sb.size && !Marked(fs.bitmap, b)
    requires b / BPB < |fs.bitmap|
    requires var fs1 := fs.(blocks := fs.blocks[b := Zeros()]);
      InIndirect(l.slot) ==> PtrAt(fs1, Loc(l.ino, Parent(l.slot))) in fs1.blocks
    requires LocOk(fs, k) && IsLeaf(k.slot) && (k == l || PtrAt(fs, k) != 0)
    ensures var fs' := Hung(fs, l, b); var p := if k == l then b else PtrAt(fs, k);
      p in fs'.blocks && fs'.blocks[p] == if k == l then Zeros() else fs.blocks[p]
  {
    HangWellFormed(fs, sb, l, b);
    if InIndirect(l.slot) {
      var lp := Loc(l.ino, Parent(l.slot));
      assert LocOk(fs, lp) && k != lp;
    }
  }

  lemma HangExtends(fs: Fs, sb: Super, l: Loc, b: nat)
    requires Tree(fs, sb) && CanHang(fs, l) && b < sb.size && !Marked(fs.bitmap, b)
    requires b / BPB < |fs.bitmap|
    requires var fs1 := fs.(blocks := fs.blocks[b := Zeros()]);
      InIndirect(l.slot) ==> PtrAt(fs1, Loc(l.ino, Parent(l.slot))) in fs1.blocks
    ensures Tree(Hung(fs, l, b), sb) && Extends(fs, Hung(fs, l, b))
    ensures LocOk(Hung(fs, l, b), l) && PtrAt(Hung(fs, l, b), l) == b
  {
    var fs' := Hung(fs, l, b);
    HangKeepsTree(fs, sb, l, b);
    forall k | LocOk(fs, k)
      ensures LocOk(fs', k) && PtrAt(fs', k) == if k == l then b else PtrAt(fs, k)
    {
      HangMovesOne(fs, sb, l, b, k);
    }
    forall c ensures Marked(fs'.bitmap, c) <==> c == b || Marked(fs.bitmap, c) {
      MarkOnly(fs.bitmap, b, c);
    }
    forall k | LocOk(fs, k) && IsLeaf(k.slot) && PtrAt(fs', k) != 0
      ensures PtrAt(fs', k) in fs'.blocks
      ensures fs'.blocks[PtrAt(fs', k)] == if PtrAt(fs, k) != 0 then fs.blocks[PtrAt(fs, k)] else Zeros()
    {
      HangKeepsData(fs, sb, l, b, k);
    }
  }

  /** The first n bytes of file ino lie in blocks that are there. */
  ghost predicate Backed(fs: Fs, ino: nat, n: nat) {
    && Shaped(fs) && ino in fs.inodes && n <= MAXFILE * BSIZE
    && forall bn | 0 <= bn < MAXFILE && bn * BSIZE < n ::
         PtrAt(fs, Loc(ino, Leaf(bn))) != 0 && PtrAt(fs, Loc(ino, Leaf(bn))) in fs.blocks
  }

  ghost function ByteAt(fs: Fs, ino: nat, k: nat): (x: Byte)
    requires Shaped(fs) && ino in fs.inodes && k < MAXFILE * BSIZE
    requires PtrAt(fs, Loc(ino, Leaf(k / BSIZE))) in fs.blocks
  {
    fs.blocks[PtrAt(fs, Loc(ino, Leaf(k / BSIZE)))][k % BSIZE]
  }

  /** The first n bytes of file ino. */
  ghost function Extent(fs: Fs, ino: nat, n: nat): (s: seq<Byte>)
    requires Backed(fs, ino, n)
  {
    seq(n, k requires 0 <= k < n => ByteAt(fs, ino, k))
  }

  /** Every file is free of holes below its size. */
  ghost predicate Files(fs: Fs, sb: Super) {
    && Tree(fs, sb)
    && forall ino | ino in fs.inodes :: fs.inodes[ino].size < WORD && Backed(fs, ino, fs.inodes[ino].size)
  }

  ghost function Content(fs: Fs, sb: Super, ino: nat): (s: seq<Byte>)
    requires Files(fs, sb) && ino in fs.inodes
  {
    Extent(fs, ino, fs.inodes[ino].size)
  }

  /** x is the byte at position k of file ino, found by the block numbers on disk. */
  ghost predicate HasByte(fs: Fs, ino: nat, k: nat, x: Byte) {
    exists b :: MapsTo(fs, ino, k / BSIZE, b) && b in fs.blocks && fs.blocks[b][k % BSIZE] == x
  }

  lemma ContentBytes(fs: Fs, sb: Super, ino: nat, k: nat)
    requires Files(fs, sb) && ino in fs.inodes && k < |Content(fs, sb, ino)|
    ensures HasByte(fs, ino, k, Content(fs, sb, ino)[k])
  {
    hide Tree;
    assert Backed(fs, ino, fs.inodes[ino].size);
    var bn := k / BSIZE;
    assert bn < MAXFILE && bn * BSIZE < fs.inodes[ino].size;
    PtrMapsTo(fs, ino, bn);
    hide PtrAt, MapsTo;
    assert MapsTo(fs, ino, bn, PtrAt(fs, Loc(ino, Leaf(bn))));
  }

  lemma SliceBytes(fs: Fs, sb: Super, ino: nat, off: nat, d: seq<Byte>)
    requires Files(fs, sb) && ino in fs.inodes && off + |d| <= |Content(fs, sb, ino)|
    requires d == Content(fs, sb, ino)[off..off + |d|]
    ensures forall k: nat | k < |d| :: HasByte(fs, ino, off + k, d[k])
  {
    hide Files, Content, HasByte;
    forall k: nat | k < |d| ensures HasByte(fs, ino, off + k, d[k]) {
      ContentBytes(fs, sb, ino, off + k);
    }
  }

  /** c with d written at off, growing c if d goes past its end. */
  function Splice(c: seq<Byte>, off: nat, d: seq<Byte>): (r: seq<Byte>)
    requires off <= |c|
  {
    c[..off] + d + if off + |d| < |c| then c[off + |d|..] else []
  }

  lemma SpliceTwice(c: seq<Byte>, off: nat, d: seq<Byte>, e: seq<Byte>)
    requires off <= |c|
    ensures off + |d| <= |Splice(c, off, d)|
    ensures Splice(Splice(c, off, d), off + |d|, e) == Splice(c, off, d + e)
  {
    var s, t := Splice(Splice(c, off, d), off + |d|, e), Splice(c, off, d + e);
    assert |s| == |t|;
    assert forall k | 0 <= k < |s| :: s[k] == t[k];
  }

  lemma ExtendsExtent(fs: Fs, fs': Fs, sb: Super, ino: nat, n: nat)
    requires Tree(fs, sb) && Tree(fs', sb) && Extends(fs, fs') && Backed(fs, ino, n)
    ensures Backed(fs', ino, n) && Extent(fs', ino, n) == Extent(fs, ino, n)
  {
    forall bn | 0 <= bn < MAXFILE && bn * BSIZE < n
      ensures PtrAt(fs', Loc(ino, Leaf(bn))) == PtrAt(fs, Loc(ino, Leaf(bn)))
      ensures PtrAt(fs', Loc(ino, Leaf(bn))) in fs'.blocks
      ensures fs'.blocks[PtrAt(fs', Loc(ino, Leaf(bn)))] == fs.blocks[PtrAt(fs, Loc(ino, Leaf(bn)))]
    {
      assert LocOk(fs, Loc(ino, Leaf(bn)));
    }
    forall k | 0 <= k < n ensures ByteAt(fs', ino, k) == ByteAt(fs, ino, k) {
      assert k / BSIZE < MAXFILE && k / BSIZE * BSIZE < n;
    }
  }

  function Patch(b: Block, at: nat, d: seq<Byte>): (r: Block)
    requires at + |d| <= BSIZE
  {
    b[..at] + d + b[at + |d|..]
  }

  /** fs with d written into the bn-th block of file ino. */
  ghost function Patched(fs: Fs, ino: nat, bn: nat, at: nat, d: seq<Byte>): (r: Fs)
    requires Shaped(fs) && ino in fs.inodes && bn < MAXFILE && at + |d| <= BSIZE
    requires PtrAt(fs, Loc(ino, Leaf(bn))) in fs.blocks
  {
    var p := PtrAt(fs, Loc(ino, Leaf(bn)));
    fs.(blocks := fs.blocks[p := Patch(fs.blocks[p], at, d)])
  }

  lemma PatchKeepsTree(fs: Fs, sb: Super, ino: nat, bn: nat, at: nat, d: seq<Byte>)
    requires Tree(fs, sb) && ino in fs.inodes && bn < MAXFILE && at + |d| <= BSIZE
    requires PtrAt(fs, Loc(ino, Leaf(bn))) != 0
    ensures PtrAt(fs, Loc(ino, Leaf(bn))) in fs.blocks
    ensures var fs' := Patched(fs, ino, bn, at, d);
      Tree(fs', sb) && forall l | LocOk(fs, l) :: PtrAt(fs', l) == PtrAt(fs, l)
  {
    var l0 := Loc(ino, Leaf(bn));
    assert LocOk(fs, l0);
    var fs' := Patched(fs, ino, bn, at, d);
    forall l | LocOk(fs, l) ensures PtrAt(fs', l) == PtrAt(fs, l) {
      LeafWriteKeepsPtrs(fs, PtrAt(fs, l0), fs'.blocks[PtrAt(fs, l0)], l);
    }
  }

  /** Writing into one block of one file changes those bytes of that file and nothing else. */
  lemma PatchBytes(fs: Fs, sb: Super, ino: nat, bn: nat, at: nat, d: seq<Byte>, i: nat, k: nat)
    requires Tree(fs, sb) && ino in fs.inodes && bn < MAXFILE && at + |d| <= BSIZE
    requires PtrAt(fs, Loc(ino, Leaf(bn))) != 0
    requires i in fs.inodes && k < MAXFILE * BSIZE && PtrAt(fs, Loc(i, Leaf(k / BSIZE))) != 0
    ensures PtrAt(fs, Loc(ino, Leaf(bn))) in fs.blocks && PtrAt(fs, Loc(i, Leaf(k / BSIZE))) in fs.blocks
    ensures var fs' := Patched(fs, ino, bn, at, d);
      && Shaped(fs') && PtrAt(fs', Loc(i, Leaf(k / BSIZE))) in fs'.blocks
      && ByteAt(fs', i, k) ==
         if i == ino && bn * BSIZE + at <= k < bn * BSIZE + at + |d| then d[k - bn * BSIZE - at] else ByteAt(fs, i, k)
  {
    var l0, l := Loc(ino, Leaf(bn)), Loc(i, Leaf(k / BSIZE));
    ApartPtrs(fs, sb, l0, l);
    PatchKeepsTree(fs, sb, ino, bn, at, d);
    hide Tree, PtrAt, Leaf;
    if l == l0 {
      LeafInjective(bn, k / BSIZE);
    }
  }

  lemma ApartPtrs(fs: Fs, sb: Super, k: Loc, l: Loc)
    requires Tree(fs, sb) && LocOk(fs, k) && LocOk(fs, l) && PtrAt(fs, k) != 0 && PtrAt(fs, l) != 0
    ensures PtrAt(fs, k) in fs.blocks && PtrAt(fs, l) in fs.blocks
    ensures k != l ==> PtrAt(fs, k) != PtrAt(fs, l)
  {
    hide PtrAt;
  }

  function Max(a: nat, b: nat): (m: nat) {
    if a >= b then a else b
  }

  /** Once the block of byte off is there, the file is backed up to the end of what is written into it. */
  lemma BackedGrows(fs: Fs, sb: Super, ino: nat, n: nat, off: nat, m: nat)
    requires Tree(fs, sb) && Backed(fs, ino, n) && off <= n && off + m <= MAXFILE * BSIZE && m > 0
    requires off % BSIZE + m <= BSIZE
    requires PtrAt(fs, Loc(ino, Leaf(off / BSIZE))) != 0
    ensures Backed(fs, ino, Max(n, off + m))
  {
    forall bn | 0 <= bn < MAXFILE && bn * BSIZE < Max(n, off + m)
      ensures PtrAt(fs, Loc(ino, Leaf(bn))) != 0 && PtrAt(fs, Loc(ino, Leaf(bn))) in fs.blocks
    {
      assert bn * BSIZE < n || bn == off / BSIZE;
      assert LocOk(fs, Loc(ino, Leaf(bn)));
    }
  }

  lemma PatchKeepsBacked(fs: Fs, sb: Super, ino: nat, off: nat, d: seq<Byte>, i: nat, n: nat)
    requires Tree(fs, sb) && ino in fs.inodes && off < MAXFILE * BSIZE && off % BSIZE + |d| <= BSIZE
    requires PtrAt(fs, Loc(ino, Leaf(off / BSIZE))) != 0
    requires Backed(fs, i, n)
    ensures PtrAt(fs, Loc(ino, Leaf(off / BSIZE))) in fs.blocks
    ensures Backed(Patched(fs, ino, off / BSIZE, off % BSIZE, d), i, n)
  {
    PatchKeepsTree(fs, sb, ino, off / BSIZE, off % BSIZE, d);
    var fs' := Patched(fs, ino, off / BSIZE, off % BSIZE, d);
    forall bn | 0 <= bn < MAXFILE && bn * BSIZE < n
      ensures PtrAt(fs', Loc(i, Leaf(bn))) != 0 && PtrAt(fs', Loc(i, Leaf(bn))) in fs'.blocks
    {
      assert LocOk(fs, Loc(i, Leaf(bn)));
    }
  }

  lemma PatchExtentAt(fs: Fs, sb: Super, ino: nat, off: nat, d: seq<Byte>, i: nat, n: nat, k: nat)
    requires Tree(fs, sb) && ino in fs.inodes && off < MAXFILE * BSIZE && off % BSIZE + |d| <= BSIZE
    requires PtrAt(fs, Loc(ino, Leaf(off / BSIZE))) != 0 && PtrAt(fs, Loc(ino, Leaf(off / BSIZE))) in fs.blocks
    requires Backed(fs, i, n) && Backed(Patched(fs, ino, off / BSIZE, off % BSIZE, d), i, n) && k < n
    ensures Extent(Patched(fs, ino, off / BSIZE, off % BSIZE, d), i, n)[k] ==
      if i == ino && off <= k < off + |d| then d[k - off] else Extent(fs, i, n)[k]
  {
    assert k / BSIZE < MAXFILE && k / BSIZE * BSIZE < n;
    assert off / BSIZE * BSIZE + off % BSIZE == off;
    hide Tree;
    PatchBytes(fs, sb, ino, off / BSIZE, off % BSIZE, d, i, k);
  }

  lemma PatchExtent(fs: Fs, sb: Super, ino: nat, off: nat, d: seq<Byte>, i: nat, n: nat)
    requires Tree(fs, sb) && ino in fs.inodes && off < MAXFILE * BSIZE && off % BSIZE + |d| <= BSIZE
    requires PtrAt(fs, Loc(ino, Leaf(off / BSIZE))) != 0
    requires Backed(fs, i, n)
    ensures PtrAt(fs, Loc(ino, Leaf(off / BSIZE))) in fs.blocks
    ensures var fs' := Patched(fs, ino, off / BSIZE, off % BSIZE, d);
      && Backed(fs', i, n)
      && (i != ino ==> Extent(fs', i, n) == Extent(fs, i, n))
      && (i == ino ==> forall k | 0 <= k < n ::
            Extent(fs', i, n)[k] == if off <= k < off + |d| then d[k - off] else Extent(fs, i, n)[k])
  {
    PatchKeepsBacked(fs, sb, ino, off, d, i, n);
    hide Tree, Backed, Patched, ByteAt;
    var fs' := Patched(fs, ino, off / BSIZE, off % BSIZE, d);
    forall k | 0 <= k < n
      ensures Extent(fs', i, n)[k] ==
        if i == ino && off <= k < off + |d| then d[k - off] else Extent(fs, i, n)[k]
    {
      PatchExtentAt(fs, sb, ino, off, d, i, n, k);
    }
  }

  /** What writing d at off over the first n bytes means byte by byte. */
  lemma SpliceIs(c: seq<Byte>, off: nat, d: seq<Byte>, e: seq<Byte>)
    requires off <= |c| && |e| == Max(|c|, off + |d|)
    requires forall k | 0 <= k < |e| && off <= k < off + |d| :: e[k] == d[k - off]
    requires forall k | 0 <= k < |c| && !(off <= k < off + |d|) :: e[k] == c[k]
    ensures e == Splice(c, off, d)
  {
    var t := Splice(c, off, d);
    assert |t| == |e|;
    forall k | 0 <= k < |e| ensures e[k] == t[k] {
    }
  }

  /** One round of v6_writei's loop: bmap turned fs into fs1, then d was copied into the block of byte off. */
  lemma WriteStep(fs: Fs, fs1: Fs, sb: Super, ino: nat, n: nat, off: nat, d: seq<Byte>)
    requires Tree(fs, sb) && Tree(fs1, sb) && Extends(fs, fs1)
    requires Backed(fs, ino, n) && off <= n && off + |d| <= MAXFILE * BSIZE && d != [] && off % BSIZE + |d| <= BSIZE
    requires ino in fs1.inodes && PtrAt(fs1, Loc(ino, Leaf(off / BSIZE))) != 0
    ensures PtrAt(fs1, Loc(ino, Leaf(off / BSIZE))) in fs1.blocks
    ensures var fs2 := Patched(fs1, ino, off / BSIZE, off % BSIZE, d); var n' := Max(n, off + |d|);
      && Tree(fs2, sb) && Backed(fs2, ino, n')
      && Extent(fs2, ino, n') == Splice(Extent(fs, ino, n), off, d)
  {
    var n' := Max(n, off + |d|);
    PatchKeepsTree(fs1, sb, ino, off / BSIZE, off % BSIZE, d);
    var fs2 := Patched(fs1, ino, off / BSIZE, off % BSIZE, d);
    hide Tree, Extends, PtrAt, Patched;
    ExtendsExtent(fs, fs1, sb, ino, n);
    BackedGrows(fs1, sb, ino, n, off, |d|);
    hide Backed, ByteAt;
    PatchExtent(fs1, sb, ino, off, d, ino, n');
    hide Extent;
    SplicedExtent(fs1, fs2, ino, n, n', off, d);
  }

  lemma SplicedExtent(fs1: Fs, fs2: Fs, ino: nat, n: nat, m: nat, off: nat, d: seq<Byte>)
    requires m == Max(n, off + |d|) && off <= n && Backed(fs1, ino, n) && Backed(fs1, ino, m) && Backed(fs2, ino, m)
    requires forall k | 0 <= k < m ::
      Extent(fs2, ino, m)[k] == if off <= k < off + |d| then d[k - off] else Extent(fs1, ino, m)[k]
    ensures Extent(fs2, ino, m) == Splice(Extent(fs1, ino, n), off, d)
  {
    hide Backed, ByteAt, PtrAt;
    assert forall k | 0 <= k < n :: Extent(fs1, ino, m)[k] == Extent(fs1, ino, n)[k];
    SpliceIs(Extent(fs1, ino, n), off, d, Extent(fs2, ino, m));
  }

  lemma WriteStepOther(fs: Fs, fs1: Fs, sb: Super, ino: nat, off: nat, d: seq<Byte>, i: nat, m: nat)
    requires Tree(fs, sb) && Tree(fs1, sb) && Extends(fs, fs1)
    requires off < MAXFILE * BSIZE && off % BSIZE + |d| <= BSIZE
    requires ino in fs1.inodes && PtrAt(fs1, Loc(ino, Leaf(off / BSIZE))) != 0
    requires i != ino && Backed(fs, i, m)
    ensures PtrAt(fs1, Loc(ino, Leaf(off / BSIZE))) in fs1.blocks
    ensures var fs2 := Patched(fs1, ino, off / BSIZE, off % BSIZE, d);
      Backed(fs2, i, m) && Extent(fs2, i, m) == Extent(fs, i, m)
  {
    ExtendsExtent(fs, fs1, sb, i, m);
    PatchExtent(fs1, sb, ino, off, d, i, m);
  }
}
