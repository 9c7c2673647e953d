/** v6_balloc, v6_bmap, v6_readi and v6_writei of kern/v6.c and the chunking of filewrite (kern/file.c).

`blocks` is the logical contents of the disk as bread returns it.  `logged` counts the log_write calls of the
running transaction.
*/
module V6 {
  import opened Common
  import opened BlockTree

  /** The kernel stops with a panic, the call returns -1, or it returns a value. */
  datatype Result<T> = Ok(value: T) | Error | Panic

  /** size_t arithmetic wraps here. */
  const SIZE_T := 0x1_0000_0000_0000_0000

  function Min(a: nat, b: nat): (m: nat) {
    if a <= b then a else b
  }

  /** How many blocks n bytes at offset off lie in. */
  function Spanned(off: nat, n: nat): (k: nat) {
    if n == 0 then 0 else (off + n - 1) / BSIZE - off / BSIZE + 1
  }

  /** A round of the write loop starts a new block. */
  lemma SpanStep(off: nat, tot: nat, m: nat)
    requires tot == 0 || (off + tot) % BSIZE == 0
    requires m > 0 && (off + tot) % BSIZE + m <= BSIZE
    ensures Spanned(off, tot + m) == Spanned(off, tot) + 1
    ensures m == BSIZE - (off + tot) % BSIZE ==> (off + (tot + m)) % BSIZE == 0
  {
  }

  /** Bookkeeping of one round of the write loop. */
  lemma RoundFacts(off: nat, done: seq<Byte>, rest: seq<Byte>, m: nat)
    requires rest != [] && (done == [] || (off + |done|) % BSIZE == 0)
    requires m == Min(|rest|, BSIZE - (off + |done|) % BSIZE)
    ensures 0 < m <= |rest| && (off + |done|) % BSIZE + m <= BSIZE
    ensures done + rest[..m] + rest[m..] == done + rest
    ensures off + |done| + m == off + |done + rest[..m]|
    ensures Spanned(off, |done + rest[..m]|) == Spanned(off, |done|) + 1
    ensures rest[m..] == [] || (off + |done| + m) % BSIZE == 0
  {
    SpanStep(off, |done|, m);
  }

  /** The first n bytes of file i are the same in both. */
  ghost predicate SameExtent(fs: Fs, fs': Fs, i: nat, n: nat) {
    Backed(fs, i, n) && Backed(fs', i, n) && Extent(fs', i, n) == Extent(fs, i, n)
  }

  /** fs is fs0 with d written at off into the blocks of file ino, its size not yet updated. */
  ghost predicate LoopDone(fs0: Fs, fs: Fs, sb: Super, ino: nat, off: nat, d: seq<Byte>)
    requires Files(fs0, sb) && ino in fs0.inodes && off <= fs0.inodes[ino].size
  {
    && Tree(fs, sb)
    && fs.inodes.Keys == fs0.inodes.Keys
    && (forall i | i in fs.inodes :: i in fs0.inodes && fs.inodes[i].size == fs0.inodes[i].size)
    && Backed(fs, ino, Max(fs0.inodes[ino].size, off + |d|))
    && Extent(fs, ino, Max(fs0.inodes[ino].size, off + |d|)) == Splice(Content(fs0, sb, ino), off, d)
    && forall i | i in fs0.inodes && i != ino :: SameExtent(fs0, fs, i, fs0.inodes[i].size)
  }

  lemma LoopKeys(fs0: Fs, fs: Fs, sb: Super, ino: nat, off: nat, d: seq<Byte>)
    requires Files(fs0, sb) && ino in fs0.inodes && off <= fs0.inodes[ino].size
    requires LoopDone(fs0, fs, sb, ino, off, d)
    ensures fs.inodes.Keys == fs0.inodes.Keys
    ensures Tree(fs, sb) && Backed(fs, ino, Max(fs0.inodes[ino].size, off + |d|))
  {
  }

  lemma NothingWritten(fs: Fs, sb: Super, ino: nat, off: nat)
    requires Files(fs, sb) && ino in fs.inodes && off <= fs.inodes[ino].size
    ensures LoopDone(fs, fs, sb, ino, off, []) && Spanned(off, 0) == 0
  {
    hide Tree, PtrAt, ByteAt;
    assert Splice(Content(fs, sb, ino), off, []) == Content(fs, sb, ino);
  }

  /** fs' is fs with d copied into the block of byte `at` of file ino. */
  ghost predicate ChunkDone(fs: Fs, fs': Fs, sb: Super, ino: nat, n: nat, at: nat, d: seq<Byte>)
    requires Backed(fs, ino, n) && at <= n
  {
    && Tree(fs', sb)
    && fs'.inodes.Keys == fs.inodes.Keys
    && (forall i | i in fs'.inodes :: i in fs.inodes && fs'.inodes[i].size == fs.inodes[i].size)
    && Backed(fs', ino, Max(n, at + |d|))
    && Extent(fs', ino, Max(n, at + |d|)) == Splice(Extent(fs, ino, n), at, d)
    && forall i | i in fs.inodes && i != ino && Backed(fs, i, fs.inodes[i].size) ::
         SameExtent(fs, fs', i, fs.inodes[i].size)
  }

  lemma LoopStep(fs0: Fs, fs: Fs, fs': Fs, sb: Super, ino: nat, off: nat, d: seq<Byte>, e: seq<Byte>)
    requires Files(fs0, sb) && ino in fs0.inodes && off <= fs0.inodes[ino].size
    requires LoopDone(fs0, fs, sb, ino, off, d)
    requires ChunkDone(fs, fs', sb, ino, Max(fs0.inodes[ino].size, off + |d|), off + |d|, e)
    ensures LoopDone(fs0, fs', sb, ino, off, d + e)
  {
    SpliceTwice(Content(fs0, sb, ino), off, d, e);
    forall i | i in fs0.inodes && i != ino ensures SameExtent(fs0, fs', i, fs0.inodes[i].size) {
      assert SameExtent(fs0, fs, i, fs0.inodes[i].size);
      assert i in fs.inodes;
    }
  }

  /** The size update at the end of v6_writei; the field is 32 bits wide. */
  function Resized(fs: Fs, ino: nat, off: nat, n: nat): (r: Fs)
    requires ino in fs.inodes
  {
    if n > 0 && off + n > fs.inodes[ino].size
    then fs.(inodes := fs.inodes[ino := fs.inodes[ino].(size := (off + n) % WORD)]) else fs
  }

  lemma SizeKeepsPtrs(fs: Fs, ino: nat, size: nat, l: Loc)
    requires Shaped(fs) && ino in fs.inodes && LocOk(fs, l)
    ensures var fs' := fs.(inodes := fs.inodes[ino := fs.inodes[ino].(size := size)]);
      Shaped(fs') && LocOk(fs', l) && PtrAt(fs', l) == PtrAt(fs, l)
    decreases Depth(l.slot)
  {
    if InIndirect(l.slot) {
      SizeKeepsPtrs(fs, ino, size, Loc(l.ino, Parent(l.slot)));
    }
  }

  /** Shrinking what is looked at: a shorter extent is a prefix. */
  lemma SizeKeepsExtent(fs: Fs, ino: nat, size: nat, i: nat, n: nat, m: nat)
    requires ino in fs.inodes && Backed(fs, i, n) && m <= n
    ensures var fs' := fs.(inodes := fs.inodes[ino := fs.inodes[ino].(size := size)]);
      Backed(fs', i, m) && Extent(fs', i, m) == Extent(fs, i, n)[..m]
  {
    var fs' := fs.(inodes := fs.inodes[ino := fs.inodes[ino].(size := size)]);
    forall bn | 0 <= bn < MAXFILE ensures PtrAt(fs', Loc(i, Leaf(bn))) == PtrAt(fs, Loc(i, Leaf(bn))) {
      SizeKeepsPtrs(fs, ino, size, Loc(i, Leaf(bn)));
    }
    forall k | 0 <= k < m ensures ByteAt(fs', i, k) == ByteAt(fs, i, k) {
      assert k / BSIZE < MAXFILE && k / BSIZE * BSIZE < n;
    }
  }

  lemma SizeKeepsTree(fs: Fs, sb: Super, ino: nat, size: nat)
    requires Tree(fs, sb) && ino in fs.inodes
    ensures Tree(fs.(inodes := fs.inodes[ino := fs.inodes[ino].(size := size)]), sb)
  {
    var fs' := fs.(inodes := fs.inodes[ino := fs.inodes[ino].(size := size)]);
    forall l | LocOk(fs', l) ensures LocOk(fs, l) && PtrAt(fs', l) == PtrAt(fs, l) {
      SizeKeepsPtrs(fs, ino, size, l);
    }
  }

  /** The contents c with d written at off, cut at the size as far as 32 bits hold it. */
  function Stored(c: seq<Byte>, off: nat, d: seq<Byte>): (r: seq<Byte>)
    requires off <= |c|
  {
    if d != [] && off + |d| > |c| then Splice(c, off, d)[..(off + |d|) % WORD] else Splice(c, off, d)
  }

  /** fs' is fs after a successful v6_writei of d at off into file ino. */
  ghost predicate WriteDone(fs: Fs, fs': Fs, sb: Super, ino: nat, off: nat, d: seq<Byte>) {
    && Files(fs, sb) && ino in fs.inodes
    && Files(fs', sb)
    && fs'.inodes.Keys == fs.inodes.Keys
    && off <= |Content(fs, sb, ino)|
    && Content(fs', sb, ino) == Stored(Content(fs, sb, ino), off, d)
    && (off + |d| < WORD <==> Content(fs', sb, ino) == Splice(Content(fs, sb, ino), off, d))
    && forall i | i in fs.inodes && i != ino :: Content(fs', sb, i) == Content(fs, sb, i)
  }

  /** What was written is on disk where the block numbers lead. */
  lemma WrittenBytes(fs: Fs, fs': Fs, sb: Super, ino: nat, off: nat, d: seq<Byte>)
    requires WriteDone(fs, fs', sb, ino, off, d) && off + |d| < WORD
    ensures forall k: nat | k < |d| :: HasByte(fs', ino, off + k, d[k])
  {
    hide Files, Content, HasByte, Stored;
    var c := Content(fs', sb, ino);
    assert c[off..off + |d|] == d;
    SliceBytes(fs', sb, ino, off, d);
  }

  lemma SizeOther(fs0: Fs, fs: Fs, sb: Super, ino: nat, size: nat, i: nat)
    requires Files(fs0, sb) && ino in fs.inodes && i in fs0.inodes && SameExtent(fs0, fs, i, fs0.inodes[i].size)
    ensures var fs' := fs.(inodes := fs.inodes[ino := fs.inodes[ino].(size := size)]);
      Backed(fs', i, fs0.inodes[i].size) && Extent(fs', i, fs0.inodes[i].size) == Content(fs0, sb, i)
  {
    var m := fs0.inodes[i].size;
    SizeKeepsExtent(fs, ino, size, i, m, m);
    assert Extent(fs, i, m)[..m] == Extent(fs, i, m);
  }

  lemma SizeUpdate(fs0: Fs, fs: Fs, sb: Super, ino: nat, off: nat, d: seq<Byte>)
    requires Files(fs0, sb) && ino in fs0.inodes && off <= fs0.inodes[ino].size
    requires LoopDone(fs0, fs, sb, ino, off, d)
    ensures WriteDone(fs0, Resized(fs, ino, off, |d|), sb, ino, off, d)
  {
    hide Tree, PtrAt, Backed, SameExtent;
    var fs' := Resized(fs, ino, off, |d|);
    var size := fs'.inodes[ino].size;
    assert fs' == fs.(inodes := fs.inodes[ino := fs.inodes[ino].(size := size)]);
    SizeKeepsTree(fs, sb, ino, size);
    SizeOwn(fs0, fs, sb, ino, off, d);
    forall i | i in fs0.inodes && i != ino
      ensures Backed(fs', i, fs'.inodes[i].size) && Extent(fs', i, fs'.inodes[i].size) == Content(fs0, sb, i)
    {
      SizeOther(fs0, fs, sb, ino, size, i);
    }
  }

  lemma SizeOwn(fs0: Fs, fs: Fs, sb: Super, ino: nat, off: nat, d: seq<Byte>)
    requires Files(fs0, sb) && ino in fs0.inodes && off <= fs0.inodes[ino].size
    requires LoopDone(fs0, fs, sb, ino, off, d)
    ensures var fs' := Resized(fs, ino, off, |d|); var size := fs'.inodes[ino].size;
      && Backed(fs', ino, size)
      && Extent(fs', ino, size) == Stored(Content(fs0, sb, ino), off, d)
      && (off + |d| < WORD <==> Extent(fs', ino, size) == Splice(Content(fs0, sb, ino), off, d))
  {
    var fs' := Resized(fs, ino, off, |d|);
    var size, n := fs'.inodes[ino].size, Max(fs0.inodes[ino].size, off + |d|);
    assert fs' == fs.(inodes := fs.inodes[ino := fs.inodes[ino].(size := size)]);
    SizeKeepsExtent(fs, ino, size, ino, n, size);
    hide Tree, PtrAt, Backed, SameExtent;
    assert |Splice(Content(fs0, sb, ino), off, d)| == n;
    if off + |d| < WORD {
      assert size == n;
      assert Extent(fs, ino, n)[..n] == Extent(fs, ino, n);
    } else {
      assert size < n;
    }
  }

  /** The part of one block that v6_readi copies is the matching part of the file. */
  lemma ReadChunk(fs: Fs, sb: Super, ino: nat, at: nat, m: nat)
    requires Files(fs, sb) && ino in fs.inodes && m > 0 && at + m <= fs.inodes[ino].size && at % BSIZE + m <= BSIZE
    ensures Tree(fs, sb)
    ensures at / BSIZE < MAXFILE && PtrAt(fs, Loc(ino, Leaf(at / BSIZE))) in fs.blocks
    ensures PtrAt(fs, Loc(ino, Leaf(at / BSIZE))) != 0
    ensures fs.blocks[PtrAt(fs, Loc(ino, Leaf(at / BSIZE)))][at % BSIZE..at % BSIZE + m] ==
      Content(fs, sb, ino)[at..at + m]
  {
    assert at / BSIZE * BSIZE < fs.inodes[ino].size;
    hide Tree, PtrAt;
    var b := fs.blocks[PtrAt(fs, Loc(ino, Leaf(at / BSIZE)))];
    var x, y := b[at % BSIZE..at % BSIZE + m], Content(fs, sb, ino)[at..at + m];
    forall k | 0 <= k < m ensures x[k] == y[k] {
      assert (at + k) / BSIZE == at / BSIZE && (at + k) % BSIZE == at % BSIZE + k;
    }
  }

  /** Bit bi of the bitmap block that starts at block number b. */
  lemma BitAt(bm: Bitmap, b: nat, bi: nat)
    requires b % BPB == 0 && bi < BPB && b + bi < |bm| * BPB
    ensures b / BPB < |bm| && (Marked(bm, b + bi) <==> Bit(bm[b / BPB][bi / 8], bi % 8))
  {
    hide Bit;
    WithinBlock(b, bi);
  }

  lemma WithinBlock(b: nat, bi: nat)
    requires b % BPB == 0 && bi < BPB
    ensures (b + bi) / BPB == b / BPB && (b + bi) % BPB == bi && (b + bi) % 8 == bi % 8
  {
    var q := b / BPB;
    assert b == BPB * q;
    assert b + bi == 8 * (4096 * q) + bi;
  }

  /** The block of byte at is there if the bytes up to its end are backed. */
  lemma BlockThere(fs: Fs, ino: nat, at: nat, n: nat)
    requires n > 0 && at + n <= MAXFILE * BSIZE
    ensures at / BSIZE < MAXFILE
    ensures Backed(fs, ino, at + n) ==> PtrAt(fs, Loc(ino, Leaf(at / BSIZE))) != 0
  {
    assert at / BSIZE * BSIZE < at + n;
  }

  lemma LessBacked(fs: Fs, ino: nat, n: nat, m: nat)
    requires m <= n
    ensures Backed(fs, ino, n) ==> Backed(fs, ino, m)
  {
  }

  lemma StaysBacked(fs: Fs, fs1: Fs, sb: Super, ino: nat, at: nat, d: seq<Byte>, m: nat)
    requires Tree(fs, sb) && Tree(fs1, sb) && Extends(fs, fs1) && Backed(fs, ino, m)
    requires at < MAXFILE * BSIZE && at % BSIZE + |d| <= BSIZE
    requires ino in fs1.inodes && PtrAt(fs1, Loc(ino, Leaf(at / BSIZE))) != 0
    ensures PtrAt(fs1, Loc(ino, Leaf(at / BSIZE))) in fs1.blocks
    ensures Backed(Patched(fs1, ino, at / BSIZE, at % BSIZE, d), ino, m)
  {
    hide Tree, Extends, PtrAt, Backed;
    ExtendsExtent(fs, fs1, sb, ino, m);
    PatchKeepsBacked(fs1, sb, ino, at, d, ino, m);
  }

  lemma ExtendsKeys(fs: Fs, fs1: Fs, sb: Super)
    requires Tree(fs, sb) && Tree(fs1, sb) && Extends(fs, fs1)
    ensures fs1.inodes.Keys == fs.inodes.Keys
  {
  }

  /** bmap turned fs into fs1; copying d into the block completes the round. */
  lemma ChunkFacts(fs: Fs, fs1: Fs, sb: Super, ino: nat, n: nat, at: nat, d: seq<Byte>)
    requires Tree(fs, sb) && Tree(fs1, sb) && Extends(fs, fs1)
    requires Backed(fs, ino, n) && at <= n && at + |d| <= MAXFILE * BSIZE && d != [] && at % BSIZE + |d| <= BSIZE
    requires ino in fs1.inodes && PtrAt(fs1, Loc(ino, Leaf(at / BSIZE))) != 0
    ensures Shaped(fs1) && PtrAt(fs1, Loc(ino, Leaf(at / BSIZE))) in fs1.blocks
    ensures var fs2 := Patched(fs1, ino, at / BSIZE, at % BSIZE, d);
      ChunkDone(fs, fs2, sb, ino, n, at, d) && forall m: nat | Backed(fs, ino, m) :: Backed(fs2, ino, m)
  {
    WriteStep(fs, fs1, sb, ino, n, at, d);
    hide Tree, PtrAt, Backed;
    var fs2 := Patched(fs1, ino, at / BSIZE, at % BSIZE, d);
    forall i | i in fs.inodes && i != ino && Backed(fs, i, fs.inodes[i].size)
      ensures SameExtent(fs, fs2, i, fs.inodes[i].size)
    {
      WriteStepOther(fs, fs1, sb, ino, at, d, i, fs.inodes[i].size);
    }
    forall m: nat | Backed(fs, ino, m) ensures Backed(fs2, ino, m) {
      StaysBacked(fs, fs1, sb, ino, at, d, m);
    }
  }

  lemma BackedToWord(fs: Fs, sb: Super, ino: nat)
    requires Files(fs, sb) && ino in fs.inodes && fs.inodes[ino].size == WORD - 1
    ensures WORD <= MAXFILE * BSIZE && Backed(fs, ino, WORD)
  {
    forall bn | 0 <= bn < MAXFILE && bn * BSIZE < WORD ensures bn * BSIZE < WORD - 1 {
    }
  }

  lemma WrapsEmpty(fs: Fs, fs': Fs, sb: Super, ino: nat, x: Byte)
    requires WriteDone(fs, fs', sb, ino, WORD - 1, [x]) && fs.inodes[ino].size == WORD - 1
    ensures Files(fs', sb) && ino in fs'.inodes && Content(fs', sb, ino) == []
  {
    hide Tree, PtrAt, ByteAt, Splice;
    var c := Content(fs, sb, ino);
    assert |c| == WORD - 1;
    assert Stored(c, WORD - 1, [x]) == Splice(c, WORD - 1, [x])[..0];
  }

  lemma JoinSlices(c: seq<Byte>, i: nat, j: nat, k: nat)
    requires i <= j <= k <= |c|
    ensures c[i..j] + c[j..k] == c[i..k]
  {
  }

  /** d is what a read of n bytes at off yields: the slice of the contents, cut at the end of the file, each byte as
      the block numbers on disk lead to it. */
  ghost predicate ReadDone(fs: Fs, sb: Super, ino: nat, off: nat, n: nat, d: seq<Byte>)
    requires Files(fs, sb) && ino in fs.inodes
  {
    && off <= fs.inodes[ino].size && |d| == Min(n, fs.inodes[ino].size - off)
    && d == Content(fs, sb, ino)[off..off + |d|]
    && forall k: nat | k < |d| :: HasByte(fs, ino, off + k, d[k])
  }

  lemma ReadIs(fs: Fs, sb: Super, ino: nat, off: nat, n: nat, d: seq<Byte>)
    requires Files(fs, sb) && ino in fs.inodes && off <= fs.inodes[ino].size && |d| == Min(n, fs.inodes[ino].size - off)
    requires off + |d| <= |Content(fs, sb, ino)| && d == Content(fs, sb, ino)[off..off + |d|]
    ensures ReadDone(fs, sb, ino, off, n, d)
  {
    hide Files, Content, HasByte;
    SliceBytes(fs, sb, ino, off, d);
  }

  /** Every block in the range that v6_balloc searches is marked: the bitmap blocks that start below ninodes. */
  ghost predicate Full(bm: Bitmap, sb: Super) {
    forall c | 0 <= c < sb.size && c / BPB * BPB < sb.ninodes :: Marked(bm, c)
  }

  /** Full does not mean full: with no more inodes than one bitmap block has bits, only its blocks are searched. */
  lemma FullTooEarly(sb: Super, rest: Bitmap, c: nat)
    requires sb.ninodes <= BPB <= c < sb.size && !Marked([seq(BSIZE, _ => 255)] + rest, c)
    ensures Full([seq(BSIZE, _ => 255)] + rest, sb)
  {
    var bm := [seq(BSIZE, _ => 255)] + rest;
    forall b | 0 <= b < sb.size && b / BPB * BPB < sb.ninodes ensures Marked(bm, b) {
      assert Pow2(8) == 256;
      Ones(8, b % 8);
    }
  }

  lemma {:induction false} Ones(n: nat, i: nat)
    requires i < n
    ensures Bit(Pow2(n) - 1, i)
  {
    if i > 0 {
      Ones(n - 1, i - 1);
    }
  }

  /** The bitmap search of v6_balloc. */
  method FindFree(bm: Bitmap, sb: Super) returns (r: Result<nat>)
    requires sb.size <= |bm| * BPB
    ensures !r.Error?
    ensures r.Ok? ==> r.value < sb.size && !Marked(bm, r.value) && r.value / BPB * BPB < sb.ninodes
    ensures r.Panic? <==> Full(bm, sb)
  {
    hide Marked, Bit;
    var b := 0;
    while b < sb.ninodes
      invariant b >= 0 && b % BPB == 0
      invariant forall c | 0 <= c < b && c < sb.size :: Marked(bm, c)
    {
      var bi := 0;
      while bi < BPB && b + bi < sb.size
        invariant 0 <= bi <= BPB
        invariant forall c | 0 <= c < b + bi && c < sb.size :: Marked(bm, c)
      {
        BitAt(bm, b, bi);
        if !Bit(bm[b / BPB][bi / 8], bi % 8) {
          assert (b + bi) / BPB * BPB == b;
          return Ok(b + bi);
        }
        bi := bi + 1;
      }
      b := b + BPB;
    }
    forall c | 0 <= c < sb.size && c / BPB * BPB < sb.ninodes ensures Marked(bm, c) {
      assert c < b;
    }
    return Panic;
  }

  /** ((MAXOPBLOCKS - 1 - 2 - 2) / 2) * 512 */
  const CHUNK := 9216

  /** A chunk lies in at most four blocks, so its writes make at most 9 * 4 + 1 log_write calls. */
  lemma ChunkSpan(off: nat, n: nat)
    requires n <= CHUNK
    ensures Spanned(off, n) <= 4
  {
  }

  /** The bound of four blocks is reached. */
  lemma ChunkSpanTight()
    ensures Spanned(4095, CHUNK) == 4
  {
  }

  /** fs is fs0 after filewrite has written the first `done` bytes of addr. */
  ghost predicate ChunksDone(fs0: Fs, fs: Fs, sb: Super, ino: nat, off: nat, addr: seq<Byte>, done: nat) {
    && Files(fs0, sb) && ino in fs0.inodes && done <= |addr|
    && Files(fs, sb) && fs.inodes.Keys == fs0.inodes.Keys
    && (done == 0 ==> fs == fs0)
    && (done > 0 ==> off <= |Content(fs0, sb, ino)|)
    && (done > 0 && off + done < WORD ==> Content(fs, sb, ino) == Splice(Content(fs0, sb, ino), off, addr[..done]))
    && forall i | i in fs0.inodes && i != ino :: Content(fs, sb, i) == Content(fs0, sb, i)
  }

  lemma ChunksKeepFiles(fs0: Fs, fs: Fs, sb: Super, ino: nat, off: nat, addr: seq<Byte>, done: nat)
    requires ChunksDone(fs0, fs, sb, ino, off, addr, done)
    ensures Files(fs, sb) && ino in fs.inodes && ino in fs0.inodes
  {
  }

  lemma NoChunkYet(fs: Fs, sb: Super, ino: nat, off: nat, addr: seq<Byte>)
    requires Files(fs, sb) && ino in fs.inodes
    ensures ChunksDone(fs, fs, sb, ino, off, addr, 0)
  {
  }

  lemma ChunkStep(fs0: Fs, fs: Fs, fs': Fs, sb: Super, ino: nat, off: nat, addr: seq<Byte>, done: nat, n: nat)
    requires done + n <= |addr| && n > 0
    requires ChunksDone(fs0, fs, sb, ino, off, addr, done)
    requires WriteDone(fs, fs', sb, ino, off + done, addr[done..done + n])
    ensures ChunksDone(fs0, fs', sb, ino, off, addr, done + n)
    ensures fs'.inodes.Keys == fs.inodes.Keys
  {
    hide Files, Content, Splice;
    assert addr[..done] + addr[done..done + n] == addr[..done + n];
    if done == 0 {
      assert addr[..done + n] == addr[done..done + n];
    } else {
      SpliceTwice(Content(fs0, sb, ino), off, addr[..done], addr[done..done + n]);
    }
  }

  /** A chunk is refused only if the file was too short to begin with or the whole write would reach 2^32. */
  lemma ChunkRefused(fs0: Fs, fs: Fs, sb: Super, ino: nat, off: nat, addr: seq<Byte>, done: nat, n: nat)
    requires done + n <= |addr| && ChunksDone(fs0, fs, sb, ino, off, addr, done)
    requires off + done > fs.inodes[ino].size || off + done + n >= SIZE_T || off + done + n > MAXFILE * BSIZE
    ensures off > fs0.inodes[ino].size || off + |addr| >= WORD
  {
    assert |Content(fs, sb, ino)| == fs.inodes[ino].size;
  }

  /** struct file, for a regular file. */
  class OpenFile {
    const ino: nat
    const writable: bool
    var off: nat

    constructor (ino: nat, writable: bool)
      ensures this.ino == ino && this.writable == writable && off == 0
    {
      this.ino, this.writable, off := ino, writable, 0;
    }
  }

  class FileSystem {
    const sb: Super
    var bitmap: Bitmap
    var blocks: map<nat, Block>
    var inodes: map<nat, Inode>
    var logged: nat

    constructor (sb: Super, fs: Fs)
      requires Tree(fs, sb)
      ensures S() == fs && this.sb == sb && logged == 0
    {
      this.sb := sb;
      bitmap, blocks, inodes := fs.bitmap, fs.blocks, fs.inodes;
      logged := 0;
    }

    ghost function S(): (fs: Fs)
      reads this
    {
      Fs(bitmap, blocks, inodes)
    }

    /** v6_balloc with v6_bzero: find a clear bit, set it, zero the block.  The search covers the bitmap blocks
        that start below ninodes. */
    method Balloc() returns (r: Result<nat>)
      requires sb.size <= |bitmap| * BPB
      modifies this`bitmap, this`blocks, this`logged
      ensures !r.Error?
      ensures r.Ok? ==>
        && r.value < sb.size && !Marked(old(bitmap), r.value)
        && bitmap == Mark(old(bitmap), r.value)
        && blocks == old(blocks)[r.value := Zeros()]
        && logged == old(logged) + 2
      ensures r.Panic? <==> Full(old(bitmap), sb)
      ensures r.Panic? ==> bitmap == old(bitmap) && blocks == old(blocks) && logged == old(logged)
    {
      r := FindFree(bitmap, sb);
      if r.Ok? {
        bitmap := Mark(bitmap, r.value);
        blocks := blocks[r.value := Zeros()];
        logged := logged + 2;
      }
    }

    /** The step bmap repeats at each level: read the pointer at a place, and when it is 0 allocate a block and
        store it there, logging the indirect block if the place is in one. */
    method Ensure(l: Loc) returns (r: Result<nat>)
      requires Tree(S(), sb) && LocOk(S(), l)
      requires InIndirect(l.slot) ==> PtrAt(S(), Loc(l.ino, Parent(l.slot))) != 0
      modifies this`bitmap, this`blocks, this`inodes, this`logged
      ensures !r.Error?
      ensures Tree(S(), sb) && Extends(old(S()), S())
      ensures r.Ok? ==> LocOk(S(), l) && r.value == PtrAt(S(), l) != 0
      ensures PtrAt(old(S()), l) != 0 ==> r.Ok? && S() == old(S()) && logged == old(logged)
      ensures r.Panic? <==> PtrAt(old(S()), l) == 0 && Full(old(bitmap), sb)
      ensures r.Panic? ==> S() == old(S())
      ensures old(logged) <= logged <= old(logged) + if InIndirect(l.slot) then 3 else 2
    {
      hide Extends, Full;
      ghost var fs := S();
      ExtendsSelf(fs, sb);
      var p := ReadPtr(l);
      if p != 0 {
        return Ok(p);
      }
      var q := if InIndirect(l.slot) then ReadPtr(Loc(l.ino, Parent(l.slot))) else 0;
      r := Balloc();
      if r.Panic? { return; }
      var b := r.value;
      HangWellFormed(fs, sb, l, b);
      HangExtends(fs, sb, l, b);
      if InIndirect(l.slot) {
        assert LocOk(fs, Loc(l.ino, Parent(l.slot)));
        blocks := blocks[q := PutWord(blocks[q], EntryOf(l.slot), b)];
        logged := logged + 1;
      } else {
        var ip := inodes[l.ino];
        inodes := inodes[l.ino := ip.(addrs := ip.addrs[AddrIndex(l.slot) := b])];
      }
      assert S() == Hung(fs, l, b);
    }

    /** Follow the pointers to the place l. */
    function ReadPtr(l: Loc): (p: nat)
      requires Shaped(S()) && LocOk(S(), l)
      reads this
    {
      PtrAt(Fs(bitmap, blocks, inodes), l)
    }

    /** v6_bmap: the disk block of the bn-th block of a file, allocated if there is none.  A block that is there
        is returned without any change. */
    method Bmap(ino: nat, bn: nat) returns (r: Result<nat>)
      requires Tree(S(), sb) && ino in inodes
      modifies this`bitmap, this`blocks, this`inodes, this`logged
      ensures !r.Error? && (bn >= MAXFILE ==> r.Panic?)
      ensures Tree(S(), sb) && Extends(old(S()), S())
      ensures r.Ok? ==> ino in inodes && r.value == PtrAt(S(), Loc(ino, Leaf(bn))) && sb.First() <= r.value < sb.size
      ensures r.Ok? ==> r.value != 0 && MapsTo(S(), ino, bn, r.value)
      ensures bn < MAXFILE && PtrAt(old(S()), Loc(ino, Leaf(bn))) != 0 ==>
        r.Ok? && S() == old(S()) && logged == old(logged)
      ensures r.Panic? ==> bn >= MAXFILE || Full(bitmap, sb)
      ensures old(logged) <= logged <= old(logged) + 8
    {
      hide Extends, Full, PtrAt, MapsTo;
      if bn < NDIRECT {
        assert Leaf(bn) == Direct(bn);
        r := Ensure(Loc(ino, Direct(bn)));
        if r.Ok? { PtrMapsTo(S(), ino, bn); }
        return;
      }
      var n := bn - NDIRECT;
      if n < NINDIRECT {
        assert Leaf(bn) == SingleAt(n);
        r := BmapSingle(ino, n);
        if r.Ok? { PtrMapsTo(S(), ino, bn); }
        return;
      }
      n := n - NINDIRECT;
      if n < NINDIRECT * NINDIRECT {
        assert Leaf(bn) == Double2At(n / NINDIRECT, n % NINDIRECT);
        r := BmapDouble(ino, n / NINDIRECT, n % NINDIRECT);
        if r.Ok? { PtrMapsTo(S(), ino, bn); }
        return;
      }
      ExtendsSelf(S(), sb);
      return Panic;
    }

    /** The single-indirect branch of v6_bmap. */
    method BmapSingle(ino: nat, j: nat) returns (r: Result<nat>)
      requires Tree(S(), sb) && ino in inodes && j < NINDIRECT
      modifies this`bitmap, this`blocks, this`inodes, this`logged
      ensures !r.Error?
      ensures Tree(S(), sb) && Extends(old(S()), S())
      ensures r.Ok? ==> ino in inodes && r.value == PtrAt(S(), Loc(ino, SingleAt(j))) != 0
      ensures PtrAt(old(S()), Loc(ino, SingleAt(j))) != 0 ==> r.Ok? && S() == old(S()) && logged == old(logged)
      ensures r.Panic? ==> Full(bitmap, sb)
      ensures old(logged) <= logged <= old(logged) + 5
    {
      hide Extends, Full, Tree, PtrAt;
      ghost var fs0 := S();
      ParentThere(fs0, sb, Loc(ino, SingleAt(j)));
      r := Ensure(Loc(ino, Single));
      if r.Panic? { return; }
      ghost var fs1 := S();
      r := Ensure(Loc(ino, SingleAt(j)));
      ExtendsTrans(fs0, fs1, S(), sb);
    }

    /** The double-indirect branch of v6_bmap. */
    method BmapDouble(ino: nat, i: nat, j: nat) returns (r: Result<nat>)
      requires Tree(S(), sb) && ino in inodes && i < NINDIRECT && j < NINDIRECT
      modifies this`bitmap, this`blocks, this`inodes, this`logged
      ensures !r.Error?
      ensures Tree(S(), sb) && Extends(old(S()), S())
      ensures r.Ok? ==> ino in inodes && r.value == PtrAt(S(), Loc(ino, Double2At(i, j))) != 0
      ensures PtrAt(old(S()), Loc(ino, Double2At(i, j))) != 0 ==> r.Ok? && S() == old(S()) && logged == old(logged)
      ensures r.Panic? ==> Full(bitmap, sb)
      ensures old(logged) <= logged <= old(logged) + 8
    {
      hide Extends, Full, Tree, PtrAt;
      ghost var fs0 := S();
      ParentThere(fs0, sb, Loc(ino, Double2At(i, j)));
      ParentThere(fs0, sb, Loc(ino, DoubleAt(i)));
      r := Ensure(Loc(ino, Double));
      if r.Panic? { return; }
      ghost var fs1 := S();
      r := Ensure(Loc(ino, DoubleAt(i)));
      ExtendsTrans(fs0, fs1, S(), sb);
      if r.Panic? { return; }
      ghost var fs2 := S();
      r := Ensure(Loc(ino, Double2At(i, j)));
      ExtendsTrans(fs0, fs2, S(), sb);
    }

    /** v6_readi on a regular file: the bytes of the file, clipped at its end.  Reading never allocates. */
    method Readi(ino: nat, off: nat, n: nat) returns (r: Result<seq<Byte>>)
      requires Files(S(), sb) && ino in inodes
      modifies this`bitmap, this`blocks, this`inodes, this`logged
      ensures S() == old(S()) && logged == old(logged)
      ensures !r.Panic?
      ensures r.Error? <==> off > old(inodes)[ino].size || off + n >= SIZE_T
      ensures r.Ok? ==> ReadDone(S(), sb, ino, off, n, r.value)
    {
      if off > inodes[ino].size || off + n >= SIZE_T {
        return Error;
      }
      var todo := if off + n > inodes[ino].size then inodes[ino].size - off else n;
      ghost var c := Content(S(), sb, ino);
      assert |c| == inodes[ino].size;
      hide Files, Tree, Extends, PtrAt, Content, Backed, ReadDone;
      var dst, at := [], off;
      while at < off + todo
        invariant off <= at <= off + todo
        invariant S() == old(S()) && logged == old(logged)
        invariant dst == c[off..at]
        decreases off + todo - at
      {
        var d := ReadRound(ino, at, off + todo - at);
        JoinSlices(c, off, at, at + |d|);
        dst := dst + d;
        at := at + |d|;
      }
      ReadIs(S(), sb, ino, off, n, dst);
      return Ok(dst);
    }

    /** The loop body of v6_readi: copy from one block. */
    method ReadRound(ino: nat, at: nat, left: nat) returns (d: seq<Byte>)
      requires Files(S(), sb) && ino in inodes && left > 0 && at + left <= inodes[ino].size
      modifies this`bitmap, this`blocks, this`inodes, this`logged
      ensures S() == old(S()) && logged == old(logged)
      ensures 0 < |d| <= left && d == Content(S(), sb, ino)[at..at + |d|]
    {
      var m := Min(left, BSIZE - at % BSIZE);
      ReadChunk(S(), sb, ino, at, m);
      var b := Bmap(ino, at / BSIZE);
      d := blocks[b.value][at % BSIZE..at % BSIZE + m];
    }

    /** The loop body of v6_writei: bmap, copy into the block, log_write. */
    method WriteChunk(ino: nat, at: nat, d: seq<Byte>, ghost n: nat) returns (r: Result<nat>)
      requires Tree(S(), sb) && ino in inodes
      requires d != [] && at % BSIZE + |d| <= BSIZE && at + |d| <= MAXFILE * BSIZE
      requires Backed(S(), ino, n) && at <= n
      modifies this`bitmap, this`blocks, this`inodes, this`logged
      ensures !r.Error?
      ensures inodes.Keys == old(inodes).Keys
      ensures r.Panic? ==> Full(bitmap, sb)
      ensures Backed(old(S()), ino, at + |d|) ==> r.Ok?
      ensures r.Ok? ==> forall m: nat | Backed(old(S()), ino, m) :: Backed(S(), ino, m)
      ensures r.Ok? ==> ChunkDone(old(S()), S(), sb, ino, n, at, d)
      ensures r.Ok? ==> old(logged) < logged <= old(logged) + 9
    {
      hide Tree, Extends, Full, Backed, PtrAt, ChunkDone, SameExtent;
      ghost var fs := S();
      BlockThere(fs, ino, at, |d|);
      r := Bmap(ino, at / BSIZE);
      ExtendsKeys(fs, S(), sb);
      if r.Panic? { return; }
      ghost var fs1 := S();
      ChunkFacts(fs, fs1, sb, ino, n, at, d);
      blocks := blocks[r.value := Patch(blocks[r.value], at % BSIZE, d)];
      logged := logged + 1;
      assert S() == Patched(fs1, ino, at / BSIZE, at % BSIZE, d);
    }

    /** The loop of v6_writei.  The size in the inode has not been touched yet. */
    method WriteLoop(ino: nat, off: nat, src: seq<Byte>) returns (r: Result<nat>)
      requires Files(S(), sb) && ino in inodes && off <= inodes[ino].size && off + |src| <= MAXFILE * BSIZE
      modifies this`bitmap, this`blocks, this`inodes, this`logged
      ensures !r.Error?
      ensures inodes.Keys == old(inodes).Keys
      ensures r.Panic? ==> Full(bitmap, sb)
      ensures Backed(old(S()), ino, off + |src|) ==> r.Ok?
      ensures r.Ok? ==> LoopDone(old(S()), S(), sb, ino, off, src)
      ensures r.Ok? ==> old(logged) <= logged <= old(logged) + 9 * Spanned(off, |src|)
    {
      hide Files, Tree, Content, LoopDone, Spanned, Splice, Min, Full, Backed;
      ghost var fs0 := S();
      ghost var done: seq<Byte> := [];
      NothingWritten(fs0, sb, ino, off);
      var at, rest := off, src;
      while rest != []
        invariant done + rest == src && at == off + |done|
        invariant done == [] || rest == [] || at % BSIZE == 0
        invariant LoopDone(fs0, S(), sb, ino, off, done) && inodes.Keys == fs0.inodes.Keys
        invariant Backed(fs0, ino, off + |src|) ==> Backed(S(), ino, off + |src|)
        invariant old(logged) <= logged <= old(logged) + 9 * Spanned(off, |done|)
        decreases |rest|
      {
        var m := Min(|rest|, BSIZE - at % BSIZE);
        RoundFacts(off, done, rest, m);
        r := WriteRound(fs0, ino, off, done, at, rest[..m], off + |src|);
        if r.Panic? { return; }
        done, at, rest := done + rest[..m], at + m, rest[m..];
      }
      assert done + [] == done;
      r := Ok(|src|);
    }

    /** The loop body of v6_writei after `done`, of a write that ends at `end`. */
    method WriteRound(ghost fs0: Fs, ino: nat, ghost off: nat, ghost done: seq<Byte>, at: nat, d: seq<Byte>, ghost end: nat)
        returns (r: Result<nat>)
      requires Files(fs0, sb) && ino in fs0.inodes && off <= fs0.inodes[ino].size
      requires LoopDone(fs0, S(), sb, ino, off, done) && at == off + |done|
      requires d != [] && at % BSIZE + |d| <= BSIZE && at + |d| <= end <= MAXFILE * BSIZE
      modifies this`bitmap, this`blocks, this`inodes, this`logged
      ensures !r.Error? && inodes.Keys == old(inodes).Keys
      ensures r.Panic? ==> Full(bitmap, sb)
      ensures Backed(old(S()), ino, end) ==> r.Ok? && Backed(S(), ino, end)
      ensures r.Ok? ==> LoopDone(fs0, S(), sb, ino, off, done + d)
      ensures r.Ok? ==> old(logged) < logged <= old(logged) + 9
    {
      hide Files, Tree, Backed, ChunkDone, LoopDone, Full;
      LoopKeys(fs0, S(), sb, ino, off, done);
      LessBacked(S(), ino, end, at + |d|);
      r := WriteChunk(ino, at, d, Max(fs0.inodes[ino].size, at));
      if r.Ok? {
        LoopStep(fs0, old(S()), S(), sb, ino, off, done, d);
      }
    }

    /** v6_writei on a regular file: on success exactly the bytes [off, off + n) are replaced, the file grows
        as needed and no other file changes.  The new size is stored in 32 bits, so the file is what was asked
        for if and only if the write ends below 2^32. */
    method Writei(ino: nat, off: nat, src: seq<Byte>) returns (r: Result<nat>)
      requires Files(S(), sb) && ino in inodes
      modifies this`bitmap, this`blocks, this`inodes, this`logged
      ensures inodes.Keys == old(inodes).Keys
      ensures r.Error? <==> off > old(inodes)[ino].size || off + |src| >= SIZE_T || off + |src| > MAXFILE * BSIZE
      ensures r.Error? ==> S() == old(S()) && logged == old(logged)
      ensures r.Panic? ==> Full(bitmap, sb) && !Backed(old(S()), ino, off + |src|)
      ensures r.Ok? ==>
        && r.value == |src|
        && WriteDone(old(S()), S(), sb, ino, off, src)
        && old(logged) <= logged <= old(logged) + 9 * Spanned(off, |src|) + 1
    {
      hide Files, Tree, Content, LoopDone, WriteDone, Spanned, Full, Backed;
      if off > inodes[ino].size || off + |src| >= SIZE_T {
        return Error;
      }
      if off + |src| > MAXFILE * BSIZE {
        return Error;
      }
      r := WriteLoop(ino, off, src);
      if r.Panic? { return; }
      SizeUpdate(old(S()), S(), sb, ino, off, src);
      if |src| > 0 && off + |src| > inodes[ino].size {
        inodes := inodes[ino := inodes[ino].(size := (off + |src|) % WORD)];
        logged := logged + 1;
      }
      r := Ok(|src|);
    }

    /** The failure of Writei at 2^32: one byte written behind a file of 2^32 - 1 bytes leaves it empty. */
    method WrapToEmpty(ino: nat, x: Byte) returns (r: Result<nat>)
      requires Files(S(), sb) && ino in inodes && inodes[ino].size == WORD - 1
      modifies this`bitmap, this`blocks, this`inodes, this`logged
      ensures r == Ok(1) && Files(S(), sb) && ino in inodes && Content(S(), sb, ino) == []
    {
      BackedToWord(S(), sb, ino);
      hide Files, Tree, Content, Backed;
      r := Writei(ino, WORD - 1, [x]);
      WrapsEmpty(old(S()), S(), sb, ino, x);
    }

    /** The loop body of filewrite: one chunk in its own transaction. */
    method WriteTransaction(ghost fs0: Fs, ghost off0: nat, f: OpenFile, addr: seq<Byte>, done: nat)
        returns (w: Result<nat>)
      requires done < |addr|
      requires ChunksDone(fs0, S(), sb, f.ino, off0, addr, done) && f.off == off0 + done
      modifies this`bitmap, this`blocks, this`inodes, this`logged, f
      ensures logged <= 37 || w.Panic?
      ensures w.Ok? ==>
        && w.value == Min(CHUNK, |addr| - done)
        && ChunksDone(fs0, S(), sb, f.ino, off0, addr, done + w.value) && f.off == off0 + done + w.value
      ensures w.Panic? ==> Full(bitmap, sb)
      ensures w.Error? ==> S() == old(S()) && f.off == old(f.off)
      ensures w.Error? ==> off0 > fs0.inodes[f.ino].size || off0 + |addr| >= WORD
    {
      hide ChunksDone, WriteDone, Files, Full;
      ChunksKeepFiles(fs0, S(), sb, f.ino, off0, addr, done);
      var n1 := Min(CHUNK, |addr| - done);
      logged := 0;
      w := Writei(f.ino, f.off, addr[done..done + n1]);
      ChunkSpan(f.off, n1);
      if w.Error? {
        ChunkRefused(fs0, S(), sb, f.ino, off0, addr, done, n1);
      }
      if w.Ok? {
        ChunkStep(fs0, old(S()), S(), sb, f.ino, off0, addr, done, n1);
        f.off := f.off + w.value;
      }
    }

    /** filewrite on a regular file: chunks of at most CHUNK bytes, each its own transaction.  ops lists the
        number of log_write calls of each transaction, all within the MAXOPBLOCKS that begin_op reserved; done is
        how many bytes were written. */
    method Filewrite(f: OpenFile, addr: seq<Byte>) returns (r: Result<nat>, done: nat, ghost ops: seq<nat>)
      requires Files(S(), sb) && f.ino in inodes
      modifies this`bitmap, this`blocks, this`inodes, this`logged, f
      ensures forall k | 0 <= k < |ops| :: ops[k] <= 37 < MAXOPBLOCKS
      ensures r.Panic? ==> Full(bitmap, sb)
      ensures !f.writable ==> r.Error? && S() == old(S()) && f.off == old(f.off)
      ensures f.writable && !r.Panic? ==>
        && done <= |addr| && f.off == old(f.off) + done
        && ChunksDone(old(S()), S(), sb, f.ino, old(f.off), addr, done)
        && r == (if done == |addr| then Ok(|addr|) else Error)
        && (old(f.off) <= old(inodes)[f.ino].size && old(f.off) + |addr| < WORD ==> r.Ok?)
    {
      hide ChunksDone, Files, Full;
      done, ops := 0, [];
      if !f.writable {
        return Error, done, ops;
      }
      ghost var fs0 := S();
      NoChunkYet(fs0, sb, f.ino, f.off, addr);
      while done < |addr|
        invariant 0 <= done <= |addr|
        invariant ChunksDone(fs0, S(), sb, f.ino, old(f.off), addr, done) && f.off == old(f.off) + done
        invariant forall k | 0 <= k < |ops| :: ops[k] <= 37
      {
        var w := WriteTransaction(fs0, old(f.off), f, addr, done);
        if w.Panic? { return Panic, done, ops; }
        ops := ops + [logged];
        if w.Error? { return Error, done, ops; }
        done := done + w.value;
      }
      return Ok(|addr|), done, ops;
    }
  }
}
