/** The on-disk redo log of kern/log.c as a list of atomic single-block writes.

A disk image maps block addresses to blocks.  Committing and recovering are the lists of block
writes that the code issues; a crash keeps a prefix of the list.  What a crash leaves behind is
judged by `Recovered`, the home blocks after one uninterrupted recovery.
*/
module RedoLog {
  import opened Common

  /** Words (32-bit integers) per block: BSIZE / sizeof(int). */
  const BLOCK_WORDS := 1024

  const LOGSIZE := MAXOPBLOCKS * 3

  type Block = b: seq<int> | |b| == BLOCK_WORDS witness seq(BLOCK_WORDS, _ => 0)

  datatype Addr = Addr(dev: nat, bno: nat)

  type Image = map<Addr, Block>

  datatype Write = Write(addr: Addr, data: Block)

  /** Where the log of one device lives: a header block, then size - 1 log blocks. */
  datatype Layout = Layout(dev: nat, start: nat, size: nat) {
    function Head(): Addr {
      Addr(dev, start)
    }

    function Slot(i: nat): Addr {
      Addr(dev, start + i + 1)
    }

    predicate InLog(a: Addr) {
      a.dev == dev && start <= a.bno < start + size
    }

    /** The log area is on the disk and can hold LOGSIZE blocks besides its header. */
    predicate Fits(d: Image) {
      && size - 1 >= LOGSIZE
      && forall b | start <= b < start + size :: Addr(dev, b) in d
    }
  }

  // ---------------------------------------------------------------- the header block

  /** write_head's update of the header block: words past the last entry keep their old value. */
  function PutHead(h: Block, bs: seq<nat>): (r: Block)
    requires |bs| <= LOGSIZE
  {
    [|bs|] + bs + h[1 + |bs|..]
  }

  predicate GoodHead(lay: Layout, d: Image, h: Block) {
    && 0 <= h[0] <= LOGSIZE
    && forall i | 1 <= i < 1 + h[0] :: h[i] >= 0 && Addr(lay.dev, h[i]) in d && !lay.InLog(Addr(lay.dev, h[i]))
  }

  function HeadBlocks(h: Block): (bs: seq<nat>)
    requires 0 <= h[0] <= LOGSIZE
    requires forall i | 1 <= i < 1 + h[0] :: h[i] >= 0
  {
    seq(h[0], i requires 0 <= i < h[0] => h[i + 1])
  }

  lemma HeadRoundTrip(h: Block, bs: seq<nat>)
    requires |bs| <= LOGSIZE
    ensures PutHead(h, bs)[0] == |bs|
    ensures forall i | 1 <= i < 1 + |bs| :: PutHead(h, bs)[i] == bs[i - 1]
    ensures HeadBlocks(PutHead(h, bs)) == bs
  {
  }

  // ---------------------------------------------------------------- lists of writes

  function Apply(d: Image, ws: seq<Write>): (r: Image)
  {
    if ws == [] then d
    else Apply(d, ws[..|ws| - 1])[ws[|ws| - 1].addr := ws[|ws| - 1].data]
  }

  /** What the list leaves in block a, if it writes a at all. */
  function LastWrite(ws: seq<Write>, a: Addr): (r: Option<Block>)
  {
    if ws == [] then None
    else if ws[|ws| - 1].addr == a then Some(ws[|ws| - 1].data)
    else LastWrite(ws[..|ws| - 1], a)
  }

  lemma {:induction false} ApplyLookup(d: Image, ws: seq<Write>, a: Addr)
    ensures a in Apply(d, ws) <==> a in d || LastWrite(ws, a).Some?
    ensures a in Apply(d, ws) ==>
      Apply(d, ws)[a] == if LastWrite(ws, a).Some? then LastWrite(ws, a).value else d[a]
  {
    if ws != [] {
      ApplyLookup(d, ws[..|ws| - 1], a);
    }
  }

  lemma {:induction false} LastWriteConcat(us: seq<Write>, vs: seq<Write>, a: Addr)
    ensures LastWrite(us + vs, a) == if LastWrite(vs, a).Some? then LastWrite(vs, a) else LastWrite(us, a)
  {
    if vs == [] {
      assert us + vs == us;
    } else {
      assert (us + vs)[..|us + vs| - 1] == us + vs[..|vs| - 1];
      LastWriteConcat(us, vs[..|vs| - 1], a);
    }
  }

  lemma {:induction false} LastWriteMember(ws: seq<Write>, a: Addr)
    ensures LastWrite(ws, a).Some? <==> exists i :: 0 <= i < |ws| && ws[i].addr == a
  {
    if ws != [] {
      var front := ws[..|ws| - 1];
      LastWriteMember(front, a);
      if LastWrite(front, a).Some? {
        var i :| 0 <= i < |front| && front[i].addr == a;
        assert ws[i].addr == a;
      }
      if i :| 0 <= i < |ws| && ws[i].addr == a && ws[|ws| - 1].addr != a {
        assert front[i].addr == a;
      }
    }
  }

  lemma {:induction false} ApplyConcat(d: Image, us: seq<Write>, vs: seq<Write>)
    ensures Apply(d, us + vs) == Apply(Apply(d, us), vs)
  {
    if vs == [] {
      assert us + vs == us;
    } else {
      assert (us + vs)[..|us + vs| - 1] == us + vs[..|vs| - 1];
      ApplyConcat(d, us, vs[..|vs| - 1]);
    }
  }

  /** How a prefix of us + vs, issued after the writes w0, is made of the two parts. */
  lemma PrefixConcat(w0: seq<Write>, us: seq<Write>, vs: seq<Write>, m: nat)
    requires m <= |us| + |vs|
    ensures m <= |us| ==> (us + vs)[..m] == us[..m]
    ensures m >= |us| ==> (us + vs)[..m] == us + vs[..m - |us|]
    ensures m >= |us| ==> w0 + us + vs[..m - |us|] == w0 + (us + vs)[..m]
    ensures us[..|us|] == us && vs[..|vs|] == vs && (us + vs)[..|us| + |vs|] == us + vs
  {
  }

  // ---------------------------------------------------------------- commit and recovery as write lists

  /** write_log: the i-th new block goes to the i-th log block. */
  function LogWrites(lay: Layout, datas: seq<Block>): (ws: seq<Write>) {
    seq(|datas|, i requires 0 <= i < |datas| => Write(lay.Slot(i), datas[i]))
  }

  /** install_trans: the i-th log block goes to the i-th block of the header. */
  function InstallWrites(lay: Layout, bs: seq<nat>, datas: seq<Block>): (ws: seq<Write>)
    requires |bs| == |datas|
  {
    seq(|bs|, i requires 0 <= i < |bs| => Write(Addr(lay.dev, bs[i]), datas[i]))
  }

  function HeadWrite(lay: Layout, h: Block, bs: seq<nat>): (ws: seq<Write>)
    requires |bs| <= LOGSIZE
  {
    [Write(lay.Head(), PutHead(h, bs))]
  }

  /** commit() with a non-empty in-memory header bs, when the header block holds h. */
  function CommitWrites(lay: Layout, h: Block, bs: seq<nat>, datas: seq<Block>): (ws: seq<Write>)
    requires |bs| == |datas| <= LOGSIZE
  {
    LogWrites(lay, datas) + HeadWrite(lay, h, bs) + InstallWrites(lay, bs, datas)
    + HeadWrite(lay, PutHead(h, bs), [])
  }

  predicate Recoverable(lay: Layout, d: Image) {
    lay.Fits(d) && GoodHead(lay, d, d[lay.Head()])
  }

  function LogDatas(lay: Layout, d: Image, n: nat): (datas: seq<Block>)
    requires lay.Fits(d) && n <= LOGSIZE
  {
    seq(n, i requires 0 <= i < n => d[lay.Slot(i)])
  }

  /** recover_from_log() for one log: install what the header lists, then clear the header. */
  function RecoveryWrites(lay: Layout, d: Image): (ws: seq<Write>)
    requires Recoverable(lay, d)
  {
    var h := d[lay.Head()];
    InstallWrites(lay, HeadBlocks(h), LogDatas(lay, d, h[0])) + HeadWrite(lay, h, [])
  }

  function Home(lay: Layout, d: Image): (r: Image) {
    map a | a in d && !lay.InLog(a) :: d[a]
  }

  /** The home blocks that one complete recovery produces. */
  function Recovered(lay: Layout, d: Image): (r: Image)
    requires Recoverable(lay, d)
  {
    Home(lay, Apply(d, RecoveryWrites(lay, d)))
  }

  /** bs is a legal in-memory header for the disk d. */
  predicate GoodBlocks(lay: Layout, d: Image, bs: seq<nat>) {
    && |bs| <= LOGSIZE
    && forall i | 0 <= i < |bs| :: Addr(lay.dev, bs[i]) in d && !lay.InLog(Addr(lay.dev, bs[i]))
  }

  // ---------------------------------------------------------------- proofs

  /** Two images agree on every block that is not a log block or the header. */
  lemma HomeEqual(lay: Layout, d: Image, e: Image)
    requires forall a | !lay.InLog(a) :: (a in d <==> a in e) && (a in d ==> d[a] == e[a])
    ensures Home(lay, d) == Home(lay, e)
  {
  }

  lemma InstallTargets(lay: Layout, bs: seq<nat>, datas: seq<Block>, k: nat, a: Addr)
    requires k <= |bs| == |datas|
    ensures LastWrite(InstallWrites(lay, bs, datas)[..k], a).Some? ==>
      LastWrite(InstallWrites(lay, bs, datas), a).Some?
    ensures (forall i | 0 <= i < |bs| :: !lay.InLog(Addr(lay.dev, bs[i]))) && lay.InLog(a) ==>
      LastWrite(InstallWrites(lay, bs, datas)[..k], a).None?
  {
    var ws := InstallWrites(lay, bs, datas);
    LastWriteMember(ws, a);
    LastWriteMember(ws[..k], a);
    if LastWrite(ws[..k], a).Some? {
      var i :| 0 <= i < k && ws[..k][i].addr == a;
      assert ws[i].addr == a;
    }
  }

  /** The last entry that lists block a, or none. */
  lemma {:induction false} InstalledLast(lay: Layout, bs: seq<nat>, datas: seq<Block>, a: Addr, i: nat)
    requires |bs| == |datas|
    ensures (forall j | 0 <= j < |bs| :: Addr(lay.dev, bs[j]) != a) ==> LastWrite(InstallWrites(lay, bs, datas), a).None?
    ensures i < |bs| && Addr(lay.dev, bs[i]) == a && (forall j | i < j < |bs| :: Addr(lay.dev, bs[j]) != a) ==>
      LastWrite(InstallWrites(lay, bs, datas), a) == Some(datas[i])
    decreases |bs|
  {
    if bs != [] {
      var n := |bs| - 1;
      assert InstallWrites(lay, bs, datas)[..n] == InstallWrites(lay, bs[..n], datas[..n]);
      InstalledLast(lay, bs[..n], datas[..n], a, i);
    }
  }

  /** What recovery makes of the blocks on disk: word 0 of the header counts the entries, word i + 1 is the block
      number of entry i, and the i-th block after the header holds its contents; a block listed twice gets the
      later ones, a block not listed stays. */
  lemma RecoveredBlocks(lay: Layout, d: Image, a: Addr, i: nat)
    requires Recoverable(lay, d) && a in d && !lay.InLog(a)
    ensures var h := d[Addr(lay.dev, lay.start)];
      && a in Recovered(lay, d) && 0 <= h[0] <= LOGSIZE
      && (i < h[0] ==> Addr(lay.dev, lay.start + 1 + i) in d && h[1 + i] >= 0)
      && ((forall j | 1 <= j <= h[0] :: h[j] != a.bno || a.dev != lay.dev) ==> Recovered(lay, d)[a] == d[a])
      && (i < h[0] && a == Addr(lay.dev, h[1 + i]) && (forall j | 1 + i < j <= h[0] :: h[j] != a.bno) ==>
            Recovered(lay, d)[a] == d[Addr(lay.dev, lay.start + 1 + i)])
  {
    var h := d[lay.Head()];
    var bs, datas := HeadBlocks(h), LogDatas(lay, d, h[0]);
    var iw := InstallWrites(lay, bs, datas);
    LastWriteConcat(iw, HeadWrite(lay, h, []), a);
    ApplyLookup(d, RecoveryWrites(lay, d), a);
    InstalledLast(lay, bs, datas, a, i);
    hide LastWrite, Apply, InstallWrites;
    assert forall j | 0 <= j < h[0] :: bs[j] == h[1 + j];
  }

  /** A prefix of the install writes keeps the log area and hence the recovery still to be done. */
  lemma InstallKeepsLog(lay: Layout, d: Image, k: nat)
    requires Recoverable(lay, d)
    requires k <= d[lay.Head()][0]
    ensures var e := Apply(d, RecoveryWrites(lay, d)[..k]);
      Recoverable(lay, e) && RecoveryWrites(lay, e) == RecoveryWrites(lay, d)
  {
    var h := d[lay.Head()];
    var bs, datas := HeadBlocks(h), LogDatas(lay, d, h[0]);
    var ws := InstallWrites(lay, bs, datas);
    assert RecoveryWrites(lay, d)[..k] == ws[..k];
    var e := Apply(d, ws[..k]);
    forall a ensures (a in d ==> a in e) && (lay.InLog(a) && a in d ==> e[a] == d[a]) {
      InstallTargets(lay, bs, datas, k, a);
      ApplyLookup(d, ws[..k], a);
    }
    assert e[lay.Head()] == h;
    assert LogDatas(lay, e, h[0]) == datas;
  }

  /** Re-running an interrupted install list from its start gives the same home blocks. */
  lemma ReinstallSame(lay: Layout, d: Image, k: nat)
    requires Recoverable(lay, d)
    requires k <= d[lay.Head()][0]
    ensures var ws := RecoveryWrites(lay, d); Home(lay, Apply(Apply(d, ws[..k]), ws)) == Home(lay, Apply(d, ws))
  {
    var h := d[lay.Head()];
    var ws := RecoveryWrites(lay, d);
    var inst := InstallWrites(lay, HeadBlocks(h), LogDatas(lay, d, h[0]));
    assert ws[..k] == inst[..k];
    forall a | !lay.InLog(a)
      ensures a in Apply(Apply(d, ws[..k]), ws) <==> a in Apply(d, ws)
      ensures a in Apply(d, ws) ==> Apply(Apply(d, ws[..k]), ws)[a] == Apply(d, ws)[a]
    {
      InstallTargets(lay, HeadBlocks(h), LogDatas(lay, d, h[0]), k, a);
      LastWriteConcat(inst, HeadWrite(lay, h, []), a);
      ApplyLookup(d, ws, a);
      ApplyLookup(Apply(d, ws[..k]), ws, a);
      ApplyLookup(d, ws[..k], a);
    }
    HomeEqual(lay, Apply(Apply(d, ws[..k]), ws), Apply(d, ws));
  }

  /** With an empty header, recovery leaves every home block alone. */
  lemma EmptyHeadRecovers(lay: Layout, d: Image)
    requires lay.Fits(d) && d[lay.Head()][0] == 0
    ensures Recoverable(lay, d) && Recovered(lay, d) == Home(lay, d)
  {
    var ws := RecoveryWrites(lay, d);
    assert ws == HeadWrite(lay, d[lay.Head()], []);
    assert ws[..0] == [];
    assert Apply(d, ws) == d[lay.Head() := ws[0].data];
  }

  /** A crash after any number k of recovery's writes changes nothing: the next recovery ends in the
      same home blocks, and a recovery that ran to its end left an empty log and those home blocks. */
  lemma RecoveryIdempotent(lay: Layout, d: Image, k: nat)
    requires Recoverable(lay, d)
    requires k <= |RecoveryWrites(lay, d)|
    ensures var e := Apply(d, RecoveryWrites(lay, d)[..k]);
      && Recoverable(lay, e)
      && Recovered(lay, e) == Recovered(lay, d)
      && (k == |RecoveryWrites(lay, d)| ==> e[lay.Head()][0] == 0 && Home(lay, e) == Recovered(lay, d))
  {
    var ws := RecoveryWrites(lay, d);
    if k < |ws| {
      InstallKeepsLog(lay, d, k);
      ReinstallSame(lay, d, k);
    } else {
      assert ws[..k] == ws;
      var e := Apply(d, ws);
      InstallKeepsLog(lay, d, k - 1);
      assert e == Apply(d, ws[..k - 1])[lay.Head() := PutHead(d[lay.Head()], [])];
      assert lay.Fits(e);
      EmptyHeadRecovers(lay, e);
    }
  }

  /** Recoveries that crash after crashes[0], crashes[1], ... writes, one boot after the other.  A count
      past the end of the list is a recovery that completes. */
  function CrashingBoots(lay: Layout, d: Image, crashes: seq<nat>): (r: Image)
    requires Recoverable(lay, d)
    ensures Recoverable(lay, r)
    ensures Recovered(lay, r) == Recovered(lay, d)
    decreases |crashes|
  {
    if crashes == [] then d
    else
      var ws := RecoveryWrites(lay, d);
      var k := if crashes[0] < |ws| then crashes[0] else |ws|;
      RecoveryIdempotent(lay, d, k);
      CrashingBoots(lay, Apply(d, ws[..k]), crashes[1..])
  }

  /** Any number of crashes, at any write of recovery, then one complete recovery: the home blocks are
      those of an uninterrupted recovery and the log is empty. */
  lemma RecoverySurvivesCrashes(lay: Layout, d: Image, crashes: seq<nat>)
    requires Recoverable(lay, d)
    ensures var e := CrashingBoots(lay, d, crashes);
      var final := Apply(e, RecoveryWrites(lay, e));
      Home(lay, final) == Recovered(lay, d) && final[lay.Head()][0] == 0
  {
    var e := CrashingBoots(lay, d, crashes);
    var ws := RecoveryWrites(lay, e);
    RecoveryIdempotent(lay, e, |ws|);
    assert ws[..|ws|] == ws;
  }

  lemma LogTargets(lay: Layout, datas: seq<Block>, k: nat, a: Addr)
    requires k <= |datas| <= lay.size - 1
    ensures !lay.InLog(a) || a == lay.Head() ==> LastWrite(LogWrites(lay, datas)[..k], a).None?
  {
    LastWriteMember(LogWrites(lay, datas)[..k], a);
  }

  lemma {:induction false} LogLookup(lay: Layout, datas: seq<Block>, k: nat, i: nat)
    requires i < k <= |datas|
    ensures LastWrite(LogWrites(lay, datas)[..k], lay.Slot(i)) == Some(datas[i])
    decreases k
  {
    var ws := LogWrites(lay, datas);
    assert ws[..k][..k - 1] == ws[..k - 1];
    if i < k - 1 {
      LogLookup(lay, datas, k - 1, i);
    }
  }

  /** Before the header is written the log blocks change but nothing else does. */
  lemma BeforeCommitPoint(lay: Layout, d: Image, datas: seq<Block>, k: nat)
    requires lay.Fits(d) && d[lay.Head()][0] == 0
    requires k <= |datas| <= LOGSIZE
    ensures var e := Apply(d, LogWrites(lay, datas)[..k]);
      && lay.Fits(e) && e[lay.Head()] == d[lay.Head()]
      && Home(lay, e) == Home(lay, d)
      && Recoverable(lay, e) && Recovered(lay, e) == Home(lay, d)
  {
    var ws := LogWrites(lay, datas)[..k];
    var e := Apply(d, ws);
    forall a ensures (a in d ==> a in e)
      ensures !lay.InLog(a) || a == lay.Head() ==> (a in e ==> a in d) && (a in d ==> e[a] == d[a])
    {
      ApplyLookup(d, ws, a);
      LogTargets(lay, datas, k, a);
    }
    HomeEqual(lay, d, e);
    EmptyHeadRecovers(lay, e);
  }

  /** The disk right after the header that lists bs has been written. */
  function CommitPoint(lay: Layout, d: Image, bs: seq<nat>, datas: seq<Block>): (e: Image)
    requires lay.Fits(d) && |bs| == |datas| <= LOGSIZE
  {
    Apply(d, LogWrites(lay, datas))[lay.Head() := PutHead(d[lay.Head()], bs)]
  }

  /** At the commit point recovery will replay exactly the group. */
  lemma AtCommitPoint(lay: Layout, d: Image, bs: seq<nat>, datas: seq<Block>)
    requires lay.Fits(d) && d[lay.Head()][0] == 0
    requires GoodBlocks(lay, d, bs) && |bs| == |datas|
    ensures var e := CommitPoint(lay, d, bs, datas); var h := PutHead(d[lay.Head()], bs);
      && Recoverable(lay, e)
      && e[lay.Head()] == h
      && RecoveryWrites(lay, e) == InstallWrites(lay, bs, datas) + HeadWrite(lay, h, [])
      && Recovered(lay, e) == Home(lay, Apply(d, InstallWrites(lay, bs, datas)))
      && CommitWrites(lay, d[lay.Head()], bs, datas) ==
         LogWrites(lay, datas) + HeadWrite(lay, d[lay.Head()], bs) + RecoveryWrites(lay, e)
  {
    var lw := LogWrites(lay, datas);
    assert lw[..|datas|] == lw;
    var d1 := Apply(d, lw);
    BeforeCommitPoint(lay, d, datas, |datas|);
    var h := PutHead(d[lay.Head()], bs);
    var e := CommitPoint(lay, d, bs, datas);
    HeadRoundTrip(d[lay.Head()], bs);
    forall a | a in d ensures a in d1 && (!lay.InLog(a) ==> d1[a] == d[a]) {
      ApplyLookup(d, lw, a);
      if !lay.InLog(a) { assert a in Home(lay, d) && a in Home(lay, d1); }
    }
    forall i | 0 <= i < |datas| ensures e[lay.Slot(i)] == datas[i] {
      LogLookup(lay, datas, |datas|, i);
      ApplyLookup(d, lw, lay.Slot(i));
    }
    assert GoodHead(lay, e, h);
    assert LogDatas(lay, e, |bs|) == datas;
    var inst := InstallWrites(lay, bs, datas);
    var ws := inst + HeadWrite(lay, h, []);
    assert RecoveryWrites(lay, e) == ws;
    forall a | !lay.InLog(a)
      ensures a in Apply(e, ws) <==> a in Apply(d, inst)
      ensures a in Apply(d, inst) ==> Apply(e, ws)[a] == Apply(d, inst)[a]
    {
      LastWriteConcat(inst, HeadWrite(lay, h, []), a);
      ApplyLookup(e, ws, a);
      ApplyLookup(d, inst, a);
      LogTargets(lay, datas, |datas|, a);
      ApplyLookup(d, lw, a);
    }
    HomeEqual(lay, Apply(e, ws), Apply(d, inst));
  }

  /** Crash atomicity of commit().  Let n blocks be logged.  After k of commit's 2n + 2 block writes,
      recovery yields the old home blocks when the header has not been written (k <= n) and all n new
      ones from the first header write on (k > n). */
  lemma CommitAtomic(lay: Layout, d: Image, bs: seq<nat>, datas: seq<Block>, k: nat)
    requires lay.Fits(d) && d[lay.Head()][0] == 0
    requires GoodBlocks(lay, d, bs) && |bs| == |datas|
    requires k <= |CommitWrites(lay, d[lay.Head()], bs, datas)|
    ensures var e := Apply(d, CommitWrites(lay, d[lay.Head()], bs, datas)[..k]);
      && Recoverable(lay, e)
      && Recovered(lay, e) ==
         (if k <= |bs| then Home(lay, d) else Home(lay, Apply(d, InstallWrites(lay, bs, datas))))
  {
    var lw, h := LogWrites(lay, datas), PutHead(d[lay.Head()], bs);
    var all := CommitWrites(lay, d[lay.Head()], bs, datas);
    if k <= |bs| {
      assert all[..k] == lw[..k];
      BeforeCommitPoint(lay, d, datas, k);
    } else {
      var e0 := CommitPoint(lay, d, bs, datas);
      AtCommitPoint(lay, d, bs, datas);
      var first := lw + HeadWrite(lay, d[lay.Head()], bs);
      var j := k - |bs| - 1;
      assert all[..k] == first + RecoveryWrites(lay, e0)[..j];
      assert first[..|first| - 1] == lw;
      ApplyConcat(d, first, RecoveryWrites(lay, e0)[..j]);
      RecoveryIdempotent(lay, e0, j);
    }
  }

  /** When commit runs to its end, the home blocks are the new ones and the log is empty. */
  lemma CommitComplete(lay: Layout, d: Image, bs: seq<nat>, datas: seq<Block>)
    requires lay.Fits(d) && d[lay.Head()][0] == 0
    requires GoodBlocks(lay, d, bs) && |bs| == |datas|
    ensures var e := Apply(d, CommitWrites(lay, d[lay.Head()], bs, datas));
      && lay.Fits(e) && e[lay.Head()][0] == 0
      && Home(lay, e) == Home(lay, Apply(d, InstallWrites(lay, bs, datas)))
  {
    var lw, h := LogWrites(lay, datas), PutHead(d[lay.Head()], bs);
    var e0 := CommitPoint(lay, d, bs, datas);
    AtCommitPoint(lay, d, bs, datas);
    var first := lw + HeadWrite(lay, d[lay.Head()], bs);
    var ws := RecoveryWrites(lay, e0);
    assert CommitWrites(lay, d[lay.Head()], bs, datas) == first + ws;
    assert first[..|first| - 1] == lw;
    ApplyConcat(d, first, ws);
    RecoveryIdempotent(lay, e0, |ws|);
    assert ws[..|ws|] == ws;
  }
}
