/** kern/log.c on top of the buffer cache: log_write, commit and crash recovery for one enabled log.

A method that sleeps on a busy buffer or panics stops with the block writes issued so far; its contract
holds for that prefix too, so every early stop is a crash point that recovery repairs.
*/
module Log {
  import opened Common
  import opened RedoLog
  import opened BufferCache

  datatype Outcome = Done | Sleeping | Panicked

  ghost function LogSet(lay: Layout, lh: seq<nat>): (r: set<Addr>) {
    set i | 0 <= i < |lh| :: Addr(lay.dev, lh[i])
  }

  /** The blocks of the uncommitted log are legal home blocks, listed once, and they are exactly the
      pinned buffers. */
  ghost predicate Pinned(lay: Layout, lh: seq<nat>, bufs: seq<Buf>, disk: Image) {
    && lay.dev != 0
    && lay.Fits(disk)
    && GoodBlocks(lay, disk, lh)
    && NoDup(lh)
    && DirtySet(bufs) == LogSet(lay, lh)
  }

  lemma PinnedStays(lay: Layout, lh: seq<nat>, bufs: seq<Buf>, disk: Image, bufs': seq<Buf>, disk': Image)
    requires Pinned(lay, lh, bufs, disk)
    requires DirtySet(bufs') == DirtySet(bufs) && disk'.Keys == disk.Keys
    ensures Pinned(lay, lh, bufs', disk')
  {
    assert forall a :: a in disk' <==> a in disk'.Keys;
  }

  lemma LogSetEmpty(lay: Layout, lh: seq<nat>)
    ensures LogSet(lay, lh[..0]) == {}
  {
  }

  lemma SlotNotPinned(lay: Layout, lh: seq<nat>, bufs: seq<Buf>, disk: Image, i: nat)
    requires Pinned(lay, lh, bufs, disk) && i < lay.size - 1
    ensures lay.Slot(i) !in DirtySet(bufs)
  {
  }

  lemma PinsOutsideLog(lay: Layout, lh: seq<nat>, bufs: seq<Buf>, disk: Image)
    requires Pinned(lay, lh, bufs, disk)
    ensures forall a | lay.InLog(a) :: a !in DirtySet(bufs)
  {
    hide DirtySet;
  }

  lemma LogSetPrefix(lay: Layout, lh: seq<nat>, k: nat)
    requires k < |lh|
    ensures LogSet(lay, lh[..k + 1]) == LogSet(lay, lh[..k]) + {Addr(lay.dev, lh[k])}
  {
    var all := lh[..k + 1];
    assert all[k] == lh[k];
    forall i | 0 <= i < k ensures all[i] == lh[..k][i] {}
  }

  /** The logical contents of the blocks in the log. */
  ghost function Datas(lay: Layout, lh: seq<nat>, logical: Image): (r: seq<Block>)
    requires forall i | 0 <= i < |lh| :: Addr(lay.dev, lh[i]) in logical
  {
    seq(|lh|, i requires 0 <= i < |lh| => logical[Addr(lay.dev, lh[i])])
  }

  /** An uncommitted block stays cached, valid and dirty: bread of any block cannot evict it. */
  lemma BreadKeepsPins(lay: Layout, lh: seq<nat>, bufs: seq<Buf>, disk: Image, i: nat, a: Addr, k: nat)
    requires Unique(bufs) && Coherent(bufs, disk) && Pinned(lay, lh, bufs, disk)
    requires a in disk && a != NOWHERE && Free(bufs, i, a)
    requires k < |lh|
    ensures var bufs' := bufs[i := Loaded(bufs[i], disk, a)];
      && Pinned(lay, lh, bufs', disk)
      && exists j :: 0 <= j < |bufs'| && bufs'[j].addr == Addr(lay.dev, lh[k]) && bufs'[j].valid && bufs'[j].dirty
  {
    var bufs' := bufs[i := Loaded(bufs[i], disk, a)];
    LoadKeepsViews(bufs, disk, i, a);
    assert Addr(lay.dev, lh[k]) in DirtySet(bufs');
  }

  /** Installing what a block logically holds already changes no logical block. */
  lemma {:induction false} InstallSameView(lay: Layout, lh: seq<nat>, v: Image)
    requires forall i | 0 <= i < |lh| :: Addr(lay.dev, lh[i]) in v
    ensures Apply(v, InstallWrites(lay, lh, Datas(lay, lh, v))) == v
  {
    if lh != [] {
      var front := lh[..|lh| - 1];
      InstallSameView(lay, front, v);
      assert InstallWrites(lay, lh, Datas(lay, lh, v))[..|lh| - 1] == InstallWrites(lay, front, Datas(lay, front, v));
    }
  }

  lemma ApplyNone(d: Image, ws: seq<Write>)
    ensures ws[..0] == [] && Apply(d, ws[..0]) == d
  {
  }

  lemma ApplyStep(d: Image, ws: seq<Write>, k: nat)
    requires k < |ws|
    ensures ws[..k + 1] == ws[..k] + [ws[k]]
    ensures Apply(d, ws[..k + 1]) == Apply(d, ws[..k])[ws[k].addr := ws[k].data]
  {
    assert ws[..k + 1][..k] == ws[..k];
  }

  /** The group bs of blocks whose logical contents v holds can be committed on disk d. */
  ghost predicate CanLog(lay: Layout, d: Image, bs: seq<nat>, v: Image) {
    lay.Fits(d) && |bs| <= LOGSIZE && forall i | 0 <= i < |bs| :: Addr(lay.dev, bs[i]) in v
  }

  /** The writes of write_log. */
  ghost function ToLog(lay: Layout, d: Image, bs: seq<nat>, v: Image): (ws: seq<Write>)
    requires CanLog(lay, d, bs, v)
  {
    LogWrites(lay, Datas(lay, bs, v))
  }

  /** The writes of a commit up to and with its first header write. */
  ghost function UpToHead(lay: Layout, d: Image, bs: seq<nat>, v: Image): (ws: seq<Write>)
    requires CanLog(lay, d, bs, v)
  {
    ToLog(lay, d, bs, v) + HeadWrite(lay, d[lay.Head()], bs)
  }

  /** The disk after them. */
  ghost function Committed(lay: Layout, d: Image, bs: seq<nat>, v: Image): (r: Image)
    requires CanLog(lay, d, bs, v)
  {
    CommitPoint(lay, d, bs, Datas(lay, bs, v))
  }

  /** The block writes of commit() for the in-memory header bs. */
  ghost function GroupWrites(lay: Layout, d: Image, bs: seq<nat>, v: Image): (ws: seq<Write>)
    requires CanLog(lay, d, bs, v)
  {
    if bs == [] then [] else CommitWrites(lay, d[lay.Head()], bs, Datas(lay, bs, v))
  }

  /** The home blocks on disk d with the group installed. */
  ghost function NewHome(lay: Layout, d: Image, bs: seq<nat>, v: Image): (r: Image)
    requires CanLog(lay, d, bs, v)
  {
    Home(lay, Apply(d, InstallWrites(lay, bs, Datas(lay, bs, v))))
  }

  /** After any prefix of the writes, recovery yields the old home blocks up to write number |bs| and all
      the new ones from then on. */
  ghost predicate AllOrNothing(lay: Layout, d: Image, bs: seq<nat>, v: Image)
    requires CanLog(lay, d, bs, v)
  {
    var ws := GroupWrites(lay, d, bs, v);
    forall k | 0 <= k <= |ws| ::
      var e := Apply(d, ws[..k]);
      && Recoverable(lay, e)
      && Recovered(lay, e) == if k <= |bs| then Home(lay, d) else NewHome(lay, d, bs, v)
  }

  lemma GroupAtomic(lay: Layout, d: Image, bs: seq<nat>, v: Image)
    requires CanLog(lay, d, bs, v) && d[lay.Head()][0] == 0 && GoodBlocks(lay, d, bs)
    ensures AllOrNothing(lay, d, bs, v)
  {
    var ws := GroupWrites(lay, d, bs, v);
    forall k | 0 <= k <= |ws|
      ensures var e := Apply(d, ws[..k]);
        && Recoverable(lay, e)
        && Recovered(lay, e) == if k <= |bs| then Home(lay, d) else NewHome(lay, d, bs, v)
    {
      if bs == [] {
        EmptyHeadRecovers(lay, d);
      } else {
        CommitAtomic(lay, d, bs, Datas(lay, bs, v), k);
      }
    }
  }

  /** The log blocks leave the header alone, and writing it makes the commit point. */
  lemma HeadAfterLog(lay: Layout, d: Image, bs: seq<nat>, v: Image)
    requires CanLog(lay, d, bs, v)
    ensures var lw, hw, ws := ToLog(lay, d, bs, v), HeadWrite(lay, d[lay.Head()], bs), UpToHead(lay, d, bs, v);
      && |hw| == 1 && Joined(lw, hw, ws) && Apply(d, ws) == Committed(lay, d, bs, v)
      && lay.Head() in Apply(d, lw) && Apply(d, lw)[lay.Head()] == d[lay.Head()]
      && (GoodBlocks(lay, d, bs) ==> GoodBlocks(lay, Apply(d, ws), bs))
  {
    var datas := Datas(lay, bs, v);
    var lw, hw := LogWrites(lay, datas), HeadWrite(lay, d[lay.Head()], bs);
    assert lw[..|datas|] == lw && (lw + hw)[..|lw|] == lw;
    LogTargets(lay, datas, |datas|, lay.Head());
    ApplyLookup(d, lw, lay.Head());
    forall i | 0 <= i < |bs| && Addr(lay.dev, bs[i]) in d ensures Addr(lay.dev, bs[i]) in Apply(d, lw + hw) {
      ApplyLookup(d, lw + hw, Addr(lay.dev, bs[i]));
    }
  }

  /** The first m of the writes ws lead from history w0 and disk d0 to w and d. */
  ghost predicate Wrote(w0: seq<Write>, d0: Image, ws: seq<Write>, m: nat, w: seq<Write>, d: Image) {
    m <= |ws| && w == w0 + ws[..m] && d == Apply(d0, ws[..m])
  }

  lemma WroteNone(w0: seq<Write>, d0: Image, ws: seq<Write>)
    ensures Wrote(w0, d0, ws, 0, w0, d0)
  {
    assert ws[..0] == [];
  }

  ghost predicate Joined(us: seq<Write>, vs: seq<Write>, ws: seq<Write>) {
    ws == us + vs
  }

  lemma WroteFirst(
    w0: seq<Write>, d0: Image, us: seq<Write>, vs: seq<Write>, ws: seq<Write>, m: nat, w: seq<Write>, d: Image)
    requires Joined(us, vs, ws) && Wrote(w0, d0, us, m, w, d)
    ensures Wrote(w0, d0, ws, m, w, d)
    ensures m == |us| ==> d == Apply(d0, us)
  {
    hide Apply;
    PrefixConcat(w0, us, vs, m);
  }

  /** All of us and then k of vs have been issued; v is a view that moves with the disk. */
  lemma WroteBoth(
    w0: seq<Write>, d0: Image, us: seq<Write>, w1: seq<Write>, d1: Image, vs: seq<Write>, ws: seq<Write>, k: nat,
    m: nat, w: seq<Write>, d: Image, v: Image)
    requires Joined(us, vs, ws) && Wrote(w0, d0, us, |us|, w1, d1) && Wrote(w1, d1, vs, k, w, d)
    requires m == |us| + k
    ensures Wrote(w0, d0, ws, m, w, d)
    ensures Apply(Apply(v, us), vs) == Apply(v, ws)
    ensures k == |vs| <==> m == |ws|
    ensures k == |vs| ==> d == Apply(d0, ws)
  {
    hide Apply;
    assert us[..|us|] == us && vs[..|vs|] == vs;
    assert (us + vs)[..m] == us + vs[..k];
    assert w0 + us + vs[..k] == w0 + (us + vs[..k]);
    ApplyConcat(d0, us, vs[..k]);
    ApplyConcat(v, us, vs);
    if k == |vs| {
      assert us + vs[..k] == ws;
    }
  }

  /** The one write of write_head. */
  lemma WroteHead(lay: Layout, w0: seq<Write>, d0: Image, v0: Image, bs: seq<nat>)
    requires lay.Head() in d0 && |bs| <= LOGSIZE
    ensures var h := PutHead(d0[lay.Head()], bs); var ws := HeadWrite(lay, d0[lay.Head()], bs);
      && |ws| == 1 && Wrote(w0, d0, ws, 0, w0, d0)
      && Wrote(w0, d0, ws, 1, w0 + [Write(lay.Head(), h)], d0[lay.Head() := h])
      && Apply(v0, ws) == v0[lay.Head() := h]
  {
    var ws := HeadWrite(lay, d0[lay.Head()], bs);
    assert ws[..0] == [] && ws[..1] == ws;
  }

  lemma HeadAfterInstall(lay: Layout, d: Image, bs: seq<nat>, datas: seq<Block>)
    requires lay.Fits(d) && GoodBlocks(lay, d, bs) && |bs| == |datas|
    ensures var iw, hw := InstallWrites(lay, bs, datas), HeadWrite(lay, d[lay.Head()], []);
      |hw| == 1 && lay.Head() in Apply(d, iw) && Apply(d, iw)[lay.Head()] == d[lay.Head()]
  {
    var iw := InstallWrites(lay, bs, datas);
    assert iw[..|bs|] == iw;
    InstallTargets(lay, bs, datas, |bs|, lay.Head());
    ApplyLookup(d, iw, lay.Head());
  }

  /** From its first header write on, a commit issues the writes of a recovery. */
  lemma CommitSplits(lay: Layout, d: Image, bs: seq<nat>, v: Image)
    requires CanLog(lay, d, bs, v) && d[lay.Head()][0] == 0 && GoodBlocks(lay, d, bs) && bs != []
    ensures var cp := Committed(lay, d, bs, v);
      && Recoverable(lay, cp) && HeadBlocks(cp[lay.Head()]) == bs
      && Joined(UpToHead(lay, d, bs, v), RecoveryWrites(lay, cp), GroupWrites(lay, d, bs, v))
  {
    AtCommitPoint(lay, d, bs, Datas(lay, bs, v));
    HeadRoundTrip(d[lay.Head()], bs);
  }

  lemma NothingToCommit(lay: Layout, d: Image, v: Image)
    requires CanLog(lay, d, [], v)
    ensures GroupWrites(lay, d, [], v) == [] && NewHome(lay, d, [], v) == Home(lay, d)
  {
  }

  /** Committing rewrites home blocks with what they already hold logically. */
  lemma CommitKeepsViews(lay: Layout, d: Image, bs: seq<nat>, v: Image)
    requires CanLog(lay, d, bs, v)
    ensures Home(lay, Apply(v, GroupWrites(lay, d, bs, v))) == Home(lay, v)
  {
    if bs != [] {
      var datas, h := Datas(lay, bs, v), d[lay.Head()];
      var lw, hw, iw := LogWrites(lay, datas), HeadWrite(lay, h, bs), InstallWrites(lay, bs, datas);
      var hw' := HeadWrite(lay, PutHead(h, bs), []);
      var ws := lw + hw + iw + hw';
      InstallSameView(lay, bs, v);
      forall a | !lay.InLog(a)
        ensures (a in Apply(v, ws) <==> a in v) && (a in v ==> Apply(v, ws)[a] == v[a])
      {
        LastWriteConcat(lw + hw + iw, hw', a);
        LastWriteConcat(lw + hw, iw, a);
        LastWriteConcat(lw, hw, a);
        LogTargets(lay, datas, |datas|, a);
        assert lw[..|datas|] == lw;
        ApplyLookup(v, ws, a);
        ApplyLookup(v, iw, a);
      }
      HomeEqual(lay, Apply(v, ws), v);
    }
  }

  /** Every block of the group holds on disk what it held logically; every other home block stays. */
  ghost predicate GroupOnDisk(lay: Layout, bs: seq<nat>, v: Image, d: Image, d': Image) {
    && (forall i | 0 <= i < |bs| :: var a := Addr(lay.dev, bs[i]); a in v && a in d' && d'[a] == v[a])
    && (forall a | a in d && !lay.InLog(a) && (a.dev != lay.dev || a.bno !in bs) :: a in d' && d'[a] == d[a])
  }

  lemma NewHomeBlocks(lay: Layout, d: Image, bs: seq<nat>, v: Image, d': Image)
    requires CanLog(lay, d, bs, v) && GoodBlocks(lay, d, bs) && NoDup(bs) && Home(lay, d') == NewHome(lay, d, bs, v)
    ensures GroupOnDisk(lay, bs, v, d, d')
  {
    var datas := Datas(lay, bs, v);
    var iw := InstallWrites(lay, bs, datas);
    forall i | 0 <= i < |bs| ensures var a := Addr(lay.dev, bs[i]); a in v && a in d' && d'[a] == v[a] {
      var a := Addr(lay.dev, bs[i]);
      InstalledLast(lay, bs, datas, a, i);
      ApplyLookup(d, iw, a);
      assert a in Home(lay, d');
    }
    forall a | a in d && !lay.InLog(a) && (a.dev != lay.dev || a.bno !in bs) ensures a in d' && d'[a] == d[a] {
      InstalledLast(lay, bs, datas, a, 0);
      ApplyLookup(d, iw, a);
      assert a in Home(lay, d');
    }
  }

  /** What a complete commit leaves on disk. */
  lemma CommitLeaves(lay: Layout, d: Image, bs: seq<nat>, v: Image, w0: seq<Write>, w: seq<Write>, d': Image)
    requires CanLog(lay, d, bs, v) && d[lay.Head()][0] == 0 && GoodBlocks(lay, d, bs) && bs != []
    requires Wrote(w0, d, GroupWrites(lay, d, bs, v), |GroupWrites(lay, d, bs, v)|, w, d')
    ensures lay.Fits(d') && d'[lay.Head()][0] == 0 && Home(lay, d') == NewHome(lay, d, bs, v)
  {
    var ws := GroupWrites(lay, d, bs, v);
    assert ws[..|ws|] == ws;
    CommitComplete(lay, d, bs, Datas(lay, bs, v));
  }

  // ---------------------------------------------------------------- when a commit stops

  /** The header, the log blocks and the home blocks that commit() of bs needs. */
  ghost predicate InGroup(lay: Layout, bs: seq<nat>, a: Addr) {
    a in LogSet(lay, bs) || (a.dev == lay.dev && lay.start <= a.bno <= lay.start + |bs|)
  }

  ghost predicate GroupLocked(lay: Layout, bs: seq<nat>, bufs: seq<Buf>) {
    exists a :: InGroup(lay, bs, a) && Locked(bufs, a)
  }

  /** It sleeps only if somebody held a block it needs, and panics only with every buffer busy or dirty. */
  ghost predicate StopsFor(out: Outcome, lay: Layout, bs: seq<nat>, bufs: seq<Buf>, bufs': seq<Buf>) {
    (out.Sleeping? ==> GroupLocked(lay, bs, bufs)) && (out.Panicked? ==> Exhausted(bufs'))
  }

  /** The only pins are those of the group, or there are none. */
  ghost predicate OwnPins(lay: Layout, bs: seq<nat>, bufs: seq<Buf>) {
    DirtySet(bufs) == {} || (NoDup(bs) && DirtySet(bufs) == LogSet(lay, bs))
  }

  lemma CopyStops(lay: Layout, bs: seq<nat>, k: nat, bufs: seq<Buf>, bufs': seq<Buf>)
    requires k < |bs| && SameHeld(bufs, bufs')
    requires Locked(bufs', Addr(lay.dev, bs[k])) || Locked(bufs', lay.Slot(k))
    ensures GroupLocked(lay, bs, bufs)
  {
    var a := if Locked(bufs', lay.Slot(k)) then lay.Slot(k) else Addr(lay.dev, bs[k]);
    LockedBefore(bufs, bufs', a);
    assert InGroup(lay, bs, a);
  }

  lemma HeadStops(lay: Layout, bs: seq<nat>, bufs: seq<Buf>, bufs': seq<Buf>)
    requires SameHeld(bufs, bufs') && Locked(bufs', lay.Head())
    ensures GroupLocked(lay, bs, bufs)
  {
    LockedBefore(bufs, bufs', lay.Head());
    assert InGroup(lay, bs, lay.Head());
  }

  lemma GroupLockedBefore(lay: Layout, bs: seq<nat>, bufs: seq<Buf>, bufs': seq<Buf>)
    requires SameHeld(bufs, bufs') && GroupLocked(lay, bs, bufs')
    ensures GroupLocked(lay, bs, bufs)
  {
    var a :| InGroup(lay, bs, a) && Locked(bufs', a);
    LockedBefore(bufs, bufs', a);
  }

  lemma HeldSince(bufs: seq<Buf>, bufs': seq<Buf>, bufs'': seq<Buf>)
    requires SameHeld(bufs, bufs')
    ensures SameHeld(bufs, bufs)
    ensures SameHeld(bufs', bufs'') ==> SameHeld(bufs, bufs'')
    ensures NoneBusy(bufs) ==> NoneBusy(bufs')
  {
  }

  lemma {:induction false} LogSetSize(lay: Layout, lh: seq<nat>)
    requires NoDup(lh)
    ensures |LogSet(lay, lh)| == |lh|
  {
    if lh != [] {
      var k := |lh| - 1;
      LogSetSize(lay, lh[..k]);
      assert lh[..k + 1] == lh;
      LogSetPrefix(lay, lh, k);
      assert Addr(lay.dev, lh[k]) !in LogSet(lay, lh[..k]);
    }
  }

  /** A log that pins all buffers leaves none for write_log's first block; any shorter one leaves one. */
  lemma PinsLeave(lay: Layout, lh: seq<nat>, bufs: seq<Buf>, disk: Image)
    requires Pinned(lay, lh, bufs, disk) && Unique(bufs) && NoneBusy(bufs)
    ensures |lh| < |bufs| ==> Spare(bufs)
    ensures |lh| == |bufs| ==> Exhausted(bufs) && forall k | 0 <= k < lay.size - 1 :: !Cached(bufs, lay.Slot(k))
  {
    LogSetSize(lay, lh);
    PinCount(bufs);
    if |lh| == |bufs| {
      forall k | 0 <= k < lay.size - 1 ensures !Cached(bufs, lay.Slot(k)) {
        forall i | 0 <= i < |bufs| ensures bufs[i].addr != lay.Slot(k) {
          assert bufs[i].dirty && bufs[i].addr in DirtySet(bufs);
        }
      }
    }
  }

  lemma LogRoomy(lay: Layout, lh: seq<nat>, bufs: seq<Buf>, disk: Image, k: nat)
    requires Pinned(lay, lh, bufs, disk) && Unique(bufs) && NoneBusy(bufs) && |lh| < |bufs| && k < |lh|
    ensures Roomy(bufs, Addr(lay.dev, lh[k]))
  {
    PinsLeave(lay, lh, bufs, disk);
  }

  /** Unpinning keeps room. */
  lemma SpareStays(bufs: seq<Buf>, bufs': seq<Buf>, s: set<Addr>)
    requires Spare(bufs) && SameHeld(bufs, bufs') && DirtySet(bufs') == DirtySet(bufs) - s
    ensures Spare(bufs')
  {
    assert DirtySet(bufs) == DirtySet(bufs') + (DirtySet(bufs) * s);
  }

  lemma InstallRoomy(lay: Layout, lh: seq<nat>, bufs: seq<Buf>, bufs': seq<Buf>, k: nat)
    requires k < |lh| && Spare(bufs) && SameHeld(bufs, bufs') && 1 < |bufs| && OwnPins(lay, lh, bufs)
    requires DirtySet(bufs') == DirtySet(bufs) - LogSet(lay, lh[..k])
    ensures Roomy(bufs', Addr(lay.dev, lh[k]))
  {
    SpareStays(bufs, bufs', LogSet(lay, lh[..k]));
    if DirtySet(bufs) != {} {
      assert Addr(lay.dev, lh[k]) in LogSet(lay, lh);
      assert Addr(lay.dev, lh[k]) !in LogSet(lay, lh[..k]);
    }
  }

  lemma OwnSpare(lay: Layout, lh: seq<nat>, bufs: seq<Buf>)
    requires NoDup(lh) && lay.dev != 0 && DirtySet(bufs) == LogSet(lay, lh) && NoneBusy(bufs) && |lh| < |bufs|
    ensures Spare(bufs) && OwnPins(lay, lh, bufs)
  {
    LogSetSize(lay, lh);
  }

  lemma BootSpare(bufs: seq<Buf>)
    requires DirtySet(bufs) == {} && 0 < |bufs|
    ensures NoneBusy(bufs) ==> Spare(bufs)
    ensures forall lay, bs :: OwnPins(lay, bs, bufs)
    ensures SameHeld(bufs, bufs)
  {
  }

  lemma NothingPinned(lay: Layout, bufs: seq<Buf>, disk: Image)
    requires lay.dev != 0 && lay.Fits(disk) && DirtySet(bufs) == {}
    ensures Pinned(lay, [], bufs, disk)
  {
  }

  lemma NothingHeld(bufs: seq<Buf>)
    ensures SameHeld(bufs, bufs)
  {
  }

  /** What write_log's loop body relies on and adds. */
  lemma LogBlockStep(
    lay: Layout, lh: seq<nat>, bufs: seq<Buf>, disk: Image, k: nat, w0: seq<Write>, d0: Image, v0: Image)
    requires Pinned(lay, lh, bufs, disk) && Unique(bufs) && k < |lh| && 1 < |bufs|
    requires CanLog(lay, d0, lh, v0)
    requires Logical(bufs, disk) == Apply(v0, ToLog(lay, d0, lh, v0)[..k])
    ensures var a, slot := Addr(lay.dev, lh[k]), lay.Slot(k); var ws := ToLog(lay, d0, lh, v0);
      && a in disk && slot in disk && a != slot && a != NOWHERE && slot != NOWHERE && slot !in DirtySet(bufs)
      && a in Logical(bufs, disk) && Logical(bufs, disk)[a] == v0[a] && ws[k] == Write(slot, v0[a]) && k < |ws|
      && Apply(v0, ws[..k + 1]) == Apply(v0, ws[..k])[slot := v0[a]]
      && Apply(d0, ws[..k + 1]) == Apply(d0, ws[..k])[slot := v0[a]]
      && w0 + ws[..k] + [Write(slot, v0[a])] == w0 + ws[..k + 1]
      && DirtySet(bufs) - {slot} == DirtySet(bufs)
      && SameHeld(bufs, bufs)
    ensures NoneBusy(bufs) ==>
      if |lh| < |bufs| then Roomy(bufs, Addr(lay.dev, lh[k])) else Exhausted(bufs) && !Cached(bufs, lay.Slot(k))
  {
    var ws := ToLog(lay, d0, lh, v0);
    var a := Addr(lay.dev, lh[k]);
    LogTargets(lay, Datas(lay, lh, v0), k, a);
    ApplyLookup(v0, ws[..k], a);
    SlotNotPinned(lay, lh, bufs, disk, k);
    ApplyStep(v0, ws, k);
    ApplyStep(d0, ws, k);
    assert w0 + ws[..k] + [ws[k]] == w0 + ws[..k + 1];
    if NoneBusy(bufs) {
      LogSetSize(lay, lh);
      PinCount(bufs);
      PinsLeave(lay, lh, bufs, disk);
      if |lh| < |bufs| {
        LogRoomy(lay, lh, bufs, disk, k);
      }
    }
  }

  /** What install_trans's loop body relies on and adds. */
  lemma InstallBlockStep(
    lay: Layout, lh: seq<nat>, bufs: seq<Buf>, disk: Image, k: nat, w0: seq<Write>, d0: Image, v0: Image,
    dirty0: set<Addr>)
    requires lay.dev != 0 && lay.Fits(d0) && lay.Fits(disk) && GoodBlocks(lay, d0, lh) && GoodBlocks(lay, disk, lh)
    requires k < |lh|
    requires var ws := InstallWrites(lay, lh, LogDatas(lay, d0, |lh|));
      Logical(bufs, disk) == Apply(v0, ws[..k]) && disk == Apply(d0, ws[..k])
    requires DirtySet(bufs) == dirty0 - LogSet(lay, lh[..k]) && forall a | lay.InLog(a) :: a !in dirty0
    ensures var a, slot := Addr(lay.dev, lh[k]), lay.Slot(k); var ws := InstallWrites(lay, lh, LogDatas(lay, d0, |lh|));
      && a in disk && slot in disk && a != slot && a != NOWHERE && slot != NOWHERE && slot !in DirtySet(bufs)
      && k < |ws| && ws[k] == Write(a, disk[slot])
      && Apply(v0, ws[..k + 1]) == Apply(v0, ws[..k])[a := disk[slot]]
      && Apply(d0, ws[..k + 1]) == Apply(d0, ws[..k])[a := disk[slot]]
      && w0 + ws[..k] + [Write(a, disk[slot])] == w0 + ws[..k + 1]
      && DirtySet(bufs) - {a} == dirty0 - LogSet(lay, lh[..k + 1])
      && SameHeld(bufs, bufs)
  {
    var datas := LogDatas(lay, d0, |lh|);
    var ws := InstallWrites(lay, lh, datas);
    InstallTargets(lay, lh, datas, k, lay.Slot(k));
    ApplyLookup(d0, ws[..k], lay.Slot(k));
    ApplyStep(v0, ws, k);
    ApplyStep(d0, ws, k);
    LogSetPrefix(lay, lh, k);
    assert w0 + ws[..k] + [ws[k]] == w0 + ws[..k + 1];
    hide Apply, LastWrite, DirtySet, LogSet, Logical;
  }

  lemma SameBlocks(lay: Layout, bs: seq<nat>, disk: Image, disk': Image)
    requires disk'.Keys == disk.Keys
    ensures lay.Fits(disk) ==> lay.Fits(disk')
    ensures GoodBlocks(lay, disk, bs) ==> GoodBlocks(lay, disk', bs)
  {
    assert forall a :: a in disk' <==> a in disk'.Keys;
  }

  function Stopped(r: Got): (out: Outcome)
    ensures !out.Done?
  {
    if r.Sleeps? then Sleeping else Panicked
  }

  /** The header after log_write of block b. */
  function Absorbed(lh: seq<nat>, b: nat): (r: seq<nat>) {
    if b in lh then lh else lh + [b]
  }

  /** The search loop of log_write; the length of the list if b is not in it. */
  method IndexOf(lh: seq<nat>, b: nat) returns (k: nat)
    ensures k <= |lh| && (k == |lh| <==> b !in lh) && (k < |lh| ==> lh[k] == b)
  {
    k := 0;
    while k < |lh| && lh[k] != b
      invariant 0 <= k <= |lh|
      invariant forall j | 0 <= j < k :: lh[j] != b
    {
      k := k + 1;
    }
  }

  /** Listing a held block and marking its buffer dirty keeps the list and the pinned buffers in step. */
  lemma MarkPins(lay: Layout, lh: seq<nat>, bufs: seq<Buf>, disk: Image, i: nat)
    requires Unique(bufs) && Coherent(bufs, disk) && Pinned(lay, lh, bufs, disk) && |lh| < LOGSIZE && i < |bufs|
    requires bufs[i].valid && bufs[i].addr.dev == lay.dev && !lay.InLog(bufs[i].addr)
    ensures Pinned(lay, Absorbed(lh, bufs[i].addr.bno), bufs[i := bufs[i].(dirty := true)], disk)
  {
    var b := bufs[i].addr.bno;
    var lh' := Absorbed(lh, b);
    DirtyUpdate(bufs, i, bufs[i].(dirty := true));
    if b !in lh {
      assert lh'[..|lh|] == lh && lh'[..|lh| + 1] == lh';
      LogSetPrefix(lay, lh', |lh|);
    } else {
      var k :| 0 <= k < |lh| && lh[k] == b;
      assert Addr(lay.dev, lh[k]) == bufs[i].addr;
    }
  }

  /** The copy loop of read_head. */
  method ReadHead(h: Block) returns (bs: seq<nat>)
    requires 0 <= h[0] <= LOGSIZE && forall i | 1 <= i < 1 + h[0] :: h[i] >= 0
    ensures bs == HeadBlocks(h)
  {
    bs := [];
    var i := 0;
    while i < h[0]
      invariant 0 <= i <= h[0]
      invariant bs == HeadBlocks(h)[..i]
    {
      bs := bs + [h[i + 1]];
      i := i + 1;
    }
  }

  /** The copy loop of write_head. */
  method FillHead(h: Block, bs: seq<nat>) returns (data: Block)
    requires |bs| <= LOGSIZE
    ensures data == PutHead(h, bs)
  {
    data := h[0 := |bs|];
    var i := 0;
    while i < |bs|
      invariant 0 <= i <= |bs|
      invariant data == [|bs|] + bs[..i] + h[1 + i..]
    {
      data := data[1 + i := bs[i]];
      i := i + 1;
    }
  }

  class Log {
    const cache: Cache
    const lay: Layout
    var lh: seq<nat>
    var outstanding: nat
    var committing: bool

    ghost predicate Valid()
      reads this, cache
    {
      cache.Valid() && Pinned(lay, lh, cache.bufs, cache.disk)
    }

    /** Between transactions the header on disk is empty. */
    ghost predicate Idle()
      requires Valid()
      reads this, cache
    {
      cache.disk[lay.Head()][0] == 0
    }

    /** Log blocks and header are not pinned, and bs is a legal header. */
    ghost predicate Ready(bs: seq<nat>)
      reads this, cache
    {
      && cache.Valid() && lay.dev != 0 && lay.Fits(cache.disk) && GoodBlocks(lay, cache.disk, bs)
      && forall a | lay.InLog(a) :: a !in DirtySet(cache.bufs)
    }

    /** initlog: the log is empty in memory until recovery has read the header. */
    constructor (cache: Cache, lay: Layout)
      requires cache.Valid() && lay.dev != 0 && lay.Fits(cache.disk) && DirtySet(cache.bufs) == {}
      ensures this.cache == cache && this.lay == lay && lh == [] && outstanding == 0 && !committing
      ensures Valid()
    {
      this.cache, this.lay := cache, lay;
      lh, outstanding, committing := [], 0, false;
    }

    ghost function Contents(): (r: Image)
      reads cache
    {
      Logical(cache.bufs, cache.disk)
    }

    /** log_write: record the block and pin its buffer; a block already listed is absorbed.  A buffer of a
        device without a log is left alone. */
    method LogWrite(i: nat) returns (out: Outcome)
      requires Valid() && i < NBUF
      requires cache.bufs[i].busy && cache.bufs[i].valid && !lay.InLog(cache.bufs[i].addr)
      modifies this`lh, cache`bufs
      ensures Valid()
      ensures !out.Sleeping?
      ensures out.Panicked? <==>
        && old(cache.bufs)[i].addr.dev == lay.dev
        && (old(|lh|) >= LOGSIZE || old(|lh|) >= lay.size - 1 || outstanding < 1)
      ensures out.Panicked? || old(cache.bufs)[i].addr.dev != lay.dev ==> lh == old(lh) && cache.bufs == old(cache.bufs)
      ensures out.Done? && old(cache.bufs)[i].addr.dev == lay.dev ==>
        && cache.bufs == old(cache.bufs)[i := old(cache.bufs)[i].(dirty := true)]
        && lh == Absorbed(old(lh), old(cache.bufs)[i].addr.bno)
        && lh == (if old(cache.bufs)[i].addr.bno in old(lh) then old(lh) else old(lh) + [old(cache.bufs)[i].addr.bno])
        && Contents() == old(Contents())
    {
      var b := cache.bufs[i];
      if b.addr.dev != lay.dev {
        return Done;
      }
      if |lh| >= LOGSIZE || |lh| >= lay.size - 1 {
        return Panicked;
      }
      if outstanding < 1 {
        return Panicked;
      }
      var k := IndexOf(lh, b.addr.bno);
      MarkPins(lay, lh, cache.bufs, cache.disk, i);
      StoreView(cache.bufs, cache.disk, cache.disk, i, b.(dirty := true));
      FindUnique(cache.bufs, i);
      hide Pinned, Logical;
      if k == |lh| {
        lh := lh + [b.addr.bno];
      }
      cache.bufs := cache.bufs[i := b.(dirty := true)];
      return Done;
    }

    /** Change a held block, log_write and brelse it. */
    method Store(i: nat, b: nat, data: Block) returns (out: Outcome)
      requires Valid() && cache.Fetched(i, Addr(lay.dev, b)) && !lay.InLog(Addr(lay.dev, b))
      modifies this`lh, cache
      ensures cache.disk == old(cache.disk) && cache.writes == old(cache.writes)
      ensures !out.Sleeping? && (out.Done? <==> |old(lh)| < LOGSIZE && outstanding >= 1)
      ensures out.Done? ==>
        && Valid() && lh == Absorbed(old(lh), b)
        && cache.bufs == old(cache.bufs)[i := Buf(false, true, true, Addr(lay.dev, b), data)]
        && Contents() == old(Contents())[Addr(lay.dev, b) := data]
    {
      hide Listed, Unique, Coherent, DirtySet, Logical, NoDup, LogSet, GoodBlocks;
      ghost var bufs, disk := cache.bufs, cache.disk;
      cache.Modify(i, data);
      PinnedStays(lay, lh, bufs, disk, cache.bufs, disk);
      out := LogWrite(i);
      if !out.Done? { return; }
      bufs := cache.bufs;
      cache.Brelse(i);
      PinnedStays(lay, lh, bufs, disk, cache.bufs, disk);
    }

    /** The documented use of log_write inside an operation: bread, change the data, log_write, brelse. */
    method Update(b: nat, data: Block) returns (out: Outcome)
      requires Valid() && Addr(lay.dev, b) in cache.disk && !lay.InLog(Addr(lay.dev, b))
      modifies this`lh, cache
      ensures cache.disk == old(cache.disk) && cache.writes == old(cache.writes)
      ensures out.Done? ==>
        && Valid() && lh == Absorbed(old(lh), b) && SameHeld(old(cache.bufs), cache.bufs)
        && Contents() == old(Contents())[Addr(lay.dev, b) := data]
      ensures out.Sleeping? <==> Locked(old(cache.bufs), Addr(lay.dev, b))
      ensures NoneBusy(old(cache.bufs)) ==> (out.Done? <==> |old(lh)| < LOGSIZE && outstanding >= 1)
    {
      var a := Addr(lay.dev, b);
      if NoneBusy(cache.bufs) && |lh| < LOGSIZE {
        PinsLeave(lay, lh, cache.bufs, cache.disk);
        FirstBread(cache.bufs, a);
      }
      hide Listed, Unique, Coherent, DirtySet, Logical, NoDup, SameHeld, NoneBusy, Locked, Cached, Exhausted, LogSet;
      hide GoodBlocks, Spare;
      ghost var bufs, disk := cache.bufs, cache.disk;
      var r := cache.Bread(a);
      if !r.Held? { return Stopped(r); }
      PinnedStays(lay, lh, bufs, disk, cache.bufs, disk);
      out := Store(r.id, b, data);
      if out.Done? {
        OneApart(bufs, r.id, Loaded(bufs[r.id], disk, a), cache.bufs[r.id]);
      }
    }

    /** m of the writes ws have been issued since the cache was in the given state. */
    ghost predicate Issued(w0: seq<Write>, d0: Image, v0: Image, ws: seq<Write>, m: nat)
      reads cache
    {
      Wrote(w0, d0, ws, m, cache.writes, cache.disk) && Contents() == Apply(v0, ws[..m])
    }

    /** The loop body of write_log. */
    method WriteLogBlock(tail: nat, ghost w0: seq<Write>, ghost d0: Image, ghost v0: Image) returns (r: Got)
      requires Valid() && tail < |lh|
      requires CanLog(lay, d0, lh, v0) && Issued(w0, d0, v0, ToLog(lay, d0, lh, v0), tail)
      modifies cache
      ensures r.Held? ==> Valid() && Issued(w0, d0, v0, ToLog(lay, d0, lh, v0), tail + 1)
      ensures r.Held? ==> SameHeld(old(cache.bufs), cache.bufs)
      ensures !r.Held? ==> cache.disk == old(cache.disk) && cache.writes == old(cache.writes)
      ensures r.Sleeps? ==> GroupLocked(lay, lh, old(cache.bufs))
      ensures r.Panics? ==> Exhausted(cache.bufs)
      ensures NoneBusy(old(cache.bufs)) ==> if |lh| < NBUF then r.Held? else r.Panics?
    {
      ghost var ws := ToLog(lay, d0, lh, v0);
      var a := Addr(lay.dev, lh[tail]);
      LogBlockStep(lay, lh, cache.bufs, cache.disk, tail, w0, d0, v0);
      hide Pinned, Listed, Unique, Coherent, DirtySet, LogSet, LastWrite, Apply, Logical, NoDup, ToLog, CanLog;
      hide SameHeld, NoneBusy, Exhausted, Cached, Roomy, Locked, GroupLocked;
      ghost var bufs0, disk0 := cache.bufs, cache.disk;
      r := cache.CopyBlock(a, lay.Slot(tail), true);
      if r.Held? {
        PinnedStays(lay, lh, bufs0, disk0, cache.bufs, cache.disk);
      } else if r.Sleeps? {
        CopyStops(lay, lh, tail, bufs0, bufs0);
      }
    }

    /** write_log: copy each block of the log from the cache to its log block. */
    method WriteLog() returns (out: Outcome, ghost m: nat)
      requires Valid()
      modifies cache
      ensures var ws := ToLog(lay, old(cache.disk), lh, old(Contents()));
        && Wrote(old(cache.writes), old(cache.disk), ws, m, cache.writes, cache.disk) && (out.Done? ==> m == |ws|)
        && (out.Done? ==> Valid() && Contents() == Apply(old(Contents()), ws))
      ensures out.Done? ==> SameHeld(old(cache.bufs), cache.bufs)
      ensures StopsFor(out, lay, lh, old(cache.bufs), cache.bufs)
      ensures NoneBusy(old(cache.bufs)) && lh != [] ==> if |lh| < NBUF then out.Done? else out.Panicked? && m == 0
    {
      ghost var w0, d0, v0 := cache.writes, cache.disk, Contents();
      ghost var ws := ToLog(lay, d0, lh, v0);
      assert |ws| == |lh|;
      ApplyNone(v0, ws);
      ApplyNone(d0, ws);
      assert SameHeld(cache.bufs, cache.bufs);
      hide ToLog, CanLog, Pinned, Apply, Logical, Listed, Unique;
      hide Coherent, NoDup, SameHeld, NoneBusy, Exhausted, GroupLocked;
      var tail := 0;
      m := 0;
      while tail < |lh|
        invariant 0 <= tail == m <= |lh|
        invariant Valid()
        invariant Issued(w0, d0, v0, ws, tail)
        invariant SameHeld(old(cache.bufs), cache.bufs)
        invariant NoneBusy(old(cache.bufs)) && |lh| >= NBUF ==> tail == 0
      {
        ghost var bufs := cache.bufs;
        HeldSince(old(cache.bufs), bufs, bufs);
        var r := WriteLogBlock(tail, w0, d0, v0);
        if !r.Held? {
          if r.Sleeps? {
            GroupLockedBefore(lay, lh, old(cache.bufs), bufs);
          }
          return Stopped(r), m;
        }
        HeldSince(old(cache.bufs), bufs, cache.bufs);
        tail, m := tail + 1, m + 1;
      }
      assert ws[..m] == ws;
      return Done, m;
    }

    /** write_head: rewrite the header block with the in-memory header. */
    method WriteHead() returns (out: Outcome, ghost m: nat)
      requires Ready(lh)
      modifies cache
      ensures var ws := HeadWrite(lay, old(cache.disk)[lay.Head()], lh);
        && Wrote(old(cache.writes), old(cache.disk), ws, m, cache.writes, cache.disk) && (out.Done? <==> m == |ws|)
        && (out.Done? ==> cache.Valid() && lay.Fits(cache.disk) && Contents() == Apply(old(Contents()), ws))
        && (out.Done? ==> DirtySet(cache.bufs) == old(DirtySet(cache.bufs)))
      ensures out.Done? ==> SameHeld(old(cache.bufs), cache.bufs)
      ensures out.Sleeping? <==> Locked(old(cache.bufs), lay.Head())
      ensures out.Panicked? ==> Exhausted(cache.bufs)
      ensures Spare(old(cache.bufs)) ==> out.Done?
    {
      hide Listed, Unique, Coherent, DirtySet, Logical, NoDup, SameHeld, Locked, Exhausted, Spare, Cached;
      hide Wrote, HeadWrite, Apply, PutHead;
      WroteHead(lay, cache.writes, cache.disk, Contents(), lh);
      if Spare(cache.bufs) {
        FirstBread(cache.bufs, lay.Head());
      }
      var r := cache.Bread(lay.Head());
      if !r.Held? { return Stopped(r), 0; }
      var data := FillHead(cache.bufs[r.id].data, lh);
      cache.Modify(r.id, data);
      var ok := cache.Bwrite(r.id);
      cache.Brelse(r.id);
      OneApart(old(cache.bufs), r.id, cache.bufs[r.id], cache.bufs[r.id]);
      assert cache.bufs == old(cache.bufs)[r.id := cache.bufs[r.id]];
      return Done, 1;
    }

    /** m blocks have been installed since the cache was in the given state. */
    ghost predicate Installed(w0: seq<Write>, d0: Image, v0: Image, dirty0: set<Addr>, m: nat)
      requires lay.Fits(d0) && |lh| <= LOGSIZE
      reads this, cache
    {
      && cache.Valid() && m <= |lh| && lay.Fits(cache.disk) && GoodBlocks(lay, cache.disk, lh)
      && Issued(w0, d0, v0, InstallWrites(lay, lh, LogDatas(lay, d0, |lh|)), m)
      && DirtySet(cache.bufs) == dirty0 - LogSet(lay, lh[..m])
    }

    /** The loop body of install_trans. */
    method InstallBlock(tail: nat, ghost w0: seq<Write>, ghost d0: Image, ghost v0: Image, ghost dirty0: set<Addr>)
      returns (r: Got)
      requires lay.dev != 0 && lay.Fits(d0) && GoodBlocks(lay, d0, lh) && tail < |lh|
      requires Installed(w0, d0, v0, dirty0, tail) && forall a | lay.InLog(a) :: a !in dirty0
      modifies cache
      ensures r.Held? ==> Installed(w0, d0, v0, dirty0, tail + 1) && SameHeld(old(cache.bufs), cache.bufs)
      ensures !r.Held? ==> cache.disk == old(cache.disk) && cache.writes == old(cache.writes)
      ensures r.Sleeps? ==> GroupLocked(lay, lh, old(cache.bufs))
      ensures r.Panics? ==> Exhausted(cache.bufs)
      ensures Roomy(old(cache.bufs), Addr(lay.dev, lh[tail])) ==> r.Held?
    {
      ghost var bufs, disk := cache.bufs, cache.disk;
      InstallBlockStep(lay, lh, bufs, disk, tail, w0, d0, v0, dirty0);
      hide Listed, Unique, Coherent, DirtySet, LogSet, LastWrite, Apply, Logical, NoDup, InstallWrites, LogDatas;
      hide SameHeld, Exhausted, Cached, Roomy, Locked, GroupLocked;
      r := cache.CopyBlock(lay.Slot(tail), Addr(lay.dev, lh[tail]), false);
      if r.Held? {
        SameBlocks(lay, lh, disk, cache.disk);
      } else if r.Sleeps? {
        CopyStops(lay, lh, tail, bufs, bufs);
      }
    }

    /** install_trans: copy each log block to the block the header lists, unpinning it. */
    method InstallTrans() returns (out: Outcome, ghost m: nat)
      requires Ready(lh)
      modifies cache
      ensures var ws := InstallWrites(lay, lh, LogDatas(lay, old(cache.disk), |lh|));
        && Wrote(old(cache.writes), old(cache.disk), ws, m, cache.writes, cache.disk) && (out.Done? ==> m == |ws|)
        && (out.Done? ==> cache.Valid() && lay.Fits(cache.disk) && Contents() == Apply(old(Contents()), ws))
        && (out.Done? ==> DirtySet(cache.bufs) == old(DirtySet(cache.bufs)) - LogSet(lay, lh))
      ensures out.Done? ==> SameHeld(old(cache.bufs), cache.bufs)
      ensures StopsFor(out, lay, lh, old(cache.bufs), cache.bufs)
      ensures Spare(old(cache.bufs)) && OwnPins(lay, lh, old(cache.bufs)) ==> out.Done?
    {
      hide Listed, Unique, Coherent, DirtySet, LogSet, LastWrite, Apply, Logical, NoDup;
      hide SameHeld, Exhausted, Spare, Roomy, Cached, Locked, GroupLocked, OwnPins;
      ghost var w0, d0, v0, dirty0 := cache.writes, cache.disk, Contents(), DirtySet(cache.bufs);
      ghost var ws := InstallWrites(lay, lh, LogDatas(lay, d0, |lh|));
      LogSetEmpty(lay, lh);
      ApplyNone(v0, ws);
      ApplyNone(d0, ws);
      NothingHeld(cache.bufs);
      var tail := 0;
      m := 0;
      while tail < |lh|
        invariant 0 <= tail == m <= |lh|
        invariant Installed(w0, d0, v0, dirty0, m)
        invariant SameHeld(old(cache.bufs), cache.bufs)
      {
        ghost var bufs := cache.bufs;
        if Spare(old(cache.bufs)) && OwnPins(lay, lh, old(cache.bufs)) {
          InstallRoomy(lay, lh, old(cache.bufs), bufs, tail);
        }
        var r := InstallBlock(tail, w0, d0, v0, dirty0);
        if !r.Held? {
          if r.Sleeps? {
            GroupLockedBefore(lay, lh, old(cache.bufs), bufs);
          }
          return Stopped(r), m;
        }
        HeldSince(old(cache.bufs), bufs, cache.bufs);
        tail, m := tail + 1, m + 1;
      }
      assert ws[..m] == ws && lh[..m] == lh;
      return Done, m;
    }

    /** The first half of commit(): log blocks, then the header that lists them. */
    method WriteGroup() returns (out: Outcome, ghost m: nat)
      requires Valid()
      modifies cache
      ensures var ws := UpToHead(lay, old(cache.disk), lh, old(Contents()));
        && Wrote(old(cache.writes), old(cache.disk), ws, m, cache.writes, cache.disk) && (out.Done? ==> m == |ws|)
        && (out.Done? ==> Ready(lh) && Contents() == Apply(old(Contents()), ws))
        && (out.Done? ==> DirtySet(cache.bufs) == LogSet(lay, lh))
        && (out.Done? ==> cache.disk == Committed(lay, old(cache.disk), lh, old(Contents())))
      ensures out.Done? ==> SameHeld(old(cache.bufs), cache.bufs)
      ensures StopsFor(out, lay, lh, old(cache.bufs), cache.bufs)
      ensures NoneBusy(old(cache.bufs)) && lh != [] ==> if |lh| < NBUF then out.Done? else out.Panicked? && m == 0
    {
      ghost var v0, d0, w0 := Contents(), cache.disk, cache.writes;
      ghost var lw, hw := ToLog(lay, d0, lh, v0), HeadWrite(lay, d0[lay.Head()], lh);
      ghost var ws := UpToHead(lay, d0, lh, v0);
      HeadAfterLog(lay, d0, lh, v0);
      hide CanLog, Wrote, Joined, UpToHead, Apply, ToLog, HeadWrite;
      hide Committed, Listed, Unique, Coherent, DirtySet, Logical;
      hide LogSet, GoodBlocks, NoDup, SameHeld, NoneBusy, Exhausted, Spare, Locked, GroupLocked;
      out, m := WriteLog();
      WroteFirst(w0, d0, lw, hw, ws, m, cache.writes, cache.disk);
      if !out.Done? { return; }
      ghost var w1, d1 := cache.writes, cache.disk;
      PinsOutsideLog(lay, lh, cache.bufs, cache.disk);
      ghost var bufs := cache.bufs;
      HeldSince(old(cache.bufs), bufs, bufs);
      if NoneBusy(bufs) {
        PinsLeave(lay, lh, bufs, cache.disk);
      }
      ghost var m1;
      out, m1 := WriteHead();
      if out.Sleeping? {
        HeadStops(lay, lh, old(cache.bufs), bufs);
      }
      HeldSince(old(cache.bufs), bufs, cache.bufs);
      m := m + m1;
      WroteBoth(w0, d0, lw, w1, d1, hw, ws, m1, m, cache.writes, cache.disk, v0);
    }

    /** The second half of commit() and of recover_from_log(): install what the header on disk lists and
        clear it. */
    method InstallAndClear() returns (out: Outcome, ghost m: nat)
      requires Ready(lh) && Recoverable(lay, cache.disk)
      requires lh == HeadBlocks(cache.disk[lay.Head()])
      modifies this`lh, cache
      ensures var ws := RecoveryWrites(lay, old(cache.disk));
        && Wrote(old(cache.writes), old(cache.disk), ws, m, cache.writes, cache.disk) && (out.Done? ==> m == |ws|)
        && (out.Done? ==> cache.Valid() && lh == [] && Contents() == Apply(old(Contents()), ws))
        && (out.Done? ==> DirtySet(cache.bufs) == old(DirtySet(cache.bufs)) - LogSet(lay, old(lh)))
      ensures out.Done? ==> SameHeld(old(cache.bufs), cache.bufs)
      ensures StopsFor(out, lay, old(lh), old(cache.bufs), cache.bufs)
      ensures Spare(old(cache.bufs)) && OwnPins(lay, old(lh), old(cache.bufs)) ==> out.Done?
    {
      ghost var v0, d0, w0, n := Contents(), cache.disk, cache.writes, |lh|;
      ghost var h, datas := d0[lay.Head()], LogDatas(lay, d0, n);
      ghost var iw, hw := InstallWrites(lay, lh, datas), HeadWrite(lay, h, []);
      ghost var ws := RecoveryWrites(lay, d0);
      assert Joined(iw, hw, ws);
      HeadAfterInstall(lay, d0, lh, datas);
      hide Wrote, Joined, Apply, InstallWrites, HeadWrite, RecoveryWrites, Listed;
      hide Unique, Coherent, DirtySet, Logical, LogSet, NoDup;
      hide SameHeld, Exhausted, Spare, Locked, GroupLocked, OwnPins;
      out, m := InstallTrans();
      WroteFirst(w0, d0, iw, hw, ws, m, cache.writes, cache.disk);
      if !out.Done? { return; }
      ghost var w1, d1 := cache.writes, cache.disk;
      ghost var bufs := cache.bufs;
      if Spare(old(cache.bufs)) {
        SpareStays(old(cache.bufs), bufs, LogSet(lay, lh));
      }
      lh := [];
      ghost var m1;
      out, m1 := WriteHead();
      if out.Sleeping? {
        HeadStops(lay, old(lh), old(cache.bufs), bufs);
      }
      HeldSince(old(cache.bufs), bufs, cache.bufs);
      m := m + m1;
      WroteBoth(w0, d0, iw, w1, d1, hw, ws, m1, m, cache.writes, cache.disk, v0);
    }

    /** commit() of a non-empty group, as a list of block writes. */
    method CommitGroup() returns (out: Outcome, ghost m: nat)
      requires Valid() && Idle() && lh != []
      modifies this`lh, cache
      ensures var ws := GroupWrites(lay, old(cache.disk), old(lh), old(Contents()));
        && Wrote(old(cache.writes), old(cache.disk), ws, m, cache.writes, cache.disk) && (out.Done? ==> m == |ws|)
        && (out.Done? ==> cache.Valid() && lh == [] && DirtySet(cache.bufs) == {})
        && (out.Done? ==> Contents() == Apply(old(Contents()), ws))
      ensures out.Done? ==> SameHeld(old(cache.bufs), cache.bufs)
      ensures StopsFor(out, lay, old(lh), old(cache.bufs), cache.bufs)
      ensures NoneBusy(old(cache.bufs)) ==> if |old(lh)| < NBUF then out.Done? else out.Panicked? && m == 0
    {
      ghost var v0, d0, w0 := Contents(), cache.disk, cache.writes;
      CommitSplits(lay, d0, lh, v0);
      ghost var first, rest := UpToHead(lay, d0, lh, v0), RecoveryWrites(lay, Committed(lay, d0, lh, v0));
      ghost var ws := GroupWrites(lay, d0, lh, v0);
      assert NoDup(lh) && lay.dev != 0;
      hide CanLog, Wrote, Joined, UpToHead, Apply, GroupWrites;
      hide RecoveryWrites, Committed, Listed, Unique, Coherent, DirtySet;
      hide Logical, LogSet, NoDup, SameHeld, NoneBusy, Exhausted, GroupLocked, Spare, OwnPins;
      hide Pinned, Recoverable, GoodBlocks, HeadBlocks;
      out, m := WriteGroup();
      WroteFirst(w0, d0, first, rest, ws, m, cache.writes, cache.disk);
      if !out.Done? { return; }
      ghost var w1, d1 := cache.writes, cache.disk;
      ghost var bufs := cache.bufs;
      HeldSince(old(cache.bufs), bufs, bufs);
      if NoneBusy(bufs) && |lh| < NBUF {
        OwnSpare(lay, lh, bufs);
      }
      ghost var m1;
      out, m1 := InstallAndClear();
      if out.Sleeping? {
        GroupLockedBefore(lay, old(lh), old(cache.bufs), bufs);
      }
      HeldSince(old(cache.bufs), bufs, cache.bufs);
      m := m + m1;
      WroteBoth(w0, d0, first, w1, d1, rest, ws, m1, m, cache.writes, cache.disk, v0);
    }

    /** commit(): whatever stops it and after however many block writes, recovery finds either none or
        all of the group, and the switch is the first header write.  A commit that finishes leaves an
        empty log, no pinned buffer and the logical contents of every home block unchanged.  If nobody
        holds a buffer it finishes, unless the log pins every buffer: then write_log finds none for its
        first block and panics. */
    method Commit() returns (out: Outcome, ghost m: nat)
      requires Valid() && Idle()
      modifies this`lh, cache
      ensures var ws := GroupWrites(lay, old(cache.disk), old(lh), old(Contents()));
        && Wrote(old(cache.writes), old(cache.disk), ws, m, cache.writes, cache.disk) && (out.Done? ==> m == |ws|)
        && AllOrNothing(lay, old(cache.disk), old(lh), old(Contents()))
      ensures out.Done? ==>
        && Valid() && Idle() && lh == []
        && Home(lay, Contents()) == Home(lay, old(Contents()))
        && Home(lay, cache.disk) == NewHome(lay, old(cache.disk), old(lh), old(Contents()))
        && SameHeld(old(cache.bufs), cache.bufs)
        && GroupOnDisk(lay, old(lh), old(Contents()), old(cache.disk), cache.disk)
      ensures StopsFor(out, lay, old(lh), old(cache.bufs), cache.bufs)
      ensures NoneBusy(old(cache.bufs)) ==> (out.Done? <==> |old(lh)| < NBUF)
      ensures NoneBusy(old(cache.bufs)) && !out.Done? ==> out.Panicked? && m == 0
    {
      ghost var v0, d0, w0, bs := Contents(), cache.disk, cache.writes, lh;
      GroupAtomic(lay, d0, lh, v0);
      CommitKeepsViews(lay, d0, lh, v0);
      NothingHeld(cache.bufs);
      hide CanLog, Wrote, AllOrNothing, Apply, GroupWrites, NewHome, Home, SameHeld, NoneBusy, Exhausted, GroupLocked;
      hide GroupOnDisk;
      hide Listed, Unique, Coherent, Logical;
      if |lh| == 0 {
        NothingToCommit(lay, d0, v0);
        NewHomeBlocks(lay, d0, [], v0, d0);
        WroteNone(w0, d0, []);
        return Done, 0;
      }
      out, m := CommitGroup();
      if out.Done? {
        CommitLeaves(lay, d0, bs, v0, w0, cache.writes, cache.disk);
        NewHomeBlocks(lay, d0, bs, v0, cache.disk);
        NothingPinned(lay, cache.bufs, cache.disk);
      }
    }

    /** read_head. */
    method LoadHead() returns (out: Outcome)
      requires cache.Valid() && lay.dev != 0 && DirtySet(cache.bufs) == {}
      requires Recoverable(lay, cache.disk)
      modifies this`lh, cache
      ensures cache.disk == old(cache.disk) && cache.writes == old(cache.writes)
      ensures out.Done? ==>
        && cache.Valid() && lh == HeadBlocks(cache.disk[lay.Head()]) && DirtySet(cache.bufs) == {}
        && SameHeld(old(cache.bufs), cache.bufs)
      ensures StopsFor(out, lay, HeadBlocks(old(cache.disk)[lay.Head()]), old(cache.bufs), cache.bufs)
      ensures NoneBusy(old(cache.bufs)) ==> out.Done?
    {
      hide Listed, Unique, Coherent, NoDup, Locked, Cached, SameHeld;
      hide NoneBusy, Exhausted, GroupLocked, Spare, Logical, DirtySet;
      BootSpare(cache.bufs);
      if NoneBusy(cache.bufs) {
        FirstBread(cache.bufs, lay.Head());
      }
      var r := cache.Bread(lay.Head());
      if !r.Held? {
        if r.Sleeps? {
          HeadStops(lay, HeadBlocks(cache.disk[lay.Head()]), old(cache.bufs), old(cache.bufs));
        }
        return Stopped(r);
      }
      lh := ReadHead(cache.bufs[r.id].data);
      cache.Brelse(r.id);
      OneApart(old(cache.bufs), r.id, cache.bufs[r.id], cache.bufs[r.id]);
      assert cache.bufs == old(cache.bufs)[r.id := cache.bufs[r.id]];
      return Done;
    }

    /** recover_from_log() for this log.  Nothing is pinned at boot.  Every crash point of recovery leaves
        a disk that recovers to the same home blocks; a recovery that finishes has installed them, and it
        finishes if nobody holds a buffer. */
    method RecoverFromLog() returns (out: Outcome, ghost m: nat)
      requires cache.Valid() && lay.dev != 0 && DirtySet(cache.bufs) == {}
      requires Recoverable(lay, cache.disk)
      modifies this`lh, cache
      ensures var ws := RecoveryWrites(lay, old(cache.disk));
        && Wrote(old(cache.writes), old(cache.disk), ws, m, cache.writes, cache.disk) && (out.Done? ==> m == |ws|)
        && Recoverable(lay, cache.disk) && Recovered(lay, cache.disk) == Recovered(lay, old(cache.disk))
      ensures out.Done? ==>
        Valid() && Idle() && lh == [] && Home(lay, cache.disk) == Recovered(lay, old(cache.disk))
      ensures StopsFor(out, lay, HeadBlocks(old(cache.disk)[lay.Head()]), old(cache.bufs), cache.bufs)
      ensures NoneBusy(old(cache.bufs)) ==> out.Done?
    {
      ghost var d0, bs, w0 := cache.disk, HeadBlocks(cache.disk[lay.Head()]), cache.writes;
      RecoveryIdempotent(lay, d0, 0);
      WroteNone(w0, d0, RecoveryWrites(lay, d0));
      hide Listed, Unique, Coherent, NoDup, Locked, Cached, SameHeld;
      hide NoneBusy, Exhausted, GroupLocked, Spare, Apply, RecoveryWrites;
      hide Home, Recovered, Pinned, DirtySet, LogSet, OwnPins, Logical;
      m := 0;
      out := LoadHead();
      if !out.Done? { return; }
      ghost var bufs := cache.bufs;
      HeldSince(old(cache.bufs), bufs, bufs);
      BootSpare(bufs);
      out, m := InstallAndClear();
      if out.Sleeping? {
        GroupLockedBefore(lay, bs, old(cache.bufs), bufs);
      }
      RecoveryIdempotent(lay, d0, m);
      if out.Done? {
        NothingPinned(lay, cache.bufs, cache.disk);
      }
    }

    /** begin_op: wait while a commit runs or the log could overflow, else reserve MAXOPBLOCKS blocks. */
    method BeginOp() returns (out: Outcome)
      modifies this`outstanding
      ensures !out.Panicked?
      ensures out.Sleeping? <==> committing || |lh| + (old(outstanding) + 1) * MAXOPBLOCKS > LOGSIZE
      ensures outstanding == if out.Done? then old(outstanding) + 1 else old(outstanding)
    {
      if committing {
        return Sleeping;
      } else if |lh| + (outstanding + 1) * MAXOPBLOCKS > LOGSIZE {
        return Sleeping;
      }
      outstanding := outstanding + 1;
      return Done;
    }

    /** end_op: the last operation to end commits the whole group. */
    method EndOp() returns (out: Outcome, ghost m: nat)
      requires Valid() && Idle() && outstanding > 0
      modifies this, cache
      ensures old(committing) ==> out.Panicked?
      ensures !old(committing) && old(outstanding) > 1 ==>
        && out.Done? && Valid() && Idle() && lh == old(lh) && !committing && outstanding == old(outstanding) - 1
        && cache.disk == old(cache.disk) && cache.writes == old(cache.writes) && cache.bufs == old(cache.bufs)
      ensures !old(committing) && old(outstanding) == 1 ==>
        var ws := GroupWrites(lay, old(cache.disk), old(lh), old(Contents()));
        && Wrote(old(cache.writes), old(cache.disk), ws, m, cache.writes, cache.disk) && (out.Done? ==> m == |ws|)
        && AllOrNothing(lay, old(cache.disk), old(lh), old(Contents()))
        && (out.Done? ==> Valid() && Idle() && lh == [] && !committing && outstanding == 0)
        && (out.Done? ==> Home(lay, Contents()) == Home(lay, old(Contents())))
        && StopsFor(out, lay, old(lh), old(cache.bufs), cache.bufs)
        && (NoneBusy(old(cache.bufs)) ==> (out.Done? <==> |old(lh)| < NBUF))
        && (NoneBusy(old(cache.bufs)) && !out.Done? ==> out.Panicked? && m == 0)
    {
      hide CanLog, Wrote, AllOrNothing, Home, Apply, Pinned, Logical, GroupWrites;
      hide Listed, Unique, Coherent, StopsFor, NoneBusy, NoDup, SameHeld;
      m := 0;
      outstanding := outstanding - 1;
      if committing {
        return Panicked, m;
      }
      if outstanding > 0 {
        return Done, m;
      }
      committing := true;
      out, m := Commit();
      if out.Done? {
        committing := false;
      }
    }
  }

  /** A log with three operations open. */
  method OpenLog(image: Image, lay: Layout) returns (log: Log)
    requires lay.dev != 0 && lay.Fits(image)
    ensures fresh(log) && fresh(log.cache) && log.Valid() && log.lay == lay && log.cache.disk == image
    ensures log.lh == [] && log.outstanding == 3 && !log.committing && NoneBusy(log.cache.bufs)
  {
    var cache := new Cache(image);
    assert DirtySet(cache.bufs) == {};
    log := new Log(cache, lay);
    hide Pinned, Listed, Unique, Coherent, DirtySet, Logical;
    var out := log.BeginOp();
    out := log.BeginOp();
    out := log.BeginOp();
  }

  /** Three operations that use their whole reservation fill the log, and the last of them panics: every
      buffer is pinned, so write_log finds none for its first block. */
  method FillLog(image: Image, lay: Layout, first: nat, data: Block) returns (log: Log, out: Outcome)
    requires lay.dev != 0 && lay.Fits(image) && image[lay.Head()][0] == 0
    requires forall b | first <= b < first + LOGSIZE :: Addr(lay.dev, b) in image && !lay.InLog(Addr(lay.dev, b))
    ensures out.Panicked? && log.cache.disk == image
  {
    log := OpenLog(image, lay);
    hide Pinned, Listed, Unique, Coherent, DirtySet, Logical, SameHeld, NoDup;
    hide AllOrNothing, StopsFor, GroupWrites, CanLog, Home, NewHome, Apply, Locked;
    var n := 0;
    while n < LOGSIZE
      invariant 0 <= n <= LOGSIZE && fresh(log) && fresh(log.cache) && log.lay == lay
      invariant log.Valid() && log.outstanding == 3 && !log.committing && log.cache.disk == image
      invariant NoneBusy(log.cache.bufs) && log.lh == seq(n, k requires 0 <= k => first + k)
    {
      ghost var bufs := log.cache.bufs;
      out := log.Update(first + n, data);
      HeldSince(bufs, log.cache.bufs, log.cache.bufs);
      n := n + 1;
    }
    out := EndThree(log);
  }

  method EndThree(log: Log) returns (out: Outcome)
    requires log.Valid() && log.Idle() && log.outstanding == 3 && !log.committing && NoneBusy(log.cache.bufs)
    requires |log.lh| == NBUF
    modifies log, log.cache
    ensures out.Panicked? && log.cache.disk == old(log.cache.disk)
  {
    hide Pinned, Listed, Unique, Coherent, DirtySet, Logical, SameHeld, NoDup, NoneBusy;
    hide AllOrNothing, StopsFor, GroupWrites, CanLog, Home, NewHome;
    ghost var m;
    out, m := log.EndOp();
    out, m := log.EndOp();
    out, m := log.EndOp();
  }
}
