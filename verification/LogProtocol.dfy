/** begin_op, log_write, end_op and commit of kern/log.c run by any number of processes in any
interleaving, with crashes at every point and recoveries that may crash again.

Each step is what one process does without releasing the log lock, or one block write of a commit or a
recovery; module Log proves that commit and recovery issue exactly these writes.
*/
module LogProtocol {
  import opened Common
  import opened RedoLog
  import B = BufferCache
  import L = Log

  /** Where a process is: outside any operation; in begin_op, about to look at the log; asleep in
      begin_op; in an operation that appended `added` blocks to the log; in log_write past its unlocked
      checks; or running commit(), having issued k block writes. */
  datatype Pc =
    | Outside
    | Trying
    | Asleep
    | InOp(added: nat)
    | Logging(added: nat, bno: nat, data: Block)
    | Commit(k: nat)

  datatype Mode = Running | Recovering(k: nat)

  /** view: the logical home blocks.  base: the disk when the running commit or recovery began.
      durable: the home blocks that recovery would produce if the machine stopped now. */
  datatype State = State(
    mode: Mode,
    procs: seq<Pc>,
    outstanding: int,
    committing: bool,
    lh: seq<nat>,
    disk: Image,
    view: Image,
    base: Image,
    durable: Image)

  function Woken(procs: seq<Pc>): (r: seq<Pc>) {
    seq(|procs|, i requires 0 <= i < |procs| => if procs[i].Asleep? then Trying else procs[i])
  }

  predicate MustWait(s: State) {
    s.committing || |s.lh| + (s.outstanding + 1) * MAXOPBLOCKS > LOGSIZE
  }

  function Put(s: State, p: nat, pc: Pc): (r: State)
    requires p < |s.procs|
  {
    s.(procs := s.procs[p := pc])
  }

  // ---------------------------------------------------------------- steps

  predicate EnterStep(s: State, s': State, p: nat)
    requires p < |s.procs|
  {
    s.procs[p].Outside? && s' == Put(s, p, Trying)
  }

  predicate BeginStep(s: State, s': State, p: nat)
    requires p < |s.procs|
  {
    && s.procs[p].Trying?
    && s' == if MustWait(s) then Put(s, p, Asleep)
             else Put(s, p, InOp(0)).(outstanding := s.outstanding + 1)
  }

  /** The two panics log_write checks for before it takes the lock. */
  predicate LogWritePanics(s: State, lay: Layout) {
    |s.lh| >= LOGSIZE || |s.lh| >= lay.size - 1 || s.outstanding < 1
  }

  /** A client calls log_write for a block it holds and has changed; it has appended fewer than
      MAXOPBLOCKS blocks so far. */
  predicate CheckStep(s: State, s': State, p: nat, lay: Layout, bno: nat, data: Block)
    requires p < |s.procs|
  {
    && s.procs[p].InOp? && s.procs[p].added < MAXOPBLOCKS
    && Addr(lay.dev, bno) in s.disk && !lay.InLog(Addr(lay.dev, bno))
    && !LogWritePanics(s, lay)
    && s' == Put(s, p, Logging(s.procs[p].added, bno, data))
  }

  predicate AppendStep(s: State, s': State, p: nat, lay: Layout)
    requires p < |s.procs|
  {
    && s.procs[p].Logging?
    && var pc := s.procs[p];
       var isNew := pc.bno !in s.lh;
       s' == Put(s, p, InOp(if isNew then pc.added + 1 else pc.added)).(
               lh := if isNew then s.lh + [pc.bno] else s.lh,
               view := s.view[Addr(lay.dev, pc.bno) := pc.data])
  }

  predicate EndStep(s: State, s': State, p: nat)
    requires p < |s.procs|
  {
    && s.procs[p].InOp? && !s.committing
    && s' == if s.outstanding == 1
             then Put(s, p, Commit(0)).(outstanding := 0, committing := true, base := s.disk)
             else s.(procs := Woken(s.procs[p := Outside]), outstanding := s.outstanding - 1)
  }

  ghost predicate CommitReady(s: State, lay: Layout) {
    lay.Fits(s.base) && GoodBlocks(lay, s.base, s.lh) && forall i | 0 <= i < |s.lh| :: Addr(lay.dev, s.lh[i]) in s.view
  }

  ghost function CommitList(s: State, lay: Layout): (ws: seq<Write>)
    requires CommitReady(s, lay)
  {
    L.GroupWrites(lay, s.base, s.lh, s.view)
  }

  /** One block write of commit().  The first header write makes the group durable.  A group that pins
      every buffer gets no write through: bget panics, which is a crash. */
  ghost predicate CommitStep(s: State, s': State, p: nat, lay: Layout)
    requires p < |s.procs|
  {
    && s.procs[p].Commit? && CommitReady(s, lay) && |s.lh| < B.NBUF
    && var k, ws := s.procs[p].k, CommitList(s, lay);
       && k < |ws|
       && s' == Put(s, p, Commit(k + 1)).(
                  disk := s.disk[ws[k].addr := ws[k].data],
                  durable := if k == |s.lh| then s.view else s.durable)
  }

  ghost predicate CommitEndStep(s: State, s': State, p: nat, lay: Layout)
    requires p < |s.procs|
  {
    && s.procs[p].Commit? && CommitReady(s, lay)
    && s.procs[p].k == |CommitList(s, lay)|
    && s' == s.(procs := Woken(s.procs[p := Outside]), committing := false, lh := [])
  }

  /** Power is lost; on the next boot recovery starts from whatever the disk holds. */
  predicate CrashStep(s: State, s': State) {
    s' == s.(mode := Recovering(0), base := s.disk)
  }

  ghost predicate RecoverStep(s: State, s': State, lay: Layout) {
    && s.mode.Recovering? && Recoverable(lay, s.base)
    && var k, ws := s.mode.k, RecoveryWrites(lay, s.base);
       if k < |ws|
       then s' == s.(mode := Recovering(k + 1), disk := s.disk[ws[k].addr := ws[k].data])
       else s' == Booted(s.disk, Home(lay, s.disk), |s.procs|, s.durable)
  }

  function Booted(disk: Image, view: Image, n: nat, durable: Image): (s: State) {
    State(Running, seq(n, _ => Outside), 0, false, [], disk, view, disk, durable)
  }

  ghost predicate Step(s: State, s': State, lay: Layout) {
    || CrashStep(s, s')
    || RecoverStep(s, s', lay)
    || (s.mode.Running? && exists p: nat :: p < |s.procs| && ProcStep(s, s', p, lay))
  }

  ghost predicate ProcStep(s: State, s': State, p: nat, lay: Layout)
    requires p < |s.procs|
  {
    || EnterStep(s, s', p)
    || BeginStep(s, s', p)
    || (exists bno, data :: CheckStep(s, s', p, lay, bno, data))
    || AppendStep(s, s', p, lay)
    || EndStep(s, s', p)
    || CommitStep(s, s', p, lay)
    || CommitEndStep(s, s', p, lay)
  }

  ghost predicate Init(s: State, lay: Layout) {
    && lay.dev != 0 && lay.Fits(s.disk) && s.disk[lay.Head()][0] == 0
    && s == Booted(s.disk, Home(lay, s.disk), |s.procs|, Home(lay, s.disk))
  }

  ghost predicate Run(run: seq<State>, lay: Layout) {
    && |run| > 0 && Init(run[0], lay)
    && forall i | 0 <= i < |run| - 1 :: Step(run[i], run[i + 1], lay)
  }

  // ---------------------------------------------------------------- the invariant

  predicate Active(pc: Pc) {
    pc.InOp? || pc.Logging?
  }

  function Credit(pc: Pc): (r: int) {
    if Active(pc) then MAXOPBLOCKS - pc.added else 0
  }

  function ActiveCount(procs: seq<Pc>): (r: nat) {
    if procs == [] then 0 else ActiveCount(procs[1..]) + if Active(procs[0]) then 1 else 0
  }

  /** Log blocks that the running operations may still append. */
  function Reserved(procs: seq<Pc>): (r: int) {
    if procs == [] then 0 else Reserved(procs[1..]) + Credit(procs[0])
  }

  predicate GoodPc(pc: Pc, s: State, lay: Layout) {
    && (pc.InOp? ==> pc.added <= MAXOPBLOCKS)
    && (pc.Logging? ==> pc.added < MAXOPBLOCKS && Addr(lay.dev, pc.bno) in s.disk && !lay.InLog(Addr(lay.dev, pc.bno)))
    && (pc.Commit? ==> s.committing && (pc.k > 0 ==> |s.lh| < B.NBUF))
    && (pc.Asleep? ==> s.outstanding > 0 || s.committing)
  }

  predicate OneCommitter(procs: seq<Pc>) {
    forall p, q | 0 <= p < q < |procs| :: !(procs[p].Commit? && procs[q].Commit?)
  }

  /** The volatile protocol state. */
  ghost predicate Protocol(s: State, lay: Layout) {
    && s.outstanding == ActiveCount(s.procs)
    && |s.lh| + Reserved(s.procs) <= LOGSIZE
    && (s.committing ==> s.outstanding == 0 && exists p :: 0 <= p < |s.procs| && s.procs[p].Commit?)
    && OneCommitter(s.procs)
    && (forall p | 0 <= p < |s.procs| :: GoodPc(s.procs[p], s, lay))
    && (s.outstanding == 0 && !s.committing ==> s.lh == [])
    && NoDup(s.lh)
  }

  /** Blocks outside the log are on disk as they are in memory. */
  predicate Synced(disk: Image, view: Image, lh: seq<nat>, lay: Layout) {
    && view.Keys == Home(lay, disk).Keys
    && forall a | a in view && !(a.dev == lay.dev && a.bno in lh) :: view[a] == disk[a]
  }

  /** The running commit has issued k of its writes. */
  ghost predicate CommitAt(s: State, k: nat, lay: Layout) {
    && CommitReady(s, lay)
    && var ws := CommitList(s, lay);
       && k <= |ws| && s.disk == Apply(s.base, ws[..k])
       && s.durable == if k <= |s.lh| then Home(lay, s.base) else s.view
  }

  ghost predicate OnDisk(s: State, lay: Layout) {
    && lay.dev != 0 && lay.Fits(s.disk) && GoodBlocks(lay, s.disk, s.lh)
    && if !s.committing then
         s.disk[lay.Head()][0] == 0 && Synced(s.disk, s.view, s.lh, lay) && s.durable == Home(lay, s.disk)
       else
         && CommitReady(s, lay)
         && s.base[lay.Head()][0] == 0 && Synced(s.base, s.view, s.lh, lay)
         && forall p | 0 <= p < |s.procs| && s.procs[p].Commit? :: CommitAt(s, s.procs[p].k, lay)
  }

  ghost predicate Inv(s: State, lay: Layout) {
    && Recoverable(lay, s.disk)
    && Recovered(lay, s.disk) == s.durable
    && match s.mode
       case Running => Protocol(s, lay) && OnDisk(s, lay)
       case Recovering(k) =>
         && lay.dev != 0 && Recoverable(lay, s.base)
         && k <= |RecoveryWrites(lay, s.base)|
         && s.disk == Apply(s.base, RecoveryWrites(lay, s.base)[..k])
         && s.durable == Recovered(lay, s.base)
  }

  // ---------------------------------------------------------------- counting

  lemma {:induction false} SumUpdate(procs: seq<Pc>, p: nat, pc: Pc)
    requires p < |procs|
    ensures ActiveCount(procs[p := pc]) ==
      ActiveCount(procs) - (if Active(procs[p]) then 1 else 0) + if Active(pc) then 1 else 0
    ensures Reserved(procs[p := pc]) == Reserved(procs) - Credit(procs[p]) + Credit(pc)
  {
    var procs' := procs[p := pc];
    if p == 0 {
      assert procs'[1..] == procs[1..];
    } else {
      assert procs'[1..] == procs[1..][p - 1 := pc];
      SumUpdate(procs[1..], p - 1, pc);
    }
  }

  lemma {:induction false} SumWoken(procs: seq<Pc>)
    ensures ActiveCount(Woken(procs)) == ActiveCount(procs)
    ensures Reserved(Woken(procs)) == Reserved(procs)
  {
    if procs != [] {
      assert Woken(procs)[1..] == Woken(procs[1..]);
      SumWoken(procs[1..]);
    }
  }

  lemma StillOneCommitter(procs: seq<Pc>, p: nat, pc: Pc)
    requires OneCommitter(procs) && p < |procs|
    requires pc.Commit? && !procs[p].Commit? ==> forall q | 0 <= q < |procs| :: !procs[q].Commit?
    ensures OneCommitter(procs[p := pc]) && OneCommitter(Woken(procs[p := pc]))
  {
  }

  lemma {:induction false} SumBounds(procs: seq<Pc>, p: nat)
    requires p < |procs|
    requires forall q | 0 <= q < |procs| :: Active(procs[q]) ==> procs[q].added <= MAXOPBLOCKS
    ensures Reserved(procs) >= Credit(procs[p])
    ensures Active(procs[p]) ==> ActiveCount(procs) >= 1
  {
    if p == 0 {
      if |procs| > 1 { SumBounds(procs[1..], 0); }
    } else {
      SumBounds(procs[1..], p - 1);
    }
  }

  lemma {:induction false} NobodyActive(n: nat)
    ensures ActiveCount(seq(n, _ => Outside)) == 0
    ensures Reserved(seq(n, _ => Outside)) == 0
  {
    if n > 0 {
      assert seq(n, _ => Outside)[1..] == seq(n - 1, _ => Outside);
      NobodyActive(n - 1);
    }
  }

  // ---------------------------------------------------------------- each step keeps the invariant

  lemma EnterKeeps(s: State, s': State, p: nat, lay: Layout)
    requires Inv(s, lay) && s.mode.Running? && p < |s.procs| && EnterStep(s, s', p)
    ensures Inv(s', lay)
  {
    SumUpdate(s.procs, p, Trying);
    CommitterStays(s, s', p, lay);
    hide OnDisk, Recovered, Recoverable;
  }

  /** A step of a process that is not committing, and does not start to, leaves the running commit alone. */
  lemma CommitterStays(s: State, s': State, p: nat, lay: Layout)
    requires OnDisk(s, lay) && p < |s.procs| && !s.procs[p].Commit?
    requires |s'.procs| == |s.procs| && !s'.procs[p].Commit?
    requires forall q | 0 <= q < |s.procs| && q != p :: s'.procs[q].Commit? ==> s'.procs[q] == s.procs[q]
    requires (s'.disk, s'.view, s'.base, s'.durable, s'.lh, s'.committing)
          == (s.disk, s.view, s.base, s.durable, s.lh, s.committing)
    ensures OnDisk(s', lay)
  {
  }

  lemma BeginKeeps(s: State, s': State, p: nat, lay: Layout)
    requires Inv(s, lay) && s.mode.Running? && p < |s.procs| && BeginStep(s, s', p)
    ensures Inv(s', lay)
  {
    BeginProtocol(s, s', p, lay);
    CommitterStays(s, s', p, lay);
    hide Protocol, OnDisk, Recovered, Recoverable, MustWait;
  }

  lemma BeginProtocol(s: State, s': State, p: nat, lay: Layout)
    requires Protocol(s, lay) && p < |s.procs| && BeginStep(s, s', p)
    ensures Protocol(s', lay)
  {
    StillOneCommitter(s.procs, p, s'.procs[p]);
    BeginCounts(s, s', p, lay);
    BeginPcs(s, s', p, lay);
    hide Reserved, ActiveCount, NoDup, OneCommitter, GoodPc, MustWait;
  }

  lemma BeginCounts(s: State, s': State, p: nat, lay: Layout)
    requires Protocol(s, lay) && p < |s.procs| && BeginStep(s, s', p)
    ensures s'.outstanding == ActiveCount(s'.procs) && |s'.lh| + Reserved(s'.procs) <= LOGSIZE
    ensures s'.committing ==> s'.outstanding == 0 && exists q :: 0 <= q < |s'.procs| && s'.procs[q].Commit?
  {
    ReservedBound(s.procs);
    SumUpdate(s.procs, p, s'.procs[p]);
    hide Reserved, ActiveCount, NoDup, OneCommitter, GoodPc;
    if s.committing {
      var q :| 0 <= q < |s.procs| && s.procs[q].Commit?;
      assert s'.procs[q].Commit?;
    }
  }

  lemma BeginPcs(s: State, s': State, p: nat, lay: Layout)
    requires Protocol(s, lay) && p < |s.procs| && BeginStep(s, s', p)
    ensures forall q | 0 <= q < |s'.procs| :: GoodPc(s'.procs[q], s', lay)
  {
    hide Reserved, ActiveCount, NoDup, OneCommitter;
    forall q | 0 <= q < |s'.procs| ensures GoodPc(s'.procs[q], s', lay) {
      assert GoodPc(s.procs[q], s, lay);
    }
  }

  lemma {:induction false} ReservedBound(procs: seq<Pc>)
    ensures Reserved(procs) <= ActiveCount(procs) * MAXOPBLOCKS
  {
    if procs != [] {
      ReservedBound(procs[1..]);
    }
  }

  lemma CheckKeeps(s: State, s': State, p: nat, lay: Layout, bno: nat, data: Block)
    requires Inv(s, lay) && s.mode.Running? && p < |s.procs| && CheckStep(s, s', p, lay, bno, data)
    ensures Inv(s', lay)
  {
    SumUpdate(s.procs, p, s'.procs[p]);
    CommitterStays(s, s', p, lay);
    hide OnDisk, Recovered, Recoverable;
  }

  lemma AppendKeeps(s: State, s': State, p: nat, lay: Layout)
    requires Inv(s, lay) && s.mode.Running? && p < |s.procs| && AppendStep(s, s', p, lay)
    ensures Inv(s', lay)
  {
    AppendProtocol(s, s', p, lay);
    AppendOnDisk(s, s', p, lay);
    hide Protocol, OnDisk, Recovered, Recoverable;
  }

  lemma AppendProtocol(s: State, s': State, p: nat, lay: Layout)
    requires Protocol(s, lay) && p < |s.procs| && AppendStep(s, s', p, lay)
    ensures Protocol(s', lay) && !s.committing && |s'.lh| <= LOGSIZE
    ensures var a := Addr(lay.dev, s.procs[p].bno); a in s.disk && !lay.InLog(a)
  {
    SumUpdate(s.procs, p, s'.procs[p]);
    SumBounds(s.procs, p);
    SumBounds(s'.procs, p);
    StillOneCommitter(s.procs, p, s'.procs[p]);
    hide Reserved, ActiveCount, OneCommitter;
  }

  lemma AppendOnDisk(s: State, s': State, p: nat, lay: Layout)
    requires OnDisk(s, lay) && !s.committing && p < |s.procs| && AppendStep(s, s', p, lay) && |s'.lh| <= LOGSIZE
    requires var a := Addr(lay.dev, s.procs[p].bno); a in s.disk && !lay.InLog(a)
    ensures OnDisk(s', lay)
  {
    assert s.procs[p].bno in s'.lh;
    assert forall b | b in s.lh :: b in s'.lh;
  }

  lemma EndKeeps(s: State, s': State, p: nat, lay: Layout)
    requires Inv(s, lay) && s.mode.Running? && p < |s.procs| && EndStep(s, s', p)
    ensures Inv(s', lay)
  {
    EndProtocol(s, s', p, lay);
    EndOnDisk(s, s', p, lay);
    hide Protocol, OnDisk, Recovered, Recoverable;
  }

  lemma EndProtocol(s: State, s': State, p: nat, lay: Layout)
    requires Protocol(s, lay) && p < |s.procs| && EndStep(s, s', p)
    ensures Protocol(s', lay)
  {
    SumUpdate(s.procs, p, Outside);
    SumUpdate(s.procs, p, Commit(0));
    SumWoken(s.procs[p := Outside]);
    SumBounds(s.procs, p);
    StillOneCommitter(s.procs, p, Outside);
    StillOneCommitter(s.procs, p, Commit(0));
    hide Reserved, ActiveCount, NoDup, OneCommitter;
    if s.outstanding == 1 {
      assert s'.procs[p].Commit?;
    }
  }

  lemma EndOnDisk(s: State, s': State, p: nat, lay: Layout)
    requires OnDisk(s, lay) && Protocol(s, lay) && p < |s.procs| && EndStep(s, s', p)
    ensures OnDisk(s', lay)
  {
    hide Reserved, ActiveCount, NoDup;
    if s.outstanding == 1 {
      assert CommitList(s', lay)[..0] == [];
    }
  }

  /** Installing the group turns the home blocks on disk into the logical ones. */
  lemma InstallYieldsView(base: Image, view: Image, lh: seq<nat>, lay: Layout)
    requires GoodBlocks(lay, base, lh) && Synced(base, view, lh, lay)
    requires forall i | 0 <= i < |lh| :: Addr(lay.dev, lh[i]) in view
    ensures Home(lay, Apply(base, InstallWrites(lay, lh, L.Datas(lay, lh, view)))) == view
  {
    var iw := InstallWrites(lay, lh, L.Datas(lay, lh, view));
    L.InstallSameView(lay, lh, view);
    forall a | !lay.InLog(a)
      ensures a in Apply(base, iw) <==> a in view
      ensures a in view ==> Apply(base, iw)[a] == view[a]
    {
      assert a in view.Keys <==> a in Home(lay, base).Keys;
      ApplyLookup(base, iw, a);
      ApplyLookup(view, iw, a);
      LastWriteMember(iw, a);
      if a.dev == lay.dev && a.bno in lh {
        var i :| 0 <= i < |lh| && lh[i] == a.bno;
        assert iw[i].addr == a;
      }
    }
    forall a | a in view ensures !lay.InLog(a) {
      assert a in Home(lay, base).Keys;
    }
    HomeEqual(lay, Apply(base, iw), view);
    assert Home(lay, view) == view;
  }

  ghost predicate CanCommit(base: Image, view: Image, lh: seq<nat>, lay: Layout) {
    && L.CanLog(lay, base, lh, view) && base[lay.Head()][0] == 0 && GoodBlocks(lay, base, lh)
    && Synced(base, view, lh, lay)
  }

  /** What commit() has achieved after k of its writes. */
  lemma CommitProgress(base: Image, view: Image, lh: seq<nat>, k: nat, lay: Layout)
    requires CanCommit(base, view, lh, lay) && k <= |L.GroupWrites(lay, base, lh, view)|
    ensures var ws := L.GroupWrites(lay, base, lh, view); var e := Apply(base, ws[..k]);
      && Recoverable(lay, e)
      && Recovered(lay, e) == (if k <= |lh| then Home(lay, base) else view)
      && e.Keys == base.Keys
      && (k == |ws| ==> e[lay.Head()][0] == 0 && Home(lay, e) == view && Recovered(lay, e) == view)
  {
    var ws := L.GroupWrites(lay, base, lh, view);
    L.GroupAtomic(lay, base, lh, view);
    InstallYieldsView(base, view, lh, lay);
    CommitKeys(base, view, lh, k, lay);
    if k == |ws| {
      assert ws[..k] == ws;
      if lh == [] {
        assert InstallWrites(lay, lh, L.Datas(lay, lh, view)) == [];
      } else {
        CommitComplete(lay, base, lh, L.Datas(lay, lh, view));
        EmptyHeadRecovers(lay, Apply(base, ws));
      }
    }
  }

  lemma CommitTarget(base: Image, view: Image, lh: seq<nat>, i: nat, lay: Layout)
    requires lay.Fits(base) && GoodBlocks(lay, base, lh)
    requires forall i | 0 <= i < |lh| :: Addr(lay.dev, lh[i]) in view
    requires i < |L.GroupWrites(lay, base, lh, view)|
    ensures L.GroupWrites(lay, base, lh, view)[i].addr in base
  {
    var a, n := L.GroupWrites(lay, base, lh, view)[i].addr, |lh|;
    if i < n {
      assert a == lay.Slot(i);
    } else if n < i <= 2 * n {
      assert a == Addr(lay.dev, lh[i - n - 1]);
    } else {
      assert a == lay.Head();
    }
  }

  /** No write of a commit creates a block. */
  lemma {:induction false} CommitKeys(base: Image, view: Image, lh: seq<nat>, k: nat, lay: Layout)
    requires lay.Fits(base) && GoodBlocks(lay, base, lh)
    requires forall i | 0 <= i < |lh| :: Addr(lay.dev, lh[i]) in view
    requires k <= |L.GroupWrites(lay, base, lh, view)|
    ensures Apply(base, L.GroupWrites(lay, base, lh, view)[..k]).Keys == base.Keys
    decreases k
  {
    var ws := L.GroupWrites(lay, base, lh, view);
    if k > 0 {
      CommitKeys(base, view, lh, k - 1, lay);
      L.ApplyStep(base, ws, k - 1);
      CommitTarget(base, view, lh, k - 1, lay);
    }
  }

  lemma CommitKeeps(s: State, s': State, p: nat, lay: Layout)
    requires Inv(s, lay) && s.mode.Running? && p < |s.procs| && CommitStep(s, s', p, lay)
    ensures Inv(s', lay)
  {
    CommitKeepsDisk(s, s', p, lay);
    CommitKeepsProtocol(s, s', p, lay);
  }

  /** The disk after one more write of a commit. */
  lemma CommitWriteDisk(s: State, s': State, p: nat, lay: Layout)
    requires OnDisk(s, lay) && p < |s.procs| && CommitStep(s, s', p, lay) && s.committing
    ensures CommitReady(s', lay) && CommitAt(s', s.procs[p].k + 1, lay)
    ensures s'.disk.Keys == s.base.Keys == s.disk.Keys
    ensures Recoverable(lay, s'.disk) && Recovered(lay, s'.disk) == s'.durable
  {
    assert CommitAt(s, s.procs[p].k, lay);
    var k, ws := s.procs[p].k, CommitList(s, lay);
    CommitNext(s.base, s.view, s.lh, ws, k, lay);
    hide Recoverable, Recovered, Synced, Home, Apply;
  }

  /** Between k and k + 1 of the writes ws of a commit. */
  lemma CommitNext(base: Image, view: Image, lh: seq<nat>, ws: seq<Write>, k: nat, lay: Layout)
    requires CanCommit(base, view, lh, lay) && ws == L.GroupWrites(lay, base, lh, view) && k < |ws|
    ensures var e := Apply(base, ws[..k + 1]);
      && e == Apply(base, ws[..k])[ws[k].addr := ws[k].data]
      && Apply(base, ws[..k]).Keys == base.Keys == e.Keys
      && Recoverable(lay, e)
      && Recovered(lay, e) == if k + 1 <= |lh| then Home(lay, base) else view
  {
    L.ApplyStep(base, ws, k);
    CommitProgress(base, view, lh, k, lay);
    CommitProgress(base, view, lh, k + 1, lay);
    hide Recovered, Recoverable, Home, Apply, L.GroupWrites;
  }

  lemma SameKeys(lay: Layout, d: Image, d': Image, lh: seq<nat>)
    requires d'.Keys == d.Keys
    ensures lay.Fits(d) ==> lay.Fits(d')
    ensures GoodBlocks(lay, d, lh) ==> GoodBlocks(lay, d', lh)
  {
    assert forall a :: a in d'.Keys <==> a in d.Keys;
  }

  lemma CommitKeepsDisk(s: State, s': State, p: nat, lay: Layout)
    requires OnDisk(s, lay) && p < |s.procs| && CommitStep(s, s', p, lay) && s.committing
    requires forall q | 0 <= q < |s.procs| :: s.procs[q].Commit? ==> q == p
    ensures OnDisk(s', lay) && s'.disk.Keys == s.disk.Keys
    ensures Recoverable(lay, s'.disk) && Recovered(lay, s'.disk) == s'.durable
  {
    CommitWriteDisk(s, s', p, lay);
    SameKeys(lay, s.disk, s'.disk, s.lh);
    hide CommitAt, Recovered, Recoverable, Synced, GoodBlocks, CommitReady;
    assert s'.base == s.base && s'.view == s.view && s'.lh == s.lh && s'.committing;
    assert CommitReady(s', lay);
  }

  lemma CommitKeepsProtocol(s: State, s': State, p: nat, lay: Layout)
    requires Protocol(s, lay) && p < |s.procs| && s.procs[p].Commit? && CommitStep(s, s', p, lay)
    requires s'.disk.Keys == s.disk.Keys
    ensures Protocol(s', lay)
  {
    SumUpdate(s.procs, p, s'.procs[p]);
    assert s'.procs[p].Commit?;
    assert forall a :: a in s'.disk <==> a in s'.disk.Keys;
  }

  lemma CommitEndKeeps(s: State, s': State, p: nat, lay: Layout)
    requires Inv(s, lay) && s.mode.Running? && p < |s.procs| && CommitEndStep(s, s', p, lay)
    ensures Inv(s', lay)
  {
    var k := s.procs[p].k;
    SumUpdate(s.procs, p, Outside);
    SumWoken(s.procs[p := Outside]);
    CommitProgress(s.base, s.view, s.lh, k, lay);
  }

  lemma RecoverKeeps(s: State, s': State, lay: Layout)
    requires Inv(s, lay) && RecoverStep(s, s', lay)
    ensures Inv(s', lay)
  {
    var k, ws := s.mode.k, RecoveryWrites(lay, s.base);
    if k < |ws| {
      L.ApplyStep(s.base, ws, k);
      RecoveryIdempotent(lay, s.base, k + 1);
    } else {
      RecoveryIdempotent(lay, s.base, k);
      EmptyHeadRecovers(lay, s.disk);
      BootedInv(s.disk, |s.procs|, lay);
    }
  }

  lemma BootedInv(disk: Image, n: nat, lay: Layout)
    requires lay.dev != 0 && lay.Fits(disk) && disk[lay.Head()][0] == 0
    ensures Inv(Booted(disk, Home(lay, disk), n, Home(lay, disk)), lay)
  {
    NobodyActive(n);
    EmptyHeadRecovers(lay, disk);
  }

  lemma StepKeeps(s: State, s': State, lay: Layout)
    requires Inv(s, lay) && Step(s, s', lay)
    ensures Inv(s', lay)
  {
    if CrashStep(s, s') {
      assert RecoveryWrites(lay, s.disk)[..0] == [];
    } else if RecoverStep(s, s', lay) {
      RecoverKeeps(s, s', lay);
    } else {
      var p: nat :| p < |s.procs| && ProcStep(s, s', p, lay);
      ProcStepKeeps(s, s', p, lay);
    }
  }

  lemma ProcStepKeeps(s: State, s': State, p: nat, lay: Layout)
    requires Inv(s, lay) && s.mode.Running? && p < |s.procs| && ProcStep(s, s', p, lay)
    ensures Inv(s', lay)
  {
    if EnterStep(s, s', p) {
      EnterKeeps(s, s', p, lay);
    } else if BeginStep(s, s', p) {
      BeginKeeps(s, s', p, lay);
    } else if bno, data :| CheckStep(s, s', p, lay, bno, data) {
      CheckKeeps(s, s', p, lay, bno, data);
    } else if AppendStep(s, s', p, lay) {
      AppendKeeps(s, s', p, lay);
    } else if EndStep(s, s', p) {
      EndKeeps(s, s', p, lay);
    } else if CommitStep(s, s', p, lay) {
      CommitKeeps(s, s', p, lay);
    } else {
      CommitEndKeeps(s, s', p, lay);
    }
  }

  // ---------------------------------------------------------------- theorems over whole runs

  lemma {:induction false} RunInv(run: seq<State>, lay: Layout, i: nat)
    requires Run(run, lay) && i < |run|
    ensures Inv(run[i], lay)
  {
    if i == 0 {
      BootedInv(run[0].disk, |run[0].procs|, lay);
    } else {
      RunInv(run, lay, i - 1);
      StepKeeps(run[i - 1], run[i], lay);
    }
  }

  /** s is a moment at which no operation is under way. */
  predicate Quiescent(s: State) {
    s.mode.Running? && s.outstanding == 0
  }

  /** Crash atomicity of every run: whenever the machine stops, recovery produces the logical home blocks
      of some earlier moment at which no operation was under way, so no operation is ever half durable. */
  lemma {:induction false} CrashSafety(run: seq<State>, lay: Layout, i: nat) returns (j: nat)
    requires Run(run, lay) && i < |run|
    ensures Recoverable(lay, run[i].disk)
    ensures j <= i && Quiescent(run[j]) && Recovered(lay, run[i].disk) == run[j].view
  {
    RunInv(run, lay, i);
    if i == 0 {
      j := 0;
    } else {
      var p := HeaderIsCommitPoint(run, lay, i - 1);
      if Recovered(lay, run[i].disk) != Recovered(lay, run[i - 1].disk) {
        j := i - 1;
      } else {
        j := CrashSafety(run, lay, i - 1);
      }
    }
  }

  /** What recovery would produce changes only when a commit writes its header; it then becomes the current
      logical contents, and no operation is under way. */
  lemma HeaderIsCommitPoint(run: seq<State>, lay: Layout, i: nat) returns (p: nat)
    requires Run(run, lay) && i < |run| - 1
    ensures Recoverable(lay, run[i].disk) && Recoverable(lay, run[i + 1].disk)
    ensures var s, s' := run[i], run[i + 1];
      Recovered(lay, s'.disk) != Recovered(lay, s.disk) ==>
        && Quiescent(s) && s.committing && p < |s.procs| && s.procs[p] == Commit(|s.lh|) && CommitStep(s, s', p, lay)
        && Recovered(lay, s'.disk) == s.view == s'.view
        && lay.Head() in s.disk && lay.Head() in s'.disk && s'.disk[lay.Head()] != s.disk[lay.Head()]
  {
    var s, s' := run[i], run[i + 1];
    RunInv(run, lay, i);
    RunInv(run, lay, i + 1);
    p := 0;
    if Recovered(lay, s'.disk) != Recovered(lay, s.disk) {
      p := OnlyCommitMovesDurable(s, s', lay);
      CommitHeadChanges(s, s', p, lay);
    }
  }

  /** Every first header write of a commit makes the logical contents what recovery would produce. */
  lemma HeaderMakesDurable(run: seq<State>, lay: Layout, i: nat, p: nat)
    requires Run(run, lay) && i < |run| - 1 && run[i].mode.Running? && p < |run[i].procs|
    requires run[i].procs[p] == Commit(|run[i].lh|) && CommitStep(run[i], run[i + 1], p, lay)
    ensures Recoverable(lay, run[i + 1].disk) && Recovered(lay, run[i + 1].disk) == run[i].view
  {
    RunInv(run, lay, i);
    RunInv(run, lay, i + 1);
  }

  lemma OnlyCommitMovesDurable(s: State, s': State, lay: Layout) returns (p: nat)
    requires Inv(s, lay) && Inv(s', lay) && Step(s, s', lay)
    requires Recovered(lay, s'.disk) != Recovered(lay, s.disk)
    ensures s.mode.Running? && p < |s.procs| && CommitStep(s, s', p, lay) && s.procs[p].k == |s.lh|
  {
    if RecoverStep(s, s', lay) {
      RecoverSameDurable(s, s', lay);
    }
    p :| p < |s.procs| && ProcStep(s, s', p, lay);
    ProcMovesDurable(s, s', p, lay);
  }

  lemma RecoverSameDurable(s: State, s': State, lay: Layout)
    requires RecoverStep(s, s', lay)
    ensures s'.durable == s.durable
  {
  }

  lemma ProcMovesDurable(s: State, s': State, p: nat, lay: Layout)
    requires p < |s.procs| && ProcStep(s, s', p, lay) && s'.durable != s.durable
    ensures CommitStep(s, s', p, lay) && s.procs[p].k == |s.lh|
  {
    hide MustWait, LogWritePanics, Woken, CommitReady, CommitList;
  }

  lemma CommitHeadChanges(s: State, s': State, p: nat, lay: Layout)
    requires Inv(s, lay) && s.mode.Running? && p < |s.procs| && CommitStep(s, s', p, lay)
    requires s.procs[p].k == |s.lh|
    ensures lay.Head() in s.disk && lay.Head() in s'.disk && s'.disk[lay.Head()] != s.disk[lay.Head()]
  {
    hide Recovered, Recoverable, Synced, Reserved, ActiveCount, GoodPc;
    var datas := L.Datas(lay, s.lh, s.view);
    var ws, lw := CommitList(s, lay), LogWrites(lay, datas);
    assert ws[..|s.lh|] == lw;
    assert ws[|s.lh|] == Write(lay.Head(), PutHead(s.base[lay.Head()], s.lh));
    assert lw[..|datas|] == lw;
    LogTargets(lay, datas, |datas|, lay.Head());
    ApplyLookup(s.base, lw, lay.Head());
    HeadRoundTrip(s.base[lay.Head()], s.lh);
  }

  /** When commit() is over, everything logged so far is durable. */
  lemma CommitEndsDurable(s: State, s': State, p: nat, lay: Layout)
    requires Inv(s, lay) && s.mode.Running? && p < |s.procs| && CommitEndStep(s, s', p, lay)
    ensures Recoverable(lay, s'.disk) && Recovered(lay, s'.disk) == s'.view && s'.lh == [] && !s'.committing
  {
    CommitProgress(s.base, s.view, s.lh, s.procs[p].k, lay);
  }

  /** A reboot, however often recovery itself crashed, resumes from the durable contents. */
  lemma RebootResumes(run: seq<State>, lay: Layout, i: nat)
    requires Run(run, lay) && i < |run| - 1
    requires run[i].mode.Recovering? && run[i + 1].mode.Running?
    ensures Recoverable(lay, run[i].disk)
    ensures run[i + 1].view == Recovered(lay, run[i].disk) == Home(lay, run[i + 1].disk)
    ensures lay.Fits(run[i + 1].disk) && run[i + 1].disk[lay.Head()][0] == 0
  {
    RunInv(run, lay, i);
    RunInv(run, lay, i + 1);
    assert Step(run[i], run[i + 1], lay);
    RecoveryIdempotent(lay, run[i].base, run[i].mode.k);
  }

  /** The log protocol in every reachable state.  No panic: an operation that has appended fewer than
      MAXOPBLOCKS blocks passes log_write's checks, and end_op never meets a running commit. */
  lemma LogProtocolSafe(run: seq<State>, lay: Layout, i: nat, p: nat)
    requires Run(run, lay) && i < |run| && run[i].mode.Running? && p < |run[i].procs|
    ensures var s := run[i];
      && (s.committing ==> s.outstanding == 0)
      && (s.outstanding == 0 && !s.committing ==> s.lh == [])
      && NoDup(s.lh) && |s.lh| <= LOGSIZE
      && (s.procs[p].InOp? ==> !s.committing && 1 <= s.outstanding)
      && (s.procs[p].InOp? && s.procs[p].added < MAXOPBLOCKS ==> !LogWritePanics(s, lay))
      && (s.procs[p].Logging? && s.procs[p].bno !in s.lh ==> |s.lh| < LOGSIZE)
  {
    RunInv(run, lay, i);
    SumBounds(run[i].procs, p);
  }

  /** commit() goes on, to its next write or its end, exactly if its group leaves a buffer unpinned. */
  lemma CommitGoesOn(run: seq<State>, lay: Layout, i: nat, p: nat)
    requires Run(run, lay) && i < |run| && run[i].mode.Running? && p < |run[i].procs| && run[i].procs[p].Commit?
    ensures (exists s' :: CommitStep(run[i], s', p, lay) || CommitEndStep(run[i], s', p, lay)) <==> |run[i].lh| < B.NBUF
  {
    RunInv(run, lay, i);
    var s := run[i];
    assert CommitAt(s, s.procs[p].k, lay) && GoodPc(s.procs[p], s, lay);
    hide Inv, Run;
    GoesOn(s, p, lay);
  }

  lemma GoesOn(s: State, p: nat, lay: Layout)
    requires p < |s.procs| && s.procs[p].Commit? && CommitAt(s, s.procs[p].k, lay) && GoodPc(s.procs[p], s, lay)
    ensures (exists s' :: CommitStep(s, s', p, lay) || CommitEndStep(s, s', p, lay)) <==> |s.lh| < B.NBUF
  {
    var k, ws := s.procs[p].k, CommitList(s, lay);
    if |s.lh| < B.NBUF {
      if k < |ws| {
        var s' := Put(s, p, Commit(k + 1)).(
          disk := s.disk[ws[k].addr := ws[k].data],
          durable := if k == |s.lh| then s.view else s.durable);
        assert CommitStep(s, s', p, lay);
      } else {
        var s' := s.(procs := Woken(s.procs[p := Outside]), committing := false, lh := []);
        assert CommitEndStep(s, s', p, lay);
      }
    }
  }

  /** Such a commit starts if the last operation to end has not used up its reservation. */
  lemma CommitStarts(run: seq<State>, lay: Layout, i: nat, p: nat)
    requires Run(run, lay) && i < |run| && run[i].mode.Running? && p < |run[i].procs|
    requires run[i].procs[p].InOp? && run[i].procs[p].added < MAXOPBLOCKS
    ensures |run[i].lh| < B.NBUF
  {
    RunInv(run, lay, i);
    SumBounds(run[i].procs, p);
  }

  /** No lost wakeup: if a process sleeps in begin_op, some process is in an operation or committing, and
      both of that process's ways out wake every sleeper. */
  lemma WakeupToCome(run: seq<State>, lay: Layout, i: nat, p: nat) returns (q: nat)
    requires Run(run, lay) && i < |run| && run[i].mode.Running? && p < |run[i].procs| && run[i].procs[p].Asleep?
    ensures q < |run[i].procs| && (Active(run[i].procs[q]) || run[i].procs[q].Commit?)
    ensures forall s' :: EndStep(run[i], s', q) && run[i].outstanding > 1 ==> s'.procs[p].Trying?
    ensures forall s' :: EndStep(run[i], s', q) && run[i].outstanding == 1 ==> s'.procs[q].Commit?
    ensures forall s' :: CommitEndStep(run[i], s', q, lay) ==> s'.procs[p].Trying?
  {
    RunInv(run, lay, i);
    var s := run[i];
    if s.committing {
      q :| 0 <= q < |s.procs| && s.procs[q].Commit?;
    } else {
      q := SomeActive(s.procs);
    }
  }

  lemma {:induction false} SomeActive(procs: seq<Pc>) returns (q: nat)
    requires ActiveCount(procs) > 0
    ensures q < |procs| && Active(procs[q])
  {
    if Active(procs[0]) {
      q := 0;
    } else {
      q := SomeActive(procs[1..]);
      q := q + 1;
    }
  }

  // ---------------------------------------------------------------- what the processes wrote

  /** The log_write calls that end between two states, by the places of the processes alone. */
  function LoggedBy(a: seq<Pc>, b: seq<Pc>, lay: Layout): (ws: seq<Write>) {
    if a == [] || b == [] then []
    else
      (if a[0].Logging? && b[0].InOp? then [Write(Addr(lay.dev, a[0].bno), a[0].data)] else [])
      + LoggedBy(a[1..], b[1..], lay)
  }

  lemma {:induction false} NothingLogged(a: seq<Pc>, b: seq<Pc>, lay: Layout)
    requires forall p | 0 <= p < |a| && p < |b| :: a[p].Logging? ==> !b[p].InOp?
    ensures LoggedBy(a, b, lay) == []
  {
    if a != [] && b != [] {
      NothingLogged(a[1..], b[1..], lay);
    }
  }

  lemma {:induction false} OneLogged(a: seq<Pc>, p: nat, pc: Pc, lay: Layout)
    requires p < |a| && a[p].Logging? && pc.InOp?
    ensures LoggedBy(a, a[p := pc], lay) == [Write(Addr(lay.dev, a[p].bno), a[p].data)]
  {
    var b := a[p := pc];
    if p == 0 {
      assert b[1..] == a[1..];
      NothingLogged(a[1..], a[1..], lay);
    } else {
      assert b[1..] == a[1..][p - 1 := pc];
      OneLogged(a[1..], p - 1, pc, lay);
    }
  }

  /** While no crash intervenes, a step changes the logical contents by the log_write calls it ends. */
  lemma StepView(s: State, s': State, lay: Layout)
    requires Step(s, s', lay) && s.mode.Running? && s'.mode.Running?
    ensures s'.view == Apply(s.view, LoggedBy(s.procs, s'.procs, lay))
  {
    var p: nat :| p < |s.procs| && ProcStep(s, s', p, lay);
    ProcView(s, s', p, lay);
  }

  /** Process p has moved; the others were woken at most. */
  predicate OnlyMoves(a: seq<Pc>, b: seq<Pc>, p: nat) {
    && p < |a| == |b|
    && forall q | 0 <= q < |a| && q != p :: b[q] == a[q] || (a[q].Asleep? && b[q].Trying?)
  }

  lemma ProcMoves(s: State, s': State, p: nat, lay: Layout)
    requires p < |s.procs| && ProcStep(s, s', p, lay)
    ensures OnlyMoves(s.procs, s'.procs, p)
  {
    var pc := ProcPlace(s, s', p, lay);
    hide ProcStep, OnlyMoves;
    OneMoves(s.procs, p, pc);
  }

  lemma ProcPlace(s: State, s': State, p: nat, lay: Layout) returns (pc: Pc)
    requires p < |s.procs| && ProcStep(s, s', p, lay)
    ensures s'.procs == s.procs[p := pc] || s'.procs == Woken(s.procs[p := pc])
  {
    hide EnterStep, BeginStep, CheckStep, AppendStep, EndStep, CommitStep, CommitEndStep, Woken;
    if CommitStep(s, s', p, lay) {
      pc := CommitPlace(s, s', p, lay);
    } else if CommitEndStep(s, s', p, lay) {
      CommitEndPlace(s, s', p, lay);
      pc := Outside;
    } else if EndStep(s, s', p) {
      pc := EndPlace(s, s', p);
    } else if bno, data :| CheckStep(s, s', p, lay, bno, data) {
      pc := CheckPlace(s, s', p, lay, bno, data);
    } else if EnterStep(s, s', p) {
      EnterPlace(s, s', p);
      pc := Trying;
    } else if BeginStep(s, s', p) {
      pc := BeginPlace(s, s', p);
    } else {
      pc := AppendPlace(s, s', p, lay);
    }
  }

  lemma CommitPlace(s: State, s': State, p: nat, lay: Layout) returns (pc: Pc)
    requires p < |s.procs| && CommitStep(s, s', p, lay)
    ensures s'.procs == s.procs[p := pc]
  {
    pc := Commit(s.procs[p].k + 1);
  }

  lemma CommitEndPlace(s: State, s': State, p: nat, lay: Layout)
    requires p < |s.procs| && CommitEndStep(s, s', p, lay)
    ensures s'.procs == Woken(s.procs[p := Outside])
  {
  }

  lemma EndPlace(s: State, s': State, p: nat) returns (pc: Pc)
    requires p < |s.procs| && EndStep(s, s', p)
    ensures s'.procs == s.procs[p := pc] || s'.procs == Woken(s.procs[p := pc])
  {
    pc := if s.outstanding == 1 then Commit(0) else Outside;
  }

  lemma CheckPlace(s: State, s': State, p: nat, lay: Layout, bno: nat, data: Block) returns (pc: Pc)
    requires p < |s.procs| && CheckStep(s, s', p, lay, bno, data)
    ensures s'.procs == s.procs[p := pc]
  {
    pc := Logging(s.procs[p].added, bno, data);
  }

  lemma EnterPlace(s: State, s': State, p: nat)
    requires p < |s.procs| && EnterStep(s, s', p)
    ensures s'.procs == s.procs[p := Trying]
  {
  }

  lemma BeginPlace(s: State, s': State, p: nat) returns (pc: Pc)
    requires p < |s.procs| && BeginStep(s, s', p)
    ensures s'.procs == s.procs[p := pc]
  {
    pc := if MustWait(s) then Asleep else InOp(0);
    hide MustWait;
  }

  lemma AppendPlace(s: State, s': State, p: nat, lay: Layout) returns (pc: Pc)
    requires p < |s.procs| && AppendStep(s, s', p, lay)
    ensures s'.procs == s.procs[p := pc]
  {
    pc := s'.procs[p];
  }

  lemma OneMoves(a: seq<Pc>, p: nat, pc: Pc)
    requires p < |a|
    ensures OnlyMoves(a, a[p := pc], p) && OnlyMoves(a, Woken(a[p := pc]), p)
  {
  }

  lemma ProcKind(s: State, s': State, p: nat, lay: Layout)
    requires p < |s.procs| && p < |s'.procs| && ProcStep(s, s', p, lay)
    ensures s.procs[p].Logging? ==> AppendStep(s, s', p, lay)
    ensures !s.procs[p].Logging? ==> s'.view == s.view
    ensures s.procs[p].Commit? && s'.procs[p].Commit? ==> CommitStep(s, s', p, lay)
  {
    hide MustWait, LogWritePanics, CommitReady, CommitList;
  }

  lemma ProcView(s: State, s': State, p: nat, lay: Layout)
    requires p < |s.procs| && ProcStep(s, s', p, lay)
    ensures s'.view == Apply(s.view, LoggedBy(s.procs, s'.procs, lay))
  {
    ProcMoves(s, s', p, lay);
    ProcKind(s, s', p, lay);
    hide ProcStep;
    if s.procs[p].Logging? {
      OneLogged(s.procs, p, s'.procs[p], lay);
    } else {
      NothingLogged(s.procs, s'.procs, lay);
    }
  }

  /** The log_write calls that end in a stretch of a run, in order. */
  ghost function Logged(run: seq<State>, lay: Layout, i: nat, j: nat): (ws: seq<Write>)
    requires i <= j < |run|
  {
    if i == j then [] else Logged(run, lay, i, j - 1) + LoggedBy(run[j - 1].procs, run[j].procs, lay)
  }

  /** The logical contents are what the processes wrote: after any stretch without a crash they are those before it
      with every log_write of the stretch applied in order. */
  lemma {:induction false} ViewIsWritten(run: seq<State>, lay: Layout, i: nat, j: nat)
    requires Run(run, lay) && i <= j < |run| && forall k | i <= k <= j :: run[k].mode.Running?
    ensures run[j].view == Apply(run[i].view, Logged(run, lay, i, j))
    decreases j
  {
    hide Run, Step, LoggedBy;
    if i < j {
      var us, vs := Logged(run, lay, i, j - 1), LoggedBy(run[j - 1].procs, run[j].procs, lay);
      assert Logged(run, lay, i, j) == us + vs;
      ViewIsWritten(run, lay, i, j - 1);
      StepInRun(run, lay, j - 1);
      hide Logged, Apply;
      StepView(run[j - 1], run[j], lay);
      ApplyConcat(run[i].view, us, vs);
    }
  }

  /** Between these states a committing process has written the header of its group. */
  ghost predicate HeaderWritten(s: State, s': State) {
    exists p :: 0 <= p < |s.procs| && p < |s'.procs| && s.procs[p] == Commit(|s.lh|) && s'.procs[p] == Commit(|s.lh| + 1)
  }

  /** The writes logged since the last header was written; a crash loses them. */
  ghost function Volatile(run: seq<State>, lay: Layout, i: nat): (ws: seq<Write>)
    requires i < |run|
  {
    if i == 0 || run[i].mode.Recovering? || HeaderWritten(run[i - 1], run[i]) then []
    else Volatile(run, lay, i - 1) + LoggedBy(run[i - 1].procs, run[i].procs, lay)
  }

  /** The writes of the committed groups: at each header, those logged since the last one. */
  ghost function Durable(run: seq<State>, lay: Layout, i: nat): (ws: seq<Write>)
    requires i < |run|
  {
    if i == 0 then []
    else Durable(run, lay, i - 1) + if HeaderWritten(run[i - 1], run[i]) then Volatile(run, lay, i - 1) else []
  }

  lemma HeaderStep(s: State, s': State, lay: Layout) returns (p: nat)
    requires Step(s, s', lay) && HeaderWritten(s, s')
    ensures s.mode.Running? && p < |s.procs| && s.procs[p] == Commit(|s.lh|) && CommitStep(s, s', p, lay)
  {
    p :| 0 <= p < |s.procs| && p < |s'.procs| && s.procs[p] == Commit(|s.lh|) && s'.procs[p] == Commit(|s.lh| + 1);
    if RecoverStep(s, s', lay) {
      NotInRecovery(s, s', p, lay);
    }
    hide RecoverStep;
    var q: nat :| q < |s.procs| && ProcStep(s, s', q, lay);
    ProcMoves(s, s', q, lay);
    assert q == p;
    ProcKind(s, s', q, lay);
    hide ProcStep;
  }

  lemma NotInRecovery(s: State, s': State, p: nat, lay: Layout)
    requires RecoverStep(s, s', lay) && p < |s.procs| && p < |s'.procs|
    ensures s'.procs[p] == s.procs[p] || s'.procs[p].Outside?
  {
  }

  /** Crash atomicity in terms of what the processes wrote: in every state of every run the disk recovers to the
      first home blocks with exactly the writes of the committed groups applied, and what is read is that with the
      writes since. */
  lemma {:induction false} RecoversWritten(run: seq<State>, lay: Layout, i: nat)
    requires Run(run, lay) && i < |run|
    ensures Recoverable(lay, run[i].disk)
    ensures Recovered(lay, run[i].disk) == Apply(Home(lay, run[0].disk), Durable(run, lay, i))
    ensures run[i].mode.Running? ==>
      run[i].view == Apply(Home(lay, run[0].disk), Durable(run, lay, i) + Volatile(run, lay, i))
  {
    if i == 0 {
      AtBoot(run[0], lay);
      Nothing([]);
    } else {
      RecoversWritten(run, lay, i - 1);
      RunRecoverable(run, lay, i);
      hide Recovered, Recoverable, Apply, Home, Run, Durable, Volatile;
      RecoversNext(run, lay, Home(lay, run[0].disk), i - 1);
    }
  }

  lemma AtBoot(s: State, lay: Layout)
    requires Init(s, lay)
    ensures Recoverable(lay, s.disk) && Recovered(lay, s.disk) == Home(lay, s.disk) == s.view
  {
    EmptyHeadRecovers(lay, s.disk);
  }

  lemma RunRecoverable(run: seq<State>, lay: Layout, i: nat)
    requires Run(run, lay) && i < |run|
    ensures Recoverable(lay, run[i].disk)
  {
    RunInv(run, lay, i);
    hide Run, Recoverable, Recovered, Protocol, OnDisk;
  }

  lemma RecoversNext(run: seq<State>, lay: Layout, h: Image, i: nat)
    requires Run(run, lay) && i < |run| - 1 && Recoverable(lay, run[i].disk) && Recoverable(lay, run[i + 1].disk)
    requires Recovered(lay, run[i].disk) == Apply(h, Durable(run, lay, i))
    requires run[i].mode.Running? ==> run[i].view == Apply(h, Durable(run, lay, i) + Volatile(run, lay, i))
    ensures Recovered(lay, run[i + 1].disk) == Apply(h, Durable(run, lay, i + 1))
    ensures run[i + 1].mode.Running? ==>
      run[i + 1].view == Apply(h, Durable(run, lay, i + 1) + Volatile(run, lay, i + 1))
  {
    hide Recovered, Recoverable, Apply, Home, Run, HeaderWritten, Durable, Volatile;
    if HeaderWritten(run[i], run[i + 1]) {
      RecoversHeader(run, lay, h, i);
    } else {
      RecoversOther(run, lay, h, i);
    }
  }

  lemma RecoversHeader(run: seq<State>, lay: Layout, h: Image, i: nat)
    requires Run(run, lay) && i < |run| - 1 && Recoverable(lay, run[i + 1].disk) && HeaderWritten(run[i], run[i + 1])
    requires run[i].mode.Running? ==> run[i].view == Apply(h, Durable(run, lay, i) + Volatile(run, lay, i))
    ensures Recovered(lay, run[i + 1].disk) == Apply(h, Durable(run, lay, i + 1))
    ensures run[i + 1].view == Apply(h, Durable(run, lay, i + 1) + Volatile(run, lay, i + 1))
  {
    StepInRun(run, lay, i);
    hide Recovered, Recoverable, Apply, Home, Run, Step, HeaderWritten, LoggedBy;
    var p := HeaderStep(run[i], run[i + 1], lay);
    AtHeader(run, lay, i, p);
    assert Durable(run, lay, i + 1) == Durable(run, lay, i) + Volatile(run, lay, i);
    hide Durable;
    Nothing(Durable(run, lay, i + 1));
  }

  lemma RecoversOther(run: seq<State>, lay: Layout, h: Image, i: nat)
    requires Run(run, lay) && i < |run| - 1 && Recoverable(lay, run[i].disk) && Recoverable(lay, run[i + 1].disk)
    requires !HeaderWritten(run[i], run[i + 1]) && Recovered(lay, run[i].disk) == Apply(h, Durable(run, lay, i))
    requires run[i].mode.Running? ==> run[i].view == Apply(h, Durable(run, lay, i) + Volatile(run, lay, i))
    ensures Recovered(lay, run[i + 1].disk) == Apply(h, Durable(run, lay, i + 1))
    ensures run[i + 1].mode.Running? ==>
      run[i + 1].view == Apply(h, Durable(run, lay, i + 1) + Volatile(run, lay, i + 1))
  {
    hide Recovered, Recoverable, Apply, Home, Run, HeaderWritten, LoggedBy;
    NotHeader(run, lay, i);
    Nothing(Durable(run, lay, i));
    assert Durable(run, lay, i + 1) == Durable(run, lay, i);
    if run[i + 1].mode.Running? {
      assert Volatile(run, lay, i + 1) == Volatile(run, lay, i) + LoggedBy(run[i].procs, run[i + 1].procs, lay);
      hide Durable, Volatile;
      if run[i].mode.Recovering? {
        LostAtCrash(run, lay, i);
      }
      AddedView(run, lay, h, i, Durable(run, lay, i), Volatile(run, lay, i));
    }
  }

  lemma LostAtCrash(run: seq<State>, lay: Layout, i: nat)
    requires i < |run| && run[i].mode.Recovering?
    ensures Volatile(run, lay, i) == []
  {
  }

  lemma StepInRun(run: seq<State>, lay: Layout, i: nat)
    requires Run(run, lay) && i < |run| - 1
    ensures Step(run[i], run[i + 1], lay)
  {
    hide Step, Init;
  }

  lemma Nothing(ws: seq<Write>)
    ensures ws + [] == ws
  {
  }

  lemma AtHeader(run: seq<State>, lay: Layout, i: nat, p: nat)
    requires Run(run, lay) && i < |run| - 1 && run[i].mode.Running? && p < |run[i].procs|
    requires run[i].procs[p] == Commit(|run[i].lh|) && CommitStep(run[i], run[i + 1], p, lay)
    ensures Recoverable(lay, run[i + 1].disk) && Recovered(lay, run[i + 1].disk) == run[i].view == run[i + 1].view
  {
    HeaderMakesDurable(run, lay, i, p);
    hide Recovered, Recoverable, CommitReady, CommitList;
  }

  lemma NotHeader(run: seq<State>, lay: Layout, i: nat)
    requires Run(run, lay) && i < |run| - 1 && !HeaderWritten(run[i], run[i + 1])
    ensures Recoverable(lay, run[i].disk) && Recoverable(lay, run[i + 1].disk)
    ensures Recovered(lay, run[i + 1].disk) == Recovered(lay, run[i].disk)
  {
    var p := HeaderIsCommitPoint(run, lay, i);
    hide Recovered, Recoverable, CommitReady, CommitList, Run;
  }

  lemma AddedView(run: seq<State>, lay: Layout, h: Image, i: nat, d: seq<Write>, v: seq<Write>)
    requires Run(run, lay) && i < |run| - 1 && run[i + 1].mode.Running? && Recoverable(lay, run[i].disk)
    requires Recovered(lay, run[i].disk) == Apply(h, d)
    requires if run[i].mode.Running? then run[i].view == Apply(h, d + v) else v == []
    ensures run[i + 1].view == Apply(h, d + (v + LoggedBy(run[i].procs, run[i + 1].procs, lay)))
  {
    var ws := LoggedBy(run[i].procs, run[i + 1].procs, lay);
    StepInRun(run, lay, i);
    hide Recovered, Recoverable, Apply, LoggedBy, Home, Run, Step;
    Assoc(d, v, ws);
    if run[i].mode.Running? {
      StepView(run[i], run[i + 1], lay);
      ApplyConcat(h, d + v, ws);
    } else {
      RebootResumes(run, lay, i);
      Rebooted(run[i], run[i + 1], lay);
      Nothing(d);
      Nothing(v);
    }
  }

  lemma Rebooted(s: State, s': State, lay: Layout)
    requires Step(s, s', lay) && s.mode.Recovering? && s'.mode.Running?
    ensures LoggedBy(s.procs, s'.procs, lay) == []
  {
    NothingLogged(s.procs, s'.procs, lay);
  }
}
