/** Sleep locks (kern/sleeplock.c) over sleep, wakeup, yield and the scheduler (kern/proc.c), as a machine whose steps
are the points between two operations on a spinlock.  Any number of processes and of sleep locks run on any number
of processors.

swtch hands ptable.lock over: a process that goes to sleep or yields leaves it to the scheduler, which releases it,
and a scheduled process goes on with the lock held.
*/
module SleepLock {
  import opened Common

  /** Where a process is. */
  datatype At =
    | Out
    // acquiresleep, with sleep inside
    | AcqWant | Test | Got | SlpWant | SlpBoth | SlpPush | Asleep | Woken | Resumed | ReWant
    // releasesleep, with wakeup inside
    | RelWant | Clear | WakeWant | WakeIn | WakeDone | RelSpin
    // yield
    | YWant | YPush | YQueued | YResumed

  /** The place, and the lock it is about, named by its address, which is also the channel to sleep on. */
  datatype Pc = Pc(at: At, l: nat)

  /** struct sleeplock: its spinlock, and the field pid. */
  datatype Lock = Lock(locked: bool, pid: nat, spin: Option<nat>)

  datatype Holder = ByProc(p: nat) | BySched

  /** `held` is the program's view: the locks a process has acquired and not released. */
  datatype State = State(pc: map<nat, Pc>, chan: map<nat, nat>, held: map<nat, set<nat>>, locks: map<nat, Lock>,
                         pt: Option<Holder>, sched: seq<nat>, slp: seq<seq<nat>>)

  const SQSIZE := 0x100

  /** HASH: (chan >> 5) & (SQSIZE - 1) */
  function Hash(chan: nat): (i: nat)
    ensures i < SQSIZE
  {
    chan / 32 % SQSIZE
  }

  // ---------------------------------------------------------------- wakeup1

  /** The processes of a queue that sleep on c, in order, or the others. */
  function Those(q: seq<nat>, chan: map<nat, nat>, c: nat, on: bool): (r: seq<nat>) {
    if q == [] then []
    else
      var p := q[|q| - 1];
      Those(q[..|q| - 1], chan, c, on) + if (p in chan && chan[p] == c) == on then [p] else []
  }

  lemma {:induction false} ThoseAre(q: seq<nat>, chan: map<nat, nat>, c: nat, on: bool)
    ensures forall p :: p in Those(q, chan, c, on) <==> p in q && (p in chan && chan[p] == c) == on
    ensures NoDup(q) ==> NoDup(Those(q, chan, c, on))
  {
    if q != [] {
      var r, p := q[..|q| - 1], q[|q| - 1];
      ThoseAre(r, chan, c, on);
      assert q == r + [p];
      assert NoDup(q) ==> NoDup(r) && p !in r;
    }
  }

  lemma ThoseSnoc(q: seq<nat>, p: nat, chan: map<nat, nat>, c: nat, on: bool)
    ensures Those(q + [p], chan, c, on) == Those(q, chan, c, on) + if (p in chan && chan[p] == c) == on then [p] else []
  {
    assert (q + [p])[..|q|] == q;
  }

  /** wakeup1: one pass over the queue of the channel's hash. */
  method Wakeup1(q: seq<nat>, sched: seq<nat>, chan: map<nat, nat>, c: nat) returns (q': seq<nat>, sched': seq<nat>)
    ensures q' == Those(q, chan, c, false) && sched' == sched + Those(q, chan, c, true)
  {
    hide Those;
    q', sched' := q, sched;
    var k, i := 0, 0;
    assert q[..0] == [];
    NoneOf(chan, c);
    while k < |q|
      invariant 0 <= k <= |q| && 0 <= i <= |q'| && q'[..i] == Those(q[..k], chan, c, false) && q'[i..] == q[k..]
      invariant sched' == sched + Those(q[..k], chan, c, true)
    {
      var p := q'[i];
      assert p == q'[i..][0] == q[k];
      assert q[..k + 1] == q[..k] + [p];
      ThoseSnoc(q[..k], p, chan, c, true);
      ThoseSnoc(q[..k], p, chan, c, false);
      if p in chan && chan[p] == c {
        Dropped(q', i);
        q' := q'[..i] + q'[i + 1..];
        sched' := sched' + [p];
      } else {
        assert q'[..i + 1] == q'[..i] + [p] && q'[i + 1..] == q'[i..][1..];
        i := i + 1;
      }
      assert q[k + 1..] == q[k..][1..];
      k := k + 1;
    }
    assert q[..k] == q;
    assert q' == q'[..i] + q'[i..];
  }

  lemma NoneOf(chan: map<nat, nat>, c: nat)
    ensures Those([], chan, c, true) == [] && Those([], chan, c, false) == []
  {
  }

  lemma Dropped(q: seq<nat>, i: nat)
    requires i < |q|
    ensures (q[..i] + q[i + 1..])[..i] == q[..i] && (q[..i] + q[i + 1..])[i..] == q[i..][1..]
  {
  }

  // ---------------------------------------------------------------- steps

  datatype Step =
    | BeginAcquire(p: nat, l: nat) | BeginRelease(p: nat, l: nat) | BeginYield(p: nat)
    | TakeSpin(p: nat) | DropSpin(p: nat) | TakePt(p: nat) | DropPt(p: nat)
    | TestLock(p: nat) | ClearLock(p: nat) | SleepDrop(p: nat) | SleepPush(p: nat) | YieldPush(p: nat) | WakeAll(p: nat)
    | SchedRelease | SchedPick

  /** Where a process goes when it gets the spinlock it waits for. */
  function WithSpin(a: At): (a': At) {
    if a.RelWant? then Clear else Test
  }

  function WithPt(a: At): (a': At) {
    if a.SlpWant? then SlpBoth else if a.WakeWant? then WakeIn else YPush
  }

  function WithoutPt(a: At): (a': At) {
    if a.Resumed? then ReWant else if a.WakeDone? then RelSpin else Out
  }

  /** Process p is at one of these places. */
  predicate Is(s: State, p: nat, places: set<At>) {
    p in s.pc && s.pc[p].at in places
  }

  predicate Enabled(s: State, st: Step) {
    match st
    case BeginAcquire(p, l) => Is(s, p, {Out}) && l in s.locks
    case BeginRelease(p, l) => Is(s, p, {Out}) && p in s.held && l in s.held[p]
    case BeginYield(p) => Is(s, p, {Out})
    case TakeSpin(p) => Is(s, p, {AcqWant, ReWant, RelWant}) && s.pc[p].l in s.locks && s.locks[s.pc[p].l].spin == None
    case DropSpin(p) => Is(s, p, {Got, RelSpin}) && s.pc[p].l in s.locks
    case TakePt(p) => Is(s, p, {SlpWant, WakeWant, YWant}) && s.pt == None
    case DropPt(p) => Is(s, p, {Resumed, WakeDone, YResumed})
    case TestLock(p) => Is(s, p, {Test}) && s.pc[p].l in s.locks && p in s.held
    case ClearLock(p) => Is(s, p, {Clear}) && s.pc[p].l in s.locks && p in s.held
    case SleepDrop(p) => Is(s, p, {SlpBoth}) && s.pc[p].l in s.locks
    case SleepPush(p) => Is(s, p, {SlpPush}) && |s.slp| == SQSIZE
    case YieldPush(p) => Is(s, p, {YPush})
    case WakeAll(p) => Is(s, p, {WakeIn}) && |s.slp| == SQSIZE
    case SchedRelease => s.pt == Some(BySched)
    case SchedPick => s.pt == None && s.sched != [] && s.sched[0] in s.pc
  }

  /** p goes to another place. */
  function Go(s: State, p: nat, a: At): (pc: map<nat, Pc>)
    requires p in s.pc
  {
    s.pc[p := s.pc[p].(at := a)]
  }

  /** The spinlock of lock l is taken or released. */
  function SetSpin(s: State, l: nat, h: Option<nat>): (locks: map<nat, Lock>)
    requires l in s.locks
  {
    s.locks[l := s.locks[l].(spin := h)]
  }

  function Next(s: State, st: Step): (s': State)
    requires Enabled(s, st)
  {
    match st
    case BeginAcquire(p, l) => s.(pc := s.pc[p := Pc(AcqWant, l)])
    case BeginRelease(p, l) => s.(pc := s.pc[p := Pc(RelWant, l)])
    case BeginYield(p) => s.(pc := Go(s, p, YWant))
    case TakeSpin(p) => s.(pc := Go(s, p, WithSpin(s.pc[p].at)), locks := SetSpin(s, s.pc[p].l, Some(p)))
    case DropSpin(p) => s.(pc := Go(s, p, Out), locks := SetSpin(s, s.pc[p].l, None))
    case TakePt(p) => s.(pc := Go(s, p, WithPt(s.pc[p].at)), pt := Some(ByProc(p)))
    case DropPt(p) => s.(pc := Go(s, p, WithoutPt(s.pc[p].at)), pt := None)
    case TestLock(p) =>
      var l := s.pc[p].l;
      if s.locks[l].locked then s.(pc := Go(s, p, SlpWant))
      else s.(pc := Go(s, p, Got), held := s.held[p := s.held[p] + {l}],
              locks := s.locks[l := s.locks[l].(locked := true, pid := p)])
    case ClearLock(p) =>
      var l := s.pc[p].l;
      s.(pc := Go(s, p, WakeWant), held := s.held[p := s.held[p] - {l}],
         locks := s.locks[l := s.locks[l].(locked := false, pid := 0)])
    case SleepDrop(p) => s.(pc := Go(s, p, SlpPush), locks := SetSpin(s, s.pc[p].l, None))
    case SleepPush(p) =>
      var l := s.pc[p].l;
      s.(pc := Go(s, p, Asleep), chan := s.chan[p := l], pt := Some(BySched),
         slp := s.slp[Hash(l) := s.slp[Hash(l)] + [p]])
    case YieldPush(p) => s.(pc := Go(s, p, YQueued), pt := Some(BySched), sched := s.sched + [p])
    case WakeAll(p) =>
      var l := s.pc[p].l;
      var q := s.slp[Hash(l)];
      s.(pc := (map x | x in s.pc :: if x in Those(q, s.chan, l, true) then s.pc[x].(at := Woken) else s.pc[x])[p := Pc(WakeDone, l)],
         sched := s.sched + Those(q, s.chan, l, true), slp := s.slp[Hash(l) := Those(q, s.chan, l, false)])
    case SchedRelease => s.(pt := None)
    case SchedPick =>
      var p := s.sched[0];
      s.(pc := Go(s, p, if s.pc[p].at.Woken? then Resumed else YResumed), pt := Some(ByProc(p)), sched := s.sched[1..])
  }

  // ---------------------------------------------------------------- the invariant

  /** Places about a lock. */
  predicate OnLock(a: At) {
    !a.Out? && !a.YWant? && !a.YPush? && !a.YQueued? && !a.YResumed?
  }

  predicate HoldsSpin(a: At) {
    a.Test? || a.Got? || a.SlpWant? || a.SlpBoth? || a.Clear? || a.WakeWant? || a.WakeIn? || a.WakeDone? || a.RelSpin?
  }

  predicate HoldsPt(a: At) {
    a.SlpBoth? || a.SlpPush? || a.Resumed? || a.WakeIn? || a.WakeDone? || a.YPush? || a.YResumed?
  }

  /** About to sleep, with the spinlock still held. */
  predicate Deciding(a: At) {
    a.SlpWant? || a.SlpBoth?
  }

  /** Asleep, or going to without the spinlock. */
  predicate Sleeping(a: At) {
    a.SlpPush? || a.Asleep?
  }

  predicate Owning(a: At) {
    a.RelWant? || a.Clear?
  }

  predicate Queued(a: At) {
    a.Woken? || a.YQueued?
  }

  /** The holder of the spinlock of l has cleared the lock and not yet woken its sleepers. */
  predicate Waking(s: State, l: nat) {
    && l in s.locks && s.locks[l].spin.Some? && s.locks[l].spin.value in s.pc
    && (s.pc[s.locks[l].spin.value] == Pc(WakeWant, l) || s.pc[s.locks[l].spin.value] == Pc(WakeIn, l))
  }

  ghost predicate ProcOk(s: State, p: nat) {
    && p in s.pc && p in s.held
    && var c := s.pc[p];
    && (OnLock(c.at) ==> c.l in s.locks)
    && (HoldsSpin(c.at) ==> c.l in s.locks && s.locks[c.l].spin == Some(p))
    && (HoldsPt(c.at) <==> s.pt == Some(ByProc(p)))
    && (Deciding(c.at) ==> c.l in s.locks && s.locks[c.l].locked)
    && (Sleeping(c.at) ==> c.l in s.locks && (s.locks[c.l].locked || Waking(s, c.l)))
    && (Owning(c.at) ==> c.l in s.held[p])
    && (c.at.Got? ==> c.l in s.held[p])
    && (forall l | l in s.held[p] :: l in s.locks && s.locks[l].locked && s.locks[l].pid == p)
  }

  ghost predicate LockOk(s: State, l: nat) {
    && l in s.locks
    && (s.locks[l].spin.Some? ==>
          var p := s.locks[l].spin.value; p in s.pc && HoldsSpin(s.pc[p].at) && s.pc[p].l == l)
    && (s.locks[l].locked ==> s.locks[l].pid in s.held && l in s.held[s.locks[l].pid])
  }

  /** Each process is in the queue its place calls for, and in no other. */
  ghost predicate QueuesOk(s: State) {
    && |s.slp| == SQSIZE && NoDup(s.sched) && (forall i | 0 <= i < SQSIZE :: NoDup(s.slp[i]))
    && (forall p :: p in s.sched <==> p in s.pc && Queued(s.pc[p].at))
    && (forall i, p | 0 <= i < SQSIZE :: p in s.slp[i] <==> p in s.pc && s.pc[p].at.Asleep? && Hash(s.pc[p].l) == i)
    && (forall p | p in s.pc && s.pc[p].at.Asleep? :: p in s.chan && s.chan[p] == s.pc[p].l)
  }

  ghost predicate Inv(s: State) {
    && (forall p | p in s.pc :: ProcOk(s, p))
    && (forall l | l in s.locks :: LockOk(s, l))
    && QueuesOk(s)
    && (s.pt.Some? && s.pt.value.ByProc? ==> s.pt.value.p in s.pc)
  }

  // ---------------------------------------------------------------- what a step does to the others

  predicate InQueue(a: At) {
    Queued(a) || a.Asleep?
  }

  /** A step of p that moves nobody between queues. */
  lemma QueuesStay(s: State, s': State, p: nat, c: Pc)
    requires QueuesOk(s) && p in s.pc && s'.pc == s.pc[p := c] && !InQueue(s.pc[p].at) && !InQueue(c.at)
    requires s'.sched == s.sched && s'.slp == s.slp && s'.chan == s.chan
    ensures QueuesOk(s')
  {
    hide NoDup, Hash;
  }

  /** From s to s', process p moves, working on lock l0. */
  ghost predicate Local(s: State, s': State, p: nat, l0: nat) {
    && p in s.pc && s'.pc.Keys == s.pc.Keys && s'.held.Keys == s.held.Keys && s'.locks.Keys == s.locks.Keys
    && (forall q | q in s.pc && q != p :: s'.pc[q] == s.pc[q])
    && (forall q | q in s.held && q != p :: s'.held[q] == s.held[q])
    && (forall l | l in s.locks && l != l0 :: s'.locks[l] == s.locks[l])
    && (forall q: nat | q != p :: s'.pt == Some(ByProc(q)) <==> s.pt == Some(ByProc(q)))
    && (forall l | l != l0 && p in s.held :: l in s.held[p] <==> l in s'.held[p])
    && (HoldsSpin(s.pc[p].at) ==> s.pc[p].l == l0)
  }

  /** Nobody else holds the spinlock of l0 or owns l0 while its fields change, and its sleepers are not forgotten. */
  ghost predicate LockStep(s: State, s': State, p: nat, l0: nat) {
    l0 in s.locks && l0 in s'.locks ==>
      && (s.locks[l0].spin == s'.locks[l0].spin || (s.locks[l0].spin in {None, Some(p)} && s'.locks[l0].spin in {None, Some(p)}))
      && (s.locks[l0].locked && (!s'.locks[l0].locked || s'.locks[l0].pid != s.locks[l0].pid) ==>
            s.locks[l0].pid == p && s.locks[l0].spin == Some(p) && Waking(s', l0))
      && (Waking(s, l0) ==> Waking(s', l0))
  }

  lemma OthersOk(s: State, s': State, p: nat, l0: nat, q: nat)
    requires Local(s, s', p, l0) && LockStep(s, s', p, l0) && q != p && ProcOk(s, q)
    requires forall l | l in s.locks :: LockOk(s, l)
    ensures ProcOk(s', q)
  {
    hide HoldsPt, OnLock, Sleeping, Owning;
    var c := s.pc[q];
    if c.l in s.locks {
      assert LockOk(s, c.l);
    }
    assert forall l | l in s.held[q] :: l in s'.locks && s'.locks[l].locked && s'.locks[l].pid == q;
  }

  lemma OtherLocks(s: State, s': State, p: nat, l0: nat, l: nat)
    requires Local(s, s', p, l0) && l != l0 && LockOk(s, l)
    ensures LockOk(s', l)
  {
    hide HoldsSpin, HoldsPt, OnLock;
  }

  lemma Keep(s: State, s': State, p: nat, l0: nat)
    requires Inv(s) && Local(s, s', p, l0) && LockStep(s, s', p, l0)
    requires ProcOk(s', p) && (l0 in s'.locks ==> LockOk(s', l0)) && QueuesOk(s')
    ensures Inv(s')
  {
    hide ProcOk, LockOk, QueuesOk, LockStep;
    forall q | q in s'.pc ensures ProcOk(s', q) {
      if q != p {
        OthersOk(s, s', p, l0, q);
      }
    }
    forall l | l in s'.locks ensures LockOk(s', l) {
      if l != l0 {
        OtherLocks(s, s', p, l0, l);
      }
    }
  }

  lemma Start(s: State, p: nat)
    requires Inv(s) && p in s.pc
    ensures ProcOk(s, p) && QueuesOk(s) && (s.pc[p].l in s.locks ==> LockOk(s, s.pc[p].l))
  {
    hide ProcOk, LockOk, QueuesOk;
  }

  // ---------------------------------------------------------------- every step keeps the invariant

  lemma KeepBegin(s: State, p: nat, c: Pc)
    requires Inv(s) && Is(s, p, {Out}) && c.at in {AcqWant, RelWant, YWant} && (OnLock(c.at) ==> c.l in s.locks)
    requires c.at.RelWant? ==> p in s.held && c.l in s.held[p]
    ensures Inv(s.(pc := s.pc[p := c]))
  {
    hide Inv, QueuesOk;
    var s' := s.(pc := s.pc[p := c]);
    Start(s, p);
    QueuesStay(s, s', p, c);
    InvLock(s, c.l);
    Keep(s, s', p, c.l);
  }

  lemma HeldLocks(s: State, p: nat)
    requires Inv(s) && p in s.pc
    ensures p in s.held && forall l | l in s.held[p] :: l in s.locks
  {
    assert ProcOk(s, p);
  }

  lemma InvLock(s: State, l: nat)
    requires Inv(s)
    ensures l in s.locks ==> LockOk(s, l)
  {
    hide ProcOk, LockOk, QueuesOk;
  }

  lemma KeepTakeSpin(s: State, p: nat)
    requires Inv(s) && Enabled(s, TakeSpin(p))
    ensures Inv(Next(s, TakeSpin(p)))
  {
    hide Inv, QueuesOk;
    var s' := Next(s, TakeSpin(p));
    Start(s, p);
    QueuesStay(s, s', p, s'.pc[p]);
    Keep(s, s', p, s.pc[p].l);
  }

  lemma KeepDropSpin(s: State, p: nat)
    requires Inv(s) && Enabled(s, DropSpin(p))
    ensures Inv(Next(s, DropSpin(p)))
  {
    hide Inv, QueuesOk;
    var s' := Next(s, DropSpin(p));
    Start(s, p);
    QueuesStay(s, s', p, s'.pc[p]);
    Keep(s, s', p, s.pc[p].l);
  }

  lemma KeepTakePt(s: State, p: nat)
    requires Inv(s) && Enabled(s, TakePt(p))
    ensures Inv(Next(s, TakePt(p)))
  {
    hide Inv, QueuesOk;
    var s' := Next(s, TakePt(p));
    Start(s, p);
    QueuesStay(s, s', p, s'.pc[p]);
    Keep(s, s', p, s.pc[p].l);
  }

  lemma KeepDropPt(s: State, p: nat)
    requires Inv(s) && Enabled(s, DropPt(p))
    ensures Inv(Next(s, DropPt(p)))
  {
    hide Inv, QueuesOk;
    var s' := Next(s, DropPt(p));
    Start(s, p);
    QueuesStay(s, s', p, s'.pc[p]);
    Keep(s, s', p, s.pc[p].l);
  }

  lemma KeepTest(s: State, p: nat)
    requires Inv(s) && Enabled(s, TestLock(p))
    ensures Inv(Next(s, TestLock(p)))
  {
    hide Inv, QueuesOk;
    var s' := Next(s, TestLock(p));
    Start(s, p);
    QueuesStay(s, s', p, s'.pc[p]);
    Keep(s, s', p, s.pc[p].l);
  }

  lemma KeepClear(s: State, p: nat)
    requires Inv(s) && Enabled(s, ClearLock(p))
    ensures Inv(Next(s, ClearLock(p)))
  {
    hide Inv, QueuesOk;
    var s' := Next(s, ClearLock(p));
    Start(s, p);
    QueuesStay(s, s', p, s'.pc[p]);
    Keep(s, s', p, s.pc[p].l);
  }

  lemma KeepSleepDrop(s: State, p: nat)
    requires Inv(s) && Enabled(s, SleepDrop(p))
    ensures Inv(Next(s, SleepDrop(p)))
  {
    hide Inv, QueuesOk;
    var s' := Next(s, SleepDrop(p));
    Start(s, p);
    QueuesStay(s, s', p, s'.pc[p]);
    Keep(s, s', p, s.pc[p].l);
  }

  lemma KeepSleepPush(s: State, p: nat)
    requires Inv(s) && Enabled(s, SleepPush(p))
    ensures Inv(Next(s, SleepPush(p)))
  {
    hide Inv, QueuesOk;
    var s' := Next(s, SleepPush(p));
    Start(s, p);
    PushSleeper(s, p);
    Keep(s, s', p, s.pc[p].l);
  }

  lemma PushSleeper(s: State, p: nat)
    requires QueuesOk(s) && Enabled(s, SleepPush(p))
    ensures QueuesOk(Next(s, SleepPush(p)))
  {
    hide Hash;
    var s', h := Next(s, SleepPush(p)), Hash(s.pc[p].l);
    assert p !in s.slp[h];
    assert forall i | 0 <= i < SQSIZE && i != h :: s'.slp[i] == s.slp[i];
  }

  lemma KeepYieldPush(s: State, p: nat)
    requires Inv(s) && Enabled(s, YieldPush(p))
    ensures Inv(Next(s, YieldPush(p)))
  {
    hide Inv, QueuesOk;
    var s' := Next(s, YieldPush(p));
    Start(s, p);
    PushRunnable(s, p);
    Keep(s, s', p, s.pc[p].l);
  }

  lemma PushRunnable(s: State, p: nat)
    requires QueuesOk(s) && Enabled(s, YieldPush(p))
    ensures QueuesOk(Next(s, YieldPush(p)))
  {
    hide Hash;
    assert p !in s.sched;
  }

  lemma KeepSched(s: State, st: Step)
    requires Inv(s) && Enabled(s, st) && (st.SchedRelease? || st.SchedPick?)
    ensures Inv(Next(s, st))
  {
    hide Inv, QueuesOk;
    var s' := Next(s, st);
    if st.SchedPick? {
      var p := s.sched[0];
      Start(s, p);
      Picked(s);
      Keep(s, s', p, s.pc[p].l);
    } else {
      Released(s);
    }
  }

  lemma Released(s: State)
    requires Inv(s) && s.pt == Some(BySched)
    ensures Inv(s.(pt := None))
  {
    var s' := s.(pt := None);
    hide QueuesOk;
    assert QueuesOk(s') by { QueuesSame(s, s'); }
    forall p | p in s'.pc ensures ProcOk(s', p) { assert ProcOk(s, p); }
    forall l | l in s'.locks ensures LockOk(s', l) { assert LockOk(s, l); }
  }

  lemma QueuesSame(s: State, s': State)
    requires QueuesOk(s) && s' == s.(pt := None)
    ensures QueuesOk(s')
  {
  }

  lemma Picked(s: State)
    requires QueuesOk(s) && Enabled(s, SchedPick)
    ensures QueuesOk(Next(s, SchedPick)) && Queued(s.pc[s.sched[0]].at)
  {
    hide Hash;
    var s', p := Next(s, SchedPick), s.sched[0];
    assert s.sched == [p] + s.sched[1..];
    assert p !in s.sched[1..];
    assert p in s.sched;
  }

  /** wakeup moves exactly the sleepers on the channel, whatever else hashes to the same queue. */
  lemma WokenAre(s: State, p: nat)
    requires QueuesOk(s) && Enabled(s, WakeAll(p))
    ensures var s', l := Next(s, WakeAll(p)), s.pc[p].l;
      && s'.pc.Keys == s.pc.Keys && s'.pc[p] == Pc(WakeDone, l)
      && (forall q | q in s.pc && q != p :: s'.pc[q] == if s.pc[q] == Pc(Asleep, l) then Pc(Woken, l) else s.pc[q])
  {
    var l := s.pc[p].l;
    ThoseAre(s.slp[Hash(l)], s.chan, l, true);
    hide NoDup, Those;
    forall q | q in s.pc ensures q in Those(s.slp[Hash(l)], s.chan, l, true) <==> s.pc[q] == Pc(Asleep, l) {
      assert q in s.slp[Hash(l)] <==> s.pc[q].at.Asleep? && Hash(s.pc[q].l) == Hash(l);
    }
  }

  lemma WokenQueues(s: State, p: nat)
    requires QueuesOk(s) && Enabled(s, WakeAll(p))
    ensures QueuesOk(Next(s, WakeAll(p)))
  {
    var s', l := Next(s, WakeAll(p)), s.pc[p].l;
    var on, off := Those(s.slp[Hash(l)], s.chan, l, true), Those(s.slp[Hash(l)], s.chan, l, false);
    ThoseAre(s.slp[Hash(l)], s.chan, l, true);
    ThoseAre(s.slp[Hash(l)], s.chan, l, false);
    WokenAre(s, p);
    assert s'.sched == s.sched + on && s'.slp == s.slp[Hash(l) := off] && s'.chan == s.chan;
    hide Hash, Next, Those, NoDup, QueuesOk;
    QueuesAfterWake(s, s', p, l, on, off);
  }

  lemma QueuesAfterWake(s: State, s': State, p: nat, l: nat, on: seq<nat>, off: seq<nat>)
    requires QueuesOk(s) && p in s.pc && s.pc[p] == Pc(WakeIn, l)
    requires s'.sched == s.sched + on && s'.slp == s.slp[Hash(l) := off] && s'.chan == s.chan
    requires s'.pc.Keys == s.pc.Keys && s'.pc[p] == Pc(WakeDone, l)
    requires forall q | q in s.pc && q != p :: s'.pc[q] == if s.pc[q] == Pc(Asleep, l) then Pc(Woken, l) else s.pc[q]
    requires forall q :: q in on <==> q in s.slp[Hash(l)] && (q in s.chan && s.chan[q] == l)
    requires forall q :: q in off <==> q in s.slp[Hash(l)] && !(q in s.chan && s.chan[q] == l)
    requires NoDup(on) && NoDup(off)
    ensures QueuesOk(s')
  {
    hide Hash, NoDup;
    forall q ensures q in s'.sched <==> q in s'.pc && Queued(s'.pc[q].at) {
      WakeEach(s, q, l, on, off);
    }
    forall i, q | 0 <= i < SQSIZE ensures q in s'.slp[i] <==> q in s'.pc && s'.pc[q].at.Asleep? && Hash(s'.pc[q].l) == i {
      WakeEach(s, q, l, on, off);
    }
    forall q | q in on ensures q !in s.sched {
      WakeEach(s, q, l, on, off);
    }
    NoDupConcat(s.sched, on);
  }

  lemma NoDupConcat(a: seq<nat>, b: seq<nat>)
    requires NoDup(a) && NoDup(b) && forall q | q in b :: q !in a
    ensures NoDup(a + b)
  {
    forall i, j | 0 <= i < j < |a + b| ensures (a + b)[i] != (a + b)[j] {
      if i < |a| <= j {
        assert b[j - |a|] in b && a[i] in a;
      }
    }
  }

  lemma WakeEach(s: State, q: nat, l: nat, on: seq<nat>, off: seq<nat>)
    requires QueuesOk(s)
    requires q in on <==> q in s.slp[Hash(l)] && (q in s.chan && s.chan[q] == l)
    requires q in off <==> q in s.slp[Hash(l)] && !(q in s.chan && s.chan[q] == l)
    ensures q in on <==> q in s.pc && s.pc[q] == Pc(Asleep, l)
    ensures q in off <==> q in s.pc && s.pc[q].at.Asleep? && Hash(s.pc[q].l) == Hash(l) && s.pc[q].l != l
    ensures q in on ==> q !in s.sched
  {
    hide Hash, NoDup;
  }

  lemma KeepWake(s: State, p: nat)
    requires Inv(s) && Enabled(s, WakeAll(p))
    ensures Inv(Next(s, WakeAll(p)))
  {
    hide Inv, QueuesOk;
    var s', l := Next(s, WakeAll(p)), s.pc[p].l;
    Start(s, p);
    WokenAre(s, p);
    WokenQueues(s, p);
    assert s'.locks == s.locks && s'.held == s.held && s'.pt == s.pt;
    hide Next;
    WakeProcs(s, s', p, l);
  }

  lemma WakeProcs(s: State, s': State, p: nat, l: nat)
    requires Inv(s) && p in s.pc && s.pc[p] == Pc(WakeIn, l) && s'.pc.Keys == s.pc.Keys && s'.pc[p] == Pc(WakeDone, l)
    requires forall q | q in s.pc && q != p :: s'.pc[q] == if s.pc[q] == Pc(Asleep, l) then Pc(Woken, l) else s.pc[q]
    requires s'.locks == s.locks && s'.held == s.held && s'.pt == s.pt && QueuesOk(s')
    ensures Inv(s')
  {
    hide QueuesOk;
    assert ProcOk(s, p);
    forall q | q in s'.pc ensures ProcOk(s', q) {
      assert ProcOk(s, q);
      WakeProc(s, s', p, l, q);
    }
    forall m | m in s'.locks ensures LockOk(s', m) { assert LockOk(s, m); }
  }

  lemma WakeProc(s: State, s': State, p: nat, l: nat, q: nat)
    requires p in s.pc && s.pc[p] == Pc(WakeIn, l) && s'.pc.Keys == s.pc.Keys && s'.pc[p] == Pc(WakeDone, l)
    requires forall q | q in s.pc && q != p :: s'.pc[q] == if s.pc[q] == Pc(Asleep, l) then Pc(Woken, l) else s.pc[q]
    requires s'.locks == s.locks && s'.held == s.held && s'.pt == s.pt
    requires ProcOk(s, p) && ProcOk(s, q)
    ensures ProcOk(s', q)
  {
  }

  // ---------------------------------------------------------------- runs

  /** No process runs and no lock is held. */
  ghost predicate Init(s: State) {
    && (forall p | p in s.pc :: s.pc[p].at.Out? && p in s.held && s.held[p] == {})
    && (forall l | l in s.locks :: !s.locks[l].locked && s.locks[l].spin == None)
    && s.pt == None && s.sched == [] && |s.slp| == SQSIZE && (forall i | 0 <= i < SQSIZE :: s.slp[i] == [])
  }

  lemma StepInv(s: State, st: Step)
    requires Inv(s) && Enabled(s, st)
    ensures Inv(Next(s, st))
  {
    hide Inv, QueuesOk, ProcOk, LockOk;
    match st
    case BeginAcquire(p, l) => KeepBegin(s, p, Pc(AcqWant, l));
    case BeginRelease(p, l) => HeldLocks(s, p); KeepBegin(s, p, Pc(RelWant, l));
    case BeginYield(p) => KeepBegin(s, p, s.pc[p].(at := YWant));
    case TakeSpin(p) => KeepTakeSpin(s, p);
    case DropSpin(p) => KeepDropSpin(s, p);
    case TakePt(p) => KeepTakePt(s, p);
    case DropPt(p) => KeepDropPt(s, p);
    case TestLock(p) => KeepTest(s, p);
    case ClearLock(p) => KeepClear(s, p);
    case SleepDrop(p) => KeepSleepDrop(s, p);
    case SleepPush(p) => KeepSleepPush(s, p);
    case YieldPush(p) => KeepYieldPush(s, p);
    case WakeAll(p) => KeepWake(s, p);
    case SchedRelease => KeepSched(s, st);
    case SchedPick => KeepSched(s, st);
  }

  /** States that some interleaving of the processes reaches. */
  ghost predicate Run(states: seq<State>, steps: seq<Step>) {
    && |states| == |steps| + 1 && Init(states[0])
    && forall i | 0 <= i < |steps| :: Enabled(states[i], steps[i]) && states[i + 1] == Next(states[i], steps[i])
  }

  lemma {:induction false} RunInv(states: seq<State>, steps: seq<Step>, k: nat)
    requires Run(states, steps) && k <= |steps|
    ensures Inv(states[k])
  {
    if k > 0 {
      RunInv(states, steps, k - 1);
      assert Enabled(states[k - 1], steps[k - 1]);
      assert states[(k - 1) + 1] == Next(states[k - 1], steps[k - 1]);
      hide Inv, Enabled, Next;
      StepInv(states[k - 1], steps[k - 1]);
    }
  }

  lemma OneQueue(s: State)
    requires QueuesOk(s)
    ensures forall p | p in s.sched :: forall i | 0 <= i < |s.slp| :: p !in s.slp[i]
    ensures forall p, i, j | 0 <= i < j < |s.slp| && p in s.slp[i] :: p !in s.slp[j]
  {
    hide Hash, NoDup;
    forall p, i, j | 0 <= i < j < |s.slp| && p in s.slp[i] ensures p !in s.slp[j] {
      assert p in s.pc && Hash(s.pc[p].l) == i;
    }
  }

  /** In every reachable state: a sleep lock is held by at most one process, the one in its pid field; a lock that is
      free with its spinlock free has nobody asleep on it or about to sleep; and no process is in two queues. */
  lemma SleepLockSafe(states: seq<State>, steps: seq<Step>, k: nat)
    requires Run(states, steps) && k <= |steps|
    ensures var s := states[k];
      && (forall p, q, l | p in s.pc && q in s.pc && Holds(s, p, l) && Holds(s, q, l) :: p == q)
      && (forall p, l | p in s.pc && l in s.locks :: Holds(s, p, l) <==> s.locks[l].locked && s.locks[l].pid == p)
      && (forall p, l | p in s.pc && l in s.locks && !s.locks[l].locked && s.locks[l].spin == None :: !AboutToSleep(s, p, l))
      && (forall p | p in s.sched :: forall i | 0 <= i < |s.slp| :: p !in s.slp[i])
      && (forall p, i, j | 0 <= i < j < |s.slp| && p in s.slp[i] :: p !in s.slp[j])
  {
    RunInv(states, steps, k);
    var s := states[k];
    hide Run;
    forall p, l | p in s.pc && l in s.locks
      ensures Holds(s, p, l) <==> s.locks[l].locked && s.locks[l].pid == p
      ensures !s.locks[l].locked && s.locks[l].spin == None ==> !AboutToSleep(s, p, l)
    {
      assert ProcOk(s, p) && LockOk(s, l);
    }
    OneQueue(s);
    hide QueuesOk;
    forall p, q, l | p in s.pc && q in s.pc && Holds(s, p, l) && Holds(s, q, l) ensures p == q {
      assert ProcOk(s, p) && ProcOk(s, q);
    }
  }

  ghost predicate Holds(s: State, p: nat, l: nat) {
    p in s.held && l in s.held[p]
  }

  predicate AboutToSleep(s: State, p: nat, l: nat) {
    p in s.pc && s.pc[p].l == l && (Deciding(s.pc[p].at) || Sleeping(s.pc[p].at))
  }

  // ---------------------------------------------------------------- whole calls

  datatype Call = Acquire(l: nat) | Release(l: nat) | Yield

  function Begin(c: Call, p: nat): (st: Step) {
    match c
    case Acquire(l) => BeginAcquire(p, l)
    case Release(l) => BeginRelease(p, l)
    case Yield => BeginYield(p)
  }

  /** What the caller may rely on when the call has returned: the locks it holds then. */
  function After(c: Call, h: set<nat>): (r: set<nat>) {
    match c
    case Acquire(l) => h + {l}
    case Release(l) => h - {l}
    case Yield => h
  }

  predicate Outside(s: State, p: nat) {
    p in s.pc && s.pc[p].at.Out?
  }

  /** Process p, which held h, is in the middle of the call. */
  ghost predicate Inside(s: State, p: nat, c: Call, h: set<nat>) {
    && p in s.pc && p in s.held
    && var a := s.pc[p].at;
       match c
       case Acquire(l) =>
         && a in {AcqWant, Test, Got, SlpWant, SlpBoth, SlpPush, Asleep, Woken, Resumed, ReWant}
         && s.pc[p].l == l && s.held[p] == if a.Got? then h + {l} else h
       case Release(l) =>
         && a in {RelWant, Clear, WakeWant, WakeIn, WakeDone, RelSpin}
         && s.pc[p].l == l && s.held[p] == if Owning(a) then h else h - {l}
       case Yield => a in {YWant, YPush, YQueued, YResumed} && s.held[p] == h
  }

  /** The step is taken by process p itself. */
  predicate By(st: Step, p: nat) {
    !st.SchedRelease? && !st.SchedPick? && st.p == p
  }

  /** Others wake a process, or put it on a processor. */
  ghost predicate Moved(s: State, s': State, p: nat) {
    && p in s.pc && p in s.held && p in s'.pc && p in s'.held && s'.held[p] == s.held[p] && s'.pc[p].l == s.pc[p].l
    && var a, a' := s.pc[p].at, s'.pc[p].at;
       a' == a || (a.Asleep? && a'.Woken?) || (a.Woken? && a'.Resumed?) || (a.YQueued? && a'.YResumed?)
  }

  lemma OthersStep(s: State, st: Step, p: nat)
    requires QueuesOk(s) && Enabled(s, st) && p in s.pc && p in s.held && !By(st, p)
    ensures Moved(s, Next(s, st), p)
  {
    hide QueuesOk;
    if st.WakeAll? {
      WokenByOther(s, st.p, p);
    } else if st.SchedPick? {
      Picked(s);
    } else {
      hide WithSpin, WithPt, WithoutPt;
    }
  }

  lemma WokenByOther(s: State, q: nat, p: nat)
    requires QueuesOk(s) && Enabled(s, WakeAll(q)) && p in s.pc && p in s.held && p != q
    ensures Moved(s, Next(s, WakeAll(q)), p)
  {
    WokenAre(s, q);
    hide QueuesOk, Those, Hash;
  }

  lemma OwnStepIn(s: State, st: Step, p: nat, c: Call, h: set<nat>)
    requires Enabled(s, st) && By(st, p) && Inside(s, p, c, h)
    ensures var s' := Next(s, st);
      Inside(s', p, c, h) || (Outside(s', p) && p in s'.held && s'.held[p] == After(c, h))
  {
    hide Those, Hash;
  }

  lemma CallStep(s: State, st: Step, p: nat, c: Call, h: set<nat>)
    requires QueuesOk(s) && Enabled(s, st) && Inside(s, p, c, h)
    ensures var s' := Next(s, st);
      Inside(s', p, c, h) || (Outside(s', p) && p in s'.held && s'.held[p] == After(c, h))
  {
    if By(st, p) {
      OwnStepIn(s, st, p, c, h);
    } else {
      OthersStep(s, st, p);
      hide Next, Enabled, QueuesOk;
    }
  }

  lemma FirstStep(s: State, p: nat, c: Call)
    requires Enabled(s, Begin(c, p)) && p in s.held
    ensures Inside(Next(s, Begin(c, p)), p, c, s.held[p])
  {
  }

  lemma StepOf(states: seq<State>, steps: seq<Step>, k: nat)
    requires Run(states, steps) && k < |steps|
    ensures Enabled(states[k], steps[k]) && states[k + 1] == Next(states[k], steps[k])
  {
    hide Enabled, Next;
  }

  lemma InvQueues(s: State)
    requires Inv(s)
    ensures QueuesOk(s)
  {
    hide QueuesOk, ProcOk, LockOk;
  }

  lemma {:induction false} InCall(states: seq<State>, steps: seq<Step>, i: nat, k: nat, p: nat, c: Call)
    requires Run(states, steps) && i < k <= |steps| && steps[i] == Begin(c, p) && p in states[i].held
    requires forall m | i < m < k :: !Outside(states[m], p)
    ensures var h := states[i].held[p]; var s := states[k];
      Inside(s, p, c, h) || (Outside(s, p) && p in s.held && s.held[p] == After(c, h))
    decreases k
  {
    hide Inv, Next, Enabled, Inside, Outside, QueuesOk, After, Run, Begin;
    assert |states| == |steps| + 1 by { RunLength(states, steps); }
    StepOf(states, steps, k - 1);
    if k - 1 == i {
      FirstStep(states[i], p, c);
    } else {
      InCall(states, steps, i, k - 1, p, c);
      RunInv(states, steps, k - 1);
      InvQueues(states[k - 1]);
      assert !Outside(states[k - 1], p);
      CallStep(states[k - 1], steps[k - 1], p, c, states[i].held[p]);
    }
  }

  lemma RunLength(states: seq<State>, steps: seq<Step>)
    requires Run(states, steps)
    ensures |states| == |steps| + 1
  {
  }

  /** Every call that returns has done what it is for: acquiresleep has the lock, and the lock names its holder;
      releasesleep has it no longer; and neither, nor yield, touches the other locks the process holds. */
  lemma CallReturns(states: seq<State>, steps: seq<Step>, i: nat, k: nat, p: nat, c: Call)
    requires Run(states, steps) && i < k <= |steps| && steps[i] == Begin(c, p)
    requires Outside(states[k], p) && forall m | i < m < k :: !Outside(states[m], p)
    ensures p in states[i].held && p in states[k].held && states[k].held[p] == After(c, states[i].held[p])
    ensures c.Acquire? ==> c.l in states[k].locks && states[k].locks[c.l].locked && states[k].locks[c.l].pid == p
    ensures c.Release? && c.l in states[k].locks && states[k].locks[c.l].locked ==> states[k].locks[c.l].pid != p
  {
    RunInv(states, steps, i);
    assert Enabled(states[i], steps[i]);
    assert ProcOk(states[i], p);
    InCall(states, steps, i, k, p, c);
    RunInv(states, steps, k);
    hide Run, QueuesOk;
    assert ProcOk(states[k], p);
    if c.Release? && c.l in states[k].locks {
      assert LockOk(states[k], c.l);
    }
  }

  /** The machine does not stop: while some process is in the middle of a call and not asleep, a step other than the
      begin of a call is possible. */
  lemma SomeStep(states: seq<State>, steps: seq<Step>, k: nat, p: nat) returns (st: Step)
    requires Run(states, steps) && k <= |steps|
    requires p in states[k].pc && !states[k].pc[p].at.Out? && !states[k].pc[p].at.Asleep?
    ensures Enabled(states[k], st) && !st.BeginAcquire? && !st.BeginRelease? && !st.BeginYield?
  {
    RunInv(states, steps, k);
    hide Run;
    st := Possible(states[k], p);
  }

  lemma Possible(s: State, p: nat) returns (st: Step)
    requires Inv(s) && p in s.pc && !s.pc[p].at.Out? && !s.pc[p].at.Asleep?
    ensures Enabled(s, st) && !st.BeginAcquire? && !st.BeginRelease? && !st.BeginYield?
  {
    assert ProcOk(s, p);
    if s.pt == Some(BySched) {
      st := SchedRelease;
    } else if s.pt.Some? {
      var q := s.pt.value.p;
      assert ProcOk(s, q);
      st := OwnStep(s, q);
    } else if HoldsSpin(s.pc[p].at) {
      st := OwnStep(s, p);
    } else if Queued(s.pc[p].at) {
      assert p in s.sched;
      assert s.sched[0] in s.sched;
      st := SchedPick;
    } else if s.pc[p].at.YWant? {
      st := TakePt(p);
    } else {
      assert LockOk(s, s.pc[p].l);
      if s.locks[s.pc[p].l].spin.Some? {
        var q := s.locks[s.pc[p].l].spin.value;
        assert ProcOk(s, q);
        st := OwnStep(s, q);
      } else {
        st := TakeSpin(p);
      }
    }
  }

  /** A holder of the one or the other lock can go on by itself, except that it may wait for ptable.lock. */
  lemma OwnStep(s: State, p: nat) returns (st: Step)
    requires p in s.pc && ProcOk(s, p) && |s.slp| == SQSIZE
    requires HoldsPt(s.pc[p].at) || (HoldsSpin(s.pc[p].at) && s.pt == None)
    ensures Enabled(s, st) && !st.BeginAcquire? && !st.BeginRelease? && !st.BeginYield?
  {
    match s.pc[p].at
    case Test => st := TestLock(p);
    case Clear => st := ClearLock(p);
    case Got => st := DropSpin(p);
    case RelSpin => st := DropSpin(p);
    case SlpWant => st := TakePt(p);
    case WakeWant => st := TakePt(p);
    case SlpBoth => st := SleepDrop(p);
    case SlpPush => st := SleepPush(p);
    case WakeIn => st := WakeAll(p);
    case YPush => st := YieldPush(p);
    case _ => st := DropPt(p);
  }

  // ---------------------------------------------------------------- the order of the run queue

  /** The processes that a step makes runnable, by the step and the places alone. */
  function Entering(s: State, st: Step): (r: seq<nat>)
    requires Enabled(s, st)
  {
    match st
    case YieldPush(p) => [p]
    case WakeAll(p) => Those(s.slp[Hash(s.pc[p].l)], s.chan, s.pc[p].l, true)
    case _ => []
  }

  /** The process that a step puts on a processor. */
  function Leaving(s: State, st: Step): (r: seq<nat>)
    requires Enabled(s, st)
  {
    if st.SchedPick? then [s.sched[0]] else []
  }

  lemma QueueStep(s: State, st: Step)
    requires Enabled(s, st)
    ensures s.sched + Entering(s, st) == Leaving(s, st) + Next(s, st).sched
  {
    hide Those, Hash, WithSpin, WithPt, WithoutPt;
  }

  ghost function Entered(states: seq<State>, steps: seq<Step>, k: nat): (r: seq<nat>)
    requires Run(states, steps) && k <= |steps|
  {
    if k == 0 then [] else StepOf(states, steps, k - 1); Entered(states, steps, k - 1) + Entering(states[k - 1], steps[k - 1])
  }

  ghost function Ran(states: seq<State>, steps: seq<Step>, k: nat): (r: seq<nat>)
    requires Run(states, steps) && k <= |steps|
  {
    if k == 0 then [] else StepOf(states, steps, k - 1); Ran(states, steps, k - 1) + Leaving(states[k - 1], steps[k - 1])
  }

  /** Processes run in the order in which they became runnable. */
  lemma {:induction false} RunsInOrder(states: seq<State>, steps: seq<Step>, k: nat)
    requires Run(states, steps) && k <= |steps|
    ensures Entered(states, steps, k) == Ran(states, steps, k) + states[k].sched
  {
    if k > 0 {
      RunsInOrder(states, steps, k - 1);
      StepOf(states, steps, k - 1);
      hide Run, Enabled, Next, Entering, Leaving;
      var s, s' := states[k - 1], states[(k - 1) + 1];
      QueueStep(s, steps[k - 1]);
      var ran := Ran(states, steps, k - 1);
      Assoc(ran, s.sched, Entering(s, steps[k - 1]));
      Assoc(ran, Leaving(s, steps[k - 1]), s'.sched);
    }
  }
}
