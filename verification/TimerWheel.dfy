/** The five-level timer wheel of kern/timer.c.

The abstract specification is a finite map from timers to expiry ticks with a clock: a timer may fire only
when it is due, and the clock may not pass a tick while a due timer is pending.  `Wheel` keeps a history of
what it does and its invariant says that the history is one the specification allows.
*/
module TimerWheel {
  import opened Common

  type Id = nat

  // ---------------------------------------------------------------- specification

  datatype Event =
    | Armed(id: Id, expires: nat)
    | Disarmed(id: Id)
    | Fired(id: Id)
    | Tick

  datatype Spec = Spec(pending: map<Id, nat>, clock: nat)

  predicate Allowed(s: Spec, e: Event) {
    match e
    case Armed(id, expires) => id !in s.pending
    case Disarmed(id) => id in s.pending
    case Fired(id) => id in s.pending && s.pending[id] <= s.clock
    case Tick => forall id | id in s.pending :: s.pending[id] > s.clock
  }

  function Next(s: Spec, e: Event): (r: Spec) {
    match e
    case Armed(id, expires) => s.(pending := s.pending[id := expires])
    case Disarmed(id) => s.(pending := s.pending - {id})
    case Fired(id) => s.(pending := s.pending - {id})
    case Tick => s.(clock := s.clock + 1)
  }

  function Replay(events: seq<Event>): (r: Spec) {
    if events == [] then Spec(map[], 0) else Next(Replay(events[..|events| - 1]), events[|events| - 1])
  }

  predicate Legal(events: seq<Event>) {
    events == [] || (Legal(events[..|events| - 1]) && Allowed(Replay(events[..|events| - 1]), events[|events| - 1]))
  }

  lemma LegalSnoc(events: seq<Event>, e: Event)
    requires Legal(events) && Allowed(Replay(events), e)
    ensures Legal(events + [e]) && Replay(events + [e]) == Next(Replay(events), e)
  {
    assert (events + [e])[..|events|] == events;
  }

  lemma {:induction false} LegalPrefix(events: seq<Event>, k: nat)
    requires Legal(events) && k <= |events|
    ensures Legal(events[..k])
    ensures k < |events| ==> Allowed(Replay(events[..k]), events[k]) && Replay(events[..k + 1]) == Next(Replay(events[..k]), events[k])
    decreases |events|
  {
    if k < |events| {
      var front := events[..|events| - 1];
      if k < |events| - 1 {
        LegalPrefix(front, k);
        assert front[..k] == events[..k] && front[..k + 1] == events[..k + 1];
      } else {
        assert events[..k + 1] == events;
      }
    } else {
      assert events[..k] == events;
    }
  }

  /** A timer armed by event i and untouched up to event j is still pending there with the same expiry, and
      the clock has not gone past the later of its expiry and the tick it was armed in. */
  lemma {:induction false} StillPending(events: seq<Event>, i: nat, j: nat)
    requires Legal(events) && i < j <= |events| && events[i].Armed?
    requires forall k | i < k < j :: events[k] != Disarmed(events[i].id) && events[k] != Fired(events[i].id)
    ensures var s := Replay(events[..j]);
      && events[i].id in s.pending && s.pending[events[i].id] == events[i].expires
      && Replay(events[..i]).clock <= s.clock
      && (s.clock <= events[i].expires || s.clock == Replay(events[..i]).clock)
    decreases j
  {
    LegalPrefix(events, j - 1);
    LegalPrefix(events, i);
    if j > i + 1 {
      StillPending(events, i, j - 1);
      assert events[j - 1] != Disarmed(events[i].id) && events[j - 1] != Fired(events[i].id);
    }
  }

  /** In every legal history a timer fires exactly at its expiry tick, or at once if that was already past. */
  lemma FiresOnTime(events: seq<Event>, i: nat, j: nat)
    requires Legal(events) && i < j < |events|
    requires events[i].Armed? && events[j] == Fired(events[i].id)
    requires forall k | i < k < j :: events[k] != Disarmed(events[i].id) && events[k] != Fired(events[i].id)
    ensures var armed := Replay(events[..i]).clock;
      Replay(events[..j]).clock == if events[i].expires >= armed then events[i].expires else armed
  {
    StillPending(events, i, j);
    LegalPrefix(events, j);
  }

  /** No due timer is missed: when the clock has gone past the expiry and the tick of arming, the timer has been
      run or disarmed in between. */
  lemma NeverMissed(events: seq<Event>, i: nat, j: nat) returns (k: nat)
    requires Legal(events) && i < j <= |events| && events[i].Armed?
    requires Replay(events[..j]).clock > events[i].expires && Replay(events[..j]).clock > Replay(events[..i]).clock
    ensures i < k < j && (events[k] == Fired(events[i].id) || events[k] == Disarmed(events[i].id))
  {
    if forall k | i < k < j :: events[k] != Disarmed(events[i].id) && events[k] != Fired(events[i].id) {
      StillPending(events, i, j);
      assert false;
    }
    k :| i < k < j && (events[k] == Fired(events[i].id) || events[k] == Disarmed(events[i].id));
  }

  // ---------------------------------------------------------------- what the calls do

  /** Furthest expiry the wheel can hold, in ticks ahead. */
  const HORIZON := 0xffff_ffff

  /** What code that runs while timerlock is free may do. */
  datatype Op = Add(id: Id, expires: nat) | Mod(id: Id, expires: nat) | Del(id: Id)

  /** The pending timers, and those that were added beyond the horizon: linked to themselves, never to run. */
  datatype Queue = Queue(pending: map<Id, nat>, alone: set<Id>)

  function Enqueued(q: Queue, clock: nat, id: Id, expires: nat): (r: Queue) {
    if expires <= clock + HORIZON then q.(pending := q.pending[id := expires]) else q.(alone := q.alone + {id})
  }

  function FileEvents(clock: nat, id: Id, expires: nat): (events: seq<Event>) {
    if expires <= clock + HORIZON then [Armed(id, expires)] else []
  }

  function Dropped(q: Queue, id: Id): (r: Queue) {
    Queue(q.pending - {id}, q.alone - {id})
  }

  function DropEvents(q: Queue, id: Id): (events: seq<Event>) {
    if id in q.pending then [Disarmed(id)] else []
  }

  /** add_timer leaves a linked timer alone, mod_timer takes it out first. */
  function DoOp(q: Queue, clock: nat, op: Op): (r: Queue) {
    match op
    case Add(id, expires) => if id in q.pending || id in q.alone then q else Enqueued(q, clock, id, expires)
    case Mod(id, expires) => Enqueued(Dropped(q, id), clock, id, expires)
    case Del(id) => Dropped(q, id)
  }

  function OpEvents(q: Queue, clock: nat, op: Op): (events: seq<Event>) {
    match op
    case Add(id, expires) => if id in q.pending || id in q.alone then [] else FileEvents(clock, id, expires)
    case Mod(id, expires) => DropEvents(q, id) + FileEvents(clock, id, expires)
    case Del(id) => DropEvents(q, id)
  }

  function DoOps(q: Queue, clock: nat, ops: seq<Op>): (r: Queue) {
    if ops == [] then q else DoOp(DoOps(q, clock, ops[..|ops| - 1]), clock, ops[|ops| - 1])
  }

  function OpsEvents(q: Queue, clock: nat, ops: seq<Op>): (events: seq<Event>) {
    if ops == [] then []
    else
      var front := ops[..|ops| - 1];
      OpsEvents(q, clock, front) + OpEvents(DoOps(q, clock, front), clock, ops[|ops| - 1])
  }

  /** mod_timer: out of its place, and to the new one unless that is beyond the horizon. */
  lemma ModEffect(q: Queue, h: seq<Event>, clock: nat, id: Id, expires: nat)
    ensures DoOp(q, clock, Mod(id, expires)) == Enqueued(DoOp(q, clock, Del(id)), clock, id, expires)
    ensures DoOp(q, clock, Mod(id, expires)).pending ==
      if expires <= clock + HORIZON then q.pending[id := expires] else q.pending - {id}
    ensures h + OpEvents(q, clock, Mod(id, expires)) ==
      h + (if id in q.pending then [Disarmed(id)] else []) + if expires <= clock + HORIZON then [Armed(id, expires)] else []
    ensures h + OpEvents(q, clock, Mod(id, expires)) == h + OpEvents(q, clock, Del(id)) + FileEvents(clock, id, expires)
  {
    Assoc(h, DropEvents(q, id), FileEvents(clock, id, expires));
  }

  /** Calls have their effects one after the other. */
  lemma {:induction false} OpsInOrder(q: Queue, clock: nat, a: seq<Op>, b: seq<Op>)
    ensures DoOps(q, clock, a + b) == DoOps(DoOps(q, clock, a), clock, b)
    ensures OpsEvents(q, clock, a + b) == OpsEvents(q, clock, a) + OpsEvents(DoOps(q, clock, a), clock, b)
    decreases |b|
  {
    if b == [] {
      assert a + b == a;
    } else {
      var front, op := b[..|b| - 1], b[|b| - 1];
      assert (a + b)[..|a + b| - 1] == a + front;
      OpsInOrder(q, clock, a, front);
      hide DoOp, OpEvents;
      Assoc(OpsEvents(q, clock, a), OpsEvents(DoOps(q, clock, a), clock, front),
            OpEvents(DoOps(q, clock, a + front), clock, op));
    }
  }

  lemma OneOp(q: Queue, clock: nat, op: Op)
    ensures DoOps(q, clock, [op]) == DoOp(q, clock, op) && OpsEvents(q, clock, [op]) == OpEvents(q, clock, op)
  {
    assert [op][..0] == [] && [] + OpEvents(q, clock, op) == OpEvents(q, clock, op);
  }

  /** The reference scheduler: run a timer that is due and then what its callback does, or let the clock tick if
      no timer is due.  script lists what the coming callbacks do. */
  datatype Sched = Sched(queue: Queue, clock: nat, script: seq<seq<Op>>)

  datatype Act = Run(id: Id) | Pass

  predicate Can(s: Sched, a: Act) {
    match a
    case Run(id) => id in s.queue.pending && s.queue.pending[id] <= s.clock
    case Pass => forall id | id in s.queue.pending :: s.queue.pending[id] > s.clock
  }

  function Callback(s: Sched): (ops: seq<Op>) {
    if s.script == [] then [] else s.script[0]
  }

  function Taken(q: Queue, id: Id): (r: Queue) {
    q.(pending := q.pending - {id})
  }

  function Acted(s: Sched, a: Act): (r: Sched) {
    match a
    case Run(id) =>
      Sched(DoOps(Taken(s.queue, id), s.clock, Callback(s)), s.clock, if s.script == [] then [] else s.script[1..])
    case Pass => s.(clock := s.clock + 1)
  }

  function ActEvents(s: Sched, a: Act): (events: seq<Event>) {
    match a
    case Run(id) => [Fired(id)] + OpsEvents(Taken(s.queue, id), s.clock, Callback(s))
    case Pass => [Tick]
  }

  /** The state a sequence of acts leads to. */
  function Final(s: Sched, acts: seq<Act>): (r: Sched) {
    if acts == [] then s else Acted(Final(s, acts[..|acts| - 1]), acts[|acts| - 1])
  }

  function Trace(s: Sched, acts: seq<Act>): (events: seq<Event>) {
    if acts == [] then []
    else
      var front := acts[..|acts| - 1];
      Trace(s, front) + ActEvents(Final(s, front), acts[|acts| - 1])
  }

  predicate Plays(s: Sched, acts: seq<Act>) {
    acts == [] || (Plays(s, acts[..|acts| - 1]) && Can(Final(s, acts[..|acts| - 1]), acts[|acts| - 1]))
  }

  /** From s the acts lead to s', and the history grows by their events. */
  ghost predicate Scheduled(s: Sched, h: seq<Event>, acts: seq<Act>, s': Sched, h': seq<Event>) {
    Plays(s, acts) && Final(s, acts) == s' && h' == h + Trace(s, acts)
  }

  lemma ScheduledNothing(s: Sched, h: seq<Event>)
    ensures Scheduled(s, h, [], s, h)
  {
  }

  lemma ScheduledMore(s: Sched, h: seq<Event>, acts: seq<Act>, s1: Sched, h1: seq<Event>, a: Act, s2: Sched, h2: seq<Event>)
    requires Scheduled(s, h, acts, s1, h1) && Can(s1, a) && s2 == Acted(s1, a) && h2 == h1 + ActEvents(s1, a)
    ensures Scheduled(s, h, acts + [a], s2, h2)
  {
    assert (acts + [a])[..|acts|] == acts;
    Assoc(h, Trace(s, acts), ActEvents(s1, a));
  }

  lemma {:induction false} ScheduledAll(s: Sched, h: seq<Event>, acts: seq<Act>, s1: Sched, h1: seq<Event>,
                                        more: seq<Act>, s2: Sched, h2: seq<Event>)
    requires Scheduled(s, h, acts, s1, h1) && Scheduled(s1, h1, more, s2, h2)
    ensures Scheduled(s, h, acts + more, s2, h2)
    decreases |more|
  {
    hide Scheduled, Can, Acted, ActEvents, Final, Trace, Plays;
    if more == [] {
      NoAct(s1, h1, s2, h2);
      assert acts + more == acts;
    } else {
      var front, a := more[..|more| - 1], more[|more| - 1];
      var s3, h3 := Final(s1, front), h1 + Trace(s1, front);
      LastAct(s1, h1, more, s2, h2);
      ScheduledAll(s, h, acts, s1, h1, front, s3, h3);
      ScheduledMore(s, h, acts + front, s3, h3, a, s2, h2);
      assert acts + more == acts + front + [a];
    }
  }

  lemma NoAct(s: Sched, h: seq<Event>, s': Sched, h': seq<Event>)
    requires Scheduled(s, h, [], s', h')
    ensures s' == s && h' == h
  {
  }

  lemma LastAct(s: Sched, h: seq<Event>, acts: seq<Act>, s': Sched, h': seq<Event>)
    requires Scheduled(s, h, acts, s', h') && acts != []
    ensures var front, a := acts[..|acts| - 1], acts[|acts| - 1];
      var s1, h1 := Final(s, front), h + Trace(s, front);
      Scheduled(s, h, front, s1, h1) && Can(s1, a) && s' == Acted(s1, a) && h' == h1 + ActEvents(s1, a)
  {
    var front, a := acts[..|acts| - 1], acts[|acts| - 1];
    hide Can, Acted, ActEvents;
    Assoc(h, Trace(s, front), ActEvents(Final(s, front), a));
  }

  lemma TickScheduled(s: Sched, h: seq<Event>, acts: seq<Act>, s1: Sched, h1: seq<Event>, s2: Sched, h2: seq<Event>)
    requires Scheduled(s, h, acts, s1, h1) && Can(s1, Pass) && s2 == Acted(s1, Pass) && h2 == h1 + [Tick]
    ensures Scheduled(s, h, acts + [Pass], s2, h2)
  {
    ScheduledMore(s, h, acts, s1, h1, Pass, s2, h2);
  }

  /** q is p without some timers that were due at tick t. */
  predicate OnlyDueGone(p: map<Id, nat>, q: map<Id, nat>, t: int) {
    && (forall id | id in q :: id in p && q[id] == p[id])
    && (forall id | id in p && id !in q :: p[id] <= t)
  }

  /** When callbacks do nothing, a run that ends with a tick has run exactly the timers due before the clock. */
  lemma {:induction false} QuietRun(s: Sched, h: seq<Event>, acts: seq<Act>, s': Sched, h': seq<Event>)
    requires s.script == [] && Scheduled(s, h, acts, s', h')
    ensures s'.script == [] && OnlyDueGone(s.queue.pending, s'.queue.pending, s'.clock) && s'.clock >= s.clock
    ensures acts != [] && acts[|acts| - 1].Pass? ==>
      && OnlyDueGone(s.queue.pending, s'.queue.pending, s'.clock - 1)
      && s'.queue.pending == map id | id in s.queue.pending && s.queue.pending[id] >= s'.clock :: s.queue.pending[id]
    decreases |acts|
  {
    if acts != [] {
      var front := acts[..|acts| - 1];
      QuietRun(s, h, front, Final(s, front), h + Trace(s, front));
      NoOps(Taken(Final(s, front).queue, 0), 0);
    }
  }

  // ---------------------------------------------------------------- slots

  /** Ticks covered by one slot of vector n: tv2, tv3, tv4, tv5 for n = 1 .. 4. */
  function Unit(n: nat): (u: nat)
    requires 1 <= n <= 4
    ensures u > 0
  {
    match n
    case 1 => 256
    case 2 => 16384
    case 3 => 1048576
    case _ => 67108864
  }

  /** The stretch of vector n that tick t lies in. */
  function Stretch(t: nat, n: nat): (r: nat)
    requires 1 <= n <= 4
  {
    match n
    case 1 => t / 256
    case 2 => t / 16384
    case 3 => t / 1048576
    case _ => t / 67108864
  }

  /** The first stretch of vector n that begins at tick t or later. */
  function StretchFrom(t: nat, n: nat): (r: nat)
    requires 1 <= n <= 4
  {
    Stretch(t + Unit(n) - 1, n)
  }

  /** A stretch of vector n begins at tick t. */
  predicate Begins(t: nat, n: nat)
    requires 1 <= n <= 4
  {
    match n
    case 1 => t % 256 == 0
    case 2 => t % 16384 == 0
    case 3 => t % 1048576 == 0
    case _ => t % 67108864 == 0
  }

  lemma BeginsHere(t: nat, n: nat)
    requires 1 <= n <= 4
    ensures StretchFrom(t, n) == if Begins(t, n) then Stretch(t, n) else Stretch(t, n) + 1
  {
  }

  /** Slots 0 .. 255 are tv1.vec; the 64 slots of vector n follow at First(n). */
  const SLOTS := 512

  function First(n: nat): (s: nat)
    requires 1 <= n <= 4
  {
    256 + 64 * (n - 1)
  }

  /** timer->list: not queued, initialised to itself (the unreachable-expiry case), or in a slot's list. */
  datatype Link = Null | Alone | Filed(slot: nat)

  datatype Timer = Timer(expires: nat, link: Link)

  /** list_drop. */
  function Without(l: seq<Id>, id: Id): (r: seq<Id>) {
    if l == [] then [] else if l[0] == id then l[1..] else [l[0]] + Without(l[1..], id)
  }

  lemma {:induction false} WithoutIs(l: seq<Id>, id: Id)
    requires NoDup(l)
    ensures NoDup(Without(l, id))
    ensures forall x :: x in Without(l, id) <==> x in l && x != id
    ensures |Without(l, id)| == if id in l then |l| - 1 else |l|
  {
    if l != [] && l[0] != id {
      WithoutIs(l[1..], id);
      var w := Without(l[1..], id);
      assert l == [l[0]] + l[1..];
      assert l[0] !in w;
      forall i, j | 0 <= i < j < |w| + 1 ensures ([l[0]] + w)[i] != ([l[0]] + w)[j] {
        assert w[j - 1] in w;
      }
    } else if l != [] {
      assert l == [l[0]] + l[1..];
    }
  }

  /** list_push_back(vec->prev, timer): the new timer goes before the last entry of the slot. */
  function Filing(l: seq<Id>, id: Id): (r: seq<Id>)
    ensures forall x :: x in r <==> x in l || x == id
    ensures NoDup(l) && id !in l ==> NoDup(r)
    ensures |r| == |l| + 1
  {
    if l == [] then [id] else
      assert l == l[..|l| - 1] + [l[|l| - 1]];
      l[..|l| - 1] + [id] + [l[|l| - 1]]
  }

  /** A queued timer's link names the one slot whose list holds it, and lists hold queued timers only. */
  predicate Linked(timers: map<Id, Timer>, vec: seq<seq<Id>>) {
    && |vec| == SLOTS
    && (forall s | 0 <= s < SLOTS :: NoDup(vec[s]))
    && (forall s, id | 0 <= s < SLOTS && id in vec[s] :: id in timers && timers[id].link == Filed(s))
    && (forall id | id in timers && timers[id].link.Filed? :: timers[id].link.slot < SLOTS && id in vec[timers[id].link.slot])
  }

  /** Where a timer that expires at e may sit at tick j.  next[n - 1] is the number of the slot-sized stretch
      of time that vector n will cascade next. */
  predicate Placed(s: nat, e: nat, j: nat, next: seq<nat>)
    requires |next| == 4 && s < SLOTS
  {
    if s < 256 then
      if e < j then s == j % 256 else e - j < 256 && s == e % 256
    else
      var n := (s - 256) / 64 + 1;
      next[n - 1] <= Stretch(e, n) < next[n - 1] + 64 && s == First(n) + Stretch(e, n) % 64
  }

  /** Vector n will next cascade the stretch that begins at or after tick j, at most one stretch ahead. */
  predicate Upcoming(j: nat, next: seq<nat>, n: nat)
    requires |next| == 4 && 1 <= n <= 4
  {
    StretchFrom(j, n) <= next[n - 1] <= Stretch(j, n) + 1
  }

  /** Vector n has cascaded the stretch that contains tick j. */
  predicate Settled(j: nat, next: seq<nat>, n: nat)
    requires |next| == 4 && 1 <= n <= 4
  {
    next[n - 1] == Stretch(j, n) + 1
  }

  function PendingOf(timers: map<Id, Timer>): (r: map<Id, nat>) {
    map id | id in timers && timers[id].link.Filed? :: timers[id].expires
  }

  function QueueOf(timers: map<Id, Timer>): (q: Queue) {
    Queue(PendingOf(timers), set id | id in timers && timers[id].link.Alone?)
  }

  /** Timers that are in the slot a cascade empties all belong to the stretch that begins now, so each is
      filed in a lower vector. */
  lemma CascadeMovesDown(s: nat, e: nat, j: nat, next: seq<nat>, n: nat)
    requires |next| == 4 && 1 <= n <= 4 && Begins(j, n) && next[n - 1] == Stretch(j, n)
    requires s == First(n) + next[n - 1] % 64 && Placed(s, e, j, next)
    ensures j <= e < j + Unit(n)
  {
    assert (s - 256) / 64 + 1 == n;
    var q := Stretch(e, n);
    assert q % 64 == next[n - 1] % 64 && next[n - 1] <= q < next[n - 1] + 64;
    assert q == next[n - 1];
  }

  lemma DueNow(s: nat, e: nat, j: nat, next: seq<nat>)
    requires |next| == 4 && s == j % 256 && Placed(s, e, j, next)
    ensures e <= j
  {
  }

  lemma IndexFollows(x: nat)
    ensures (x % 64 + 1) % 64 == (x + 1) % 64
  {
  }

  /** Any timer that is not yet due is placed by distance. */
  lemma PlacedByDistance(e: nat, j: nat, next: seq<nat>, n: nat)
    requires |next| == 4 && 1 <= n <= 4 && Upcoming(j, next, n)
    requires Unit(n) <= e - j < 64 * Unit(n)
    ensures Placed(First(n) + Stretch(e, n) % 64, e, j, next)
  {
    var s := First(n) + Stretch(e, n) % 64;
    assert (s - 256) / 64 + 1 == n;
  }

  predicate AllPlaced(timers: map<Id, Timer>, j: nat, next: seq<nat>)
    requires |next| == 4
  {
    forall id | id in timers && timers[id].link.Filed? ::
      timers[id].link.slot < SLOTS && Placed(timers[id].link.slot, timers[id].expires, j, next)
  }

  /** Queueing an unqueued timer in a slot where it may sit. */
  lemma LinkedSlots(timers: map<Id, Timer>, vec: seq<seq<Id>>)
    requires Linked(timers, vec)
    ensures |vec| == SLOTS
  {
  }

  /** Changing the expiry of an unqueued timer. */
  lemma ExpiryKeeps(timers: map<Id, Timer>, vec: seq<seq<Id>>, j: nat, next: seq<nat>, id: Id, e: nat)
    requires |next| == 4 && Linked(timers, vec) && AllPlaced(timers, j, next) && id in timers && !timers[id].link.Filed?
    ensures Linked(timers[id := timers[id].(expires := e)], vec) && AllPlaced(timers[id := timers[id].(expires := e)], j, next)
  {
  }

  lemma FileKeeps(timers: map<Id, Timer>, vec: seq<seq<Id>>, id: Id, s: nat)
    requires Linked(timers, vec) && id in timers && !timers[id].link.Filed? && s < SLOTS
    ensures Linked(timers[id := timers[id].(link := Filed(s))], vec[s := Filing(vec[s], id)])
  {
    assert id !in vec[s];
  }

  /** Unqueueing a queued timer. */
  lemma DropKeeps(timers: map<Id, Timer>, vec: seq<seq<Id>>, id: Id, link: Link)
    requires Linked(timers, vec) && id in timers && timers[id].link.Filed? && !link.Filed?
    ensures var s := timers[id].link.slot;
      Linked(timers[id := timers[id].(link := link)], vec[s := Without(vec[s], id)])
  {
    var s := timers[id].link.slot;
    WithoutIs(vec[s], id);
    var timers', vec' := timers[id := timers[id].(link := link)], vec[s := Without(vec[s], id)];
    forall t, x | 0 <= t < SLOTS && x in vec'[t] ensures x in timers' && timers'[x].link == Filed(t) {
      assert x in vec[t];
      assert x != id;
    }
    forall x | x in timers' && timers'[x].link.Filed? ensures timers'[x].link.slot < SLOTS && x in vec'[timers'[x].link.slot] {
      assert x in vec[timers[x].link.slot];
    }
  }

  lemma PutBack(m: map<Id, nat>, id: Id, e: nat)
    ensures (m - {id})[id := e] == m[id := e]
    ensures id in m && m[id] == e ==> (m - {id})[id := e] == m
  {
  }

  lemma PendingUpdate(timers: map<Id, Timer>, id: Id, t: Timer)
    ensures PendingOf(timers[id := t]) ==
      if t.link.Filed? then PendingOf(timers)[id := t.expires] else PendingOf(timers) - {id}
  {
    var p, q := PendingOf(timers[id := t]), PendingOf(timers);
    assert forall x | x != id :: (x in p <==> x in q) && (x in p ==> p[x] == q[x]);
  }

  /** The queue after timer id has become t. */
  function Relinked(q: Queue, id: Id, t: Timer): (r: Queue) {
    match t.link
    case Null => Dropped(q, id)
    case Alone => Queue(q.pending - {id}, q.alone + {id})
    case Filed(_) => Queue(q.pending[id := t.expires], q.alone - {id})
  }

  lemma QueueUpdate(timers: map<Id, Timer>, id: Id, t: Timer)
    ensures QueueOf(timers[id := t]) == Relinked(QueueOf(timers), id, t)
  {
    PendingUpdate(timers, id, t);
  }

  lemma PendingIs(timers: map<Id, Timer>)
    ensures QueueOf(timers).pending == PendingOf(timers)
  {
  }

  /** A timer that is off all lists, and one that is in a list or alone. */
  lemma QueueHas(timers: map<Id, Timer>, id: Id)
    requires id in timers
    ensures var q := QueueOf(timers);
      && (timers[id].link.Null? <==> id !in q.pending && id !in q.alone)
      && (timers[id].link.Filed? <==> id in q.pending)
      && (timers[id].link.Filed? ==> q.pending[id] == timers[id].expires && id !in q.alone)
      && (timers[id].link.Null? ==> Dropped(q, id) == q)
  {
  }

  /** The slot internal_add_timer picks at tick j, when tv1.index is cur. */
  method ChooseSlot(expires: nat, j: nat, cur: nat, ghost next: seq<nat>) returns (link: Link)
    requires |next| == 4 && cur == j % 256
    requires forall n | 1 <= n <= 4 :: Upcoming(j, next, n)
    ensures link == Alone || (link.Filed? && link.slot < SLOTS && Placed(link.slot, expires, j, next))
    ensures link.Filed? <==> expires <= j + HORIZON
    ensures forall n | 1 <= n <= 4 && j <= expires < j + Unit(n) :: link.Filed? && link.slot < First(n)
  {
    var idx := expires - j;
    if 0 <= idx < 256 {
      link := Filed(expires % 256);
    } else if 0 <= idx < 16384 {
      link := Filed(First(1) + (expires / 256) % 64);
      PlacedByDistance(expires, j, next, 1);
    } else if 0 <= idx < 1048576 {
      link := Filed(First(2) + (expires / 16384) % 64);
      PlacedByDistance(expires, j, next, 2);
    } else if 0 <= idx < 67108864 {
      link := Filed(First(3) + (expires / 1048576) % 64);
      PlacedByDistance(expires, j, next, 3);
    } else if idx < 0 {
      link := Filed(cur);
    } else if idx <= HORIZON {
      link := Filed(First(4) + (expires / 67108864) % 64);
      PlacedByDistance(expires, j, next, 4);
    } else {
      link := Alone;
    }
  }

  /** A cascade has emptied the slot of the stretch next[n - 1], so vector n may move on. */
  lemma VectorAdvances(timers: map<Id, Timer>, vec: seq<seq<Id>>, j: nat, next: seq<nat>, n: nat)
    requires |next| == 4 && 1 <= n <= 4 && Linked(timers, vec) && AllPlaced(timers, j, next)
    requires vec[First(n) + next[n - 1] % 64] == []
    ensures AllPlaced(timers, j, next[n - 1 := next[n - 1] + 1])
  {
    var next' := next[n - 1 := next[n - 1] + 1];
    forall id | id in timers && timers[id].link.Filed?
      ensures Placed(timers[id].link.slot, timers[id].expires, j, next')
    {
      var s, e := timers[id].link.slot, timers[id].expires;
      assert id in vec[s];
      if First(n) <= s < First(n) + 64 {
        assert (s - 256) / 64 + 1 == n;
        assert Stretch(e, n) != next[n - 1];
      }
    }
  }

  /** The tick j is over and the slot of tv1 it used is empty: nothing pending is due. */
  lemma NothingDue(timers: map<Id, Timer>, vec: seq<seq<Id>>, j: nat, next: seq<nat>, id: Id)
    requires |next| == 4 && Linked(timers, vec) && AllPlaced(timers, j, next)
    requires forall n | 1 <= n <= 4 :: Settled(j, next, n)
    requires vec[j % 256] == []
    requires id in timers && timers[id].link.Filed?
    ensures timers[id].expires > j
    ensures Placed(timers[id].link.slot, timers[id].expires, j + 1, next)
  {
    var s, e := timers[id].link.slot, timers[id].expires;
    assert id in vec[s] && s != j % 256;
    if s >= 256 {
      var n := (s - 256) / 64 + 1;
      assert Settled(j, next, n);
      Ahead(e, j, n);
    }
  }

  lemma Ahead(e: nat, j: nat, n: nat)
    requires 1 <= n <= 4 && Stretch(e, n) >= Stretch(j, n) + 1
    ensures e > j
  {
  }

  lemma UpcomingNext(j: nat, next: seq<nat>, n: nat)
    requires |next| == 4 && 1 <= n <= 4 && Settled(j, next, n)
    ensures Upcoming(j + 1, next, n) && next[n - 1] == StretchFrom(j + 1, n)
  {
  }

  /** Everything pending is later than tick j and sits where it may at tick j + 1. */
  lemma NextIndex(j: nat)
    ensures (j % 256 + 1) % 256 == (j + 1) % 256
  {
  }

  lemma TickPlaces(timers: map<Id, Timer>, vec: seq<seq<Id>>, j: nat, j': nat, next: seq<nat>)
    requires j' == j + 1 && |next| == 4 && Linked(timers, vec) && AllPlaced(timers, j, next)
    requires forall n | 1 <= n <= 4 :: Settled(j, next, n)
    requires vec[j % 256] == []
    ensures AllPlaced(timers, j', next)
    ensures forall id | id in PendingOf(timers) :: PendingOf(timers)[id] > j
    ensures forall n | 1 <= n <= 4 :: next[n - 1] == StretchFrom(j', n)
    ensures forall n | 1 <= n <= 4 :: Upcoming(j', next, n)
  {
    forall id | id in timers && timers[id].link.Filed?
      ensures timers[id].expires > j && Placed(timers[id].link.slot, timers[id].expires, j', next)
    {
      NothingDue(timers, vec, j, next, id);
    }
    forall n | 1 <= n <= 4 ensures next[n - 1] == StretchFrom(j', n) && Upcoming(j', next, n) {
      UpcomingNext(j, next, n);
    }
  }

  /** A vector whose stretch does not begin at tick j has nothing to cascade. */
  lemma AlreadySettled(j: nat, next: seq<nat>, n: nat)
    requires |next| == 4 && 1 <= n <= 4 && !Begins(j, n)
    requires next[n - 1] == StretchFrom(j, n)
    ensures Settled(j, next, n)
  {
    BeginsHere(j, n);
  }

  /** After vector n cascaded, its index is 1 just when the stretch of vector n + 1 begins too. */
  lemma IndexOneMeansWrap(j: nat, n: nat)
    requires 1 <= n < 4 && Begins(j, n)
    ensures (Stretch(j, n) + 1) % 64 == 1 <==> Begins(j, n + 1)
  {
  }

  lemma {:induction false} CoarserToo(j: nat, n: nat, m: nat)
    requires 1 <= n <= m <= 4 && !Begins(j, n)
    ensures !Begins(j, m)
    decreases m - n
  {
    if n < m {
      FinerToo(j, n);
      CoarserToo(j, n + 1, m);
    }
  }

  /** A stretch of vector n + 1 begins where one of vector n does. */
  lemma FinerToo(j: nat, n: nat)
    requires 1 <= n < 4
    ensures Begins(j, n + 1) ==> Begins(j, n)
  {
    if Begins(j, n + 1) {
      match n
      case 1 => Finer1(j);
      case 2 => Finer2(j);
      case _ => Finer3(j);
    }
  }

  lemma Finer1(j: nat)
    requires j % 16384 == 0
    ensures j % 256 == 0
  {
    var q := j / 16384;
    assert j == 256 * (64 * q);
  }

  lemma Finer2(j: nat)
    requires j % 1048576 == 0
    ensures j % 16384 == 0
  {
    var q := j / 1048576;
    assert j == 16384 * (64 * q);
  }

  lemma Finer3(j: nat)
    requires j % 67108864 == 0
    ensures j % 1048576 == 0
  {
    var q := j / 67108864;
    assert j == 1048576 * (64 * q);
  }

  datatype Ptr = AtHead | AtEntry(id: Id)

  function FrontOf(l: seq<Id>): (p: Ptr) {
    if l == [] then AtHead else AtEntry(l[0])
  }

  predicate OpsKnown(ops: seq<Op>, ids: set<Id>) {
    forall op | op in ops :: op.id in ids
  }

  predicate ScriptKnown(script: seq<seq<Op>>, ids: set<Id>) {
    forall ops | ops in script :: OpsKnown(ops, ids)
  }

  lemma NoOps(q: Queue, clock: nat)
    ensures DoOps(q, clock, []) == q && OpsEvents(q, clock, []) == []
  {
  }

  class Wheel {
    var timers: map<Id, Timer>
    var vec: seq<seq<Id>>
    var index: seq<nat>
    var jiffies: nat
    ghost var next: seq<nat>
    ghost var history: seq<Event>

    /** The wheel is consistent; a timer may be on its way between lists. */
    ghost predicate Shape()
      reads this
    {
      && |index| == 5 && |next| == 4
      && index[0] == jiffies % 256
      && (forall n | 1 <= n <= 4 :: index[n] == next[n - 1] % 64 && Upcoming(jiffies, next, n))
      && Linked(timers, vec)
      && AllPlaced(timers, jiffies, next)
    }

    ghost predicate Valid()
      reads this
    {
      Shape() && Legal(history) && Replay(history) == Spec(Pending(), jiffies)
    }

    /** No vector has cascaded a stretch that begins at the current tick: the state between ticks. */
    ghost predicate Between()
      requires Shape()
      reads this
    {
      forall n | 1 <= n <= 4 :: next[n - 1] == StretchFrom(jiffies, n)
    }

    ghost function Pending(): (r: map<Id, nat>)
      reads this
    {
      PendingOf(timers)
    }

    ghost function State(): (q: Queue)
      reads this
    {
      QueueOf(timers)
    }

    /** init_timervecs, with the kernel's timers not queued. */
    constructor (ids: set<Id>)
      ensures Valid() && Between()
      ensures timers.Keys == ids && State() == Queue(map[], {}) && jiffies == 0 && history == []
    {
      timers := map id | id in ids :: Timer(0, Null);
      vec := seq(SLOTS, _ => []);
      index := [0, 0, 0, 0, 0];
      jiffies := 0;
      next := [0, 0, 0, 0];
      history := [];
    }

    /** internal_add_timer: choose the vector by distance.  Past expiries go to the current slot; an expiry
        beyond the horizon leaves the timer in no list. */
    method InternalAddTimer(id: Id)
      requires Shape() && id in timers && !timers[id].link.Filed?
      modifies this`timers, this`vec
      ensures Shape()
      ensures id in timers && timers == old(timers)[id := timers[id]] && timers[id].expires == old(timers)[id].expires
      ensures timers[id].link.Filed? <==> timers[id].expires <= jiffies + HORIZON
      ensures timers[id].link.Filed? ==>
        vec == old(vec)[timers[id].link.slot := Filing(old(vec)[timers[id].link.slot], id)]
      ensures forall n | 1 <= n <= 4 && jiffies <= timers[id].expires < jiffies + Unit(n) ::
        timers[id].link.Filed? && timers[id].link.slot < First(n)
      ensures old(timers)[id].link.Null? ==> State() == Enqueued(old(State()), jiffies, id, timers[id].expires)
    {
      var link := ChooseSlot(timers[id].expires, jiffies, index[0], next);
      QueueUpdate(timers, id, timers[id].(link := link));
      QueueHas(timers, id);
      if link.Filed? {
        FileKeeps(timers, vec, id, link.slot);
        vec := vec[link.slot := Filing(vec[link.slot], id)];
      }
      timers := timers[id := timers[id].(link := link)];
    }

    /** detach_timer; the stale link of the C code reads as not queued. */
    method DetachTimer(id: Id) returns (was: bool)
      requires Shape() && id in timers
      modifies this`timers, this`vec
      ensures Shape()
      ensures was <==> !old(timers)[id].link.Null?
      ensures timers == old(timers)[id := old(timers)[id].(link := Null)]
      ensures State() == Dropped(old(State()), id)
      ensures old(timers)[id].link.Filed? ==>
        vec == old(vec)[old(timers)[id].link.slot := Without(old(vec)[old(timers)[id].link.slot], id)]
      ensures !old(timers)[id].link.Filed? ==> vec == old(vec)
    {
      was := !timers[id].link.Null?;
      QueueUpdate(timers, id, timers[id].(link := Null));
      if timers[id].link.Filed? {
        DropKeeps(timers, vec, id, Null);
        var s := timers[id].link.slot;
        vec := vec[s := Without(vec[s], id)];
      }
      timers := timers[id := timers[id].(link := Null)];
    }

    /** Store the expiry of an unqueued timer and queue it. */
    method FileTimer(id: Id, expires: nat)
      requires Valid() && id in timers && timers[id].link.Null?
      modifies this`timers, this`vec, this`history
      ensures Valid() && timers.Keys == old(timers).Keys
      ensures State() == Enqueued(old(State()), jiffies, id, expires)
      ensures history == old(history) + FileEvents(jiffies, id, expires)
    {
      hide Linked, AllPlaced, Legal, Upcoming, QueueOf;
      QueueUpdate(timers, id, timers[id].(expires := expires));
      QueueHas(timers, id);
      ExpiryKeeps(timers, vec, jiffies, next, id, expires);
      timers := timers[id := timers[id].(expires := expires)];
      InternalAddTimer(id);
      PendingIs(timers);
      PendingIs(old(timers));
      if timers[id].link.Filed? {
        LegalSnoc(history, Armed(id, expires));
        history := history + [Armed(id, expires)];
      } else {
        assert history + [] == history;
      }
    }

    /** The caller stores the expiry and calls add_timer; a timer already queued is reported and left alone. */
    method AddTimer(id: Id, expires: nat) returns (ok: bool)
      requires Valid() && id in timers
      modifies this`timers, this`vec, this`history
      ensures Valid() && timers.Keys == old(timers).Keys
      ensures ok <==> old(timers)[id].link.Null?
      ensures !ok ==> timers == old(timers) && vec == old(vec)
      ensures ok && expires <= jiffies + HORIZON ==>
        Pending() == old(Pending())[id := expires] && history == old(history) + [Armed(id, expires)]
      ensures !ok || expires > jiffies + HORIZON ==> Pending() == old(Pending()) && history == old(history)
      ensures State() == DoOp(old(State()), jiffies, Add(id, expires))
      ensures history == old(history) + OpEvents(old(State()), jiffies, Add(id, expires))
    {
      QueueHas(timers, id);
      ok := timers[id].link.Null?;
      if ok {
        FileTimer(id, expires);
      } else {
        assert history + [] == history;
      }
    }

    method DelTimer(id: Id) returns (was: bool)
      requires Valid() && id in timers
      modifies this`timers, this`vec, this`history
      ensures Valid() && timers.Keys == old(timers).Keys
      ensures was <==> !old(timers)[id].link.Null?
      ensures Pending() == old(Pending()) - {id}
      ensures history == old(history) + if id in old(Pending()) then [Disarmed(id)] else []
      ensures timers[id].link.Null? && State() == DoOp(old(State()), jiffies, Del(id))
      ensures history == old(history) + OpEvents(old(State()), jiffies, Del(id))
    {
      QueueHas(timers, id);
      was := DetachTimer(id);
      if old(timers)[id].link.Filed? {
        LegalSnoc(history, Disarmed(id));
        history := history + [Disarmed(id)];
      } else {
        assert history + [] == history;
        assert Pending() == old(Pending());
      }
    }

    method ModTimer(id: Id, expires: nat) returns (was: bool)
      requires Valid() && id in timers
      modifies this`timers, this`vec, this`history
      ensures Valid() && timers.Keys == old(timers).Keys
      ensures was <==> !old(timers)[id].link.Null?
      ensures Pending() == if expires <= jiffies + HORIZON then old(Pending())[id := expires] else old(Pending()) - {id}
      ensures history ==
        old(history) + (if id in old(Pending()) then [Disarmed(id)] else [])
        + if expires <= jiffies + HORIZON then [Armed(id, expires)] else []
      ensures State() == DoOp(old(State()), jiffies, Mod(id, expires))
      ensures history == old(history) + OpEvents(old(State()), jiffies, Mod(id, expires))
    {
      ModEffect(State(), history, jiffies, id, expires);
      hide Valid, DoOp, OpEvents, Enqueued, Dropped, FileEvents, DropEvents;
      was := DelTimer(id);
      FileTimer(id, expires);
    }

    /** The loop body of cascade_timers: take the first timer of the slot and file it anew. */
    method RefileFront(slot: nat, n: nat)
      requires Shape() && 1 <= n <= 4 && slot == First(n) + index[n] && vec[slot] != []
      requires Begins(jiffies, n) && next[n - 1] == Stretch(jiffies, n)
      modifies this`timers, this`vec
      ensures Shape() && timers.Keys == old(timers).Keys
      ensures State() == old(State())
      ensures vec[slot] == old(vec)[slot][1..]
    {
      var id := vec[slot][0];
      assert id in vec[slot];
      assert timers[id].link == Filed(slot);
      CascadeMovesDown(slot, timers[id].expires, jiffies, next, n);
      QueueHas(timers, id);
      PutBack(Pending(), id, timers[id].expires);
      assert Without(vec[slot], id) == vec[slot][1..];
      var was := DetachTimer(id);
      InternalAddTimer(id);
      assert timers[id].link.slot != slot;
    }

    /** cascade_timers: refile every timer of the current slot of vector n.  None is lost and none comes back
        to the slot being emptied. */
    method CascadeTimers(n: nat)
      requires Shape() && 1 <= n <= 4
      requires Begins(jiffies, n) && next[n - 1] == Stretch(jiffies, n)
      modifies this`timers, this`vec, this`index, this`next
      ensures Shape() && timers.Keys == old(timers).Keys
      ensures State() == old(State())
      ensures next == old(next)[n - 1 := old(next)[n - 1] + 1]
      ensures vec[First(n) + old(index)[n]] == []
      ensures index == old(index)[n := (old(index)[n] + 1) % 64]
    {
      var slot := First(n) + index[n];
      var curr := FrontOf(vec[slot]);
      while curr.AtEntry?
        invariant Shape() && timers.Keys == old(timers).Keys
        invariant State() == old(State())
        invariant next == old(next) && index == old(index)
        invariant curr == FrontOf(vec[slot])
        decreases |vec[slot]|
      {
        var following := FrontOf(vec[slot][1..]);
        RefileFront(slot, n);
        curr := following;
      }
      AdvanceVector(n);
    }

    /** The end of cascade_timers: the emptied slot is reinitialised and the vector moves on. */
    method AdvanceVector(n: nat)
      requires Shape() && 1 <= n <= 4 && vec[First(n) + index[n]] == []
      requires Begins(jiffies, n) && next[n - 1] == Stretch(jiffies, n)
      modifies this`vec, this`index, this`next
      ensures Shape() && vec == old(vec)
      ensures next == old(next)[n - 1 := old(next)[n - 1] + 1]
      ensures index == old(index)[n := (old(index)[n] + 1) % 64]
    {
      var slot := First(n) + index[n];
      VectorAdvances(timers, vec, jiffies, next, n);
      vec := vec[slot := []];
      IndexFollows(next[n - 1]);
      next := next[n - 1 := next[n - 1] + 1];
      index := index[n := (index[n] + 1) % 64];
      BeginsHere(jiffies, n);
      forall m | 1 <= m <= 4 ensures index[m] == next[m - 1] % 64 && Upcoming(jiffies, next, m) {
        assert m != n ==> Upcoming(jiffies, old(next), m);
      }
    }

    /** The cascade at the start of a tick: vector after vector, as long as an index wraps. */
    method CascadeAll()
      requires Shape() && Between()
      modifies this`timers, this`vec, this`index, this`next
      ensures Shape() && timers.Keys == old(timers).Keys
      ensures State() == old(State())
      ensures forall n | 1 <= n <= 4 :: Settled(jiffies, next, n)
    {
      if index[0] != 0 {
        forall n | 1 <= n <= 4 ensures Settled(jiffies, next, n) {
          CoarserToo(jiffies, 1, n);
          AlreadySettled(jiffies, next, n);
        }
        return;
      }
      var n := 1;
      while true
        invariant 1 <= n <= 4 && Shape() && timers.Keys == old(timers).Keys
        invariant State() == old(State())
        invariant Begins(jiffies, n)
        invariant forall m | 1 <= m < n :: Settled(jiffies, next, m)
        invariant forall m | n <= m <= 4 :: next[m - 1] == StretchFrom(jiffies, m)
        decreases 5 - n
      {
        BeginsHere(jiffies, n);
        ghost var next0 := next;
        CascadeTimers(n);
        forall m | 1 <= m <= n ensures Settled(jiffies, next, m) {
          assert m < n ==> Settled(jiffies, next0, m);
        }
        if n == 4 {
          return;
        }
        IndexOneMeansWrap(jiffies, n);
        if index[n] != 1 {
          forall m | n < m <= 4 ensures Settled(jiffies, next, m) {
            CoarserToo(jiffies, n + 1, m);
            AlreadySettled(jiffies, next, m);
          }
          return;
        }
        n := n + 1;
      }
    }

    /** Take the first timer of the current slot off the wheel and run it. */
    method FireFront() returns (id: Id)
      requires Valid() && vec[index[0]] != []
      modifies this`timers, this`vec, this`history
      ensures Valid() && timers.Keys == old(timers).Keys
      ensures id in old(Pending()) && old(Pending())[id] <= jiffies
      ensures State() == Taken(old(State()), id)
      ensures vec[index[0]] == old(vec)[index[0]][1..]
      ensures history == old(history) + [Fired(id)]
    {
      id := vec[index[0]][0];
      assert id in vec[index[0]];
      assert timers[id].link == Filed(index[0]);
      QueueHas(timers, id);
      DueNow(index[0], timers[id].expires, jiffies, next);
      LegalSnoc(history, Fired(id));
      assert Without(vec[index[0]], id) == vec[index[0]][1..];
      var was := DetachTimer(id);
      history := history + [Fired(id)];
    }

    method RunOp(op: Op)
      requires Valid() && op.id in timers
      modifies this`timers, this`vec, this`history
      ensures Valid() && timers.Keys == old(timers).Keys
      ensures State() == DoOp(old(State()), jiffies, op)
      ensures history == old(history) + OpEvents(old(State()), jiffies, op)
    {
      match op {
        case Add(id, expires) => var ok := AddTimer(id, expires);
        case Mod(id, expires) => var was := ModTimer(id, expires);
        case Del(id) => var was := DelTimer(id);
      }
    }

    /** Calls into the timer code by others. */
    method RunOps(ops: seq<Op>)
      requires Valid() && OpsKnown(ops, timers.Keys)
      modifies this`timers, this`vec, this`history
      ensures Valid() && timers.Keys == old(timers).Keys
      ensures State() == DoOps(old(State()), jiffies, ops)
      ensures history == old(history) + OpsEvents(old(State()), jiffies, ops)
      ensures ops == [] ==> vec == old(vec)
    {
      hide Valid, DoOp, OpEvents;
      assert ops[..0] == [] && history + [] == history;
      for k := 0 to |ops|
        invariant Valid() && timers.Keys == old(timers).Keys
        invariant State() == DoOps(old(State()), jiffies, ops[..k])
        invariant history == old(history) + OpsEvents(old(State()), jiffies, ops[..k])
        invariant k == 0 ==> vec == old(vec)
      {
        assert ops[k] in ops;
        assert ops[..k + 1][..k] == ops[..k];
        RunOp(ops[k]);
        Assoc(old(history), OpsEvents(old(State()), jiffies, ops[..k]), OpEvents(DoOps(old(State()), jiffies, ops[..k]), jiffies, ops[k]));
      }
      assert ops[..|ops|] == ops;
    }

    /** The reference scheduler's view of the wheel. */
    ghost function View(script: seq<seq<Op>>): (s: Sched)
      reads this
    {
      Sched(State(), jiffies, script)
    }

    /** One round of the `repeat` loop: run the first timer of the slot.  timerlock is free while its callback
        runs; script[0] is what happens to the wheel meanwhile. */
    method RunFront(script: seq<seq<Op>>) returns (rest: seq<seq<Op>>, ghost a: Act)
      requires Valid() && ScriptKnown(script, timers.Keys) && vec[index[0]] != []
      modifies this`timers, this`vec, this`history
      ensures Valid() && timers.Keys == old(timers).Keys && ScriptKnown(rest, timers.Keys)
      ensures a.Run? && Can(old(View(script)), a) && View(rest) == Acted(old(View(script)), a)
      ensures history == old(history) + ActEvents(old(View(script)), a)
      ensures a.id in old(Pending()) && old(Pending())[a.id] <= jiffies
      ensures script == [] ==> Pending() == old(Pending()) - {a.id} && history == old(history) + [Fired(a.id)]
      ensures script != [] ==>
        && rest == script[1..] && State() == DoOps(Taken(old(State()), a.id), jiffies, script[0])
        && history == old(history) + [Fired(a.id)] + OpsEvents(Taken(old(State()), a.id), jiffies, script[0])
      ensures if script == [] then rest == [] && vec[index[0]] == old(vec)[index[0]][1..] else |rest| < |script|
    {
      hide Valid, DoOps, OpsEvents;
      var id := FireFront();
      a := Run(id);
      ghost var ops := Callback(View(script));
      if script != [] {
        assert script[0] in script;
        RunOps(script[0]);
        rest := script[1..];
      } else {
        rest := [];
        NoOps(State(), jiffies);
        assert history + [] == history;
      }
      Assoc(old(history), [Fired(id)], OpsEvents(Taken(old(State()), id), jiffies, ops));
    }

    /** The `repeat` loop of run_timer_list: run timers of the current slot until it is empty. */
    method RunSlot(script: seq<seq<Op>>) returns (rest: seq<seq<Op>>, ghost acts: seq<Act>)
      requires Valid() && ScriptKnown(script, timers.Keys)
      modifies this`timers, this`vec, this`history
      ensures Valid() && timers.Keys == old(timers).Keys && ScriptKnown(rest, timers.Keys)
      ensures vec[index[0]] == []
      ensures Scheduled(old(View(script)), old(history), acts, View(rest), history)
      ensures forall a | a in acts :: a.Run?
    {
      hide Scheduled, Can, Acted, ActEvents, ScriptKnown, Legal, Replay, Linked, AllPlaced, Upcoming;
      assert |vec| == SLOTS by { LinkedSlots(timers, vec); }
      rest, acts := script, [];
      ScheduledNothing(View(script), history);
      while vec[index[0]] != []
        invariant Valid() && |vec| == SLOTS && timers.Keys == old(timers).Keys && ScriptKnown(rest, timers.Keys)
        invariant Scheduled(old(View(script)), old(history), acts, View(rest), history)
        invariant forall a | a in acts :: a.Run?
        decreases |rest|, |vec[index[0]]|
      {
        ghost var v1, h1 := View(rest), history;
        ghost var a;
        rest, a := RunFront(rest);
        LinkedSlots(timers, vec);
        ScheduledMore(old(View(script)), old(history), acts, v1, h1, a, View(rest), history);
        acts := acts + [a];
      }
    }

    /** The end of a tick. */
    method EndTick(ghost script: seq<seq<Op>>)
      requires Valid() && vec[index[0]] == [] && forall n | 1 <= n <= 4 :: Settled(jiffies, next, n)
      modifies this`jiffies, this`index, this`history
      ensures Valid() && Between()
      ensures jiffies == old(jiffies) + 1 && history == old(history) + [Tick]
      ensures Can(old(View(script)), Pass) && View(script) == Acted(old(View(script)), Pass)
    {
      hide Linked, AllPlaced, Legal, Settled, Upcoming, StretchFrom, Replay;
      TickPlaces(timers, vec, jiffies, jiffies + 1, next);
      LegalSnoc(history, Tick);
      NextIndex(jiffies);
      history := history + [Tick];
      jiffies := jiffies + 1;
      index := index[0 := (index[0] + 1) % 256];
    }

    /** One tick of run_timer_list. */
    method RunTick(script: seq<seq<Op>>) returns (rest: seq<seq<Op>>, ghost acts: seq<Act>)
      requires Valid() && Between() && ScriptKnown(script, timers.Keys)
      modifies this
      ensures Valid() && Between() && timers.Keys == old(timers).Keys && ScriptKnown(rest, timers.Keys)
      ensures jiffies == old(jiffies) + 1
      ensures Scheduled(old(View(script)), old(history), acts, View(rest), history)
      ensures acts != [] && acts[|acts| - 1] == Pass
    {
      CascadeAll();
      hide Scheduled, ScriptKnown, Can, Acted, Legal, Replay;
      rest, acts := RunSlot(script);
      ghost var v1, h1 := View(rest), history;
      EndTick(rest);
      TickScheduled(old(View(script)), old(history), acts, v1, h1, View(rest), history);
      acts := acts + [Pass];
    }

    /** run_timer_list: process every tick up to now.  Whatever callbacks and other processors do to the wheel
        meanwhile, it does what the reference scheduler does: at each tick it runs timers that are due until none
        is left, each followed by what its callback does, and the history grows by exactly these events.  If
        callbacks do nothing, the timers that run are exactly those with an expiry up to now. */
    method RunTimerList(now: nat, script: seq<seq<Op>>) returns (ghost acts: seq<Act>, ghost rest: seq<seq<Op>>)
      requires Valid() && Between()
      requires ScriptKnown(script, timers.Keys)
      modifies this
      ensures Valid() && Between() && timers.Keys == old(timers).Keys
      ensures jiffies == if now >= old(jiffies) then now + 1 else old(jiffies)
      ensures Scheduled(old(View(script)), old(history), acts, View(rest), history)
      ensures script == [] && now >= old(jiffies) ==>
        Pending() == map id | id in old(Pending()) && old(Pending())[id] > now :: old(Pending())[id]
      ensures now < old(jiffies) ==> State() == old(State()) && acts == []
    {
      hide Scheduled, ScriptKnown, Legal, Replay, Shape;
      var left: seq<seq<Op>> := script;
      acts := [];
      ScheduledNothing(View(script), history);
      while now >= jiffies
        invariant Valid() && Between() && timers.Keys == old(timers).Keys && ScriptKnown(left, timers.Keys)
        invariant old(jiffies) <= jiffies
        invariant jiffies <= now + 1 || jiffies == old(jiffies)
        invariant Scheduled(old(View(script)), old(history), acts, View(left), history)
        invariant jiffies == old(jiffies) ==> acts == [] && State() == old(State())
        invariant jiffies > old(jiffies) ==> acts != [] && acts[|acts| - 1] == Pass
        decreases now + 1 - jiffies
      {
        ghost var v1, h1 := View(left), history;
        ghost var more;
        left, more := RunTick(left);
        ScheduledAll(old(View(script)), old(history), acts, v1, h1, more, View(left), history);
        acts := acts + more;
      }
      rest := left;
      if script == [] {
        QuietRun(old(View(script)), old(history), acts, View(rest), history);
      }
    }
  }
}
