/** uvm_copy of kern/vm.c: the address space of a forked process.

A state of the machine is compared with the state s0 at the call.  While the copy is at page n, the parent and
every other address space are as they were, the child has the pages below n, and no other page.
*/
module Fork {
  import opened Common
  import opened PageTable
  import opened Vm

  datatype Snap = Snap(mem: Mem, roots: set<nat>, free: seq<nat>, refs: map<nat, int>)

  ghost function Now(k: Machine): (s: Snap)
    reads k
  {
    Snap(k.mem, k.roots, k.free, k.refs)
  }

  // ---------------------------------------------------------------- the regions of the parent

  /** One mapping made by mmap; mapShared is its MAP_SHARED flag. */
  datatype Region = Region(addr: nat, length: nat, mapShared: bool) {
    predicate Holds(va: nat) {
      addr <= va < addr + length
    }
  }

  /** Region i is the first of the list that holds va. */
  predicate FirstHolding(regions: seq<Region>, i: nat, va: nat) {
    i < |regions| && regions[i].Holds(va) && forall j | 0 <= j < i :: !regions[j].Holds(va)
  }

  /** The first region that holds va is MAP_SHARED. */
  ghost predicate SharedAt(regions: seq<Region>, va: nat) {
    exists i: nat :: FirstHolding(regions, i, va) && regions[i].mapShared
  }

  ghost function SharedPages(regions: seq<Region>): (r: set<nat>) {
    set v: nat | v < Width(4) && SharedAt(regions, v * 4096)
  }

  /** find_mmap_region, down to the flag uvm_copy asks for. */
  method FindShared(regions: seq<Region>, va: nat) returns (r: bool)
    ensures r <==> SharedAt(regions, va)
  {
    var i := 0;
    while i < |regions|
      invariant 0 <= i <= |regions|
      invariant forall j | 0 <= j < i :: !regions[j].Holds(va)
    {
      if regions[i].Holds(va) {
        assert FirstHolding(regions, i, va);
        return regions[i].mapShared;
      }
      i := i + 1;
    }
    return false;
  }

  // ---------------------------------------------------------------- the specification

  /** Address spaces that were there at s0 keep their entries and their data. */
  ghost predicate OthersKept(s0: Snap, s: Snap) {
    && (forall r, v | r in s0.roots && 0 <= v < Width(4) :: Entry(s.mem, r, 4, v) == Entry(s0.mem, r, 4, v))
    && (forall f: nat | IsData(s0.mem, s0.roots, s0.free, f) ::
          IsData(s.mem, s.roots, s.free, f) && s.mem[f] == s0.mem[f])
  }

  /** Page v of the child is what it must be: absent if the parent has none; the parent's frame if shared; else a
      frame that was free, holding what the parent's page held. */
  ghost predicate PageCopied(s0: Snap, m: Mem, par: nat, kid: nat, shared: set<nat>, v: nat) {
    var e0, e := Entry(s0.mem, par, 4, v), Entry(m, kid, 4, v);
    if !PteValid(e0) then e == 0
    else
      && e == MakePte(PteFrame(e), PTE_UDATA)
      && (v in shared ==> PteFrame(e) == PteFrame(e0))
      && (v !in shared ==> PteFrame(e) in s0.free)
      && PteFrame(e) in m && PteFrame(e0) in s0.mem && m[PteFrame(e)] == s0.mem[PteFrame(e0)]
  }

  /** Page v has a frame of its own in the child. */
  ghost predicate Private(s0: Snap, par: nat, shared: set<nat>, v: nat) {
    v !in shared && PteValid(Entry(s0.mem, par, 4, v))
  }

  /** How many of the pages below n the child shares with the parent in frame f. */
  ghost function Sharers(s0: Snap, par: nat, shared: set<nat>, n: nat, f: nat): (c: nat) {
    if n == 0 then 0
    else
      var e := Entry(s0.mem, par, 4, n - 1);
      Sharers(s0, par, shared, n - 1, f) + if n - 1 in shared && PteValid(e) && PteFrame(e) == f then 1 else 0
  }

  /** It is the number of those pages. */
  lemma {:induction false} SharersCount(s0: Snap, par: nat, shared: set<nat>, n: nat, f: nat)
    ensures Sharers(s0, par, shared, n, f) == |SharingPages(s0, par, shared, n, f)|
  {
    hide Entry, PteValid, PteFrame;
    if n > 0 {
      SharersCount(s0, par, shared, n - 1, f);
      OneMoreSharer(s0, par, shared, n - 1, f);
    }
  }

  lemma OneMoreSharer(s0: Snap, par: nat, shared: set<nat>, n: nat, f: nat)
    ensures |SharingPages(s0, par, shared, n + 1, f)|
      == |SharingPages(s0, par, shared, n, f)| + if Shares(s0, par, shared, n, f) then 1 else 0
  {
    hide Shares;
    var a, b := SharingPages(s0, par, shared, n, f), SharingPages(s0, par, shared, n + 1, f);
    if Shares(s0, par, shared, n, f) {
      assert b == a + {n};
    } else {
      assert b == a;
    }
  }

  ghost predicate Shares(s0: Snap, par: nat, shared: set<nat>, v: nat, f: nat) {
    v in shared && PteValid(Entry(s0.mem, par, 4, v)) && PteFrame(Entry(s0.mem, par, 4, v)) == f
  }

  ghost function SharingPages(s0: Snap, par: nat, shared: set<nat>, n: nat, f: nat): (r: set<nat>) {
    set v: nat | v < n && Shares(s0, par, shared, v, f)
  }

  /** The child has the pages below n. */
  ghost predicate CopyCore(s0: Snap, s: Snap, par: nat, kid: nat, shared: set<nat>, n: nat) {
    && par in s0.roots && kid !in s0.roots && s.roots == s0.roots + {kid}
    && Space(s.mem, s.roots, s.free) && Shrinks(s0.free, s.free) && OthersKept(s0, s)
    && (forall v | 0 <= v < Width(4) ::
          if v < n then PageCopied(s0, s.mem, par, kid, shared, v) else Entry(s.mem, kid, 4, v) == 0)
    && (forall v, v' | 0 <= v < v' < n && v' < Width(4) && Private(s0, par, shared, v) && Private(s0, par, shared, v') ::
          PteFrame(Entry(s.mem, kid, 4, v)) != PteFrame(Entry(s.mem, kid, 4, v')))
  }

  /** A frame has one more reference for each page shared in it. */
  ghost predicate CopyRefs(s0: Snap, s: Snap, par: nat, shared: set<nat>, n: nat) {
    forall f: nat | f !in s0.free :: Ref(s.refs, f) == Ref(s0.refs, f) + Sharers(s0, par, shared, n, f)
  }

  ghost predicate CopyState(s0: Snap, s: Snap, par: nat, kid: nat, shared: set<nat>, n: nat) {
    CopyCore(s0, s, par, kid, shared, n) && CopyRefs(s0, s, par, shared, n)
  }

  /** uvm_copy asserts that leaf entries have some bit of PTE_NORMAL set. */
  predicate HasNormal(e: nat) {
    e / 4 % 2 == 1 || e / 256 % 8 != 0
  }

  ghost predicate NormalLeaves(m: Mem, par: nat) {
    forall v | 0 <= v < Width(4) && PteValid(Entry(m, par, 4, v)) :: HasNormal(Entry(m, par, 4, v))
  }

  // ---------------------------------------------------------------- steps of the copy

  /** None of the pages copied so far has frame f for its own. */
  ghost predicate Unused(s0: Snap, m: Mem, par: nat, kid: nat, shared: set<nat>, n: nat, f: nat) {
    forall v | 0 <= v < n && v < Width(4) && Private(s0, par, shared, v) :: PteFrame(Entry(m, kid, 4, v)) != f
  }

  /** Frame f has been prepared for page n. */
  ghost predicate CopyReady(s0: Snap, s: Snap, par: nat, kid: nat, shared: set<nat>, n: nat, f: nat) {
    && CopyCore(s0, s, par, kid, shared, n) && CopyRefs(s0, s, par, shared, n + 1)
    && n < Width(4) && PteValid(Entry(s0.mem, par, 4, n))
    && f < FRAMES && IsData(s.mem, s.roots, s.free, f)
    && (n in shared ==> f == PteFrame(Entry(s0.mem, par, 4, n)))
    && (n !in shared ==> f in s0.free && Unused(s0, s.mem, par, kid, shared, n, f))
    && PteFrame(Entry(s0.mem, par, 4, n)) in s0.mem && s.mem[f] == s0.mem[PteFrame(Entry(s0.mem, par, 4, n))]
  }

  /** A shared page takes the parent's frame and one reference. */
  lemma ReadyShared(s0: Snap, s: Snap, par: nat, kid: nat, shared: set<nat>, n: nat, f: nat)
    requires Space(s0.mem, s0.roots, s0.free) && CopyState(s0, s, par, kid, shared, n)
    requires n < Width(4) && n in shared && PteValid(Entry(s.mem, par, 4, n)) && f == PteFrame(Entry(s.mem, par, 4, n))
    ensures CopyReady(s0, s.(refs := s.refs[f := Ref(s.refs, f) + 1]), par, kid, shared, n, f)
  {
    hide Entry, Table, IsTable, Forest, Width;
    assert IsData(s0.mem, s0.roots, s0.free, f);
  }

  /** A private page takes a free frame and a copy of the parent's page. */
  lemma ReadyPrivate(s0: Snap, s: Snap, par: nat, kid: nat, shared: set<nat>, n: nat, g: nat)
    requires Space(s0.mem, s0.roots, s0.free) && CopyState(s0, s, par, kid, shared, n) && s.free != []
    requires n < Width(4) && n !in shared && PteValid(Entry(s.mem, par, 4, n)) && g == PteFrame(Entry(s.mem, par, 4, n))
    ensures g in s.mem
    ensures var f := s.free[0];
      && CopyReady(s0, Snap(s.mem[f := s.mem[g]], s.roots, s.free[1..], s.refs[f := 1]), par, kid, shared, n, f)
      && TablesKept(s.mem, s.mem[f := s.mem[g]], s.roots)
  {
    hide Entry, Table, IsTable, Forest, Width;
    assert IsData(s0.mem, s0.roots, s0.free, g);
    var f := s.free[0];
    var s' := Snap(s.mem[f := s.mem[g]], s.roots, s.free[1..], s.refs[f := 1]);
    TakeSpace(s.mem, s.roots, s.free, s.mem[g]);
    PrivateCore(s0, s, s', par, kid, shared, n, f);
    assert f in s.free;
  }

  /** Taking a free frame for data keeps what has been copied, and no page of the child uses it yet. */
  lemma PrivateCore(s0: Snap, s: Snap, s': Snap, par: nat, kid: nat, shared: set<nat>, n: nat, f: nat)
    requires CopyCore(s0, s, par, kid, shared, n) && s.free != [] && f == s.free[0] && s'.roots == s.roots
    requires s'.free == s.free[1..] && Space(s'.mem, s'.roots, s'.free) && SameLeaves(s.mem, s'.mem, s.roots)
    requires SameData(s.mem, s.free, s'.mem, s'.free, s.roots)
    ensures CopyCore(s0, s', par, kid, shared, n)
    ensures f < FRAMES && Unused(s0, s'.mem, par, kid, shared, n, f)
  {
    hide Entry, Table, IsTable, Forest, Width, Space, PageCopied, PteFrame, IsData, PteValid;
    KidData(s0, s, par, kid, shared, n);
    HeadFree(s.mem, s.roots, s.free);
    forall v | 0 <= v < n && v < Width(4) ensures PageCopied(s0, s'.mem, par, kid, shared, v)
      && (Private(s0, par, shared, v) ==> PteFrame(Entry(s'.mem, kid, 4, v)) != f)
    {
      PageStays(s0, s, s', par, kid, shared, v);
      PrivateValid(s0, s.mem, par, kid, shared, v);
    }
  }

  lemma PrivateValid(s0: Snap, m: Mem, par: nat, kid: nat, shared: set<nat>, v: nat)
    requires PageCopied(s0, m, par, kid, shared, v)
    ensures Private(s0, par, shared, v) ==> PteValid(Entry(m, kid, 4, v))
  {
    hide Entry;
    if PteValid(Entry(s0.mem, par, 4, v)) {
      MakePteIs(PteFrame(Entry(m, kid, 4, v)), PTE_UDATA);
    }
  }

  lemma HeadFree(m: Mem, roots: set<nat>, free: seq<nat>)
    requires Space(m, roots, free) && free != []
    ensures free[0] < FRAMES && forall f | IsData(m, roots, free, f) :: f != free[0]
  {
    hide Forest, Entry, IsTable;
  }

  lemma ReadyFacts(s0: Snap, s: Snap, par: nat, kid: nat, shared: set<nat>, n: nat, f: nat)
    requires CopyReady(s0, s, par, kid, shared, n, f)
    ensures Space(s.mem, s.roots, s.free) && kid in s.roots && DataFrames(s.mem, s.roots, s.free, f, 1)
    ensures n < Width(4) && f < FRAMES && Entry(s.mem, kid, 4, n) == 0
  {
    hide Entry, Space, OthersKept, IsData;
  }

  lemma TablesKeptSelf(m: Mem, roots: set<nat>)
    ensures TablesKept(m, m, roots)
  {
  }

  lemma TablesKeptTrans(m0: Mem, m1: Mem, m2: Mem, roots: set<nat>)
    requires TablesKept(m0, m1, roots) && TablesKept(m1, m2, roots)
    ensures TablesKept(m0, m2, roots)
  {
    hide Table;
  }

  /** Mapping pages of the child, as far as that gets, does nothing to the others. */
  lemma OthersStay(s0: Snap, s1: Snap, s2: Snap, par: nat, kid: nat, shared: set<nat>, n: nat, f: nat, d: nat)
    requires CopyReady(s0, s1, par, kid, shared, n, f) && s2.roots == s1.roots
    requires MapState(s1.mem, s1.free, s2.mem, s2.free, s1.roots, kid, n, d, f)
    ensures OthersKept(s0, s2) && TablesKept(s1.mem, s2.mem, s1.roots)
  {
    hide Entry, Table, IsData, CopyRefs, Space, PageCopied;
  }

  lemma CopyOthers(s0: Snap, s: Snap, par: nat, kid: nat, shared: set<nat>, n: nat)
    requires CopyState(s0, s, par, kid, shared, n)
    ensures OthersKept(s0, s) && TablesKept(s.mem, s.mem, s.roots)
  {
  }

  /** Mapping the prepared frame completes page n. */
  lemma CopyMapped(s0: Snap, s1: Snap, s2: Snap, par: nat, kid: nat, shared: set<nat>, n: nat, f: nat)
    requires CopyReady(s0, s1, par, kid, shared, n, f) && s2.roots == s1.roots
    requires MapState(s1.mem, s1.free, s2.mem, s2.free, s1.roots, kid, n, 1, f) && RefsKept(s1.refs, s2.refs, s1.free)
    ensures CopyState(s0, s2, par, kid, shared, n + 1)
  {
    hide Entry, Table, IsTable, Forest, Width, Space, MakePte;
    hide TablesKept, CopyRefs, PteValid, IsData, PageCopied, PteFrame;
    RefsMapped(s0, s1, s2, par, shared, n + 1);
    MapEntries(s1.mem, s2.mem, s1.roots, kid, n, f);
    KidData(s0, s1, par, kid, shared, n);
    MakePteIs(f, PTE_UDATA);
    forall v | 0 <= v < Width(4)
      ensures if v < n + 1 then PageCopied(s0, s2.mem, par, kid, shared, v) else Entry(s2.mem, kid, 4, v) == 0
    {
      if v < n {
        PageStays(s0, s1, s2, par, kid, shared, v);
      } else if v == n {
        PageDone(s0, s1, s2, par, kid, shared, n, f);
      }
    }
  }

  lemma MapEntries(m1: Mem, m2: Mem, roots: set<nat>, kid: nat, n: nat, f: nat)
    requires Remapped(m1, m2, roots, kid, n, 1, f) && kid in roots && n < Width(4)
    ensures f < FRAMES && Entry(m2, kid, 4, n) == MakePte(f, PTE_UDATA)
    ensures forall r, v | r in roots && 0 <= v < Width(4) && (r, v) != (kid, n) :: Entry(m2, r, 4, v) == Entry(m1, r, 4, v)
  {
    hide Entry, MakePte, Width;
  }

  /** A page copied earlier. */
  lemma PageStays(s0: Snap, s1: Snap, s2: Snap, par: nat, kid: nat, shared: set<nat>, v: nat)
    requires PageCopied(s0, s1.mem, par, kid, shared, v) && Entry(s2.mem, kid, 4, v) == Entry(s1.mem, kid, 4, v)
    requires PteValid(Entry(s1.mem, kid, 4, v)) ==> IsData(s1.mem, s1.roots, s1.free, PteFrame(Entry(s1.mem, kid, 4, v)))
    requires SameData(s1.mem, s1.free, s2.mem, s2.free, s1.roots)
    ensures PageCopied(s0, s2.mem, par, kid, shared, v)
  {
    hide Entry, IsTable;
    if PteValid(Entry(s0.mem, par, 4, v)) {
      MakePteIs(PteFrame(Entry(s1.mem, kid, 4, v)), PTE_UDATA);
    }
  }

  /** The page just mapped. */
  lemma PageDone(s0: Snap, s1: Snap, s2: Snap, par: nat, kid: nat, shared: set<nat>, n: nat, f: nat)
    requires CopyReady(s0, s1, par, kid, shared, n, f) && Entry(s2.mem, kid, 4, n) == MakePte(f, PTE_UDATA)
    requires SameData(s1.mem, s1.free, s2.mem, s2.free, s1.roots)
    ensures PageCopied(s0, s2.mem, par, kid, shared, n)
  {
    hide Entry, IsTable, CopyCore, CopyRefs;
    MakePteIs(f, PTE_UDATA);
  }

  lemma RefsMapped(s0: Snap, s1: Snap, s2: Snap, par: nat, shared: set<nat>, n: nat)
    requires CopyRefs(s0, s1, par, shared, n) && RefsKept(s1.refs, s2.refs, s1.free) && Shrinks(s0.free, s1.free)
    ensures CopyRefs(s0, s2, par, shared, n)
  {
  }

  /** The child's pages so far are data. */
  lemma KidData(s0: Snap, s: Snap, par: nat, kid: nat, shared: set<nat>, n: nat)
    requires CopyCore(s0, s, par, kid, shared, n)
    ensures forall v | 0 <= v < Width(4) && PteValid(Entry(s.mem, kid, 4, v)) ::
      IsData(s.mem, s.roots, s.free, PteFrame(Entry(s.mem, kid, 4, v)))
  {
    hide Entry, Table, IsTable, Forest, Width;
  }

  /** Pages the parent does not have need no copying. */
  lemma CopySkip(s0: Snap, s: Snap, par: nat, kid: nat, shared: set<nat>, n: nat, n': nat)
    requires CopyState(s0, s, par, kid, shared, n) && n <= n' <= Width(4)
    requires forall v | n <= v < n' :: !PteValid(Entry(s.mem, par, 4, v))
    ensures CopyState(s0, s, par, kid, shared, n')
  {
    hide Entry, Table, IsTable, Forest, Width, Space;
    forall f: nat ensures Sharers(s0, par, shared, n', f) == Sharers(s0, par, shared, n, f) {
      SharersSkip(s0, par, shared, n, n', f);
    }
  }

  lemma {:induction false} SharersSkip(s0: Snap, par: nat, shared: set<nat>, n: nat, n': nat, f: nat)
    requires n <= n' && forall v | n <= v < n' :: !PteValid(Entry(s0.mem, par, 4, v))
    ensures Sharers(s0, par, shared, n', f) == Sharers(s0, par, shared, n, f)
    decreases n'
  {
    hide Entry;
    if n < n' {
      SharersSkip(s0, par, shared, n, n' - 1, f);
    }
  }

  // ---------------------------------------------------------------- the loops

  /** The first page below the entry at a level and path. */
  function FirstPage(level: nat, path: nat): (v: nat)
    requires level <= 4
  {
    match level
    case 0 => path * 0x10_0000_0000
    case 1 => path * 0x800_0000
    case 2 => path * 0x4_0000
    case 3 => path * 512
    case _ => path
  }

  lemma FirstPages(level: nat, path: nat, i: nat)
    requires level <= 3 && path < Width(level) && i <= 512
    ensures FirstPage(level + 1, path * 512 + i) <= Width(4)
    ensures i < 512 ==> FirstPage(level + 1, path * 512 + i) < FirstPage(level + 1, path * 512 + i + 1) <= Width(4)
    ensures i == 0 ==> FirstPage(level + 1, path * 512 + i) == FirstPage(level, path)
    ensures i == 512 ==> FirstPage(level + 1, path * 512 + i) == FirstPage(level, path + 1)
    ensures i < 512 ==> path * 512 + i < Width(level + 1)
  {
  }

  /** Below an invalid entry there is no page. */
  lemma NothingBelow(m: Mem, r: nat, level: nat, path: nat, v: nat)
    requires 1 <= level <= 4 && path < Width(level) && !PteValid(Entry(m, r, level, path))
    requires FirstPage(level, path) <= v < FirstPage(level, path + 1) && v < Width(4)
    ensures !PteValid(Entry(m, r, 4, v))
  {
    hide Entry;
    assert PathOf(v, level) == path;
    if level < 4 {
      MissingEntry(m, r, v, level - 1);
    }
  }

  /** What the loops read: entry i of the parent's table at a level and path. */
  lemma EntryRead(s0: Snap, s: Snap, par: nat, kid: nat, shared: set<nat>, n: nat, level: nat, path: nat, i: nat)
    requires CopyState(s0, s, par, kid, shared, n) && level <= 3 && path < Width(level) && i < 512
    requires Table(s.mem, par, level, path).Some?
    ensures Table(s.mem, par, level, path).value in s.mem
    ensures Entry(s.mem, par, level + 1, path * 512 + i) == s.mem[Table(s.mem, par, level, path).value][i]
    ensures level < 3 && PteValid(Entry(s.mem, par, level + 1, path * 512 + i)) ==>
      Table(s.mem, par, level + 1, path * 512 + i) == Some(PteFrame(Entry(s.mem, par, level + 1, path * 512 + i)))
  {
    hide CopyRefs, OthersKept, PageCopied, IsTable;
    assert PathOk(level, path);
    assert (path * 512 + i) / ENTRIES == path && (path * 512 + i) % ENTRIES == i;
  }

  /** The copy begins with an empty child. */
  lemma CopyStart(s0: Snap, par: nat, shared: set<nat>)
    requires Space(s0.mem, s0.roots, s0.free) && s0.free != [] && par in s0.roots
    ensures var f := s0.free[0];
      CopyState(s0, Snap(s0.mem[f := ZeroPage()], s0.roots + {f}, s0.free[1..], s0.refs[f := 1]), par, f, shared, 0)
  {
    RootSpace(s0.mem, s0.roots, s0.free);
    hide Space, Entry, Table, IsTable, Width;
  }

  /** The child is complete: every address space that was there keeps its entries and data, the child's pages are
      the parent's, its private pages lie in frames of their own, and each shared frame has one more reference
      for each page that shares it. */
  ghost predicate Forked(s0: Snap, s: Snap, par: nat, kid: nat, shared: set<nat>) {
    CopyState(s0, s, par, kid, shared, Width(4))
  }

  /** What a process sees at page v. */
  ghost function View(m: Mem, r: nat, v: nat): (p: Option<Page>) {
    var e := Entry(m, r, 4, v);
    if PteValid(e) && PteFrame(e) in m then Some(m[PteFrame(e)]) else None
  }

  /** After a fork, child and parent both see what the parent saw. */
  lemma ForkedView(s0: Snap, s: Snap, par: nat, kid: nat, shared: set<nat>, v: nat)
    requires Space(s0.mem, s0.roots, s0.free) && Forked(s0, s, par, kid, shared) && v < Width(4)
    ensures View(s.mem, kid, v) == View(s0.mem, par, v) == View(s.mem, par, v)
  {
    hide Entry, Table, IsTable, Forest, CopyRefs;
    var e0, e := Entry(s0.mem, par, 4, v), Entry(s.mem, kid, 4, v);
    assert PageCopied(s0, s.mem, par, kid, shared, v);
    if PteValid(e0) {
      MakePteIs(PteFrame(e), PTE_UDATA);
      assert IsData(s0.mem, s0.roots, s0.free, PteFrame(e0));
    }
  }

  /** After a fork, the frame of a private page of the child is reached from no other page of any process. */
  lemma ForkedApart(s0: Snap, s: Snap, par: nat, kid: nat, shared: set<nat>, v: nat, r: nat, u: nat)
    requires Space(s0.mem, s0.roots, s0.free) && Forked(s0, s, par, kid, shared)
    requires v < Width(4) && Private(s0, par, shared, v)
    requires r in s.roots && u < Width(4) && (r, u) != (kid, v) && PteValid(Entry(s.mem, r, 4, u))
    ensures PteFrame(Entry(s.mem, r, 4, u)) != PteFrame(Entry(s.mem, kid, 4, v))
  {
    hide Entry, Table, IsTable, Forest, CopyRefs;
    assert PageCopied(s0, s.mem, par, kid, shared, v);
    assert PteFrame(Entry(s.mem, kid, 4, v)) in s0.free;
    if r == kid {
      assert PageCopied(s0, s.mem, par, kid, shared, u);
      assert u in shared ==> IsData(s0.mem, s0.roots, s0.free, PteFrame(Entry(s0.mem, par, 4, u)));
    } else {
      assert IsData(s0.mem, s0.roots, s0.free, PteFrame(Entry(s0.mem, r, 4, u)));
    }
  }

  /** A call of uvm_map for one page. */
  lemma OnePage(v: nat, f: nat)
    requires v < Width(4) && f < FRAMES
    ensures PagesIn(v * 4096, 4096) == 1 && v * 4096 / 4096 == v && f * 4096 / 4096 == f
    ensures v * 4096 + 4096 <= USERTOP && f * 4096 < USERTOP
  {
  }

  /** vm_init: an empty page directory. */
  method VmInit(k: Machine) returns (r: Option<nat>)
    requires k.Valid()
    modifies k
    ensures k.fpages == |k.free|
    ensures r.None? <==> old(k.free) == []
    ensures r.None? ==> Now(k) == old(Now(k))
    ensures r.Some? ==> r.value == old(k.free)[0] && k.mem == old(k.mem)[r.value := ZeroPage()]
    ensures r.Some? ==> k.roots == old(k.roots) + {r.value} && k.free == old(k.free)[1..] && k.refs == old(k.refs)[r.value := 1]
  {
    r := k.Kalloc();
    if r.None? { return; }
    k.mem := k.mem[r.value := ZeroPage()];
    k.roots := k.roots + {r.value};
  }

  /** The innermost body of uvm_copy: page v of the parent, with entry e. */
  method CopyPage(
    k: Machine, par: nat, kid: nat, e: nat, v: nat, regions: seq<Region>, ghost shared: set<nat>, ghost s0: Snap)
    returns (ok: bool)
    requires shared == SharedPages(regions)
    requires k.Valid() && Space(s0.mem, s0.roots, s0.free) && CopyState(s0, Now(k), par, kid, shared, v)
    requires v < Width(4) && e == Entry(k.mem, par, 4, v) && PteValid(e) && HasNormal(e)
    modifies k`mem, k`free, k`fpages, k`refs
    ensures k.Valid() && TablesKept(old(k.mem), k.mem, k.roots)
    ensures ok ==> CopyState(s0, Now(k), par, kid, shared, v + 1)
    ensures !ok ==> k.free == [] && OthersKept(s0, Now(k))
  {
    hide Space, CopyState, CopyCore, CopyRefs, CopyReady, Entry, Table, OthersKept, TablesKept, MapState, DataFrames;
    assert HasNormal(e);
    CopyOthers(s0, Now(k), par, kid, shared, v);
    var f := PteFrame(e);
    var isShared := FindShared(regions, v * 4096);
    assert isShared <==> v in shared;
    hide SharedPages;
    if isShared {
      ReadyShared(s0, Now(k), par, kid, shared, v, f);
      k.refs := k.refs[f := Ref(k.refs, f) + 1];
    } else {
      if k.free != [] {
        ReadyPrivate(s0, Now(k), par, kid, shared, v, f);
      }
      var np := k.Kalloc();
      if np.None? { return false; }
      k.mem := k.mem[np.value := k.mem[f]];
      f := np.value;
    }
    ghost var s1 := Now(k);
    ReadyFacts(s0, s1, par, kid, shared, v, f);
    OnePage(v, f);
    var r, done := k.UvmMap(kid, v * 4096, 4096, f * 4096);
    OthersStay(s0, s1, Now(k), par, kid, shared, v, f, done);
    TablesKeptTrans(old(k.mem), s1.mem, k.mem, k.roots);
    if !r.Ok? {
      return false;
    }
    CopyMapped(s0, s1, Now(k), par, kid, shared, v, f);
    return true;
  }

  /** The copy stands at page FirstPage(level, path), in the parent's table pgt at that level and path. */
  ghost predicate AtTable(s0: Snap, s: Snap, par: nat, kid: nat, shared: set<nat>, pgt: nat, level: nat, path: nat, i: nat) {
    && level <= 3 && path < Width(level) && i <= 512 && Table(s.mem, par, level, path) == Some(pgt)
    && CopyState(s0, s, par, kid, shared, FirstPage(level + 1, path * 512 + i))
    && Space(s0.mem, s0.roots, s0.free) && NormalLeaves(s0.mem, par)
  }

  /** Entry i, and what to do if it is invalid or a leaf. */
  lemma AtEntry(s0: Snap, s: Snap, par: nat, kid: nat, shared: set<nat>, pgt: nat, level: nat, path: nat, i: nat)
    requires AtTable(s0, s, par, kid, shared, pgt, level, path, i) && i < 512
    ensures level <= 3 && pgt in s.mem && path * 512 + i < Width(level + 1) && Space(s0.mem, s0.roots, s0.free)
    ensures var e := s.mem[pgt][i];
      && (!PteValid(e) ==> AtTable(s0, s, par, kid, shared, pgt, level, path, i + 1))
      && (PteValid(e) && level < 3 ==> AtTable(s0, s, par, kid, shared, PteFrame(e), level + 1, path * 512 + i, 0))
      && (level == 3 ==> CopyState(s0, s, par, kid, shared, path * 512 + i) && e == Entry(s.mem, par, 4, path * 512 + i))
      && (level == 3 && PteValid(e) ==> HasNormal(e))
  {
    hide CopyState, Space, Entry, Table, HasNormal, NormalLeaves;
    var q := path * 512 + i;
    FirstPages(level, path, i);
    FirstPages(level, path, i + 1);
    EntryRead(s0, s, par, kid, shared, FirstPage(level + 1, q), level, path, i);
    if !PteValid(s.mem[pgt][i]) {
      forall v | FirstPage(level + 1, q) <= v < FirstPage(level + 1, q + 1) ensures !PteValid(Entry(s.mem, par, 4, v)) {
        NothingBelow(s.mem, par, level + 1, q, v);
      }
      CopySkip(s0, s, par, kid, shared, FirstPage(level + 1, q), FirstPage(level + 1, q + 1));
    } else if level < 3 {
      FirstPages(level + 1, q, 0);
    } else {
      LeafNormal(s0, s, par, kid, shared, q);
    }
  }

  /** After what is below entry i has been copied. */
  lemma AtNext(s0: Snap, s1: Snap, s: Snap, par: nat, kid: nat, shared: set<nat>, pgt: nat, level: nat, path: nat, i: nat)
    requires AtTable(s0, s1, par, kid, shared, pgt, level, path, i) && i < 512 && TablesKept(s1.mem, s.mem, s.roots)
    requires level < 3 ==> CopyState(s0, s, par, kid, shared, FirstPage(level + 1, path * 512 + i + 1))
    requires level == 3 ==> CopyState(s0, s, par, kid, shared, path * 512 + i + 1)
    ensures AtTable(s0, s, par, kid, shared, pgt, level, path, i + 1)
  {
    hide Space, Entry, Table, NormalLeaves, OthersKept, CopyRefs, PageCopied;
    assert PathOk(level, path);
    assert par in s.roots;
    assert path * 512 + i + 1 == path * 512 + (i + 1);
  }

  lemma AtEnd(s0: Snap, s: Snap, par: nat, kid: nat, shared: set<nat>, pgt: nat, level: nat, path: nat)
    requires AtTable(s0, s, par, kid, shared, pgt, level, path, 512)
    ensures level <= 3 && CopyState(s0, s, par, kid, shared, FirstPage(level, path + 1))
  {
    hide CopyState, Space, Table, NormalLeaves;
    FirstPages(level, path, 512);
  }

  lemma AtStart(s0: Snap, s: Snap, par: nat, kid: nat, shared: set<nat>)
    requires CopyState(s0, s, par, kid, shared, 0) && Space(s0.mem, s0.roots, s0.free) && NormalLeaves(s0.mem, par)
    ensures AtTable(s0, s, par, kid, shared, par, 0, 0, 0) && Space(s.mem, s.roots, s.free)
  {
    hide Space, NormalLeaves, OthersKept, CopyRefs, PageCopied;
    FirstPages(0, 0, 0);
  }

  lemma AllPages()
    ensures FirstPage(0, 1) == Width(4)
  {
  }

  lemma LeafNormal(s0: Snap, s: Snap, par: nat, kid: nat, shared: set<nat>, v: nat)
    requires CopyState(s0, s, par, kid, shared, v) && NormalLeaves(s0.mem, par) && v < Width(4)
    ensures PteValid(Entry(s.mem, par, 4, v)) ==> HasNormal(Entry(s.mem, par, 4, v))
  {
    hide Entry, HasNormal, Space;
  }

  /** The four nested loops of uvm_copy: what is below one table of the parent. */
  method CopyTable(
    k: Machine, par: nat, kid: nat, pgt: nat, level: nat, path: nat, regions: seq<Region>, ghost shared: set<nat>,
    ghost s0: Snap)
    returns (ok: bool)
    requires shared == SharedPages(regions)
    requires k.Valid() && AtTable(s0, Now(k), par, kid, shared, pgt, level, path, 0)
    modifies k`mem, k`free, k`fpages, k`refs
    ensures k.Valid() && TablesKept(old(k.mem), k.mem, k.roots)
    ensures ok ==> level <= 3 && CopyState(s0, Now(k), par, kid, shared, FirstPage(level, path + 1))
    ensures !ok ==> k.free == [] && OthersKept(s0, Now(k))
    decreases 4 - level
  {
    hide Space, CopyState, Entry, Table, OthersKept, TablesKept, AtTable, HasNormal, FirstPage, SharedPages;
    TablesKeptSelf(k.mem, k.roots);
    var i := 0;
    while i < 512
      invariant 0 <= i <= 512
      invariant k.Valid() && AtTable(s0, Now(k), par, kid, shared, pgt, level, path, i)
      invariant TablesKept(old(k.mem), k.mem, k.roots)
    {
      AtEntry(s0, Now(k), par, kid, shared, pgt, level, path, i);
      ghost var s1 := Now(k);
      if PteValid(k.mem[pgt][i]) {
        if level < 3 {
          ok := CopyTable(k, par, kid, PteFrame(k.mem[pgt][i]), level + 1, path * 512 + i, regions, shared, s0);
        } else {
          ok := CopyPage(k, par, kid, k.mem[pgt][i], path * 512 + i, regions, shared, s0);
        }
        TablesKeptTrans(old(k.mem), s1.mem, k.mem, k.roots);
        if !ok { return; }
        AtNext(s0, s1, Now(k), par, kid, shared, pgt, level, path, i);
      }
      i := i + 1;
    }
    AtEnd(s0, Now(k), par, kid, shared, pgt, level, path);
    return true;
  }

  /** uvm_copy: on success the child is a copy of the parent; it fails only when memory runs out. */
  method UvmCopy(k: Machine, pgdir: nat, regions: seq<Region>) returns (r: Option<nat>)
    requires k.Valid() && pgdir in k.roots && NormalLeaves(k.mem, pgdir)
    modifies k
    ensures k.Valid() && OthersKept(old(Now(k)), Now(k))
    ensures r.Some? ==> Forked(old(Now(k)), Now(k), pgdir, r.value, SharedPages(regions))
    ensures r.Some? ==> r.value in k.roots && NormalLeaves(k.mem, r.value)
    ensures r.None? ==> k.free == []
  {
    hide Space, CopyState, Entry, Table, TablesKept, AtTable, HasNormal, FirstPage, NormalLeaves, SharedPages;
    ghost var s0, shared := Now(k), SharedPages(regions);
    if k.free != [] {
      CopyStart(s0, pgdir, shared);
    }
    var kid := VmInit(k);
    if kid.None? { return None; }
    CopyOthers(s0, Now(k), pgdir, kid.value, shared, 0);
    AtStart(s0, Now(k), pgdir, kid.value, shared);
    var ok := CopyTable(k, pgdir, kid.value, pgdir, 0, 0, regions, shared, s0);
    if !ok { return None; }
    AllPages();
    CopyOthers(s0, Now(k), pgdir, kid.value, shared, Width(4));
    ForkedNormal(s0, Now(k), pgdir, kid.value, shared);
    return kid;
  }

  /** A child can be forked in its turn. */
  method ForkTwice(k: Machine, pgdir: nat, regions: seq<Region>) returns (kid: Option<nat>, grandkid: Option<nat>)
    requires k.Valid() && pgdir in k.roots && NormalLeaves(k.mem, pgdir)
    modifies k
    ensures k.Valid()
    ensures kid.None? || grandkid.None? ==> k.free == []
    ensures kid.Some? && grandkid.Some? ==> NormalLeaves(k.mem, grandkid.value)
  {
    hide NormalLeaves, Forked, OthersKept;
    grandkid := None;
    kid := UvmCopy(k, pgdir, regions);
    if kid.Some? {
      grandkid := UvmCopy(k, kid.value, regions);
    }
  }

  /** Every page of the child is the user's, to read and write, whatever the parent's entry said. */
  lemma ForkedPages(s0: Snap, s: Snap, par: nat, kid: nat, shared: set<nat>, v: nat)
    requires Forked(s0, s, par, kid, shared) && v < Width(4)
    ensures var e := Entry(s.mem, kid, 4, v);
      if PteValid(Entry(s0.mem, par, 4, v)) then UserPage(e, PteFrame(e)) else e == 0
  {
    hide Entry, Space, OthersKept, CopyRefs, UserPage;
    assert PageCopied(s0, s.mem, par, kid, shared, v);
    UserEntry(PteFrame(Entry(s.mem, kid, 4, v)));
  }

  lemma ForkedNormal(s0: Snap, s: Snap, par: nat, kid: nat, shared: set<nat>)
    requires Forked(s0, s, par, kid, shared)
    ensures kid in s.roots && NormalLeaves(s.mem, kid)
  {
    hide Entry, Space, OthersKept, CopyRefs, UserPage, PageCopied;
    forall v | 0 <= v < Width(4) && PteValid(Entry(s.mem, kid, 4, v)) ensures HasNormal(Entry(s.mem, kid, 4, v)) {
      ForkedPages(s0, s, par, kid, shared, v);
      UserIsNormal(Entry(s.mem, kid, 4, v), PteFrame(Entry(s.mem, kid, 4, v)));
    }
  }

  lemma UserIsNormal(e: nat, f: nat)
    requires UserPage(e, f)
    ensures HasNormal(e)
  {
    SecondBit(e, f, e % 4096 / 32, e % 4);
  }

  lemma SecondBit(e: nat, f: nat, m: nat, r: nat)
    requires e == 4096 * f + 32 * m + 4 + r && r < 4
    ensures e / 4 % 2 == 1
  {
    assert e / 4 == 2 * (512 * f + 4 * m) + 1;
  }

  /** Parent and child have a page in the same frame exactly if the first region that holds it is MAP_SHARED. */
  lemma ForkedShares(s0: Snap, s: Snap, par: nat, kid: nat, regions: seq<Region>, v: nat)
    requires Space(s0.mem, s0.roots, s0.free) && Forked(s0, s, par, kid, SharedPages(regions))
    requires v < Width(4) && PteValid(Entry(s0.mem, par, 4, v))
    ensures PteFrame(Entry(s.mem, kid, 4, v)) == PteFrame(Entry(s0.mem, par, 4, v)) <==> SharedAt(regions, v * 4096)
  {
    hide Entry, Table, IsTable, Forest, CopyRefs;
    assert PageCopied(s0, s.mem, par, kid, SharedPages(regions), v);
    assert IsData(s0.mem, s0.roots, s0.free, PteFrame(Entry(s0.mem, par, 4, v)));
  }
}
