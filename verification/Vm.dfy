/** pgdir_walk, uvm_map and uvm_copy of kern/vm.c with kalloc of kern/mm.c.

The page tables are the values of module PageTable; `roots` are the page directories in use.
*/
module Vm {
  import opened Common
  import opened PageTable

  // ---------------------------------------------------------------- indices of a virtual address

  /** The page number of a virtual address; bits above the 48th are ignored by the walk. */
  function PageOf(va: nat): (v: nat)
    ensures v < Width(4)
  {
    va / 4096 % 0x10_0000_0000
  }

  /** The path to the entry of page v at a level. */
  function PathOf(v: nat, level: nat): (p: nat)
    requires level <= 4 && v < Width(4)
    ensures p < Width(level)
  {
    match level
    case 0 => 0
    case 1 => v / 0x800_0000
    case 2 => v / 0x4_0000
    case 3 => v / 512
    case _ => v
  }

  lemma PathStep(v: nat, level: nat)
    requires 1 <= level <= 4 && v < Width(4)
    ensures PathOf(v, level) / ENTRIES == PathOf(v, level - 1)
  {
  }

  /** (va >> (12 + (3 - i) * 9)) & 0x1FF */
  function IndexAt(va: nat, i: nat): (idx: nat)
    requires i <= 3
    ensures idx < ENTRIES
  {
    match i
    case 0 => va / 0x80_0000_0000 % 512
    case 1 => va / 0x4000_0000 % 512
    case 2 => va / 0x20_0000 % 512
    case _ => va / 4096 % 512
  }

  lemma IndexIs(va: nat, i: nat)
    requires i <= 3
    ensures IndexAt(va, i) == PathOf(PageOf(va), i + 1) % ENTRIES
  {
    var q := va / 4096;
    var a, b := q / 0x10_0000_0000, q % 0x10_0000_0000;
    match i
    case 0 =>
      Nested(va, 0x800_0000);
      assert q / 0x800_0000 == 512 * a + b / 0x800_0000;
      DropMultiple(a, b / 0x800_0000);
    case 1 =>
      Nested(va, 0x4_0000);
      assert q / 0x4_0000 == 512 * (512 * a) + b / 0x4_0000;
      DropMultiple(512 * a, b / 0x4_0000);
    case 2 =>
      Nested(va, 512);
      assert q / 512 == 512 * (0x4_0000 * a) + b / 512;
      DropMultiple(0x4_0000 * a, b / 512);
    case _ =>
      assert q == 512 * (0x800_0000 * a) + b;
      DropMultiple(0x800_0000 * a, b);
  }

  lemma DropMultiple(a: nat, b: nat)
    ensures (512 * a + b) % 512 == b % 512
  {
  }

  /** Shifting in two steps. */
  lemma Nested(va: nat, d: nat)
    requires d == 512 || d == 0x4_0000 || d == 0x800_0000
    ensures d == 512 ==> va / 0x20_0000 == va / 4096 / 512
    ensures d == 0x4_0000 ==> va / 0x4000_0000 == va / 4096 / 0x4_0000
    ensures d == 0x800_0000 ==> va / 0x80_0000_0000 == va / 4096 / 0x800_0000
  {
  }

  /** Distinct pages below 2^48 reach distinct leaf slots. */
  lemma DistinctSlots(mem: Mem, roots: set<nat>, r: nat, v: nat, r': nat, v': nat)
    requires Forest(mem, roots) && r in roots && r' in roots && v < Width(4) && v' < Width(4)
    requires Table(mem, r, 3, v / ENTRIES).Some? && Table(mem, r', 3, v' / ENTRIES) == Table(mem, r, 3, v / ENTRIES)
    requires v % ENTRIES == v' % ENTRIES
    ensures r == r' && v == v'
  {
    UpOne(4, v);
    UpOne(4, v');
    OnePlace(mem, roots, r, 3, v / ENTRIES, r', 3, v' / ENTRIES);
    SamePath(v, v');
  }

  // ---------------------------------------------------------------- what calls keep

  /** From one moment to another: the space is still one, no leaf entry changed, no data frame changed. */
  ghost predicate Kept(mem: Mem, free: seq<nat>, mem': Mem, free': seq<nat>, roots: set<nat>) {
    && Space(mem', roots, free') && SameLeaves(mem, mem', roots) && SameData(mem, free, mem', free', roots)
    && mem'.Keys == mem.Keys && TablesKept(mem, mem', roots) && Shrinks(free, free')
  }

  ghost predicate Shrinks(free: seq<nat>, free': seq<nat>) {
    forall f | f in free' :: f in free
  }

  function Ref(refs: map<nat, int>, f: nat): (n: int) {
    if f in refs then refs[f] else 0
  }

  /** Only frames that were free have got another reference count. */
  ghost predicate RefsKept(refs: map<nat, int>, refs': map<nat, int>, free: seq<nat>) {
    forall f | f !in free :: Ref(refs', f) == Ref(refs, f)
  }

  lemma KeptSelf(mem: Mem, free: seq<nat>, roots: set<nat>)
    requires Space(mem, roots, free)
    ensures Kept(mem, free, mem, free, roots)
  {
  }

  lemma KeptFree(mem: Mem, free: seq<nat>, mem': Mem, free': seq<nat>, roots: set<nat>)
    requires Kept(mem, free, mem', free', roots)
    ensures Shrinks(free, free')
  {
  }

  lemma KeptTrans(m0: Mem, f0: seq<nat>, m1: Mem, f1: seq<nat>, m2: Mem, f2: seq<nat>, roots: set<nat>)
    requires Kept(m0, f0, m1, f1, roots) && Kept(m1, f1, m2, f2, roots)
    ensures Kept(m0, f0, m2, f2, roots)
  {
    hide Space, IsData, Entry, Table;
  }

  /** What pgdir_walk reads at one level: the table there, and whether the next one exists. */
  lemma WalkFacts(mem: Mem, roots: set<nat>, free: seq<nat>, r: nat, v: nat, i: nat)
    requires Space(mem, roots, free) && r in roots && v < Width(4) && i <= 2
    requires Table(mem, r, i, PathOf(v, i)).Some?
    ensures var t := Table(mem, r, i, PathOf(v, i)).value; var p := PathOf(v, i + 1);
      && t in mem && p / ENTRIES == PathOf(v, i)
      && Table(mem, r, i + 1, p) == (if PteValid(mem[t][p % ENTRIES]) then Some(PteFrame(mem[t][p % ENTRIES])) else None)
      && (Table(mem, r, i + 1, p).None? && free != [] ==> CanGrow(mem, roots, r, i + 1, p, free[0]))
  {
    PathStep(v, i + 1);
    assert PathOk(i, PathOf(v, i));
  }

  lemma RootTable(mem: Mem, r: nat, v: nat)
    requires v < Width(4)
    ensures Table(mem, r, 0, PathOf(v, 0)) == Some(r)
  {
  }

  lemma LeafFacts(mem: Mem, roots: set<nat>, free: seq<nat>, r: nat, v: nat)
    requires Space(mem, roots, free) && r in roots && v < Width(4) && Table(mem, r, 3, PathOf(v, 3)).Some?
    ensures Table(mem, r, 3, v / ENTRIES) == Table(mem, r, 3, PathOf(v, 3)) && PathOf(v, 4) == v
    ensures var t := Table(mem, r, 3, v / ENTRIES).value;
      t in mem && Entry(mem, r, 4, v) == mem[t][v % ENTRIES]
  {
    assert PathOk(3, PathOf(v, 3));
  }

  /** Where a table on the way is missing, the leaf entry reads 0. */
  lemma {:induction false} MissingEntry(mem: Mem, r: nat, v: nat, i: nat)
    requires v < Width(4) && i <= 2 && Table(mem, r, i + 1, PathOf(v, i + 1)).None?
    ensures Entry(mem, r, 4, v) == 0
    decreases 2 - i
  {
    PathStep(v, i + 2);
    if i < 2 {
      MissingEntry(mem, r, v, i + 1);
    }
  }

  datatype Pte = Pte(table: nat, index: nat)

  const USERTOP := 0x1_0000_0000_0000

  datatype Mapped = Ok | Einval | Panics

  /** Pages that [va, va + sz) touches when walked from va rounded down. */
  function PagesIn(va: nat, sz: nat): (n: nat)
    ensures va + sz <= USERTOP ==> va / 4096 + n <= Width(4)
  {
    (va % 4096 + sz + 4095) / 4096
  }

  /** n frames from f0 on that hold neither a page table nor a page of the free list. */
  ghost predicate DataFrames(m: Mem, roots: set<nat>, free: seq<nat>, f0: nat, n: nat) {
    f0 + n <= FRAMES && forall f | f0 <= f < f0 + n :: IsData(m, roots, free, f)
  }

  lemma PageAt(va: nat, sz: nat, k: nat)
    requires va + sz <= USERTOP && (va / 4096 + k) * 4096 < va + sz
    ensures k < PagesIn(va, sz) && PageOf((va / 4096 + k) * 4096) == va / 4096 + k
  {
  }

  lemma PagesDone(va: nat, sz: nat, k: nat)
    requires (va / 4096 + k) * 4096 >= va + sz && k <= PagesIn(va, sz)
    ensures k == PagesIn(va, sz)
  {
  }

  /** Pages v0 .. v0 + n - 1 of root r0 are mapped to frames f0 ..; every other leaf entry is as before. */
  ghost predicate Remapped(m0: Mem, m: Mem, roots: set<nat>, r0: nat, v0: nat, n: nat, f0: nat) {
    && (n == 0 || f0 + n <= FRAMES)
    && forall r, v | r in roots && 0 <= v < Width(4) ::
         Entry(m, r, 4, v) == if r == r0 && v0 <= v < v0 + n then MakePte(f0 + v - v0, PTE_UDATA) else Entry(m0, r, 4, v)
  }

  lemma MapOne(m0: Mem, m1: Mem, m2: Mem, roots: set<nat>, r0: nat, v: nat, f: nat)
    requires SameLeaves(m0, m1, roots) && f < FRAMES && v < Width(4)
    requires forall r, u | r in roots && 0 <= u < Width(4) ::
      Entry(m2, r, 4, u) == if r == r0 && u == v then MakePte(f, PTE_UDATA) else Entry(m1, r, 4, u)
    ensures Remapped(m0, m2, roots, r0, v, 1, f)
  {
  }

  /** uvm_map after n pages: they were unmapped before, are mapped now, and nothing else has changed. */
  ghost predicate MapState(m0: Mem, free0: seq<nat>, m: Mem, free: seq<nat>, roots: set<nat>, r0: nat, v0: nat, n: nat, f0: nat) {
    && Space(m, roots, free) && SameData(m0, free0, m, free, roots)
    && Remapped(m0, m, roots, r0, v0, n, f0)
    && (forall v | v0 <= v < v0 + n :: !PteValid(Entry(m0, r0, 4, v)))
    && TablesKept(m0, m, roots) && Shrinks(free0, free) && m.Keys == m0.Keys
  }

  lemma MapStart(m: Mem, free: seq<nat>, roots: set<nat>, r0: nat, v0: nat, f0: nat)
    requires Space(m, roots, free)
    ensures MapState(m, free, m, free, roots, r0, v0, 0, f0)
  {
    hide Space;
  }

  /** The pages mapped so far are the user's, in consecutive frames. */
  lemma MappedPages(m0: Mem, free0: seq<nat>, m: Mem, free: seq<nat>, roots: set<nat>, r0: nat, va: nat, sz: nat, n: nat,
                    f0: nat)
    requires MapState(m0, free0, m, free, roots, r0, va / 4096, n, f0) && r0 in roots
    requires va + sz <= USERTOP && n <= PagesIn(va, sz)
    ensures forall v | va / 4096 <= v < va / 4096 + n :: UserPage(Entry(m, r0, 4, v), f0 + v - va / 4096)
  {
    hide Space, Entry, TablesKept, SameData, UserPage;
    forall v | va / 4096 <= v < va / 4096 + n ensures UserPage(Entry(m, r0, 4, v), f0 + v - va / 4096) {
      PageAt(va, sz, v - va / 4096);
      UserEntry(f0 + v - va / 4096);
    }
  }

  /** The processor finds every byte of the range in those frames. */
  lemma MappedBytes(m: Mem, r0: nat, va: nat, sz: nat, f0: nat)
    requires va + sz <= USERTOP
    requires forall v | va / 4096 <= v < va / 4096 + PagesIn(va, sz) :: UserPage(Entry(m, r0, 4, v), f0 + v - va / 4096)
    ensures forall a: nat | va <= a < va + sz :: UserPage(Hardware(m, r0, a), f0 + a / 4096 - va / 4096)
  {
    hide Entry, Hardware, UserPage;
    forall a: nat | va <= a < va + sz ensures UserPage(Hardware(m, r0, a), f0 + a / 4096 - va / 4096) {
      HardwareEntry(m, r0, a);
      Covered(va, sz, a);
    }
  }

  lemma Covered(va: nat, sz: nat, a: nat)
    requires va <= a < va + sz
    ensures va / 4096 <= a / 4096 < va / 4096 + PagesIn(va, sz)
  {
  }

  /** A failing round. */
  lemma MapStop(m0: Mem, free0: seq<nat>, m1: Mem, free1: seq<nat>, m2: Mem, free2: seq<nat>, roots: set<nat>,
                r0: nat, v0: nat, n: nat, f0: nat)
    requires MapState(m0, free0, m1, free1, roots, r0, v0, n, f0) && r0 in roots && v0 + n < Width(4)
    requires TablesKept(m1, m2, roots) && Shrinks(free1, free2) && m2.Keys == m1.Keys
    requires Space(m2, roots, free2) && SameData(m1, free1, m2, free2, roots) && SameLeaves(m1, m2, roots)
    ensures MapState(m0, free0, m2, free2, roots, r0, v0, n, f0)
    ensures Entry(m1, r0, 4, v0 + n) == Entry(m0, r0, 4, v0 + n)
  {
    hide Space, Entry, IsData, Table;
  }

  /** A round that maps one more page. */
  lemma MapStep(m0: Mem, free0: seq<nat>, m1: Mem, free1: seq<nat>, m2: Mem, free2: seq<nat>, roots: set<nat>,
                r0: nat, v0: nat, n: nat, f0: nat)
    requires MapState(m0, free0, m1, free1, roots, r0, v0, n, f0) && r0 in roots && v0 + n < Width(4)
    requires TablesKept(m1, m2, roots) && Shrinks(free1, free2) && m2.Keys == m1.Keys
    requires Space(m2, roots, free2) && SameData(m1, free1, m2, free2, roots)
    requires Remapped(m1, m2, roots, r0, v0 + n, 1, f0 + n) && !PteValid(Entry(m1, r0, 4, v0 + n))
    ensures MapState(m0, free0, m2, free2, roots, r0, v0, n + 1, f0)
  {
    hide Space, Entry, IsData, Table;
  }

  lemma MapFree(m0: Mem, free0: seq<nat>, m: Mem, free: seq<nat>, roots: set<nat>, r0: nat, v0: nat, n: nat, f0: nat)
    requires MapState(m0, free0, m, free, roots, r0, v0, n, f0)
    ensures Shrinks(free0, free)
  {
  }

  /** The next frame is still a data frame. */
  lemma NextFrame(m0: Mem, free0: seq<nat>, m: Mem, free: seq<nat>, roots: set<nat>, r0: nat, v0: nat, n: nat, f0: nat, k: nat)
    requires MapState(m0, free0, m, free, roots, r0, v0, n, f0) && DataFrames(m0, roots, free0, f0, k) && n < k
    ensures IsData(m, roots, free, f0 + n) && f0 + n < FRAMES && Space(m, roots, free)
  {
    hide Space, Entry, IsData, Table;
  }

  class Machine {
    var mem: Mem
    var free: seq<nat>
    var fpages: nat
    var refs: map<nat, int>
    ghost var roots: set<nat>

    ghost predicate Valid()
      reads this
    {
      Space(mem, roots, free) && fpages == |free|
    }

    constructor (mem: Mem, free: seq<nat>)
      requires NoDup(free) && forall i | 0 <= i < |free| :: free[i] in mem && free[i] < FRAMES
      ensures Valid() && roots == {} && this.free == free && this.mem == mem
    {
      this.mem, this.free, fpages := mem, free, |free|;
      refs := map[];
      roots := {};
    }

    /** kalloc: take the first free frame and give it one reference. */
    method Kalloc() returns (r: Option<nat>)
      requires fpages == |free|
      modifies this`free, this`fpages, this`refs
      ensures r.None? <==> old(free) == []
      ensures r.None? ==> free == [] && refs == old(refs)
      ensures r.Some? ==> r.value == old(free)[0] && free == old(free)[1..] && refs == old(refs)[r.value := 1]
      ensures fpages == |free|
    {
      if free == [] {
        return None;
      }
      r := Some(free[0]);
      free := free[1..];
      fpages := fpages - 1;
      refs := refs[r.value := 1];
    }

    /** One level of pgdir_walk: the next table, created if it is missing and alloc is set. */
    method Descend(pgdir: nat, pgt: nat, idx: nat, alloc: bool, ghost v: nat, ghost i: nat) returns (r: Option<nat>)
      requires Valid() && pgdir in roots && v < Width(4) && i <= 2
      requires Table(mem, pgdir, i, PathOf(v, i)) == Some(pgt) && idx == PathOf(v, i + 1) % ENTRIES
      modifies this`mem, this`free, this`fpages, this`refs
      ensures Valid() && Kept(old(mem), old(free), mem, free, roots) && RefsKept(old(refs), refs, old(free))
      ensures r.Some? ==> Table(mem, pgdir, i + 1, PathOf(v, i + 1)) == r
      ensures r.None? ==> (alloc ==> free == []) && mem == old(mem) && Table(mem, pgdir, i + 1, PathOf(v, i + 1)).None?
      ensures !alloc ==> mem == old(mem) && free == old(free)
      // a new table is empty, and bits 1 and 0 of the entry that leads to it say so
      ensures r.Some? && pgt in old(mem) && !PteValid(old(mem)[pgt][idx]) ==>
        pgt in mem && mem[pgt][idx] == r.value * 4096 + 3 && r.value in mem && mem[r.value] == seq(512, _ => 0)
    {
      WalkFacts(mem, roots, free, pgdir, v, i);
      KeptSelf(mem, free, roots);
      if free != [] && Table(mem, pgdir, i + 1, PathOf(v, i + 1)).None? {
        GrowSpace(mem, roots, free, pgdir, i + 1, PathOf(v, i + 1));
        GrownPoke(mem, roots, pgdir, i + 1, PathOf(v, i + 1), free[0]);
      }
      hide Space, Kept, Table;
      if !PteValid(mem[pgt][idx]) {
        if !alloc {
          return None;
        }
        r := Kalloc();
        if r.None? { return; }
        mem := mem[r.value := ZeroPage()];
        mem := mem[pgt := mem[pgt][idx := MakePte(r.value, PTE_TABLE)]];
        return;
      }
      r := Some(PteFrame(mem[pgt][idx]));
    }

    /** pgdir_walk: the place of the leaf entry of va.  Creating tables changes no mapping and no data, also
        when memory runs out half way. */
    method PgdirWalk(pgdir: nat, va: nat, alloc: bool) returns (r: Option<Pte>)
      requires Valid() && pgdir in roots
      modifies this`mem, this`free, this`fpages, this`refs
      ensures Valid() && Kept(old(mem), old(free), mem, free, roots) && RefsKept(old(refs), refs, old(free))
      ensures r.Some? ==>
        && r.value.index == PageOf(va) % ENTRIES
        && Table(mem, pgdir, 3, PageOf(va) / ENTRIES) == Some(r.value.table) && r.value.table in mem
        && Entry(mem, pgdir, 4, PageOf(va)) == mem[r.value.table][r.value.index]
      ensures r.None? ==> if alloc then free == [] else Entry(mem, pgdir, 4, PageOf(va)) == 0
      ensures !alloc ==> mem == old(mem) && free == old(free)
    {
      hide Space, Kept, Table, PageOf, IndexAt, PathOf, Entry;
      ghost var v := PageOf(va);
      KeptSelf(mem, free, roots);
      RootTable(mem, pgdir, v);
      var pgt := pgdir;
      var i := 0;
      while i < 3
        invariant 0 <= i <= 3
        invariant Valid() && Kept(old(mem), old(free), mem, free, roots) && RefsKept(old(refs), refs, old(free))
        invariant Table(mem, pgdir, i, PathOf(v, i)) == Some(pgt)
        invariant !alloc ==> mem == old(mem) && free == old(free)
      {
        IndexIs(va, i);
        ghost var mem1, free1 := mem, free;
        var next := Descend(pgdir, pgt, IndexAt(va, i), alloc, v, i);
        KeptTrans(old(mem), old(free), mem1, free1, mem, free, roots);
        KeptFree(old(mem), old(free), mem1, free1, roots);
        if next.None? {
          MissingEntry(mem, pgdir, v, i);
          return None;
        }
        pgt := next.value;
        i := i + 1;
      }
      IndexIs(va, 3);
      LeafFacts(mem, roots, free, pgdir, v);
      return Some(Pte(pgt, IndexAt(va, 3)));
    }

    /** The loop body of uvm_map: one page, unless a table cannot be made or the page is mapped already. */
    method MapPage(pgdir: nat, va: nat, f: nat) returns (ok: bool)
      requires Valid() && pgdir in roots && IsData(mem, roots, free, f) && f < FRAMES
      modifies this`mem, this`free, this`fpages, this`refs
      ensures Valid() && SameData(old(mem), old(free), mem, free, roots) && mem.Keys == old(mem).Keys
      ensures TablesKept(old(mem), mem, roots) && Shrinks(old(free), free) && RefsKept(old(refs), refs, old(free))
      ensures ok ==> Remapped(old(mem), mem, roots, pgdir, PageOf(va), 1, f)
      ensures !ok ==> SameLeaves(old(mem), mem, roots)
      ensures ok ==> !PteValid(Entry(old(mem), pgdir, 4, PageOf(va)))
      ensures !ok ==> free == [] || PteValid(Entry(old(mem), pgdir, 4, PageOf(va)))
    {
      hide PageOf, Table, Entry, IsTable, Forest;
      var pte := PgdirWalk(pgdir, va, true);
      if pte.None? { return false; }
      if PteValid(mem[pte.value.table][pte.value.index]) {
        return false;
      }
      ghost var mem1 := mem;
      MakePteIs(f, PTE_UDATA);
      assert IsData(mem, roots, free, f);
      PokeSpace(mem, roots, free, pgdir, PageOf(va), MakePte(f, PTE_UDATA));
      hide Space;
      mem := mem[pte.value.table := mem[pte.value.table][pte.value.index := MakePte(f, PTE_UDATA)]];
      MapOne(old(mem), mem1, mem, roots, pgdir, PageOf(va), f);
      return true;
    }

    /** uvm_map: map the pages of [va, va + sz) to consecutive frames from pa on, never over a valid entry.
        On failure a prefix of the pages has been mapped. */
    method UvmMap(pgdir: nat, va: nat, sz: nat, pa: nat) returns (r: Mapped, ghost done: nat)
      requires Valid() && pgdir in roots && va + sz <= USERTOP
      requires pa < USERTOP ==> DataFrames(mem, roots, free, pa / 4096, PagesIn(va, sz))
      modifies this`mem, this`free, this`fpages, this`refs
      ensures r.Panics? <==> pa >= USERTOP
      ensures done <= PagesIn(va, sz) && (r.Ok? ==> done == PagesIn(va, sz))
      ensures Valid() && MapState(old(mem), old(free), mem, free, roots, pgdir, va / 4096, done, pa / 4096)
      ensures forall v | va / 4096 <= v < va / 4096 + done ::
        UserPage(Entry(mem, pgdir, 4, v), pa / 4096 + v - va / 4096)
      ensures r.Ok? ==> forall a: nat | va <= a < va + sz ::
        UserPage(Hardware(mem, pgdir, a), pa / 4096 + a / 4096 - va / 4096)
      ensures RefsKept(old(refs), refs, old(free))
      ensures r.Einval? ==> done < PagesIn(va, sz) && (free == [] || PteValid(Entry(old(mem), pgdir, 4, va / 4096 + done)))
    {
      hide Space, Entry, Table, IsTable, IsData, MapState, DataFrames, Remapped, SameData, SameLeaves, TablesKept;
      done := 0;
      MapStart(mem, free, roots, pgdir, va / 4096, pa / 4096);
      if pa >= USERTOP {
        return Panics, done;
      }
      var p, f := va / 4096 * 4096, pa / 4096;
      while p < va + sz
        invariant p == (va / 4096 + done) * 4096 && f == pa / 4096 + done && done <= PagesIn(va, sz)
        invariant Valid() && MapState(old(mem), old(free), mem, free, roots, pgdir, va / 4096, done, pa / 4096)
        invariant RefsKept(old(refs), refs, old(free))
        decreases PagesIn(va, sz) - done
      {
        PageAt(va, sz, done);
        ghost var mem1, free1 := mem, free;
        MapFree(old(mem), old(free), mem, free, roots, pgdir, va / 4096, done, pa / 4096);
        NextFrame(old(mem), old(free), mem, free, roots, pgdir, va / 4096, done, pa / 4096, PagesIn(va, sz));
        var ok := MapPage(pgdir, p, f);
        if !ok {
          MapStop(old(mem), old(free), mem1, free1, mem, free, roots, pgdir, va / 4096, done, pa / 4096);
          MappedPages(old(mem), old(free), mem, free, roots, pgdir, va, sz, done, pa / 4096);
          return Einval, done;
        }
        MapStep(old(mem), old(free), mem1, free1, mem, free, roots, pgdir, va / 4096, done, pa / 4096);
        p, f, done := p + 4096, f + 1, done + 1;
      }
      PagesDone(va, sz, done);
      MappedPages(old(mem), old(free), mem, free, roots, pgdir, va, sz, done, pa / 4096);
      MappedBytes(mem, pgdir, va, sz, pa / 4096);
      return Ok, done;
    }
  }

  /** The entry just written leads to the new table. */
  lemma GrownPoke(mem: Mem, roots: set<nat>, r0: nat, l0: nat, p0: nat, f: nat)
    requires CanGrow(mem, roots, r0, l0, p0, f)
    ensures f < FRAMES && Table(mem, r0, l0 - 1, p0 / ENTRIES).Some?
    ensures Table(mem, r0, l0 - 1, p0 / ENTRIES).value in mem
    ensures var t := Table(mem, r0, l0 - 1, p0 / ENTRIES).value;
      t != f && Grown(mem, r0, l0, p0, f) == mem[f := ZeroPage()][t := mem[t][p0 % ENTRIES := MakePte(f, PTE_TABLE)]]
  {
    UpOne(l0, p0);
    NotTable(mem, roots, f, r0, l0 - 1, p0 / ENTRIES);
  }
}
