/** Four-level page tables (kern/vm.c), in the layout of chapter D5 of the Arm Architecture Reference Manual for
Armv8-A, as values: physical memory is a map from frame numbers to pages of 512 words.

A table is named by its root, its level and the bits of the virtual page number that lead to it; an entry
likewise, with one more index.  Entries of level 4 are the leaf entries of virtual pages.
*/
module PageTable {
  import opened Common

  const ENTRIES := 512

  /** Frame numbers that fit an entry: 48-bit physical addresses. */
  const FRAMES := 0x10_0000_0000

  type Page = p: seq<nat> | |p| == ENTRIES witness seq(ENTRIES, _ => 0)

  type Mem = map<nat, Page>

  function ZeroPage(): (p: Page) {
    seq(ENTRIES, _ => 0)
  }

  // ---------------------------------------------------------------- entries

  /** PTE_VALID is bit 0. */
  predicate PteValid(e: nat) {
    e % 2 == 1
  }

  /** PTE_ADDR as a frame number: bits 12 to 47. */
  function PteFrame(e: nat): (f: nat)
    ensures f < FRAMES
  {
    e / 4096 % FRAMES
  }

  const PTE_TABLE := 0x3
  /** PTE_USER | PTE_NORMAL | PTE_PAGE */
  const PTE_UDATA := 0x747

  function MakePte(f: nat, flags: nat): (e: nat)
    requires f < FRAMES && flags < 4096
  {
    f * 4096 + flags
  }

  lemma MakePteIs(f: nat, flags: nat)
    requires f < FRAMES && flags < 4096 && flags % 2 == 1
    ensures PteValid(MakePte(f, flags)) && PteFrame(MakePte(f, flags)) == f
  {
  }

  /** e maps a page of frame f for the user, read and write: bits 1 and 0 say page, bits 4 to 2 select attribute
      MT_NORMAL, bit 6 admits the user, bit 7 (read only) is clear, bits 9 and 8 say inner shareable, bit 10 is the
      access flag, bits 5 and 11 are clear. */
  predicate UserPage(e: nat, f: nat) {
    && e / 4096 == f
    && var a := e % 4096;
       && a % 4 == 3 && a / 4 % 8 == 1 && a / 32 % 2 == 0 && a / 64 % 2 == 1
       && a / 128 % 2 == 0 && a / 256 % 4 == 3 && a / 1024 % 2 == 1 && a / 2048 == 0
  }

  lemma UserEntry(f: nat)
    requires f < FRAMES
    ensures UserPage(MakePte(f, PTE_UDATA), f)
  {
    assert MakePte(f, PTE_UDATA) % 4096 == PTE_UDATA;
  }

  // ---------------------------------------------------------------- paths

  /** How many tables (or entries) there can be at a level. */
  function Width(level: nat): (w: nat)
    requires level <= 4
  {
    match level
    case 0 => 1
    case 1 => 512
    case 2 => 0x4_0000
    case 3 => 0x800_0000
    case _ => 0x10_0000_0000
  }

  lemma UpOne(level: nat, path: nat)
    requires 1 <= level <= 4 && path < Width(level)
    ensures path / ENTRIES < Width(level - 1)
  {
  }

  /** The entry at a path; 0 where the table that would hold it is missing. */
  ghost function Entry(mem: Mem, root: nat, level: nat, path: nat): (e: nat)
    requires 1 <= level <= 4
    decreases level, 0
  {
    var t := Table(mem, root, level - 1, path / ENTRIES);
    if t.None? || t.value !in mem then 0 else mem[t.value][path % ENTRIES]
  }

  /** The table at a path. */
  ghost function Table(mem: Mem, root: nat, level: nat, path: nat): (t: Option<nat>)
    requires level <= 3
    decreases level, 1
  {
    if level == 0 then Some(root)
    else
      var e := Entry(mem, root, level, path);
      if PteValid(e) then Some(PteFrame(e)) else None
  }

  function Fetch(mem: Mem, t: nat, i: nat): (e: nat)
    requires i < 512
  {
    if t in mem then mem[t][i] else 0
  }

  /** The leaf entry that the processor finds for va: the index into the first table is bits 47 to 39 of the address,
      then bits 38 to 30, 29 to 21 and 20 to 12; bit 0 of an entry says that it leads on, bits 47 to 12 where to. */
  function Hardware(mem: Mem, root: nat, va: nat): (e: nat) {
    var e0 := Fetch(mem, root, va / 0x80_0000_0000 % 512);
    if e0 % 2 == 0 then 0 else
    var e1 := Fetch(mem, e0 / 0x1000 % 0x10_0000_0000, va / 0x4000_0000 % 512);
    if e1 % 2 == 0 then 0 else
    var e2 := Fetch(mem, e1 / 0x1000 % 0x10_0000_0000, va / 0x20_0000 % 512);
    if e2 % 2 == 0 then 0 else
    Fetch(mem, e2 / 0x1000 % 0x10_0000_0000, va / 0x1000 % 512)
  }

  lemma HardwareEntry(mem: Mem, root: nat, va: nat)
    requires va < 0x1_0000_0000_0000
    ensures Hardware(mem, root, va) == Entry(mem, root, 4, va / 4096)
  {
    var v := va / 4096;
    assert v / 512 == va / 0x20_0000 && v / 512 / 512 == va / 0x4000_0000 && v / 512 / 512 / 512 == va / 0x80_0000_0000;
    assert v / 512 / 512 / 512 / 512 == 0;
    assert Entry(mem, root, 1, v / 512 / 512 / 512) == Fetch(mem, root, va / 0x80_0000_0000 % 512);
    assert Table(mem, root, 1, v / 512 / 512 / 512).Some? ==>
      Entry(mem, root, 2, v / 512 / 512) == Fetch(mem, Table(mem, root, 1, v / 512 / 512 / 512).value, va / 0x4000_0000 % 512);
    assert Table(mem, root, 2, v / 512 / 512).Some? ==>
      Entry(mem, root, 3, v / 512) == Fetch(mem, Table(mem, root, 2, v / 512 / 512).value, va / 0x20_0000 % 512);
  }

  predicate PathOk(level: nat, path: nat) {
    level <= 3 && path < Width(level)
  }

  /** The tables of all the roots are in memory, and no two places lead to the same table. */
  ghost predicate Forest(mem: Mem, roots: set<nat>) {
    && (forall r, l, p | r in roots && PathOk(l, p) && Table(mem, r, l, p).Some? :: Table(mem, r, l, p).value in mem)
    && (forall r, l, p, r', l', p' |
          r in roots && r' in roots && PathOk(l, p) && PathOk(l', p')
          && Table(mem, r, l, p).Some? && Table(mem, r', l', p') == Table(mem, r, l, p) :: (r, l, p) == (r', l', p'))
  }

  /** Frame f is a table of some root. */
  ghost predicate IsTable(mem: Mem, roots: set<nat>, f: nat) {
    exists r, l, p :: r in roots && PathOk(l, p) && Table(mem, r, l, p) == Some(f)
  }

  // ---------------------------------------------------------------- writes that move no table

  /** Changing a frame that is no table moves nothing. */
  lemma {:induction false} OutsideWrite(mem: Mem, roots: set<nat>, f: nat, page: Page, r: nat, l: nat, p: nat)
    requires r in roots && PathOk(l, p) && !IsTable(mem, roots, f)
    ensures Table(mem[f := page], r, l, p) == Table(mem, r, l, p)
    decreases l
  {
    if l > 0 {
      UpOne(l, p);
      OutsideWrite(mem, roots, f, page, r, l - 1, p / ENTRIES);
      var t := Table(mem, r, l - 1, p / ENTRIES);
      assert t.Some? ==> t.value != f;
    }
  }

  lemma OutsideWriteEntry(mem: Mem, roots: set<nat>, f: nat, page: Page, r: nat, v: nat)
    requires r in roots && v < Width(4) && !IsTable(mem, roots, f)
    ensures Entry(mem[f := page], r, 4, v) == Entry(mem, r, 4, v)
  {
    UpOne(4, v);
    OutsideWrite(mem, roots, f, page, r, 3, v / ENTRIES);
    var t := Table(mem, r, 3, v / ENTRIES);
    assert t.Some? ==> t.value != f;
  }

  /** Writing a word into table t, the one of root r0 at level l0 - 1 and path p0 / 512. */
  function Poke(mem: Mem, t: nat, i: nat, w: nat): (mem': Mem)
    requires t in mem && i < ENTRIES
  {
    mem[t := mem[t][i := w]]
  }

  /** Writing a leaf entry moves no table. */
  lemma {:induction false} LeafPokeTables(mem: Mem, roots: set<nat>, r0: nat, v0: nat, w: nat, r: nat, l: nat, p: nat)
    requires Forest(mem, roots) && r0 in roots && v0 < Width(4) && Table(mem, r0, 3, v0 / ENTRIES).Some?
    requires r in roots && PathOk(l, p)
    ensures Table(mem, r0, 3, v0 / ENTRIES).value in mem
    ensures Table(Poke(mem, Table(mem, r0, 3, v0 / ENTRIES).value, v0 % ENTRIES, w), r, l, p) == Table(mem, r, l, p)
    decreases l
  {
    UpPath(4, v0);
    OnePlace(mem, roots, r0, 3, v0 / ENTRIES, r0, 3, v0 / ENTRIES);
    if l > 0 {
      hide Forest, Width;
      UpPath(l, p);
      LeafPokeTables(mem, roots, r0, v0, w, r, l - 1, p / ENTRIES);
      if Table(mem, r, l - 1, p / ENTRIES) == Table(mem, r0, 3, v0 / ENTRIES) {
        OnePlace(mem, roots, r0, 3, v0 / ENTRIES, r, l - 1, p / ENTRIES);
      }
    }
  }

  /** Writing a leaf entry changes that entry and no other. */
  lemma LeafPokeEntry(mem: Mem, roots: set<nat>, r0: nat, v0: nat, w: nat, r: nat, v: nat)
    requires Forest(mem, roots) && r0 in roots && v0 < Width(4) && Table(mem, r0, 3, v0 / ENTRIES).Some?
    requires r in roots && v < Width(4)
    ensures Table(mem, r0, 3, v0 / ENTRIES).value in mem
    ensures Entry(Poke(mem, Table(mem, r0, 3, v0 / ENTRIES).value, v0 % ENTRIES, w), r, 4, v) ==
      if (r, v) == (r0, v0) then w else Entry(mem, r, 4, v)
  {
    UpOne(4, v0);
    UpOne(4, v);
    LeafPokeTables(mem, roots, r0, v0, w, r, 3, v / ENTRIES);
    var t0, t := Table(mem, r0, 3, v0 / ENTRIES), Table(mem, r, 3, v / ENTRIES);
    if t == t0 {
      OnePlace(mem, roots, r0, 3, v0 / ENTRIES, r, 3, v / ENTRIES);
    }
    SamePath(v, v0);
    hide Forest, Table;
  }

  lemma LeafPokeForest(mem: Mem, roots: set<nat>, r0: nat, v0: nat, w: nat)
    requires Forest(mem, roots) && r0 in roots && v0 < Width(4) && Table(mem, r0, 3, v0 / ENTRIES).Some?
    ensures Table(mem, r0, 3, v0 / ENTRIES).value in mem
    ensures Forest(Poke(mem, Table(mem, r0, 3, v0 / ENTRIES).value, v0 % ENTRIES, w), roots)
  {
    UpOne(4, v0);
    assert PathOk(3, v0 / ENTRIES);
    var mem' := Poke(mem, Table(mem, r0, 3, v0 / ENTRIES).value, v0 % ENTRIES, w);
    forall r: nat, l: nat, p: nat | r in roots && PathOk(l, p) ensures Table(mem', r, l, p) == Table(mem, r, l, p) {
      LeafPokeTables(mem, roots, r0, v0, w, r, l, p);
    }
  }

  // ---------------------------------------------------------------- hanging in a table

  /** Memory after a zeroed frame f has become the table at (r0, l0, p0). */
  ghost function Grown(mem: Mem, r0: nat, l0: nat, p0: nat, f: nat): (mem': Mem)
    requires 1 <= l0 <= 3 && f < FRAMES
    requires Table(mem, r0, l0 - 1, p0 / ENTRIES).Some? && Table(mem, r0, l0 - 1, p0 / ENTRIES).value in mem
  {
    Poke(mem[f := ZeroPage()], Table(mem, r0, l0 - 1, p0 / ENTRIES).value, p0 % ENTRIES, MakePte(f, PTE_TABLE))
  }

  /** f is a frame that is in no use as a table, and the place (r0, l0, p0) has a parent but no table. */
  ghost predicate CanGrow(mem: Mem, roots: set<nat>, r0: nat, l0: nat, p0: nat, f: nat) {
    && Forest(mem, roots) && r0 in roots && 1 <= l0 <= 3 && p0 < Width(l0)
    && Table(mem, r0, l0 - 1, p0 / ENTRIES).Some? && Table(mem, r0, l0 - 1, p0 / ENTRIES).value in mem
    && Table(mem, r0, l0, p0).None?
    && f in mem && f < FRAMES && !IsTable(mem, roots, f)
  }

  lemma OnePlace(mem: Mem, roots: set<nat>, r: nat, l: nat, p: nat, r': nat, l': nat, p': nat)
    requires Forest(mem, roots) && r in roots && r' in roots && PathOk(l, p) && PathOk(l', p')
    requires Table(mem, r, l, p).Some? && Table(mem, r', l', p') == Table(mem, r, l, p)
    ensures (r, l, p) == (r', l', p') && Table(mem, r, l, p).value in mem
  {
  }

  lemma NotTable(mem: Mem, roots: set<nat>, f: nat, r: nat, l: nat, p: nat)
    requires !IsTable(mem, roots, f) && r in roots && PathOk(l, p)
    ensures Table(mem, r, l, p) != Some(f)
  {
  }

  /** An entry after a table has been hung in, when the table that holds it is where it was. */
  lemma GrownEntry(mem: Mem, roots: set<nat>, r0: nat, l0: nat, p0: nat, f: nat, r: nat, l: nat, p: nat)
    requires CanGrow(mem, roots, r0, l0, p0, f) && r in roots && 1 <= l <= 4 && p < Width(l)
    requires (r, l - 1, p / ENTRIES) != (r0, l0, p0)
    requires Table(Grown(mem, r0, l0, p0, f), r, l - 1, p / ENTRIES) == Table(mem, r, l - 1, p / ENTRIES)
    ensures Entry(Grown(mem, r0, l0, p0, f), r, l, p) ==
      if (r, l, p) == (r0, l0, p0) then MakePte(f, PTE_TABLE) else Entry(mem, r, l, p)
  {
    hide CanGrow, Forest, IsTable, Table, Poke, MakePte, Entry, Grown, Width, PathOk;
    UpPath(l, p);
    GrowFacts(mem, roots, r0, l0, p0, f);
    var t0, t := Table(mem, r0, l0 - 1, p0 / ENTRIES), Table(mem, r, l - 1, p / ENTRIES);
    NotTable(mem, roots, f, r0, l0 - 1, p0 / ENTRIES);
    NotTable(mem, roots, f, r, l - 1, p / ENTRIES);
    if t == t0 {
      OnePlace(mem, roots, r0, l0 - 1, p0 / ENTRIES, r, l - 1, p / ENTRIES);
    }
    if t.Some? && t.value in mem {
      PokeRead(mem, f, t0.value, p0 % ENTRIES, MakePte(f, PTE_TABLE), t.value, p % ENTRIES);
    }
    SamePath(p, p0);
    EntryFrom(mem, r, l, p);
    EntryFrom(Grown(mem, r0, l0, p0, f), r, l, p);
  }

  lemma GrowFacts(mem: Mem, roots: set<nat>, r0: nat, l0: nat, p0: nat, f: nat)
    requires CanGrow(mem, roots, r0, l0, p0, f)
    ensures Forest(mem, roots) && r0 in roots && 1 <= l0 <= 3 && PathOk(l0 - 1, p0 / ENTRIES) && PathOk(l0, p0)
    ensures Table(mem, r0, l0 - 1, p0 / ENTRIES).Some? && Table(mem, r0, l0 - 1, p0 / ENTRIES).value in mem
    ensures f in mem && f < FRAMES && !IsTable(mem, roots, f) && Table(mem, r0, l0, p0).None?
    ensures Grown(mem, r0, l0, p0, f) ==
      Poke(mem[f := ZeroPage()], Table(mem, r0, l0 - 1, p0 / ENTRIES).value, p0 % ENTRIES, MakePte(f, PTE_TABLE))
    ensures Grown(mem, r0, l0, p0, f).Keys == mem.Keys
  {
    hide Forest, IsTable, Table, Entry;
    UpOne(l0, p0);
  }

  lemma UpPath(l: nat, p: nat)
    requires 1 <= l <= 4 && p < Width(l)
    ensures PathOk(l - 1, p / ENTRIES)
  {
    UpOne(l, p);
  }

  /** An entry is a word of the table that holds it. */
  lemma EntryFrom(mem: Mem, r: nat, l: nat, p: nat)
    requires 1 <= l <= 4
    ensures var t := Table(mem, r, l - 1, p / ENTRIES);
      Entry(mem, r, l, p) == if t.None? || t.value !in mem then 0 else mem[t.value][p % ENTRIES]
  {
  }

  lemma SamePath(p: nat, q: nat)
    ensures p / ENTRIES == q / ENTRIES && p % ENTRIES == q % ENTRIES ==> p == q
  {
  }

  /** Reading a word back after a frame was zeroed and another word written. */
  lemma PokeRead(mem: Mem, f: nat, t0: nat, i0: nat, w: nat, t: nat, i: nat)
    requires t0 in mem && t in mem && t != f && t0 != f && i0 < ENTRIES && i < ENTRIES
    ensures var mem' := Poke(mem[f := ZeroPage()], t0, i0, w);
      t in mem' && mem'[t][i] == if t == t0 && i == i0 then w else mem[t][i]
  {
  }

  /** The entries of a table that was just hung in are zero. */
  lemma GrownFresh(mem: Mem, roots: set<nat>, r0: nat, l0: nat, p0: nat, f: nat, l: nat, p: nat)
    requires CanGrow(mem, roots, r0, l0, p0, f) && l == l0 + 1 && p / ENTRIES == p0
    requires Table(Grown(mem, r0, l0, p0, f), r0, l0, p0) == Some(f)
    ensures Entry(Grown(mem, r0, l0, p0, f), r0, l, p) == 0 == Entry(mem, r0, l, p)
  {
    UpOne(l0, p0);
    NotTable(mem, roots, f, r0, l0 - 1, p0 / ENTRIES);
  }

  /** Hanging in a table makes exactly one new table appear. */
  lemma {:induction false} GrownTables(mem: Mem, roots: set<nat>, r0: nat, l0: nat, p0: nat, f: nat, r: nat, l: nat, p: nat)
    requires CanGrow(mem, roots, r0, l0, p0, f) && r in roots && PathOk(l, p)
    ensures Table(Grown(mem, r0, l0, p0, f), r, l, p) == if (r, l, p) == (r0, l0, p0) then Some(f) else Table(mem, r, l, p)
    decreases l
  {
    if l > 0 {
      UpOne(l, p);
      GrownTables(mem, roots, r0, l0, p0, f, r, l - 1, p / ENTRIES);
      GrownBelow(mem, roots, r0, l0, p0, f, r, l, p, p / ENTRIES);
      GrownTableFrom(mem, r0, l0, p0, f, r, l, p);
    }
  }

  /** One level below tables that are as before but for the new one. */
  lemma GrownBelow(
    mem: Mem, roots: set<nat>, r0: nat, l0: nat, p0: nat, f: nat, r: nat, l: nat, p: nat, q: nat)
    requires CanGrow(mem, roots, r0, l0, p0, f) && r in roots && 1 <= l <= 3 && p < Width(l) && q == p / ENTRIES
    requires Table(Grown(mem, r0, l0, p0, f), r, l - 1, q) ==
      if (r, l - 1, q) == (r0, l0, p0) then Some(f) else Table(mem, r, l - 1, q)
    ensures Entry(Grown(mem, r0, l0, p0, f), r, l, p) ==
      if (r, l, p) == (r0, l0, p0) then MakePte(f, PTE_TABLE) else Entry(mem, r, l, p)
  {
    hide Table, Entry, Grown, Forest, IsTable, MakePte, Width;
    if (r, l - 1, q) == (r0, l0, p0) {
      GrownFresh(mem, roots, r0, l0, p0, f, l, p);
    } else {
      GrownEntry(mem, roots, r0, l0, p0, f, r, l, p);
    }
  }

  lemma GrownTableFrom(mem: Mem, r0: nat, l0: nat, p0: nat, f: nat, r: nat, l: nat, p: nat)
    requires f < FRAMES && 1 <= l0 <= 3 && 1 <= l <= 3 && Table(mem, r0, l0 - 1, p0 / ENTRIES).Some?
    requires Table(mem, r0, l0 - 1, p0 / ENTRIES).value in mem
    requires Entry(Grown(mem, r0, l0, p0, f), r, l, p) ==
      if (r, l, p) == (r0, l0, p0) then MakePte(f, PTE_TABLE) else Entry(mem, r, l, p)
    ensures Table(Grown(mem, r0, l0, p0, f), r, l, p) == if (r, l, p) == (r0, l0, p0) then Some(f) else Table(mem, r, l, p)
  {
    TableFrom(mem, r, l, p);
    TableFrom(Grown(mem, r0, l0, p0, f), r, l, p);
    MakePteIs(f, PTE_TABLE);
    hide Table, Entry, Grown, PteValid, PteFrame, MakePte;
  }

  lemma TableFrom(mem: Mem, r: nat, l: nat, p: nat)
    requires l <= 3
    ensures l == 0 ==> Table(mem, r, l, p) == Some(r)
    ensures l > 0 ==>
      Table(mem, r, l, p) == if PteValid(Entry(mem, r, l, p)) then Some(PteFrame(Entry(mem, r, l, p))) else None
  {
    hide Entry;
  }

  /** Hanging in a table changes no leaf entry. */
  lemma GrownLeaves(mem: Mem, roots: set<nat>, r0: nat, l0: nat, p0: nat, f: nat, r: nat, v: nat)
    requires CanGrow(mem, roots, r0, l0, p0, f) && r in roots && v < Width(4)
    ensures Entry(Grown(mem, r0, l0, p0, f), r, 4, v) == Entry(mem, r, 4, v)
  {
    UpOne(4, v);
    GrownTables(mem, roots, r0, l0, p0, f, r, 3, v / ENTRIES);
    if (r, 3, v / ENTRIES) == (r0, l0, p0) {
      GrownFresh(mem, roots, r0, l0, p0, f, 4, v);
    } else {
      GrownEntry(mem, roots, r0, l0, p0, f, r, 4, v);
    }
  }

  lemma GrownForest(mem: Mem, roots: set<nat>, r0: nat, l0: nat, p0: nat, f: nat)
    requires CanGrow(mem, roots, r0, l0, p0, f)
    ensures Forest(Grown(mem, r0, l0, p0, f), roots)
    ensures forall g :: IsTable(Grown(mem, r0, l0, p0, f), roots, g) <==> g == f || IsTable(mem, roots, g)
  {
    var mem' := Grown(mem, r0, l0, p0, f);
    forall r: nat, l: nat, p: nat | r in roots && PathOk(l, p)
      ensures Table(mem', r, l, p) == if (r, l, p) == (r0, l0, p0) then Some(f) else Table(mem, r, l, p)
    {
      GrownTables(mem, roots, r0, l0, p0, f, r, l, p);
    }
    hide Grown;
    assert PathOk(l0, p0);
    forall g ensures IsTable(mem', roots, g) <==> g == f || IsTable(mem, roots, g) {
      if r, l, p :| r in roots && PathOk(l, p) && Table(mem, r, l, p) == Some(g) {
        assert Table(mem', r, l, p) == Some(g);
      }
      assert Table(mem', r0, l0, p0) == Some(f);
    }
    GrownKeys(mem, r0, l0, p0, f);
  }

  lemma GrownKeys(mem: Mem, r0: nat, l0: nat, p0: nat, f: nat)
    requires 1 <= l0 <= 3 && f < FRAMES && f in mem
    requires Table(mem, r0, l0 - 1, p0 / ENTRIES).Some? && Table(mem, r0, l0 - 1, p0 / ENTRIES).value in mem
    ensures Grown(mem, r0, l0, p0, f).Keys == mem.Keys
  {
  }

  // ---------------------------------------------------------------- address spaces

  /** Frame f is in memory and is neither a table nor free. */
  ghost predicate IsData(mem: Mem, roots: set<nat>, free: seq<nat>, f: nat) {
    f in mem && f !in free && !IsTable(mem, roots, f)
  }

  /** The free frames are distinct and no tables; leaf entries lead to data frames. */
  ghost predicate Space(mem: Mem, roots: set<nat>, free: seq<nat>) {
    && Forest(mem, roots)
    && NoDup(free)
    && (forall i | 0 <= i < |free| :: free[i] in mem && free[i] < FRAMES && !IsTable(mem, roots, free[i]))
    && (forall r, v | r in roots && 0 <= v < Width(4) && PteValid(Entry(mem, r, 4, v)) ::
          IsData(mem, roots, free, PteFrame(Entry(mem, r, 4, v))))
  }

  ghost predicate SameLeaves(mem: Mem, mem': Mem, roots: set<nat>) {
    forall r, v | r in roots && 0 <= v < Width(4) :: Entry(mem', r, 4, v) == Entry(mem, r, 4, v)
  }

  /** Data frames stay data frames and keep their contents. */
  ghost predicate SameData(mem: Mem, free: seq<nat>, mem': Mem, free': seq<nat>, roots: set<nat>) {
    forall f: nat | IsData(mem, roots, free, f) :: IsData(mem', roots, free', f) && mem'[f] == mem[f]
  }

  /** Tables stay where they are; new ones may have appeared. */
  ghost predicate TablesKept(mem: Mem, mem': Mem, roots: set<nat>) {
    forall r, l, p | r in roots && PathOk(l, p) && Table(mem, r, l, p).Some? :: Table(mem', r, l, p) == Table(mem, r, l, p)
  }

  lemma GrowSpace(mem: Mem, roots: set<nat>, free: seq<nat>, r0: nat, l0: nat, p0: nat)
    requires Space(mem, roots, free) && free != [] && CanGrow(mem, roots, r0, l0, p0, free[0])
    ensures var mem' := Grown(mem, r0, l0, p0, free[0]);
      && Space(mem', roots, free[1..]) && mem'.Keys == mem.Keys
      && SameLeaves(mem, mem', roots) && SameData(mem, free, mem', free[1..], roots)
      && Table(mem', r0, l0, p0) == Some(free[0]) && TablesKept(mem, mem', roots)
  {
    hide Grown, CanGrow, Table, Entry, Forest, IsTable, Space, SameLeaves, SameData;
    var f := free[0];
    GrowFacts(mem, roots, r0, l0, p0, f);
    var mem' := Grown(mem, r0, l0, p0, f);
    GrownForest(mem, roots, r0, l0, p0, f);
    forall r: nat, l: nat, p: nat | r in roots && PathOk(l, p)
      ensures Table(mem', r, l, p) == if (r, l, p) == (r0, l0, p0) then Some(f) else Table(mem, r, l, p)
    {
      GrownTables(mem, roots, r0, l0, p0, f, r, l, p);
    }
    forall r, v | r in roots && 0 <= v < Width(4) ensures Entry(mem', r, 4, v) == Entry(mem, r, 4, v) {
      GrownLeaves(mem, roots, r0, l0, p0, f, r, v);
    }
    GrownData(mem, roots, r0, l0, p0, f);
    LessFree(mem, mem', roots, free);
  }

  /** The first free frame has become a table. */
  lemma LessFree(mem: Mem, mem': Mem, roots: set<nat>, free: seq<nat>)
    requires Space(mem, roots, free) && free != [] && mem'.Keys == mem.Keys && Forest(mem', roots)
    requires forall g :: IsTable(mem', roots, g) <==> g == free[0] || IsTable(mem, roots, g)
    requires forall r, v | r in roots && 0 <= v < Width(4) :: Entry(mem', r, 4, v) == Entry(mem, r, 4, v)
    requires forall g | g in mem && g != free[0] && !IsTable(mem, roots, g) :: g in mem' && mem'[g] == mem[g]
    ensures Space(mem', roots, free[1..]) && SameLeaves(mem, mem', roots) && SameData(mem, free, mem', free[1..], roots)
  {
    hide Table, Entry, Forest, IsTable, Width;
    assert free == [free[0]] + free[1..];
  }

  lemma GrownData(mem: Mem, roots: set<nat>, r0: nat, l0: nat, p0: nat, f: nat)
    requires CanGrow(mem, roots, r0, l0, p0, f)
    ensures forall g | g in mem && g != f && !IsTable(mem, roots, g) ::
      g in Grown(mem, r0, l0, p0, f) && Grown(mem, r0, l0, p0, f)[g] == mem[g]
  {
    UpOne(l0, p0);
    var t := Table(mem, r0, l0 - 1, p0 / ENTRIES).value;
    assert PathOk(l0 - 1, p0 / ENTRIES);
    assert IsTable(mem, roots, t);
  }

  /** Writing the leaf entry of page v0 in an address space. */
  lemma PokeSpace(mem: Mem, roots: set<nat>, free: seq<nat>, r0: nat, v0: nat, w: nat)
    requires Space(mem, roots, free) && r0 in roots && v0 < Width(4) && Table(mem, r0, 3, v0 / ENTRIES).Some?
    requires PteValid(w) ==> IsData(mem, roots, free, PteFrame(w))
    ensures Table(mem, r0, 3, v0 / ENTRIES).value in mem
    ensures var mem' := Poke(mem, Table(mem, r0, 3, v0 / ENTRIES).value, v0 % ENTRIES, w);
      && Space(mem', roots, free) && mem'.Keys == mem.Keys && SameData(mem, free, mem', free, roots)
      && (forall r, v | r in roots && 0 <= v < Width(4) ::
            Entry(mem', r, 4, v) == if r == r0 && v == v0 then w else Entry(mem, r, 4, v))
      && (forall r, l, p | r in roots && PathOk(l, p) :: Table(mem', r, l, p) == Table(mem, r, l, p))
      && (forall g :: IsTable(mem', roots, g) <==> IsTable(mem, roots, g))
  {
    UpOne(4, v0);
    assert PathOk(3, v0 / ENTRIES);
    var t := Table(mem, r0, 3, v0 / ENTRIES).value;
    assert IsTable(mem, roots, t);
    LeafPokeForest(mem, roots, r0, v0, w);
    var mem' := Poke(mem, t, v0 % ENTRIES, w);
    forall r, v | r in roots && 0 <= v < Width(4)
      ensures Entry(mem', r, 4, v) == if r == r0 && v == v0 then w else Entry(mem, r, 4, v)
    {
      LeafPokeEntry(mem, roots, r0, v0, w, r, v);
    }
    forall r: nat, l: nat, p: nat | r in roots && PathOk(l, p) ensures Table(mem', r, l, p) == Table(mem, r, l, p) {
      LeafPokeTables(mem, roots, r0, v0, w, r, l, p);
    }
    SameTables(mem, mem', roots);
    hide Table, Entry, Forest, IsTable;
  }

  lemma SameTables(mem: Mem, mem': Mem, roots: set<nat>)
    requires forall r: nat, l: nat, p: nat | r in roots && PathOk(l, p) :: Table(mem', r, l, p) == Table(mem, r, l, p)
    ensures forall g :: IsTable(mem', roots, g) <==> IsTable(mem, roots, g)
  {
    forall g: nat ensures IsTable(mem', roots, g) <==> IsTable(mem, roots, g) {
      if r, l, p :| r in roots && PathOk(l, p) && Table(mem, r, l, p) == Some(g) {
        assert Table(mem', r, l, p) == Some(g);
      }
      if r, l, p :| r in roots && PathOk(l, p) && Table(mem', r, l, p) == Some(g) {
        assert Table(mem, r, l, p) == Some(g);
      }
    }
  }

  /** A free frame taken for data: its contents change, no table and no leaf entry does. */
  lemma TakeSpace(mem: Mem, roots: set<nat>, free: seq<nat>, page: Page)
    requires Space(mem, roots, free) && free != []
    ensures var mem' := mem[free[0] := page];
      && Space(mem', roots, free[1..]) && mem'.Keys == mem.Keys && SameLeaves(mem, mem', roots)
      && SameData(mem, free, mem', free[1..], roots) && IsData(mem', roots, free[1..], free[0])
      && (forall r, l, p | r in roots && PathOk(l, p) :: Table(mem', r, l, p) == Table(mem, r, l, p))
  {
    var f := free[0];
    var mem' := mem[f := page];
    forall r: nat, l: nat, p: nat | r in roots && PathOk(l, p) ensures Table(mem', r, l, p) == Table(mem, r, l, p) {
      OutsideWrite(mem, roots, f, page, r, l, p);
    }
    forall r: nat, v: nat | r in roots && 0 <= v < Width(4) ensures Entry(mem', r, 4, v) == Entry(mem, r, 4, v) {
      OutsideWriteEntry(mem, roots, f, page, r, v);
    }
    SameTables(mem, mem', roots);
    hide Table, Entry, IsTable;
    assert free == [f] + free[1..];
  }

  /** A zeroed root has no other tables. */
  lemma {:induction false} EmptyRoot(mem: Mem, f: nat, l: nat, p: nat)
    requires f in mem && mem[f] == ZeroPage() && 1 <= l <= 4
    ensures Entry(mem, f, l, p) == 0 && (l <= 3 ==> Table(mem, f, l, p).None?)
    decreases l
  {
    if l > 1 {
      EmptyRoot(mem, f, l - 1, p / ENTRIES);
    }
  }

  /** A free frame zeroed and taken for a new root. */
  lemma RootSpace(mem: Mem, roots: set<nat>, free: seq<nat>)
    requires Space(mem, roots, free) && free != []
    ensures var f := free[0]; var mem' := mem[f := ZeroPage()];
      && f !in roots && Space(mem', roots + {f}, free[1..]) && SameLeaves(mem, mem', roots)
      && (forall v | 0 <= v < Width(4) :: Entry(mem', f, 4, v) == 0)
      && (forall g: nat | IsData(mem, roots, free, g) :: IsData(mem', roots + {f}, free[1..], g) && mem'[g] == mem[g])
      && (forall l, p | PathOk(l, p) && l > 0 :: Table(mem', f, l, p).None?)
      && (forall r, l, p | r in roots && PathOk(l, p) :: Table(mem', r, l, p) == Table(mem, r, l, p))
  {
    var f := free[0];
    var mem' := mem[f := ZeroPage()];
    TakeSpace(mem, roots, free, ZeroPage());
    forall v: nat | 0 <= v < Width(4) ensures Entry(mem', f, 4, v) == 0 { EmptyRoot(mem', f, 4, v); }
    forall l: nat, p: nat | PathOk(l, p) && l > 0 ensures Table(mem', f, l, p).None? { EmptyRoot(mem', f, l, p); }
    RootIsTable(mem, roots, f);
    MoreTables(mem', roots, f);
    MoreForest(mem', roots, f);
    hide Table, Entry, IsTable, Forest;
  }

  lemma RootIsTable(mem: Mem, roots: set<nat>, r: nat)
    ensures r in roots ==> IsTable(mem, roots, r)
  {
    assert PathOk(0, 0) && Table(mem, r, 0, 0) == Some(r);
  }

  /** With an empty root added, it is the one new table. */
  lemma MoreTables(mem: Mem, roots: set<nat>, f: nat)
    requires forall l: nat, p: nat | PathOk(l, p) && l > 0 :: Table(mem, f, l, p).None?
    ensures forall g :: IsTable(mem, roots + {f}, g) <==> g == f || IsTable(mem, roots, g)
  {
    assert PathOk(0, 0) && Table(mem, f, 0, 0) == Some(f);
    forall g: nat ensures IsTable(mem, roots + {f}, g) <==> g == f || IsTable(mem, roots, g) {
      if r, l, p :| r in roots && PathOk(l, p) && Table(mem, r, l, p) == Some(g) {
        assert r in roots + {f};
      }
      if r, l, p :| r in roots + {f} && PathOk(l, p) && Table(mem, r, l, p) == Some(g) {
        assert r == f ==> l == 0;
      }
    }
  }

  lemma MoreForest(mem: Mem, roots: set<nat>, f: nat)
    requires Forest(mem, roots) && f in mem && !IsTable(mem, roots, f)
    requires forall l: nat, p: nat | PathOk(l, p) && l > 0 :: Table(mem, f, l, p).None?
    ensures Forest(mem, roots + {f})
  {
    forall r: nat, l: nat, p: nat | r in roots + {f} && PathOk(l, p) && Table(mem, r, l, p).Some?
      ensures Table(mem, r, l, p).value in mem && (Table(mem, r, l, p).value == f ==> r == f) && (r == f ==> l == 0 && p == 0)
    {
      if r in roots {
        NotTable(mem, roots, f, r, l, p);
      }
    }
    forall r: nat, l: nat, p: nat, r': nat, l': nat, p': nat |
      r in roots + {f} && r' in roots + {f} && PathOk(l, p) && PathOk(l', p')
      && Table(mem, r, l, p).Some? && Table(mem, r', l', p') == Table(mem, r, l, p)
      ensures (r, l, p) == (r', l', p')
    {
      if r != f && r' != f {
        OnePlace(mem, roots, r, l, p, r', l', p');
      }
    }
  }
}
