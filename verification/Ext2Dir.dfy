/** ext2_dirlookup, ext2_dirlink, ext2_unlink and ext2_isdirempty of kern/ext2.c over the bytes of the directory's
blocks.  The specification is a finite map from names to inodes.
*/
module Ext2Dir {
  import opened Common
  import opened DirRecords

  // ---------------------------------------------------------------- edits of one block

  /** Writing name_len, name, inode and file_type of the record at o. */
  function Filled(b: Block, o: nat, name: Name, inum: nat, ft: Byte): (b': Block)
    requires o + 8 + |name| <= |b| && |name| < 256 && inum < 0x1_0000_0000
  {
    Put32(PutName(b[o + 6 := |name|], o + 8, name), o, inum)[o + 7 := ft]
  }

  lemma FilledRec(b: Block, o: nat, name: Name, inum: nat, ft: Byte)
    requires o + 8 <= |b| && LenAt(b, o) % 4 == 0 && RecLen(|name|) <= LenAt(b, o) && o + LenAt(b, o) <= |b|
    requires 0 < |name| < 256 && inum < 0x1_0000_0000
    ensures var b' := Filled(b, o, name, inum, ft);
      && RecOk(b', o) && RecAt(b', o) == Rec(inum, LenAt(b, o), ft, name) && LenAt(b', o) == LenAt(b, o)
      && SameBytes(b, b', 0, o) && SameBytes(b, b', o + LenAt(b, o), |b|)
  {
    var b1 := PutName(b[o + 6 := |name|], o + 8, name);
    var b' := Filled(b, o, name, inum, ft);
    assert b1[o + 4] == b[o + 4] && b1[o + 5] == b[o + 5] && b1[o + 6] == |name|;
    assert b'[o + 4] == b[o + 4] && b'[o + 5] == b[o + 5] && b'[o + 6] == |name|;
    assert b'[o + 8..o + 8 + |name|] == b1[o + 8..o + 8 + |name|];
    assert Get32(b', o) == Get32(Put32(b1, o, inum), o);
  }

  /** Cutting the record at o after nl bytes. */
  function Cut(b: Block, o: nat, nl: nat): (b': Block)
    requires RecOk(b, o) && 8 <= nl <= LenAt(b, o) - 8
  {
    Put16(Put16(b, o + nl + 4, LenAt(b, o) - nl), o + 4, nl)
  }

  lemma CutRec(b: Block, o: nat)
    requires RecOk(b, o) && RecLen(b[o + 6]) <= LenAt(b, o) - 8
    ensures var nl := RecLen(b[o + 6]); var b' := Cut(b, o, nl);
      && RecOk(b', o) && RecAt(b', o) == RecAt(b, o).(len := nl) && LenAt(b', o) == nl
      && o + nl + 8 <= |b'| && LenAt(b', o + nl) == LenAt(b, o) - nl
      && SameBytes(b, b', 0, o) && SameBytes(b, b', o + LenAt(b, o), |b|)
  {
    var nl := RecLen(b[o + 6]);
    var b' := Cut(b, o, nl);
    assert forall i | o <= i < o + 4 || o + 6 <= i < o + nl :: b'[i] == b[i];
    assert b'[o + 8..o + 8 + b[o + 6]] == b[o + 8..o + 8 + b[o + 6]];
  }

  /** Making the record at p reach to y, over the one at x, which is marked unused. */
  function Merged(b: Block, p: nat, x: nat, y: nat): (b': Block)
    requires p + 8 <= x && x + 8 <= y <= |b| && y - p < 0x1_0000
  {
    Put32(Put16(b, p + 4, y - p), x, 0)
  }

  lemma MergedRec(b: Block, p: nat, x: nat, y: nat)
    requires RecOk(b, p) && x == p + LenAt(b, p) && RecOk(b, x) && y == x + LenAt(b, x) && |b| < 0x1_0000
    ensures var b' := Merged(b, p, x, y);
      && RecOk(b', p) && RecAt(b', p) == RecAt(b, p).(len := y - p) && LenAt(b', p) == y - p
      && SameBytes(b, b', 0, p) && SameBytes(b, b', y, |b|)
  {
    RecStep(b, p);
    RecStep(b, x);
    hide RecOk, RecAt;
    var b1, b' := Put16(b, p + 4, y - p), Merged(b, p, x, y);
    assert Get16(b', p + 4) == Get16(b1, p + 4);
    MergedLen(b, p, x, y);
    LenChanged(b, b', p, y - p);
  }

  lemma MergedLen(b: Block, p: nat, x: nat, y: nat)
    requires RecOk(b, p) && x == p + LenAt(b, p) && RecOk(b, x) && y == x + LenAt(b, x)
    ensures (y - p) % 4 == 0 && RecLen(b[p + 6]) <= x - p <= y - p && p + 8 + b[p + 6] <= x
  {
    hide Get32, Get16;
  }

  /** Only the length of a record has changed. */
  lemma LenChanged(b: Block, b': Block, o: nat, len: nat)
    requires RecOk(b, o) && |b'| == |b| && LenAt(b', o) == len && len % 4 == 0 && RecLen(b[o + 6]) <= len && o + len <= |b|
    requires forall i | o <= i < o + 4 || o + 6 <= i < o + 8 + b[o + 6] :: b'[i] == b[i]
    ensures RecOk(b', o) && RecAt(b', o) == RecAt(b, o).(len := len)
  {
    hide RecLen;
    assert b'[o + 8..o + 8 + b[o + 6]] == b[o + 8..o + 8 + b[o + 6]];
    assert Get32(b', o) == Get32(b, o);
  }

  lemma KilledRec(b: Block, x: nat)
    requires RecOk(b, x)
    ensures var b' := Put32(b, x, 0);
      && RecOk(b', x) && RecAt(b', x) == RecAt(b, x).(inode := 0) && LenAt(b', x) == LenAt(b, x)
      && SameBytes(b, b', 0, x) && SameBytes(b, b', x + LenAt(b, x), |b|)
  {
    var b' := Put32(b, x, 0);
    assert forall i | x + 4 <= i < |b| :: b'[i] == b[i];
    assert b'[x + 8..x + 8 + b[x + 6]] == b[x + 8..x + 8 + b[x + 6]];
  }

  // ---------------------------------------------------------------- what an edit does to the records

  /** From b to b', the records between offsets x and y change from rs to rs', and no other bytes do. */
  ghost predicate Swap(b: Block, b': Block, x: nat, y: nat, rs: seq<Rec>, rs': seq<Rec>) {
    && Reaches(b, x, y) && Before(b, x, y) == rs && Reaches(b', x, y) && Before(b', x, y) == rs' && y <= |b|
    && SameBytes(b, b', 0, x) && SameBytes(b, b', y, |b|)
  }

  /** The other records stay. */
  lemma Replaced(b: Block, b': Block, x: nat, y: nat, rs: seq<Rec>, rs': seq<Rec>)
    requires Tiled(b, 0) && Reaches(b, 0, x) && Swap(b, b', x, y, rs, rs')
    ensures |b'| == |b| && Tiled(b', 0) && Tiled(b, y)
    ensures Live(Parse(b, 0)) == Live(Before(b, 0, x)) + Live(rs) + Live(Parse(b, y))
    ensures Live(Parse(b', 0)) == Live(Before(b, 0, x)) + Live(rs') + Live(Parse(b, y))
  {
    hide RecOk, RecAt, LenAt, Live, SameBytes, Reaches, Before, Tiled, Parse;
    SameLength(b, b', 0, x);
    ReachesBounds(b, 0, x);
    SplitAt(b, 0, x);
    SplitAt(b, x, y);
    BeforeSame(b, b', 0, x);
    TailSame(b, b', y);
    JoinAt(b', x, y);
    JoinAt(b', 0, x);
    LiveParts(Before(b, 0, x), rs, Parse(b, y));
    LiveParts(Before(b, 0, x), rs', Parse(b, y));
  }

  lemma LiveParts(a: seq<Rec>, m: seq<Rec>, c: seq<Rec>)
    ensures Live(a + (m + c)) == Live(a) + Live(m) + Live(c)
  {
    hide Live;
    LiveConcat(a, m + c);
    LiveConcat(m, c);
    Assoc(Live(a), Live(m), Live(c));
  }

  lemma OneRec(b: Block, o: nat)
    requires RecOk(b, o)
    ensures Reaches(b, o, o + LenAt(b, o)) && Before(b, o, o + LenAt(b, o)) == [RecAt(b, o)]
  {
    RecStep(b, o);
    hide RecOk, RecAt, LenAt;
    assert Reaches(b, o + LenAt(b, o), o + LenAt(b, o));
  }

  lemma TwoRecs(b: Block, o: nat, x: nat)
    requires RecOk(b, o) && x == o + LenAt(b, o) && RecOk(b, x)
    ensures Reaches(b, o, x + LenAt(b, x)) && Before(b, o, x + LenAt(b, x)) == [RecAt(b, o), RecAt(b, x)]
  {
    OneRec(b, o);
    hide RecOk, RecAt, LenAt;
    ReachesNext(b, o, x);
  }

  lemma LiveTwo(r: Rec, s: Rec)
    ensures Live([r]) == LiveOf(r) && Live([r, s]) == LiveOf(r) + LiveOf(s)
  {
    assert [r][1..] == [] && [r, s][1..] == [s] && [s][1..] == [];
  }

  // ---------------------------------------------------------------- the three edits

  lemma Fits(b: Block, o: nat, n: nat)
    requires RecOk(b, o) && RecLen(n) <= LenAt(b, o)
    ensures o + 8 + n <= |b| && o + 8 <= o + LenAt(b, o) <= |b| && LenAt(b, o) % 4 == 0
    ensures RecAt(b, o).inode == Get32(b, o)
  {
    hide Get32, Get16;
  }

  lemma CutFits(b: Block, o: nat, n: nat)
    requires RecOk(b, o) && RecLen(b[o + 6]) + RecLen(n) <= LenAt(b, o)
    ensures var nl := RecLen(b[o + 6]);
      && 8 <= nl && nl + 8 <= LenAt(b, o) && o + nl + 8 + n <= |b| && o + LenAt(b, o) <= |b|
      && LenAt(b, o) % 4 == 0 && (LenAt(b, o) - nl) % 4 == 0 && |Cut(b, o, nl)| == |b|
  {
    hide Get32;
  }

  /** Block b has become b', and the binding x has come in between a and c. */
  ghost predicate Gains(b: Block, b': Block, a: seq<Binding>, c: seq<Binding>, x: Binding) {
    && |b'| == |b| && Tiled(b, 0) && Tiled(b', 0)
    && Live(Parse(b, 0)) == a + c && Live(Parse(b', 0)) == a + [x] + c
  }

  lemma FillSwap(b: Block, o: nat, name: Name, inum: nat, ft: Byte)
    requires RecOk(b, o) && RecLen(|name|) <= LenAt(b, o) && 0 < |name| < 256 && inum < 0x1_0000_0000
    ensures Swap(b, Filled(b, o, name, inum, ft), o, o + LenAt(b, o), [RecAt(b, o)], [Rec(inum, LenAt(b, o), ft, name)])
  {
    FilledRec(b, o, name, inum, ft);
    var b' := Filled(b, o, name, inum, ft);
    hide Filled, RecAt, LenAt, SameBytes, Reaches, Before;
    OneRec(b, o);
    OneRec(b', o);
  }

  lemma CutSwap(b: Block, o: nat, name: Name, inum: nat, ft: Byte)
    requires RecOk(b, o) && RecLen(b[o + 6]) + RecLen(|name|) <= LenAt(b, o) && 0 < |name| < 256 && inum < 0x1_0000_0000
    ensures var nl := RecLen(b[o + 6]); Swap(b, Filled(Cut(b, o, nl), o + nl, name, inum, ft), o, o + LenAt(b, o),
      [RecAt(b, o)], [RecAt(b, o).(len := nl), Rec(inum, LenAt(b, o) - nl, ft, name)])
  {
    hide Filled, Cut, RecAt, LenAt, SameBytes, Reaches, Before, RecOk, RecLen;
    CutFits(b, o, |name|);
    var nl, y := RecLen(b[o + 6]), o + LenAt(b, o);
    var b1 := Cut(b, o, nl);
    CutRec(b, o);
    FilledRec(b1, o + nl, name, inum, ft);
    var b' := Filled(b1, o + nl, name, inum, ft);
    SameLength(b, b1, 0, o);
    LessBytes(b1, b', 0, o + nl, o, o + nl);
    LessBytes(b1, b', 0, o + nl, 0, o);
    RecSame(b1, b', o);
    BytesTrans(b, b1, b', 0, o);
    BytesTrans(b, b1, b', y, |b|);
    OneRec(b, o);
    TwoRecs(b', o, o + nl);
  }

  /** Filling an unused record. */
  lemma FillGains(b: Block, o: nat, name: Name, inum: nat, ft: Byte) returns (a: seq<Binding>, c: seq<Binding>)
    requires Tiled(b, 0) && Reaches(b, 0, o) && RecOk(b, o) && Get32(b, o) == 0 && RecLen(|name|) <= LenAt(b, o)
    requires 0 < |name| < 256 && 0 < inum < 0x1_0000_0000
    ensures Gains(b, Filled(b, o, name, inum, ft), a, c, Binding(name, File(inum, ft)))
  {
    hide RecOk, RecAt, LenAt, Live, Reaches, Before, Tiled, Parse, Filled, Swap, Get32, RecLen;
    Fits(b, o, |name|);
    FillSwap(b, o, name, inum, ft);
    var b', r, r' := Filled(b, o, name, inum, ft), RecAt(b, o), Rec(inum, LenAt(b, o), ft, name);
    var y := o + LenAt(b, o);
    Replaced(b, b', o, y, [r], [r']);
    LiveTwo(r, r);
    LiveTwo(r', r');
    a, c := Live(Before(b, 0, o)), Live(Parse(b, y));
    assert a + [] + c == a + c;
  }

  /** Cutting a record and filling its tail. */
  lemma CutGains(b: Block, o: nat, name: Name, inum: nat, ft: Byte) returns (a: seq<Binding>, c: seq<Binding>)
    requires Tiled(b, 0) && Reaches(b, 0, o) && RecOk(b, o) && RecLen(b[o + 6]) + RecLen(|name|) <= LenAt(b, o)
    requires 0 < |name| < 256 && 0 < inum < 0x1_0000_0000
    ensures var nl := RecLen(b[o + 6]);
      Gains(b, Filled(Cut(b, o, nl), o + nl, name, inum, ft), a, c, Binding(name, File(inum, ft)))
  {
    hide RecOk, RecAt, LenAt, Live, Reaches, Before, Tiled, Parse, Filled, Cut, Swap, RecLen;
    CutFits(b, o, |name|);
    CutSwap(b, o, name, inum, ft);
    var nl, y, r := RecLen(b[o + 6]), o + LenAt(b, o), RecAt(b, o);
    var b', r' := Filled(Cut(b, o, nl), o + nl, name, inum, ft), Rec(inum, LenAt(b, o) - nl, ft, name);
    Replaced(b, b', o, y, [r], [r.(len := nl), r']);
    LiveTwo(r, r);
    LiveTwo(r.(len := nl), r');
    a, c := Live(Before(b, 0, o)) + LiveOf(r), Live(Parse(b, y));
    hide LiveOf;
    Assoc(Live(Before(b, 0, o)), LiveOf(r), [Binding(name, File(inum, ft))]);
  }

  lemma BytesTrans(b: Block, b1: Block, b': Block, from: nat, to: nat)
    requires SameBytes(b, b1, from, to) && SameBytes(b1, b', from, to)
    ensures SameBytes(b, b', from, to)
  {
  }

  /** Block b has become b', and the binding x between a and c is gone. */
  ghost predicate Loses(b: Block, b': Block, a: seq<Binding>, c: seq<Binding>, x: Binding) {
    && |b'| == |b| && Tiled(b, 0) && Tiled(b', 0)
    && Live(Parse(b, 0)) == a + [x] + c && Live(Parse(b', 0)) == a + c
  }

  lemma MergeSwap(b: Block, p: nat, x: nat, y: nat)
    requires RecOk(b, p) && x == p + LenAt(b, p) && RecOk(b, x) && y == x + LenAt(b, x) && |b| < 0x1_0000
    ensures p + 8 <= x && x + 8 <= y <= |b|
    ensures Swap(b, Merged(b, p, x, y), p, y, [RecAt(b, p), RecAt(b, x)], [RecAt(b, p).(len := y - p)])
  {
    hide RecOk, RecAt, LenAt, Merged, SameBytes, Reaches, Before;
    RecStep(b, p);
    RecStep(b, x);
    MergedRec(b, p, x, y);
    var b' := Merged(b, p, x, y);
    TwoRecs(b, p, x);
    OneRec(b', p);
  }

  lemma KillSwap(b: Block, x: nat)
    requires RecOk(b, x)
    ensures Swap(b, Put32(b, x, 0), x, x + LenAt(b, x), [RecAt(b, x)], [RecAt(b, x).(inode := 0)])
  {
    KilledRec(b, x);
    var b' := Put32(b, x, 0);
    hide RecAt, LenAt, SameBytes, Reaches, Before;
    OneRec(b, x);
    OneRec(b', x);
  }

  /** Unlinking a record that has one before it. */
  lemma MergeLoses(b: Block, p: nat, x: nat, y: nat) returns (a: seq<Binding>, c: seq<Binding>)
    requires Tiled(b, 0) && Reaches(b, 0, p) && RecOk(b, p) && x == p + LenAt(b, p) && |b| < 0x1_0000
    requires RecOk(b, x) && y == x + LenAt(b, x) && RecAt(b, x).inode != 0
    ensures p + 8 <= x && x + 8 <= y <= |b|
    ensures Loses(b, Merged(b, p, x, y), a, c, BindingOf(RecAt(b, x)))
  {
    hide RecOk, RecAt, LenAt, Live, Reaches, Before, Tiled, Parse, Merged, Swap;
    MergeSwap(b, p, x, y);
    var r, s := RecAt(b, p), RecAt(b, x);
    Replaced(b, Merged(b, p, x, y), p, y, [r, s], [r.(len := y - p)]);
    LiveTwo(r, s);
    LiveTwo(r.(len := y - p), s);
    a, c := Live(Before(b, 0, p)) + LiveOf(r), Live(Parse(b, y));
    assert LiveOf(r.(len := y - p)) == LiveOf(r) && LiveOf(s) == [BindingOf(s)];
    hide LiveOf;
    Assoc(Live(Before(b, 0, p)), LiveOf(r), LiveOf(s));
  }

  /** Unlinking the first record of a block. */
  lemma KillLoses(b: Block, x: nat) returns (a: seq<Binding>, c: seq<Binding>)
    requires Tiled(b, 0) && Reaches(b, 0, x) && RecOk(b, x) && RecAt(b, x).inode != 0
    ensures Loses(b, Put32(b, x, 0), a, c, BindingOf(RecAt(b, x)))
  {
    hide RecAt, LenAt, Live, Reaches, Before, Tiled, Parse, Swap;
    KillSwap(b, x);
    var r := RecAt(b, x);
    Replaced(b, Put32(b, x, 0), x, x + LenAt(b, x), [r], [r.(inode := 0)]);
    LiveTwo(r, r);
    LiveTwo(r.(inode := 0), r);
    a, c := Live(Before(b, 0, x)), Live(Parse(b, x + LenAt(b, x)));
    assert a + [] + c == a + c;
  }

  // ---------------------------------------------------------------- the directory

  ghost predicate DirOk(data: seq<Block>, bs: nat) {
    AllTiled(data, bs) && Distinct(DirLive(data, bs))
  }

  ghost function DirMap(data: seq<Block>, bs: nat): (m: map<Name, File>)
    requires AllTiled(data, bs)
  {
    Bind(DirLive(data, bs))
  }

  lemma Regroup<T>(d: seq<T>, a: seq<T>, x: seq<T>, c: seq<T>, e: seq<T>)
    ensures d + (a + x + c) + e == (d + a) + x + (c + e)
    ensures d + (a + c) + e == (d + a) + (c + e)
  {
  }

  lemma DirSwap(data: seq<Block>, bs: nat, n: nat, b': Block)
    requires AllTiled(data, bs) && n < |data| && |b'| == bs && Tiled(b', 0)
    ensures AllTiled(data[n := b'], bs) && AllTiled(data[..n], bs) && AllTiled(data[n + 1..], bs)
    ensures DirLive(data, bs) == DirLive(data[..n], bs) + Live(Parse(data[n], 0)) + DirLive(data[n + 1..], bs)
    ensures DirLive(data[n := b'], bs) == DirLive(data[..n], bs) + Live(Parse(b', 0)) + DirLive(data[n + 1..], bs)
  {
    hide Tiled, DirLive, Live, Parse;
    DirAround(data, bs, n);
    DirAround(data[n := b'], bs, n);
    assert data[n := b'][..n] == data[..n] && data[n := b'][n + 1..] == data[n + 1..];
  }

  lemma DirGains(data: seq<Block>, bs: nat, n: nat, b': Block, a: seq<Binding>, c: seq<Binding>, x: Binding)
    requires DirOk(data, bs) && n < |data| && Gains(data[n], b', a, c, x) && x.name !in DirMap(data, bs)
    ensures DirOk(data[n := b'], bs) && DirMap(data[n := b'], bs) == DirMap(data, bs)[x.name := x.file]
  {
    hide Tiled, DirLive, Live, Parse, Bind, Distinct;
    DirSwap(data, bs, n, b');
    var d, e := DirLive(data[..n], bs), DirLive(data[n + 1..], bs);
    Regroup(d, a, [x], c, e);
    Inserted(d + a, c + e, x);
  }

  lemma DirLoses(data: seq<Block>, bs: nat, n: nat, b': Block, a: seq<Binding>, c: seq<Binding>, x: Binding)
    requires DirOk(data, bs) && n < |data| && Loses(data[n], b', a, c, x)
    ensures x.name in DirMap(data, bs) && DirMap(data, bs)[x.name] == x.file
    ensures DirOk(data[n := b'], bs) && DirMap(data[n := b'], bs) == DirMap(data, bs) - {x.name}
  {
    hide Tiled, DirLive, Live, Parse, Bind, Distinct;
    DirSwap(data, bs, n, b');
    var d, e := DirLive(data[..n], bs), DirLive(data[n + 1..], bs);
    Regroup(d, a, [x], c, e);
    Removed(d + a, c + e, x);
  }

  /** A block with one record for the new name is added. */
  lemma DirGrows(data: seq<Block>, bs: nat, b': Block, x: Binding)
    requires DirOk(data, bs) && |b'| == bs && Tiled(b', 0) && Live(Parse(b', 0)) == [x] && x.name !in DirMap(data, bs)
    ensures DirOk(data + [b'], bs) && DirMap(data + [b'], bs) == DirMap(data, bs)[x.name := x.file]
  {
    hide Tiled, Live, Parse, Bind, Distinct;
    assert [b'][1..] == [] && DirLive([b'], bs) == [x] + [] == [x];
    DirConcat(data, [b'], bs);
    hide DirLive;
    var l := DirLive(data, bs);
    assert l + [x] + [] == l + [x] && l + [] == l;
    Inserted(l, [], x);
  }

  // ---------------------------------------------------------------- what the loops have seen

  /** The bindings before offset o of block n. */
  ghost function SeenTo(data: seq<Block>, bs: nat, n: nat, o: nat): (l: seq<Binding>)
    requires AllTiled(data, bs) && n <= |data| && (n < |data| ==> Reaches(data[n], 0, o))
  {
    DirLive(data[..n], bs) + if n < |data| then Live(Before(data[n], 0, o)) else []
  }

  /** Offset o of block n is a record, or the beginning of what lies behind the directory. */
  ghost predicate Standing(data: seq<Block>, bs: nat, n: nat, o: nat) {
    AllTiled(data, bs) && n <= |data| && if n < |data| then Reaches(data[n], 0, o) && o < bs else o == 0
  }

  lemma Here(data: seq<Block>, bs: nat, n: nat, o: nat)
    requires Standing(data, bs, n, o) && n < |data|
    ensures |data[n]| == bs && Tiled(data[n], 0) && RecOk(data[n], o) && Reaches(data[n], 0, o)
  {
    hide Reaches, Parse, Before;
    SplitAt(data[n], 0, o);
  }

  /** One record further in the same block. */
  lemma Further(data: seq<Block>, bs: nat, n: nat, o: nat)
    requires Standing(data, bs, n, o) && n < |data| && RecOk(data[n], o)
    ensures var y := o + LenAt(data[n], o);
      && Reaches(data[n], 0, y) && y <= bs
      && SeenTo(data, bs, n, y) == SeenTo(data, bs, n, o) + LiveOf(RecAt(data[n], o))
  {
    hide Reaches, Parse, Before, RecOk, RecAt, LenAt, Tiled, Live;
    Here(data, bs, n, o);
    RecStep(data[n], o);
    ReachesNext(data[n], 0, o);
    LiveConcat(Before(data[n], 0, o), [RecAt(data[n], o)]);
    LiveTwo(RecAt(data[n], o), RecAt(data[n], o));
    Assoc(DirLive(data[..n], bs), Live(Before(data[n], 0, o)), LiveOf(RecAt(data[n], o)));
  }

  /** A block is done: at offset x nothing in use is left in it. */
  lemma NextBlock(data: seq<Block>, bs: nat, n: nat, x: nat)
    requires AllTiled(data, bs) && n < |data| && Reaches(data[n], 0, x) && Tiled(data[n], x) && Live(Parse(data[n], x)) == []
    requires bs > 0
    ensures Standing(data, bs, n + 1, 0) && SeenTo(data, bs, n + 1, 0) == SeenTo(data, bs, n, x)
  {
    hide Parse, Before, RecOk, RecAt, LenAt, Tiled, Live;
    SplitAt(data[n], 0, x);
    LiveConcat(Before(data[n], 0, x), Parse(data[n], x));
    BeginBlock(data, bs, n + 1);
    DirOneMore(data, bs, n);
    var l := Live(Before(data[n], 0, x));
    assert l + [] == l;
    assert SeenTo(data, bs, n + 1, 0) == DirLive(data[..n + 1], bs) + [];
  }

  lemma BeginBlock(data: seq<Block>, bs: nat, n: nat)
    requires AllTiled(data, bs) && n <= |data| && bs > 0
    ensures Standing(data, bs, n, 0)
    ensures SeenTo(data, bs, n, 0) == DirLive(data[..n], bs) + []
  {
  }

  lemma DirOneMore(data: seq<Block>, bs: nat, n: nat)
    requires AllTiled(data, bs) && n < |data|
    ensures AllTiled(data[..n + 1], bs) && DirLive(data[..n + 1], bs) == DirLive(data[..n], bs) + Live(Parse(data[n], 0))
  {
    hide Parse, Tiled, Live;
    assert data[..n + 1] == data[..n] + [data[n]];
    var last: seq<Block> := [data[n]];
    DirConcat(data[..n], last, bs);
    assert last[1..] == [] && DirLive(last, bs) == Live(Parse(data[n], 0)) + [];
  }

  lemma AllSeen(data: seq<Block>, bs: nat)
    requires AllTiled(data, bs)
    ensures SeenTo(data, bs, |data|, 0) == DirLive(data, bs)
  {
    hide Tiled, DirLive;
    assert data[..|data|] == data;
  }

  /** At the very end of a block. */
  lemma EndOfBlock(b: Block)
    ensures Tiled(b, |b|) && Live(Parse(b, |b|)) == []
  {
  }

  /** A record in use is a binding of the directory. */
  lemma RecordBound(data: seq<Block>, bs: nat, n: nat, o: nat)
    requires DirOk(data, bs) && Standing(data, bs, n, o) && n < |data| && RecOk(data[n], o) && RecAt(data[n], o).inode != 0
    ensures var r := RecAt(data[n], o); r.name in DirMap(data, bs) && DirMap(data, bs)[r.name] == File(r.inode, r.ftype)
  {
    hide Parse, Before, RecOk, RecAt, LenAt, Tiled, Live, Reaches, Distinct;
    Here(data, bs, n, o);
    RecStep(data[n], o);
    var a, c := KillLoses(data[n], o);
    var r := RecAt(data[n], o);
    DirLoses(data, bs, n, Put32(data[n], o, 0), a, c, BindingOf(r));
  }

  /** The block sizes of ext2. */
  predicate BlockSize(bs: nat) {
    bs == 1024 || bs == 2048 || bs == 4096
  }

  /** Where a directory offset lies. */
  lemma OffsetIs(n: nat, o: nat, bs: nat)
    requires o < bs && BlockSize(bs)
    ensures (n * bs + o) / bs == n && (n * bs + o) % bs == o
  {
    if bs == 1024 {
    } else if bs == 2048 {
    } else {
    }
  }

  lemma InsideIff(n: nat, o: nat, k: nat, bs: nat)
    requires o < bs && n <= k && (n == k ==> o == 0) && BlockSize(bs)
    ensures n * bs + o < k * bs <==> n < k
    ensures (n + 1) * bs == n * bs + bs
  {
    if bs == 1024 {
    } else if bs == 2048 {
    } else {
    }
  }

  /** The next record, in this block or the next. */
  lemma Stepped(data: seq<Block>, bs: nat, n: nat, o: nat) returns (n': nat, o': nat)
    requires Standing(data, bs, n, o) && n < |data| && BlockSize(bs)
    ensures RecOk(data[n], o) && LenAt(data[n], o) > 0
    ensures n' * bs + o' == n * bs + o + LenAt(data[n], o) && Standing(data, bs, n', o')
    ensures SeenTo(data, bs, n', o') == SeenTo(data, bs, n, o) + LiveOf(RecAt(data[n], o))
  {
    hide Reaches, Parse, Before, RecOk, RecAt, LenAt, Tiled, Live, SeenTo, DirLive;
    Here(data, bs, n, o);
    RecStep(data[n], o);
    Further(data, bs, n, o);
    var y := o + LenAt(data[n], o);
    if y < bs {
      n', o' := n, y;
    } else {
      EndOfBlock(data[n]);
      NextBlock(data, bs, n, y);
      InsideIff(n, 0, n, bs);
      n', o' := n + 1, 0;
    }
  }

  datatype Found = Found(file: File, off: nat)

  /** A record in use with this name lies at off. */
  ghost predicate Names(data: seq<Block>, bs: nat, off: nat, name: Name) {
    && bs > 0 && off / bs < |data| && Standing(data, bs, off / bs, off % bs)
    && RecOk(data[off / bs], off % bs) && RecAt(data[off / bs], off % bs).inode != 0
    && RecAt(data[off / bs], off % bs).name == name
  }

  /** The lookup stands at offset o of block n and has not met the name. */
  ghost predicate Unmet(data: seq<Block>, bs: nat, n: nat, o: nat, name: Name) {
    Standing(data, bs, n, o) && name !in Bind(SeenTo(data, bs, n, o))
  }

  /** The record passed is unused or has another name. */
  lemma LookupStep(data: seq<Block>, bs: nat, n: nat, o: nat, name: Name) returns (n': nat, o': nat)
    requires Unmet(data, bs, n, o, name) && n < |data| && BlockSize(bs) && RecOk(data[n], o)
    requires RecAt(data[n], o).inode == 0 || RecAt(data[n], o).name != name
    ensures LenAt(data[n], o) > 0
    ensures n' * bs + o' == n * bs + o + LenAt(data[n], o) && Unmet(data, bs, n', o', name)
  {
    hide Reaches, Tiled, RecOk, RecAt, LenAt, SeenTo;
    n', o' := Stepped(data, bs, n, o);
    BindConcat(SeenTo(data, bs, n, o), LiveOf(RecAt(data[n], o)));
  }

  /** The loop of ext2_unlink: the record before the one at offset, if there is one. */
  method FindPrevious(b: Block, offset: nat) returns (pde: Option<nat>)
    requires Reaches(b, 0, offset)
    ensures pde.None? ==> offset == 0
    ensures pde.Some? ==> Reaches(b, 0, pde.value) && RecOk(b, pde.value) && offset == pde.value + LenAt(b, pde.value)
  {
    hide RecOk, RecAt, LenAt, Before;
    var de := 0;
    pde := None;
    while de < offset
      invariant Reaches(b, 0, de) && Reaches(b, de, offset) && de <= offset
      invariant pde.None? ==> de == 0
      invariant pde.Some? ==> Reaches(b, 0, pde.value) && RecOk(b, pde.value) && pde.value + 8 <= |b|
      invariant pde.Some? ==> de == pde.value + LenAt(b, pde.value)
    {
      BeforeStep(b, de, offset);
      Fields(b, de);
      ReachesNext(b, 0, de);
      assert Get16(b, de + 4) != 0;
      pde := Some(de);
      de := de + Get16(b, de + 4);
    }
  }

  /** The record at x has room for a new record of reclen bytes: it is unused and as long, or longer by that than its
      own name needs. */
  ghost predicate HasRoom(b: Block, x: nat, reclen: nat) {
    && Reaches(b, 0, x) && RecOk(b, x)
    && if Get32(b, x) == 0 then reclen <= LenAt(b, x) else RecLen(b[x + 6]) + reclen <= LenAt(b, x)
  }

  ghost predicate NoRoom(b: Block, upto: nat, reclen: nat) {
    forall x: nat | x < upto :: !HasRoom(b, x, reclen)
  }

  /** Giving record x to record p leaves room for it. */
  lemma MergeRoom(b: Block, p: nat, x: nat, y: nat)
    requires Reaches(b, 0, p) && RecOk(b, p) && x == p + LenAt(b, p) && RecOk(b, x) && y == x + LenAt(b, x) && |b| < 0x1_0000
    ensures p + 8 <= x && x + 8 <= y <= |b| && HasRoom(Merged(b, p, x, y), p, RecLen(b[x + 6]))
    ensures LenAt(Merged(b, p, x, y), p) == LenAt(b, p) + LenAt(b, x)
  {
    RecStep(b, p);
    RecStep(b, x);
    var b' := Merged(b, p, x, y);
    MergedRec(b, p, x, y);
    Fields(b, p);
    Fields(b', p);
    assert RecLen(b[x + 6]) <= LenAt(b, x) && RecLen(b[p + 6]) <= LenAt(b, p);
    assert |RecAt(b', p).name| == |RecAt(b, p).name|;
    hide RecAt, Merged, SameBytes, Before;
    BeforeSame(b, b', 0, p);
  }

  lemma KillRoom(b: Block)
    requires RecOk(b, 0)
    ensures HasRoom(Put32(b, 0, 0), 0, RecLen(b[6]))
  {
    hide Get32, Put32, RecLen;
    var b' := Put32(b, 0, 0);
    assert b'[4] == b[4] && b'[5] == b[5] && b'[6] == b[6];
  }

  /** The edit of ext2_unlink on the block.  The record is given to the one before it, if there is one, and a record
      like it finds room in the block again. */
  method UnlinkRecord(b: Block, offset: nat) returns (b': Block, ghost a: seq<Binding>, ghost c: seq<Binding>, ghost x: nat)
    requires Tiled(b, 0) && Reaches(b, 0, offset) && RecOk(b, offset) && RecAt(b, offset).inode != 0 && |b| < 0x1_0000
    ensures |b'| == |b| && Loses(b, b', a, c, BindingOf(RecAt(b, offset)))
    ensures x < |b| && HasRoom(b', x, RecLen(b[offset + 6])) && (offset == 0 <==> x == offset)
    ensures offset > 0 ==> x + LenAt(b, x) == offset && LenAt(b', x) == LenAt(b, x) + LenAt(b, offset)
  {
    hide RecOk, RecAt, LenAt, Reaches, Tiled, Parse, Merged, HasRoom, RecLen;
    Fields(b, offset);
    RecStep(b, offset);
    var to := offset + Get16(b, offset + 4);
    var pde := FindPrevious(b, offset);
    b' := b;
    x := 0;
    if pde.Some? {
      x := pde.value;
      a, c := MergeLoses(b, pde.value, offset, to);
      MergedIs(b, pde.value, offset, to);
      MergeRoom(b, pde.value, offset, to);
      b' := Put16(b', pde.value + 4, to - pde.value);
    } else {
      a, c := KillLoses(b, offset);
      KillRoom(b);
    }
    b' := Put32(b', offset, 0);
  }

  /** Where ext2_dirlink found room: nowhere in the block, at i_size, or in a record. */
  datatype Slot = NoSlot | AtEnd | At(de: nat, nameLen: nat, recLen: nat)

  ghost predicate SlotOk(b: Block, s: Slot, reclen: nat)
    requires s.At?
  {
    && Tiled(b, 0) && Reaches(b, 0, s.de) && RecOk(b, s.de)
    && s.nameLen == RecLen(b[s.de + 6]) && s.recLen == LenAt(b, s.de)
    && if Get32(b, s.de) == 0 then reclen <= s.recLen else s.nameLen + reclen <= s.recLen
  }

  /** The inner loop of ext2_dirlink. */
  method FindSlot(b: Block, reclen: nat, dirEnd: nat) returns (s: Slot)
    requires 12 <= reclen <= |b| && (dirEnd == 0 || (dirEnd == |b| && Tiled(b, 0)))
    ensures s.AtEnd? <==> dirEnd == 0
    ensures s.At? ==> SlotOk(b, s, reclen) && HasRoom(b, s.de, reclen) && NoRoom(b, s.de, reclen)
    ensures s.NoSlot? ==> NoRoom(b, |b|, reclen)
  {
    hide RecOk, LenAt, Tiled, Parse, Before, NoRoom;
    assert NoRoom(b, 0, reclen) by { NoneYet(b, reclen); }
    var de := 0;
    while de <= |b| - reclen
      invariant dirEnd == 0 ==> de == 0
      invariant dirEnd == |b| ==> Reaches(b, 0, de) && NoRoom(b, de, reclen)
      decreases |b| - de
    {
      if de == dirEnd {
        return AtEnd;
      }
      InTiled(b, de);
      Fields(b, de);
      var recLen := Get16(b, de + 4);
      assert recLen != 0;
      var nameLen := RecLen(b[de + 6]);
      if Get32(b, de) == 0 && recLen >= reclen {
        return At(de, nameLen, recLen);
      }
      if recLen >= nameLen + reclen {
        return At(de, nameLen, recLen);
      }
      RoomStep(b, de, reclen);
      de := de + recLen;
    }
    RoomEnd(b, de, reclen);
    return NoSlot;
  }

  lemma NoneYet(b: Block, reclen: nat)
    ensures NoRoom(b, 0, reclen)
  {
  }

  lemma RoomStep(b: Block, de: nat, reclen: nat)
    requires Reaches(b, 0, de) && RecOk(b, de) && NoRoom(b, de, reclen) && !HasRoom(b, de, reclen)
    ensures NoRoom(b, de + LenAt(b, de), reclen)
  {
    RecStep(b, de);
    hide RecOk, LenAt, Reaches;
    forall x: nat | x < de + LenAt(b, de) ensures !HasRoom(b, x, reclen) {
      if x > de && HasRoom(b, x, reclen) {
        ReachesOrdered(b, 0, de, x);
      }
    }
  }

  lemma SomeRoom(b: Block, s: Slot, reclen: nat)
    requires s.At? && SlotOk(b, s, reclen) && HasRoom(b, s.de, reclen)
    ensures !NoRoom(b, |b|, reclen)
  {
  }

  lemma NameLength(b: Block, o: nat)
    requires RecOk(b, o)
    ensures b[o + 6] == |RecAt(b, o).name|
  {
  }

  lemma RoomEnd(b: Block, de: nat, reclen: nat)
    requires NoRoom(b, de, reclen) && de > |b| - reclen
    ensures NoRoom(b, |b|, reclen)
  {
  }

  lemma InTiled(b: Block, x: nat)
    requires Tiled(b, 0) && Reaches(b, 0, x) && x < |b|
    ensures RecOk(b, x) && LenAt(b, x) > 0 && Reaches(b, 0, x + LenAt(b, x))
  {
    SplitAt(b, 0, x);
    hide RecAt, Parse, Before, Reaches;
    ReachesNext(b, 0, x);
  }

  /** A new block with one record. */
  function NewBlock(b: Block, name: Name, inum: nat, ft: Byte): (b': Block)
    requires BlockSize(|b|) && 0 < |name| < 256 && inum < 0x1_0000_0000
  {
    Filled(Put32(Put16(b, 4, |b|), 0, 0), 0, name, inum, ft)
  }

  lemma NewBlockHas(b: Block, name: Name, inum: nat, ft: Byte)
    requires BlockSize(|b|) && 0 < |name| < 256 && 0 < inum < 0x1_0000_0000
    ensures var b' := NewBlock(b, name, inum, ft);
      |b'| == |b| && Tiled(b', 0) && Live(Parse(b', 0)) == [Binding(name, File(inum, ft))]
  {
    var b1 := Put32(Put16(b, 4, |b|), 0, 0);
    assert b1[4] == Put16(b, 4, |b|)[4] && b1[5] == Put16(b, 4, |b|)[5];
    assert LenAt(b1, 0) == |b|;
    FilledRec(b1, 0, name, inum, ft);
    var b', r := NewBlock(b, name, inum, ft), Rec(inum, |b|, ft, name);
    hide RecOk, RecAt, LenAt, NewBlock, Filled, SameBytes;
    assert Tiled(b', |b'|);
    ParseStep(b', 0);
    assert Parse(b', 0) == [r] + [] == [r];
    LiveTwo(r, r);
  }

  /** What follows got_it in ext2_dirlink: the record for the new name is written into the block. */
  method LinkRecord(b: Block, s: Slot, name: Name, inum: nat, ft: Byte) returns (b': Block, ghost a: seq<Binding>, ghost c: seq<Binding>)
    requires !s.NoSlot? && BlockSize(|b|) && 0 < |name| < 256 && 0 < inum < 0x1_0000_0000
    requires s.At? ==> SlotOk(b, s, RecLen(|name|))
    ensures s.At? ==> Gains(b, b', a, c, Binding(name, File(inum, ft)))
    ensures s.AtEnd? ==> |b'| == |b| && Tiled(b', 0) && Live(Parse(b', 0)) == [Binding(name, File(inum, ft))]
  {
    hide RecOk, RecAt, Tiled, Parse, Gains, Reaches, Live, Filled, Cut, RecLen;
    if s.AtEnd? {
      NewBlockHas(b, name, inum, ft);
      b' := Put16(b, 4, |b|);
      b' := Put32(b', 0, 0);
      b' := Filled(b', 0, name, inum, ft);
      a, c := [], [];
    } else {
      Fields(b, s.de);
      if Get32(b, s.de) != 0 {
        a, c := CutGains(b, s.de, name, inum, ft);
        CutFits(b, s.de, |name|);
        b' := Cut(b, s.de, s.nameLen);
        b' := Filled(b', s.de + s.nameLen, name, inum, ft);
      } else {
        a, c := FillGains(b, s.de, name, inum, ft);
        Fits(b, s.de, |name|);
        b' := Filled(b, s.de, name, inum, ft);
      }
    }
  }

  datatype FileType = TDir | TFile | TOther

  datatype LinkResult = Linked | Exists | Panicked

  class Directory {
    const bs: nat
    const inum: nat
    var size: nat
    var data: seq<Block>

    constructor (bs: nat, inum: nat)
      requires BlockSize(bs)
      ensures Valid() && this.bs == bs && this.inum == inum && DirMap(data, bs) == map[]
    {
      this.bs, this.inum := bs, inum;
      size, data := 0, [];
    }

    ghost predicate Valid()
      reads this
    {
      BlockSize(bs) && size == |data| * bs && DirOk(data, bs)
    }

    /** ext2_dirlookup */
    method DirLookup(name: Name) returns (r: Option<Found>)
      requires Valid()
      ensures r.None? <==> name !in DirMap(data, bs)
      ensures r.Some? ==> r.value.file == DirMap(data, bs)[name] && Names(data, bs, r.value.off, name)
    {
      hide DirOk, Standing, SeenTo, RecOk, RecAt, LenAt, Bind, Unmet, Tiled, DirLive, BlockSize;
      var off := 0;
      ghost var n: nat, o: nat := 0, 0;
      LookupStart(data, bs, name);
      while off < size
        invariant off == n * bs + o && Unmet(data, bs, n, o, name)
        decreases size - off
      {
        OffsetsAt(data, bs, n, o, name);
        var b, de := data[off / bs], off % bs;
        Fields(b, de);
        if Get32(b, de) != 0 && b[de + 6] == |name| && b[de + 8..de + 8 + b[de + 6]] == name {
          RecordBound(data, bs, n, o);
          return Some(Found(File(Get32(b, de), b[de + 7]), off));
        }
        n, o := LookupStep(data, bs, n, o, name);
        off := off + Get16(b, de + 4);
      }
      LookupEnd(data, bs, n, o, name);
      return None;
    }

    /** ext2_unlink: the record at off, which names some file, is given to the one before it or marked unused. */
    method Unlink(off: nat, ghost name: Name)
      requires Valid() && Names(data, bs, off, name)
      modifies this`data
      ensures Valid() && name in old(DirMap(data, bs)) && DirMap(data, bs) == old(DirMap(data, bs)) - {name}
      ensures |data| == old(|data|)
      ensures exists n: nat :: n < |data| && !NoRoom(data[n], bs, RecLen(|name|))
    {
      hide DirOk, Standing, RecOk, RecAt, LenAt, Bind, Reaches, Tiled, DirLive, Parse, Loses, DirMap;
      var bn, offset := off / bs, off % bs;
      Here(data, bs, bn, offset);
      ghost var x := BindingOf(RecAt(data[bn], offset));
      var b;
      ghost var a, c, y;
      NameLength(data[bn], offset);
      b, a, c, y := UnlinkRecord(data[bn], offset);
      DirLoses(data, bs, bn, b, a, c, x);
      data := data[bn := b];
      assert !NoRoom(data[bn], bs, RecLen(|name|));
    }

    /** ext2_last_byte */
    function LastByte(n: nat): (l: nat)
      requires n * bs <= size
      reads this
    {
      if size - n * bs > bs then bs else size - n * bs
    }

    /** The outer loop of ext2_dirlink: the first block with room, which is a new one at the latest. */
    method FindBlock(reclen: nat, spare: Block) returns (n: nat, s: Slot)
      requires Valid() && 12 <= reclen <= bs && |spare| == bs
      ensures n <= |data| && !s.NoSlot? && (s.AtEnd? <==> n == |data|)
      ensures s.At? ==> SlotOk(data[n], s, reclen) && !NoRoom(data[n], bs, reclen)
      ensures forall m | 0 <= m < n :: NoRoom(data[m], bs, reclen)
    {
      hide DirOk, SlotOk, BlockSize, Tiled, NoRoom, HasRoom;
      n := 0;
      s := NoSlot;
      while s.NoSlot?
        invariant n <= |data| + 1 && (s.NoSlot? ==> n <= |data|)
        invariant !s.NoSlot? ==> n > 0 && (s.AtEnd? <==> n - 1 == |data|)
        invariant s.At? ==> n - 1 < |data| && SlotOk(data[n - 1], s, reclen) && !NoRoom(data[n - 1], bs, reclen)
        invariant forall m | 0 <= m < (if s.NoSlot? then n else n - 1) :: NoRoom(data[m], bs, reclen)
        decreases s.NoSlot?, |data| + 1 - n
      {
        BlockFacts(data, bs, n);
        s := FindSlot(if n < |data| then data[n] else spare, reclen, LastByte(n));
        if s.At? { SomeRoom(data[n], s, reclen); }
        n := n + 1;
      }
      n := n - 1;
    }

    /** ext2_dirlink: the new binding, or an error; a block that has to be added holds spare before. */
    method DirLink(name: Name, inum: nat, t: FileType, spare: Block) returns (r: LinkResult)
      requires Valid() && 0 < |name| < 256 && 0 < inum < 0x1_0000_0000 && |spare| == bs
      modifies this`size, this`data
      ensures Valid()
      ensures r.Exists? <==> name in old(DirMap(data, bs))
      ensures r.Panicked? <==> name !in old(DirMap(data, bs)) && t.TOther?
      ensures !r.Linked? ==> data == old(data)
      ensures r.Linked? ==> DirMap(data, bs) == old(DirMap(data, bs))[name := File(inum, if t.TDir? then 2 else 1)]
      ensures |data| == old(|data|) +
        if r.Linked? && (forall m | 0 <= m < old(|data|) :: NoRoom(old(data)[m], bs, RecLen(|name|))) then 1 else 0
    {
      hide DirOk, SlotOk, Tiled, Gains, Parse, Live, DirMap, Names, NoRoom;
      var found := DirLookup(name);
      if found.Some? {
        return Exists;
      }
      var n, s := FindBlock(RecLen(|name|), spare);
      if t.TOther? {
        return Panicked;
      }
      BlockFacts(data, bs, n);
      var b;
      ghost var a, c;
      var ft: Byte := if t.TDir? then 2 else 1;
      b, a, c := LinkRecord(if n < |data| then data[n] else spare, s, name, inum, ft);
      if n < |data| {
        DirGains(data, bs, n, b, a, c, Binding(name, File(inum, ft)));
        data := data[n := b];
      } else {
        DirGrows(data, bs, b, Binding(name, File(inum, ft)));
        data := data + [b];
      }
      if (n + 1) * bs > size {
        size := size + bs;
      }
      return Linked;
    }

    /** The inner loop of ext2_isdirempty: is there nothing but "." and ".." in block n? */
    method ScanBlock(n: nat) returns (ok: bool)
      requires Valid() && n < |data| && OnlyDots(data, bs, n, 0, inum)
      ensures ok ==> OnlyDots(data, bs, n + 1, 0, inum)
      ensures !ok ==> HasOther(DirMap(data, bs), inum)
    {
      hide DirOk, Standing, RecOk, RecAt, LenAt, Bind, Reaches, Tiled, DirLive, Parse, SeenTo, OnlyDots, DotName, HasOther;
      var b := data[n];
      ScanStart(data, bs, n);
      var de := 0;
      while de <= bs - RecLen(1)
        invariant OnlyDots(data, bs, n, de, inum) && |b| == bs
        decreases bs - de
      {
        ScanHere(data, bs, n, de, inum);
        Fields(b, de);
        assert Get16(b, de + 4) != 0;
        if Get32(b, de) != 0 {
          LiveName(b, de);
          if !IsDot(b, de, inum) {
            ScanOther(data, bs, n, de, inum);
            return false;
          }
        }
        ScanStep(data, bs, n, de, inum);
        de := de + Get16(b, de + 4);
      }
      ScanEnd(data, bs, n, de, inum);
      return true;
    }

    /** ext2_isdirempty */
    method IsDirEmpty() returns (r: bool)
      requires Valid()
      ensures r <==> !HasOther(DirMap(data, bs), inum)
    {
      hide DirOk, Bind, DirLive, OnlyDots, HasOther, BlockSize;
      EmptyStart(data, bs, inum);
      var i, numblocks := 0, (size + bs - 1) / bs;
      while i < numblocks
        invariant 0 <= i <= |data| == numblocks && OnlyDots(data, bs, i, 0, inum)
      {
        var ok := ScanBlock(i);
        if !ok { return false; }
        i := i + 1;
      }
      EmptyEnd(data, bs, inum);
      return true;
    }
  }

  /** "." of this directory, or "..". */
  predicate DotName(name: Name, inode: nat, inum: nat) {
    name == [46, 46] || (name == [46] && inode == inum)
  }

  /** Some name is bound that is neither. */
  ghost predicate HasOther(m: map<Name, File>, inum: nat) {
    exists name :: name in m && !DotName(name, m[name].inode, inum)
  }

  /** The tests of ext2_isdirempty on a record in use. */
  predicate IsDot(b: Block, o: nat, inum: nat)
    requires o + 8 <= |b| && 0 < b[o + 6] && o + 8 + b[o + 6] <= |b|
  {
    b[o + 8] == 46 && b[o + 6] <= 2 && if b[o + 6] < 2 then Get32(b, o) == inum else b[o + 9] == 46
  }

  ghost predicate OnlyDots(data: seq<Block>, bs: nat, n: nat, o: nat, inum: nat) {
    && AllTiled(data, bs) && n <= |data| && (n < |data| ==> Reaches(data[n], 0, o))
    && forall i | 0 <= i < |SeenTo(data, bs, n, o)| ::
         DotName(SeenTo(data, bs, n, o)[i].name, SeenTo(data, bs, n, o)[i].file.inode, inum)
  }

  lemma LiveName(b: Block, o: nat)
    requires RecOk(b, o) && Get32(b, o) != 0
    ensures o + 8 <= |b| && 0 < b[o + 6] && o + 8 + b[o + 6] <= |b|
    ensures IsDot(b, o, RecAt(b, o).inode) ==> RecAt(b, o).name == [46] || RecAt(b, o).name == [46, 46]
    ensures forall inum: nat :: IsDot(b, o, inum) <==> DotName(RecAt(b, o).name, RecAt(b, o).inode, inum)
  {
    hide Get32, Get16;
    var name := RecAt(b, o).name;
    assert name[0] == b[o + 8];
    if |name| >= 2 {
      assert name[1] == b[o + 9];
    }
    assert |name| == 1 ==> (name == [46] <==> name[0] == 46);
    assert |name| == 2 ==> (name == [46, 46] <==> name[0] == 46 && name[1] == 46);
  }

  lemma MergedIs(b: Block, p: nat, x: nat, y: nat)
    requires p + 8 <= x && x + 8 <= y <= |b| && y - p < 0x1_0000
    ensures Merged(b, p, x, y) == Put32(Put16(b, p + 4, y - p), x, 0)
  {
  }

  lemma LookupStart(data: seq<Block>, bs: nat, name: Name)
    requires DirOk(data, bs) && BlockSize(bs)
    ensures Unmet(data, bs, 0, 0, name)
  {
    BeginBlock(data, bs, 0);
    assert data[..0] == [];
  }

  lemma OffsetsAt(data: seq<Block>, bs: nat, n: nat, o: nat, name: Name)
    requires Unmet(data, bs, n, o, name) && BlockSize(bs) && n * bs + o < |data| * bs
    ensures n < |data| && (n * bs + o) / bs == n && (n * bs + o) % bs == o && RecOk(data[n], o)
    ensures Standing(data, bs, n, o)
  {
    hide Reaches, Tiled, RecOk, SeenTo, Bind;
    InsideIff(n, o, |data|, bs);
    OffsetIs(n, o, bs);
    Here(data, bs, n, o);
  }

  lemma LookupEnd(data: seq<Block>, bs: nat, n: nat, o: nat, name: Name)
    requires Unmet(data, bs, n, o, name) && BlockSize(bs) && n * bs + o >= |data| * bs
    ensures AllTiled(data, bs) && name !in DirMap(data, bs)
  {
    hide Reaches, Tiled, DirLive, Bind;
    InsideIff(n, o, |data|, bs);
    AllSeen(data, bs);
  }

  lemma Fields(b: Block, o: nat)
    requires RecOk(b, o)
    ensures o + 8 <= |b| && o + 8 + b[o + 6] <= |b|
    ensures RecAt(b, o).inode == Get32(b, o) && RecAt(b, o).ftype == b[o + 7] && RecAt(b, o).name == b[o + 8..o + 8 + b[o + 6]] && LenAt(b, o) == Get16(b, o + 4)
  {
    hide Get32, Get16;
  }

  lemma ScanStart(data: seq<Block>, bs: nat, n: nat)
    requires DirOk(data, bs) && n < |data|
    ensures |data[n]| == bs
  {
  }

  lemma ScanHere(data: seq<Block>, bs: nat, n: nat, o: nat, inum: nat)
    requires OnlyDots(data, bs, n, o, inum) && n < |data| && o < bs
    ensures Standing(data, bs, n, o) && RecOk(data[n], o) && o + 8 <= o + LenAt(data[n], o) <= bs
  {
    hide RecOk, LenAt, Tiled, SeenTo;
    assert Standing(data, bs, n, o);
    Here(data, bs, n, o);
    RecStep(data[n], o);
  }

  lemma ScanOther(data: seq<Block>, bs: nat, n: nat, o: nat, inum: nat)
    requires DirOk(data, bs) && Standing(data, bs, n, o) && n < |data| && RecOk(data[n], o) && RecAt(data[n], o).inode != 0
    requires !DotName(RecAt(data[n], o).name, RecAt(data[n], o).inode, inum)
    ensures AllTiled(data, bs) && HasOther(DirMap(data, bs), inum)
  {
    hide RecOk, RecAt, Tiled, Reaches, DotName, Bind, DirLive, Distinct;
    RecordBound(data, bs, n, o);
  }

  lemma ScanStep(data: seq<Block>, bs: nat, n: nat, o: nat, inum: nat)
    requires OnlyDots(data, bs, n, o, inum) && Standing(data, bs, n, o) && n < |data| && RecOk(data[n], o)
    requires RecAt(data[n], o).inode != 0 ==> DotName(RecAt(data[n], o).name, RecAt(data[n], o).inode, inum)
    ensures OnlyDots(data, bs, n, o + LenAt(data[n], o), inum)
  {
    hide RecOk, RecAt, Tiled, Reaches, SeenTo, LenAt, DotName;
    Further(data, bs, n, o);
    var l := SeenTo(data, bs, n, o);
    var l' := l + LiveOf(RecAt(data[n], o));
    assert forall i | 0 <= i < |l| :: l'[i] == l[i];
  }

  /** Too little room is left for a record in use. */
  lemma ScanEnd(data: seq<Block>, bs: nat, n: nat, o: nat, inum: nat)
    requires OnlyDots(data, bs, n, o, inum) && n < |data| && BlockSize(bs) && o > bs - RecLen(1)
    ensures OnlyDots(data, bs, n + 1, 0, inum)
  {
    hide Reaches, SeenTo, DotName;
    ReachesBounds(data[n], 0, o);
    SplitAt(data[n], 0, o);
    ShortTail(data[n], o);
    NextBlock(data, bs, n, o);
  }

  lemma ShortTail(b: Block, o: nat)
    requires Tiled(b, o) && |b| < o + 12
    ensures Live(Parse(b, o)) == []
  {
    if o != |b| {
      assert LenAt(b, o) == 8;
      assert RecAt(b, o).inode == 0;
      assert Parse(b, o) == [RecAt(b, o)] + Parse(b, |b|);
    }
  }

  lemma EmptyStart(data: seq<Block>, bs: nat, inum: nat)
    requires DirOk(data, bs) && BlockSize(bs)
    ensures bs > 0 && OnlyDots(data, bs, 0, 0, inum) && (|data| * bs + bs - 1) / bs == |data|
  {
    hide Distinct, Tiled;
    BeginBlock(data, bs, 0);
    assert data[..0] == [];
    OffsetIs(|data|, bs - 1, bs);
  }

  lemma EmptyEnd(data: seq<Block>, bs: nat, inum: nat)
    requires OnlyDots(data, bs, |data|, 0, inum)
    ensures AllTiled(data, bs) && !HasOther(DirMap(data, bs), inum)
  {
    hide Tiled, DotName, Bind, DirLive;
    AllSeen(data, bs);
    BindDots(DirLive(data, bs), inum);
  }

  lemma {:induction false} BindDots(l: seq<Binding>, inum: nat)
    requires forall i | 0 <= i < |l| :: DotName(l[i].name, l[i].file.inode, inum)
    ensures forall name | name in Bind(l) :: DotName(name, Bind(l)[name].inode, inum)
  {
    if l != [] {
      BindDots(l[1..], inum);
      assert DotName(l[0].name, l[0].file.inode, inum);
    }
  }

  lemma BlockFacts(data: seq<Block>, bs: nat, n: nat)
    requires DirOk(data, bs) && BlockSize(bs) && n <= |data|
    ensures n * bs <= |data| * bs && (n + 1) * bs == n * bs + bs && (|data| + 1) * bs == |data| * bs + bs
    ensures n < |data| ==> |data[n]| == bs && Tiled(data[n], 0) && (n + 1) * bs <= |data| * bs
  {
    hide Tiled, Distinct;
    if bs == 1024 {
    } else if bs == 2048 {
    } else {
    }
  }
}
