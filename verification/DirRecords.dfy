/** ext2 directory blocks as bytes (inc/ext2.h): the records that tile a block, what a record says, and the list of
bindings (name, inode) of a directory.
*/
module DirRecords {
  import opened Common

  type Name = seq<Byte>
  type Block = seq<Byte>

  datatype Rec = Rec(inode: nat, len: nat, ftype: Byte, name: Name)

  /** What a name is bound to. */
  datatype File = File(inode: nat, ftype: Byte)

  datatype Binding = Binding(name: Name, file: File)

  // ---------------------------------------------------------------- bytes

  function Get16(b: Block, o: nat): (v: nat)
    requires o + 2 <= |b|
    ensures v < 0x1_0000
  {
    (b[o] as int) + 256 * (b[o + 1] as int)
  }

  function Get32(b: Block, o: nat): (v: nat)
    requires o + 4 <= |b|
  {
    Get16(b, o) + 0x1_0000 * Get16(b, o + 2)
  }

  function Put16(b: Block, o: nat, v: nat): (b': Block)
    requires o + 2 <= |b| && v < 0x1_0000
    ensures |b'| == |b| && Get16(b', o) == v
    ensures forall i | 0 <= i < |b| && !(o <= i < o + 2) :: b'[i] == b[i]
  {
    b[o := v % 256][o + 1 := v / 256]
  }

  function Put32(b: Block, o: nat, v: nat): (b': Block)
    requires o + 4 <= |b| && v < 0x1_0000_0000
    ensures |b'| == |b| && Get32(b', o) == v
    ensures forall i | 0 <= i < |b| && !(o <= i < o + 4) :: b'[i] == b[i]
  {
    Put16(Put16(b, o, v % 0x1_0000), o + 2, v / 0x1_0000)
  }

  /** strncpy of a whole name. */
  function PutName(b: Block, o: nat, name: Name): (b': Block)
    requires o + |name| <= |b|
    ensures |b'| == |b| && b'[o..o + |name|] == name
    ensures forall i | 0 <= i < |b| && !(o <= i < o + |name|) :: b'[i] == b[i]
  {
    b[..o] + name + b[o + |name|..]
  }

  // ---------------------------------------------------------------- records

  /** EXT2_DIR_REC_LEN */
  function RecLen(n: nat): (l: nat)
    ensures l % 4 == 0 && n + 8 <= l < n + 12
  {
    (n + 11) / 4 * 4
  }

  function LenAt(b: Block, o: nat): (l: nat)
    requires o + 8 <= |b|
  {
    Get16(b, o + 4)
  }

  /** A record that fits its block and its name, with a name if it is in use. */
  predicate RecOk(b: Block, o: nat) {
    && o + 8 <= |b|
    && LenAt(b, o) % 4 == 0 && RecLen(b[o + 6]) <= LenAt(b, o) && o + LenAt(b, o) <= |b|
    && (Get32(b, o) != 0 ==> b[o + 6] > 0)
  }

  function RecAt(b: Block, o: nat): (r: Rec)
    requires RecOk(b, o)
  {
    Rec(Get32(b, o), LenAt(b, o), b[o + 7], b[o + 8..o + 8 + b[o + 6]])
  }

  /** struct ext2_dir_entry_2 byte by byte: inode in four bytes, the lowest first, rec_len in two, then name_len,
      file_type and the name. */
  lemma RecBytes(b: Block, o: nat)
    requires RecOk(b, o)
    ensures var r := RecAt(b, o);
      && b[o] == r.inode % 0x100 && b[o + 1] == r.inode / 0x100 % 0x100
      && b[o + 2] == r.inode / 0x1_0000 % 0x100 && b[o + 3] == r.inode / 0x100_0000
      && b[o + 4] == r.len % 0x100 && b[o + 5] == r.len / 0x100
      && b[o + 6] == |r.name| && b[o + 7] == r.ftype && b[o + 8..o + 8 + |r.name|] == r.name
  {
    var b0: int, b1: int, b2: int, b3: int := b[o], b[o + 1], b[o + 2], b[o + 3];
    var v, a, c := Get32(b, o), b1 + 0x100 * b2 + 0x1_0000 * b3, b2 + 0x100 * b3;
    assert v == b0 + 0x100 * a && a == b1 + 0x100 * c;
    assert v / 0x100 == a && a / 0x100 == c;
    assert v / 0x1_0000 == c && v / 0x100_0000 == b3;
  }

  /** From offset o on, the block is exactly tiled by such records. */
  predicate Tiled(b: Block, o: nat)
    decreases |b| - o
  {
    o == |b| || (RecOk(b, o) && Tiled(b, o + LenAt(b, o)))
  }

  function Parse(b: Block, o: nat): (rs: seq<Rec>)
    requires Tiled(b, o)
    decreases |b| - o
  {
    if o == |b| then [] else [RecAt(b, o)] + Parse(b, o + LenAt(b, o))
  }

  /** Stepping by rec_len leads from record o to offset x. */
  predicate Reaches(b: Block, o: nat, x: nat)
    decreases |b| - o
  {
    o == x || (o < x && RecOk(b, o) && Reaches(b, o + LenAt(b, o), x))
  }

  /** The records from o up to x. */
  function Before(b: Block, o: nat, x: nat): (rs: seq<Rec>)
    requires Reaches(b, o, x)
    decreases |b| - o
  {
    if o == x then [] else [RecAt(b, o)] + Before(b, o + LenAt(b, o), x)
  }

  lemma RecStep(b: Block, o: nat)
    requires RecOk(b, o)
    ensures o + 8 <= o + LenAt(b, o) <= |b|
  {
  }

  lemma {:induction false} ReachesBounds(b: Block, o: nat, x: nat)
    requires Reaches(b, o, x) && o <= |b|
    ensures o <= x <= |b|
    decreases |b| - o
  {
    hide RecOk, LenAt;
    if o != x {
      RecStep(b, o);
      ReachesBounds(b, o + LenAt(b, o), x);
    }
  }

  /** Between a record and the next there is none. */
  lemma {:induction false} ReachesOrdered(b: Block, o: nat, x: nat, y: nat)
    requires Reaches(b, o, x) && Reaches(b, o, y) && x < y && o <= |b|
    ensures RecOk(b, x) && x + LenAt(b, x) <= y
    decreases |b| - o
  {
    hide RecOk, LenAt;
    if o != y {
      RecStep(b, o);
      ReachesBounds(b, o + LenAt(b, o), y);
      if o != x {
        ReachesOrdered(b, o + LenAt(b, o), x, y);
      }
    } else {
      ReachesBounds(b, o, x);
    }
  }

  /** Records begin at multiples of 4. */
  lemma {:induction false} ReachesAligned(b: Block, o: nat, x: nat)
    requires Reaches(b, o, x) && o % 4 == 0
    ensures x % 4 == 0
    decreases |b| - o
  {
    if o != x {
      RecStep(b, o);
      LenAligned(b, o);
      hide RecOk, LenAt;
      ReachesAligned(b, o + LenAt(b, o), x);
    }
  }

  lemma LenAligned(b: Block, o: nat)
    requires RecOk(b, o)
    ensures LenAt(b, o) % 4 == 0
  {
  }

  /** One more step. */
  lemma {:induction false} ReachesNext(b: Block, o: nat, x: nat)
    requires Reaches(b, o, x) && RecOk(b, x)
    ensures Reaches(b, o, x + LenAt(b, x)) && Before(b, o, x + LenAt(b, x)) == Before(b, o, x) + [RecAt(b, x)]
    decreases |b| - o
  {
    hide RecOk, RecAt, LenAt;
    RecStep(b, x);
    if o == x {
      assert Reaches(b, x + LenAt(b, x), x + LenAt(b, x));
    } else {
      RecStep(b, o);
      ReachesNext(b, o + LenAt(b, o), x);
    }
  }

  lemma ParseStep(b: Block, o: nat)
    requires RecOk(b, o) && Tiled(b, o + LenAt(b, o))
    ensures Tiled(b, o) && Parse(b, o) == [RecAt(b, o)] + Parse(b, o + LenAt(b, o))
  {
  }

  lemma BeforeStep(b: Block, o: nat, x: nat)
    requires Reaches(b, o, x) && o != x
    ensures RecOk(b, o) && o + 8 <= o + LenAt(b, o) <= x && o + LenAt(b, o) <= |b|
    ensures Reaches(b, o + LenAt(b, o), x)
    ensures Before(b, o, x) == [RecAt(b, o)] + Before(b, o + LenAt(b, o), x)
  {
    RecStep(b, o);
    hide RecOk, RecAt, LenAt;
  }

  /** A tiled block splits at every record. */
  lemma {:induction false} SplitAt(b: Block, o: nat, x: nat)
    requires Tiled(b, o) && Reaches(b, o, x)
    ensures Tiled(b, x) && Parse(b, o) == Before(b, o, x) + Parse(b, x)
    decreases |b| - o
  {
    hide RecOk, RecAt, LenAt;
    if o != x {
      BeforeStep(b, o, x);
      assert Tiled(b, o + LenAt(b, o));
      ParseStep(b, o);
      hide Parse, Before, Tiled, Reaches;
      SplitAt(b, o + LenAt(b, o), x);
      Assoc([RecAt(b, o)], Before(b, o + LenAt(b, o), x), Parse(b, x));
    }
  }

  lemma {:induction false} JoinAt(b: Block, o: nat, x: nat)
    requires Reaches(b, o, x) && Tiled(b, x)
    ensures Tiled(b, o) && Parse(b, o) == Before(b, o, x) + Parse(b, x)
    decreases |b| - o
  {
    hide RecOk, RecAt, LenAt, Tiled;
    if o != x {
      BeforeStep(b, o, x);
      hide Parse, Before, Reaches;
      JoinAt(b, o + LenAt(b, o), x);
      ParseStep(b, o);
      Assoc([RecAt(b, o)], Before(b, o + LenAt(b, o), x), Parse(b, x));
    }
  }

  ghost predicate SameBytes(b: Block, b': Block, from: nat, to: nat) {
    |b'| == |b| && forall i | from <= i < to && i < |b| :: b'[i] == b[i]
  }

  /** A record depends on its own bytes only. */
  lemma RecSame(b: Block, b': Block, o: nat)
    requires RecOk(b, o) && SameBytes(b, b', o, o + LenAt(b, o))
    ensures RecOk(b', o) && RecAt(b', o) == RecAt(b, o) && LenAt(b', o) == LenAt(b, o)
  {
    assert forall i | o <= i < o + 8 :: b'[i] == b[i];
    assert b'[o + 8..o + 8 + b[o + 6]] == b[o + 8..o + 8 + b[o + 6]];
  }

  lemma {:induction false} BeforeSame(b: Block, b': Block, o: nat, x: nat)
    requires Reaches(b, o, x) && SameBytes(b, b', o, x) && x <= |b|
    ensures Reaches(b', o, x) && Before(b', o, x) == Before(b, o, x)
    decreases |b| - o
  {
    hide RecOk, RecAt, LenAt, SameBytes;
    if o != x {
      BeforeStep(b, o, x);
      LessBytes(b, b', o, x, o, o + LenAt(b, o));
      LessBytes(b, b', o, x, o + LenAt(b, o), x);
      RecSame(b, b', o);
      SameLength(b, b', o, x);
      BeforeSame(b, b', o + LenAt(b, o), x);
    }
  }

  lemma SameLength(b: Block, b': Block, o: nat, x: nat)
    requires SameBytes(b, b', o, x)
    ensures |b'| == |b|
  {
  }

  lemma LessBytes(b: Block, b': Block, o: nat, x: nat, o': nat, x': nat)
    requires SameBytes(b, b', o, x) && o <= o' && x' <= x
    ensures SameBytes(b, b', o', x')
  {
  }

  lemma {:induction false} TailSame(b: Block, b': Block, o: nat)
    requires Tiled(b, o) && SameBytes(b, b', o, |b|)
    ensures Tiled(b', o) && Parse(b', o) == Parse(b, o)
    decreases |b| - o
  {
    hide RecOk, RecAt, LenAt, SameBytes;
    SameLength(b, b', o, |b|);
    if o != |b| {
      RecStep(b, o);
      LessBytes(b, b', o, |b|, o, o + LenAt(b, o));
      LessBytes(b, b', o, |b|, o + LenAt(b, o), |b|);
      RecSame(b, b', o);
      TailSame(b, b', o + LenAt(b, o));
    }
  }

  // ---------------------------------------------------------------- bindings

  function BindingOf(r: Rec): (x: Binding) {
    Binding(r.name, File(r.inode, r.ftype))
  }

  /** A record is in use if its inode is not 0. */
  function LiveOf(r: Rec): (l: seq<Binding>) {
    if r.inode == 0 then [] else [BindingOf(r)]
  }

  /** The bindings of a list of records: those in use. */
  function Live(rs: seq<Rec>): (bs: seq<Binding>) {
    if rs == [] then []
    else LiveOf(rs[0]) + Live(rs[1..])
  }

  lemma LiveStep(rs: seq<Rec>, c: seq<Rec>)
    requires rs != []
    ensures rs + c == [rs[0]] + (rs[1..] + c)
    ensures Live(rs + c) == Live([rs[0]]) + Live(rs[1..] + c)
  {
    assert (rs + c)[1..] == rs[1..] + c;
    assert Live([rs[0]][1..]) == [];
  }

  lemma {:induction false} LiveConcat(a: seq<Rec>, c: seq<Rec>)
    ensures Live(a + c) == Live(a) + Live(c)
  {
    if a == [] {
      assert a + c == c;
    } else {
      LiveStep(a, c);
      LiveStep(a, []);
      assert a + [] == a && a[1..] + [] == a[1..];
      hide Live;
      LiveConcat(a[1..], c);
      Assoc(Live([a[0]]), Live(a[1..]), Live(c));
    }
  }

  predicate AllTiled(data: seq<Block>, bs: nat) {
    forall i | 0 <= i < |data| :: |data[i]| == bs && Tiled(data[i], 0)
  }

  /** The bindings of a directory, block by block. */
  function DirLive(data: seq<Block>, bs: nat): (l: seq<Binding>)
    requires AllTiled(data, bs)
  {
    if data == [] then [] else Live(Parse(data[0], 0)) + DirLive(data[1..], bs)
  }

  lemma DirStep(data: seq<Block>, rest: seq<Block>, bs: nat)
    requires AllTiled(data, bs) && AllTiled(rest, bs) && data != []
    ensures AllTiled(data[1..] + rest, bs) && AllTiled(data + rest, bs)
    ensures DirLive(data + rest, bs) == Live(Parse(data[0], 0)) + DirLive(data[1..] + rest, bs)
  {
    hide Tiled, Parse, Live;
    assert (data + rest)[1..] == data[1..] + rest;
  }

  lemma {:induction false} DirConcat(d: seq<Block>, e: seq<Block>, bs: nat)
    requires AllTiled(d, bs) && AllTiled(e, bs)
    ensures AllTiled(d + e, bs) && DirLive(d + e, bs) == DirLive(d, bs) + DirLive(e, bs)
  {
    if d == [] {
      assert d + e == e;
    } else {
      DirStep(d, e, bs);
      DirStep(d, [], bs);
      assert d + [] == d && d[1..] + [] == d[1..];
      hide Tiled, Parse, Live, DirLive;
      DirConcat(d[1..], e, bs);
      Assoc(Live(Parse(d[0], 0)), DirLive(d[1..], bs), DirLive(e, bs));
    }
  }

  /** The directory seen from one of its blocks. */
  lemma DirAround(data: seq<Block>, bs: nat, n: nat)
    requires AllTiled(data, bs) && n < |data|
    ensures AllTiled(data[..n], bs) && AllTiled(data[n + 1..], bs)
    ensures DirLive(data, bs) == DirLive(data[..n], bs) + Live(Parse(data[n], 0)) + DirLive(data[n + 1..], bs)
  {
    assert data == data[..n] + data[n..];
    assert data[n..][1..] == data[n + 1..];
    DirConcat(data[..n], data[n..], bs);
    Assoc(DirLive(data[..n], bs), Live(Parse(data[n], 0)), DirLive(data[n + 1..], bs));
  }

  /** A directory as a finite map; of two bindings of a name the first counts. */
  function Bind(l: seq<Binding>): (m: map<Name, File>) {
    if l == [] then map[] else Bind(l[1..])[l[0].name := l[0].file]
  }

  predicate Distinct(l: seq<Binding>) {
    forall i, j | 0 <= i < j < |l| :: l[i].name != l[j].name
  }

  lemma {:induction false} BindConcat(a: seq<Binding>, c: seq<Binding>)
    ensures Bind(a + c) == Bind(c) + Bind(a)
  {
    if a == [] {
      assert a + c == c;
    } else {
      BindConcat(a[1..], c);
      assert (a + c)[1..] == a[1..] + c;
    }
  }

  lemma {:induction false} BindHas(l: seq<Binding>, name: Name)
    ensures name in Bind(l) <==> exists i :: 0 <= i < |l| && l[i].name == name
  {
    if l != [] {
      BindHas(l[1..], name);
      assert l[0].name == name || forall i | 0 < i < |l| :: l[i] == l[1..][i - 1];
      if j :| 0 <= j < |l[1..]| && l[1..][j].name == name {
        assert l[j + 1].name == name;
      }
    }
  }

  lemma DistinctWith(a: seq<Binding>, c: seq<Binding>, x: Binding)
    requires Distinct(a + c) && x.name !in Bind(a + c)
    ensures Distinct(a + [x] + c)
  {
    BindHas(a + c, x.name);
    var l, l' := a + c, a + [x] + c;
    assert forall i | 0 <= i < |a| :: l'[i] == l[i];
    assert forall i | |a| < i < |l'| :: l'[i] == l[i - 1];
  }

  /** One binding more: the map gains exactly it. */
  lemma Inserted(a: seq<Binding>, c: seq<Binding>, x: Binding)
    requires Distinct(a + c) && x.name !in Bind(a + c)
    ensures Distinct(a + [x] + c) && Bind(a + [x] + c) == Bind(a + c)[x.name := x.file]
  {
    DistinctWith(a, c, x);
    hide Distinct;
    BindConcat(a, c);
    BindConcat(a + [x], c);
    BindConcat(a, [x]);
  }

  lemma {:induction false} DistinctWithout(a: seq<Binding>, c: seq<Binding>, x: Binding)
    requires Distinct(a + [x] + c)
    ensures Distinct(a + c) && x.name !in Bind(a) && x.name !in Bind(c)
  {
    var l, l' := a + [x] + c, a + c;
    assert l[|a|] == x;
    forall i | 0 <= i < |l'| ensures l'[i] == l[if i < |a| then i else i + 1] {
    }
    BindHas(a, x.name);
    BindHas(c, x.name);
    assert forall i | 0 <= i < |a| :: a[i] == l[i];
    assert forall i | 0 <= i < |c| :: c[i] == l[|a| + 1 + i];
  }

  /** One binding less: the map loses exactly it. */
  lemma Removed(a: seq<Binding>, c: seq<Binding>, x: Binding)
    requires Distinct(a + [x] + c)
    ensures Distinct(a + c) && Bind(a + c) == Bind(a + [x] + c) - {x.name}
    ensures x.name in Bind(a + [x] + c) && Bind(a + [x] + c)[x.name] == x.file
  {
    DistinctWithout(a, c, x);
    hide Distinct;
    BindConcat(a, c);
    BindConcat(a + [x], c);
    BindConcat(a, [x]);
  }
}
