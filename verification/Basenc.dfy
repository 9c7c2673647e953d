/** The loops of coreutils-8.32/src/basenc.c: the encoders, the decode contexts, wrap_write, do_encode and do_decode,
proved against the functions of module Codec.
*/
module Basenc {
  import opened Common
  import opened Codec

  const ENC_BLOCKSIZE := 30720

  // ---------------------------------------------------------------- encoders

  lemma OneByte(s: Scheme, c: Byte)
    requires !s.Z85?
    ensures Encode(s, [c]) == Symbols(s, EncodeGroup(s, [c])) && FromDigits([c], 256) == c
  {
    assert [c][1..] == [] && [c][..0] == [];
    var u := Symbols(s, EncodeGroup(s, [c]));
    assert u + [] == u;
  }

  /** One more byte. */
  lemma EncodeNext(s: Scheme, data: seq<Byte>, k: nat)
    requires !s.Z85? && k < |data|
    ensures Encode(s, data[..k + 1]) == Encode(s, data[..k]) + Encode(s, [data[k]])
  {
    assert data[..k + 1] == data[..k] + [data[k]];
    EncodeConcat(s, data[..k], [data[k]]);
  }

  lemma Nibbles(c: Byte)
    ensures EncodeGroup(Base16, [c]) == [c / 16, c % 16]
  {
    OneByte(Base16, c);
    assert ToDigits(c / 16, 16, 1) == ToDigits(c / 16 / 16, 16, 0) + [c / 16 % 16] == [c / 16];
  }

  method Base16Encode(data: seq<Byte>) returns (out: seq<Byte>)
    ensures out == Encode(Base16, data)
  {
    out := [];
    for k := 0 to |data|
      invariant out == Encode(Base16, data[..k])
    {
      var c := data[k];
      EncodeNext(Base16, data, k);
      OneByte(Base16, c);
      Nibbles(c);
      assert Symbols(Base16, [c / 16, c % 16]) == [Symbol(Base16, c / 16), Symbol(Base16, c % 16)];
      hide Encode;
      out := out + [Symbol(Base16, c / 16), Symbol(Base16, c % 16)];
    }
    assert data[..|data|] == data;
  }

  function P2(n: nat): (p: nat)
    requires n <= 8
  {
    match n
    case 0 => 1 case 1 => 2 case 2 => 4 case 3 => 8 case 4 => 16 case 5 => 32 case 6 => 64 case 7 => 128 case _ => 256
  }

  /** c <<= 1 on an unsigned char. */
  function Shl(c: Byte): (r: Byte) {
    2 * (c as int) % 256
  }

  /** The bits of a byte from the top, as the loop shifts them out. */
  function TopBits(c: Byte, n: nat): (d: seq<nat>)
    ensures |d| == n && forall i | 0 <= i < n :: d[i] < 2
    decreases n
  {
    if n == 0 then [] else [c / 128] + TopBits(Shl(c), n - 1)
  }

  /** A digit put in front. */
  lemma {:induction false} FrontDigit(x: nat, d: seq<nat>)
    requires |d| <= 8
    ensures FromDigits([x] + d, 2) == x * P2(|d|) + FromDigits(d, 2)
    decreases |d|
  {
    if d == [] {
      assert ([x] + d)[..0] == [];
    } else {
      FrontDigit(x, d[..|d| - 1]);
      assert ([x] + d)[..|d|] == [x] + d[..|d| - 1];
      assert ([x] + d)[|d|] == d[|d| - 1];
      Doubled(x, |d|);
    }
  }

  lemma Doubled(x: nat, n: nat)
    requires 1 <= n <= 8
    ensures x * P2(n) == 2 * (x * P2(n - 1))
  {
    match n
    case 1 => case 2 => case 3 => case 4 => case 5 => case 6 => case 7 => case _ =>
  }

  /** A byte of n bits k, in the high places. */
  lemma {:induction false} TopBitsValue(c: Byte, n: nat, k: nat)
    requires n <= 8 && c == k * P2(8 - n)
    ensures FromDigits(TopBits(c, n), 2) * P2(8 - n) == c
    decreases n
  {
    if n > 0 {
      var k' := ShiftedOut(c, n, k);
      TopBitsValue(Shl(c), n - 1, k');
      FrontDigit(c / 128, TopBits(Shl(c), n - 1));
      Assembled(c, FromDigits(TopBits(Shl(c), n - 1), 2), n);
    } else {
      assert c == 0;
    }
  }

  lemma ShlIs(c: Byte)
    ensures Shl(c) == 2 * (c as int) - 256 * (c / 128) && c / 128 == if c >= 128 then 1 else 0
  {
  }

  lemma ShiftedOut(c: Byte, n: nat, k: nat) returns (k': nat)
    requires 1 <= n <= 8 && c == k * P2(8 - n)
    ensures Shl(c) == k' * P2(8 - (n - 1))
  {
    ShlIs(c);
    hide Shl;
    k' := if c >= 128 then k - P2(n - 1) else k;
    match n
    case 1 => case 2 => case 3 => case 4 => case 5 => case 6 => case 7 => case _ =>
  }

  lemma Assembled(c: Byte, v: nat, n: nat)
    requires 1 <= n <= 8 && v * P2(8 - (n - 1)) == Shl(c)
    ensures (c / 128 * P2(n - 1) + v) * P2(8 - n) == c
  {
    ShlIs(c);
    hide Shl;
    match n
    case 1 => case 2 => case 3 => case 4 => case 5 => case 6 => case 7 => case _ =>
  }

  lemma TopBitsAre(c: Byte)
    ensures TopBits(c, 8) == EncodeGroup(Base2Msb, [c])
  {
    TopBitsValue(c, 8, c);
    OneByte(Base2Msb, c);
    DigitsRound(TopBits(c, 8), 2);
  }

  /** The inner loop of base2msbf_encode. */
  method MsbByte(b: Byte) returns (out: seq<Byte>)
    ensures out == Symbols(Base2Msb, EncodeGroup(Base2Msb, [b]))
  {
    TopBitsAre(b);
    hide EncodeGroup, Symbols;
    out := [];
    var c := b;
    ghost var d: seq<nat> := [];
    NoSymbols(Base2Msb);
    for i := 0 to 8
      invariant |d| == i && DigitsOk(Base2Msb, d) && out == Symbols(Base2Msb, d)
      invariant d + TopBits(c, 8 - i) == TopBits(b, 8)
    {
      Snoc(Base2Msb, d, c / 128);
      Assoc(d, [c / 128], TopBits(Shl(c), 7 - i));
      d := d + [c / 128];
      out := out + [if c >= 128 then 49 else 48];
      c := Shl(c);
    }
    assert d + [] == d;
  }

  /** base2msbf_encode */
  method Base2MsbEncode(data: seq<Byte>) returns (out: seq<Byte>)
    ensures out == Encode(Base2Msb, data)
  {
    hide Encode, EncodeGroup, Symbols;
    out := [];
    EncodeNothing();
    for k := 0 to |data|
      invariant out == Encode(Base2Msb, data[..k])
    {
      EncodeNext(Base2Msb, data, k);
      OneByte(Base2Msb, data[k]);
      var bits := MsbByte(data[k]);
      out := out + bits;
    }
    assert data[..|data|] == data;
  }

  lemma NoSymbols(s: Scheme)
    ensures Symbols(s, []) == []
  {
  }

  lemma EncodeNothing()
    ensures forall s :: Encode(s, []) == []
  {
  }

  lemma Snoc(s: Scheme, d: seq<nat>, x: nat)
    requires DigitsOk(s, d) && x < Radix(s)
    ensures DigitsOk(s, d + [x]) && Symbols(s, d + [x]) == Symbols(s, d) + [Symbol(s, x)]
  {
    hide Symbol, Radix;
  }

  /** The inner loop of base2lsbf_encode. */
  method LsbByte(b: Byte) returns (out: seq<Byte>)
    ensures out == Symbols(Base2Lsb, EncodeGroup(Base2Lsb, [b]))
  {
    LowBitsAre(b);
    hide EncodeGroup, Symbols, ToDigits, Reverse;
    out := [];
    var c := b;
    ghost var d: seq<nat> := [];
    NoSymbols(Base2Lsb);
    for i := 0 to 8
      invariant |d| == i && DigitsOk(Base2Lsb, d) && out == Symbols(Base2Lsb, d)
      invariant d + Reverse(ToDigits(c, 2, 8 - i)) == EncodeGroup(Base2Lsb, [b])
    {
      Snoc(Base2Lsb, d, c % 2);
      LowBit(c, 8 - i);
      Assoc(d, [c % 2], Reverse(ToDigits(c / 2, 2, 7 - i)));
      d := d + [c % 2];
      out := out + [if c % 2 == 1 then 49 else 48];
      c := c / 2;
    }
    assert d + [] == d;
  }

  /** base2lsbf_encode */
  method Base2LsbEncode(data: seq<Byte>) returns (out: seq<Byte>)
    ensures out == Encode(Base2Lsb, data)
  {
    hide Encode, EncodeGroup, Symbols;
    out := [];
    EncodeNothing();
    for k := 0 to |data|
      invariant out == Encode(Base2Lsb, data[..k])
    {
      EncodeNext(Base2Lsb, data, k);
      OneByte(Base2Lsb, data[k]);
      var bits := LsbByte(data[k]);
      out := out + bits;
    }
    assert data[..|data|] == data;
  }

  lemma LowBitsAre(c: Byte)
    ensures [] + Reverse(ToDigits(c, 2, 8)) == EncodeGroup(Base2Lsb, [c])
  {
    OneByte(Base2Lsb, c);
  }

  lemma LowBit(c: nat, n: nat)
    requires n > 0
    ensures Reverse(ToDigits(c, 2, n)) == [c % 2] + Reverse(ToDigits(c / 2, 2, n - 1))
  {
    var d := ToDigits(c, 2, n);
    assert d[..n - 1] == ToDigits(c / 2, 2, n - 1);
  }

  /** The quad of z85_encode, as the shifts put it together. */
  lemma QuadValue(q: seq<Byte>)
    requires |q| == 4
    ensures FromDigits(q, 256) == q[0] as int * 0x100_0000 + q[1] as int * 0x1_0000 + q[2] as int * 0x100 + q[3] as int
  {
    assert q[..3][..2] == q[..2] && q[..2][..1] == q[..1] && q[..1][..0] == [];
    assert FromDigits(q[..1], 256) == q[0];
    assert FromDigits(q[..2], 256) == 256 * FromDigits(q[..1], 256) + q[1];
    assert FromDigits(q[..3], 256) == 256 * FromDigits(q[..2], 256) + q[2];
  }

  /** The digit loop of z85_encode, from the last digit to the first. */
  method QuadSymbols(q: seq<Byte>) returns (out: seq<Byte>)
    requires |q| == 4
    ensures out == Symbols(Z85, EncodeGroup(Z85, q))
  {
    hide Symbols, Symbol;
    QuadValue(q);
    var val := q[0] as int * 0x100_0000 + q[1] as int * 0x1_0000 + q[2] as int * 0x100 + q[3] as int;
    ghost var d: seq<nat> := [];
    NoSymbols(Z85);
    out := [];
    var j := 5;
    while j > 0
      invariant 0 <= j <= 5 && |d| == 5 - j && DigitsOk(Z85, d) && out == Symbols(Z85, d) && val >= 0
      invariant ToDigits(val, 85, j) + d == EncodeGroup(Z85, q)
    {
      Cons(Z85, val % 85, d);
      Assoc(ToDigits(val / 85, 85, j - 1), [val % 85], d);
      d := [val % 85] + d;
      out := [Symbol(Z85, val % 85)] + out;
      val := val / 85;
      j := j - 1;
    }
    assert [] + d == d;
  }

  lemma Cons(s: Scheme, x: nat, d: seq<nat>)
    requires DigitsOk(s, d) && x < Radix(s)
    ensures DigitsOk(s, [x] + d) && Symbols(s, [x] + d) == [Symbol(s, x)] + Symbols(s, d)
  {
    hide Symbol, Radix;
  }

  /** z85_encode: the encoding, or death if the last quad is not full. */
  method Z85Encode(data: seq<Byte>) returns (r: Option<seq<Byte>>)
    ensures r.Some? <==> Whole(Z85, data)
    ensures r.Some? ==> r.value == Encode(Z85, data)
  {
    hide Encode, EncodeGroup, Symbols;
    var out: seq<Byte> := [];
    var quad: seq<Byte> := [];
    EncodeNothing();
    var k := 0;
    while k < |data|
      invariant 0 <= k <= |data| && |quad| == k % 4 && quad == data[k - k % 4..k]
      invariant Whole(Z85, data[..k - k % 4]) && out == Encode(Z85, data[..k - k % 4])
    {
      quad := quad + [data[k]];
      k := k + 1;
      if |quad| == 4 {
        assert data[..k] == data[..k - 4] + quad;
        var symbols := QuadSymbols(quad);
        EncodeConcat(Z85, data[..k - 4], quad);
        OneQuad(quad);
        out := out + symbols;
        quad := [];
      }
    }
    if quad == [] {
      assert data[..k] == data;
      return Some(out);
    }
    return None;
  }

  lemma OneQuad(q: seq<Byte>)
    requires |q| == 4
    ensures Encode(Z85, q) == Symbols(Z85, EncodeGroup(Z85, q))
  {
    EncodeFront(Z85, q, []);
    assert q + [] == q;
    var u := Symbols(Z85, EncodeGroup(Z85, q));
    assert u + [] == u;
  }

  // ---------------------------------------------------------------- wrapping

  /** A text written from column col on, with a newline before every character that would exceed column w. */
  function Wrapped(col: nat, w: nat, t: seq<Byte>): (u: seq<Byte>)
    requires 0 < w && col <= w
    decreases |t|, col
  {
    if t == [] then []
    else if col == w then [NEWLINE] + Wrapped(0, w, t)
    else [t[0]] + Wrapped(col + 1, w, t[1..])
  }

  function ColumnAfter(col: nat, w: nat, t: seq<Byte>): (c: nat)
    requires 0 < w && col <= w
    ensures c <= w && (t != [] ==> c > 0) && (t == [] ==> c == col)
    decreases |t|, col
  {
    if t == [] then col
    else if col == w then ColumnAfter(0, w, t)
    else ColumnAfter(col + 1, w, t[1..])
  }

  /** The part that fits the line. */
  lemma {:induction false} WrappedRun(col: nat, w: nat, t: seq<Byte>, k: nat)
    requires 0 < w && col + k <= w && k <= |t|
    ensures Wrapped(col, w, t) == t[..k] + Wrapped(col + k, w, t[k..])
    ensures ColumnAfter(col, w, t) == ColumnAfter(col + k, w, t[k..])
    decreases k
  {
    if k == 0 {
      assert t[0..] == t && t[..0] + Wrapped(col, w, t) == Wrapped(col, w, t);
    } else {
      WrappedRun(col + 1, w, t[1..], k - 1);
      assert t[1..][k - 1..] == t[k..] && t[..k] == [t[0]] + t[1..][..k - 1];
      Assoc([t[0]], t[1..][..k - 1], Wrapped(col + k, w, t[k..]));
    }
  }

  /** wrap_write */
  method WrapWrite(t: seq<Byte>, w: nat, col: nat) returns (out: seq<Byte>, col': nat)
    requires w > 0 ==> col <= w
    ensures w == 0 ==> out == t && col' == col
    ensures w > 0 ==> out == Wrapped(col, w, t) && col' == ColumnAfter(col, w, t)
  {
    if w == 0 {
      return t, col;
    }
    hide Wrapped, ColumnAfter, WrapState;
    out, col' := [], col;
    var written := 0;
    WrapStart(w, col, t);
    while written < |t|
      invariant 0 <= written <= |t| && col' <= w && WrapState(w, col, t, out, col', written)
      decreases |t| - written, col'
    {
      var toWrite := if w - col' < |t| - written then w - col' else |t| - written;
      if toWrite == 0 {
        WrapBreak(w, col, t, out, written);
        out, col' := out + [NEWLINE], 0;
      } else {
        WrapFill(w, col, t, out, col', written, toWrite);
        out := out + t[written..written + toWrite];
        col', written := col' + toWrite, written + toWrite;
      }
    }
    WrapEnd(w, col, t, out, col');
  }

  /** The first characters are out, and the rest will follow from the current column. */
  ghost predicate WrapState(w: nat, col: nat, t: seq<Byte>, out: seq<Byte>, col': nat, written: nat) {
    && 0 < w && col <= w && col' <= w && written <= |t|
    && out + Wrapped(col', w, t[written..]) == Wrapped(col, w, t)
    && ColumnAfter(col', w, t[written..]) == ColumnAfter(col, w, t)
  }

  lemma WrapStart(w: nat, col: nat, t: seq<Byte>)
    requires 0 < w && col <= w
    ensures WrapState(w, col, t, [], col, 0)
  {
    assert t[0..] == t;
    Emptied(col, w, t);
  }

  lemma WrapBreak(w: nat, col: nat, t: seq<Byte>, out: seq<Byte>, written: nat)
    requires WrapState(w, col, t, out, w, written) && written < |t|
    ensures WrapState(w, col, t, out + [NEWLINE], 0, written)
  {
    hide Wrapped, ColumnAfter;
    LineFull(w, t[written..]);
    Assoc(out, [NEWLINE], Wrapped(0, w, t[written..]));
  }

  lemma WrapFill(w: nat, col: nat, t: seq<Byte>, out: seq<Byte>, col': nat, written: nat, n: nat)
    requires WrapState(w, col, t, out, col', written) && col' + n <= w && written + n <= |t|
    ensures WrapState(w, col, t, out + t[written..written + n], col' + n, written + n)
  {
    hide Wrapped, ColumnAfter;
    var rest := t[written..];
    WrappedRun(col', w, rest, n);
    assert rest[..n] == t[written..written + n] && rest[n..] == t[written + n..];
    Assoc(out, rest[..n], Wrapped(col' + n, w, rest[n..]));
  }

  lemma WrapEnd(w: nat, col: nat, t: seq<Byte>, out: seq<Byte>, col': nat)
    requires WrapState(w, col, t, out, col', |t|)
    ensures out == Wrapped(col, w, t) && col' == ColumnAfter(col, w, t)
  {
    Emptied(col', w, t[|t|..]);
    assert out + [] == out;
  }

  lemma Emptied(col: nat, w: nat, t: seq<Byte>)
    requires 0 < w && col <= w
    ensures [] + Wrapped(col, w, t) == Wrapped(col, w, t)
    ensures t == [] ==> Wrapped(col, w, t) == [] && ColumnAfter(col, w, t) == col
  {
  }

  lemma LineFull(w: nat, t: seq<Byte>)
    requires 0 < w && t != []
    ensures Wrapped(w, w, t) == [NEWLINE] + Wrapped(0, w, t) && ColumnAfter(w, w, t) == ColumnAfter(0, w, t)
  {
  }

  /** Texts written one after the other. */
  lemma {:induction false} WrappedConcat(col: nat, w: nat, a: seq<Byte>, b: seq<Byte>)
    requires 0 < w && col <= w
    ensures Wrapped(col, w, a + b) == Wrapped(col, w, a) + Wrapped(ColumnAfter(col, w, a), w, b)
    ensures ColumnAfter(col, w, a + b) == ColumnAfter(ColumnAfter(col, w, a), w, b)
    decreases |a|, col
  {
    if a == [] {
      assert a + b == b;
    } else if col == w {
      LineFull(w, a);
      LineFull(w, a + b);
      WrappedConcat(0, w, a, b);
      Assoc([NEWLINE], Wrapped(0, w, a), Wrapped(ColumnAfter(0, w, a), w, b));
    } else {
      WrappedConcat(col + 1, w, a[1..], b);
      assert (a + b)[1..] == a[1..] + b && (a + b)[0] == a[0];
      Assoc([a[0]], Wrapped(col + 1, w, a[1..]), Wrapped(ColumnAfter(col, w, a), w, b));
    }
  }

  /** Wrapping only adds newlines. */
  lemma {:induction false} WrappedStrip(col: nat, w: nat, t: seq<Byte>)
    requires 0 < w && col <= w
    ensures Strip(Wrapped(col, w, t)) == Strip(t)
    decreases |t|, col
  {
    if t != [] {
      if col == w {
        WrappedStrip(0, w, t);
        StripStep(NEWLINE, Wrapped(0, w, t));
        assert [] + Strip(t) == Strip(t);
      } else {
        WrappedStrip(col + 1, w, t[1..]);
        StripStep(t[0], Wrapped(col + 1, w, t[1..]));
        StripStep(t[0], t[1..]);
        assert t == [t[0]] + t[1..];
      }
    }
  }

  /** What do_encode writes for an encoded text: wrapped, and the last line ended. */
  function Layout(w: nat, t: seq<Byte>): (u: seq<Byte>) {
    if w == 0 then t else Wrapped(0, w, t) + if t == [] then [] else [NEWLINE]
  }

  /** Lines of exactly w characters, and one more with the rest. */
  function Lines(w: nat, t: seq<Byte>): (u: seq<Byte>)
    requires w > 0
    decreases |t|
  {
    if t == [] then []
    else if |t| <= w then t + [NEWLINE]
    else t[..w] + [NEWLINE] + Lines(w, t[w..])
  }

  lemma {:induction false} LayoutLines(w: nat, t: seq<Byte>)
    requires w > 0
    ensures Layout(w, t) == Lines(w, t)
    decreases |t|
  {
    if 0 < |t| <= w {
      WrappedRun(0, w, t, |t|);
      assert t[..|t|] == t && t[|t|..] == [] && t + [] == t;
    } else if t != [] {
      var rest := t[w..];
      WrappedRun(0, w, t, w);
      LayoutLines(w, rest);
      assert Wrapped(w, w, rest) == [NEWLINE] + Wrapped(0, w, rest);
      hide Wrapped;
      Assoc(t[..w], [NEWLINE], Wrapped(0, w, rest));
      Assoc(t[..w] + [NEWLINE], Wrapped(0, w, rest), [NEWLINE]);
    }
  }

  lemma {:induction false} EncodePlain(s: Scheme, data: seq<Byte>)
    requires Whole(s, data)
    ensures NEWLINE !in Encode(s, data)
    decreases |data|
  {
    if data != [] {
      WholeParts(s, data);
      EncodePlain(s, data[GroupBytes(s)..]);
      SymbolsPlain(s, EncodeGroup(s, data[..GroupBytes(s)]));
    }
  }

  lemma SymbolsPlain(s: Scheme, d: seq<nat>)
    requires DigitsOk(s, d)
    ensures NEWLINE !in Symbols(s, d)
  {
    forall i | 0 <= i < |d| ensures Symbols(s, d)[i] != NEWLINE {
      TablesAgree(s, 0, d[i]);
    }
  }

  /** Encoding with any wrap column and decoding the text returns the data. */
  lemma WrappedRoundTrip(s: Scheme, data: seq<Byte>, w: nat)
    requires Whole(s, data)
    ensures Decode(s, Layout(w, Encode(s, data))) == Some(data)
  {
    var t := Encode(s, data);
    EncodePlain(s, data);
    assert forall i | 0 <= i < |t| :: t[i] in t;
    StripPlain(t);
    if w > 0 {
      WrappedStrip(0, w, t);
      StripConcat(Wrapped(0, w, t), [NEWLINE]);
      assert Strip([NEWLINE]) == Plain(NEWLINE) + Strip([NEWLINE][1..]) == [];
      assert Wrapped(0, w, t) + [] == Wrapped(0, w, t);
    }
    RoundTrip(s, data, Layout(w, t));
  }

  /** base_encode of one block, by scheme. */
  method EncodeBlock(s: Scheme, block: seq<Byte>) returns (r: Option<seq<Byte>>)
    ensures r.Some? <==> Whole(s, block)
    ensures r.Some? ==> r.value == Encode(s, block)
  {
    match s
    case Base16 => var t := Base16Encode(block); r := Some(t);
    case Base2Msb => var t := Base2MsbEncode(block); r := Some(t);
    case Base2Lsb => var t := Base2LsbEncode(block); r := Some(t);
    case Z85 => r := Z85Encode(block);
  }

  /** The text written so far, and its column. */
  ghost predicate WrittenSo(w: nat, t: seq<Byte>, out: seq<Byte>, col: nat) {
    if w == 0 then out == t && col == 0 else out == Wrapped(0, w, t) && col == ColumnAfter(0, w, t)
  }

  lemma WriteMore(w: nat, t: seq<Byte>, out: seq<Byte>, col: nat, u: seq<Byte>, more: seq<Byte>, col': nat)
    requires WrittenSo(w, t, out, col)
    requires if w == 0 then more == u && col' == col else more == Wrapped(col, w, u) && col' == ColumnAfter(col, w, u)
    ensures WrittenSo(w, t + u, out + more, col')
  {
    if w > 0 {
      WrappedConcat(0, w, t, u);
    }
  }

  /** Cutting off a full block. */
  lemma BlockCut(s: Scheme, data: seq<Byte>, pos: nat, sum: nat)
    requires pos % ENC_BLOCKSIZE == 0 && pos + sum <= |data|
    ensures data[..pos + sum] == data[..pos] + data[pos..pos + sum] && Whole(s, data[..pos])
    ensures Whole(s, data[..pos + sum]) <==> Whole(s, data[pos..pos + sum])
  {
  }

  /** do_encode: the encoding of all of the input, wrapped; for z85 death if the input does not fill its quads. */
  method DoEncode(s: Scheme, data: seq<Byte>, w: nat) returns (r: Option<seq<Byte>>)
    ensures r.Some? <==> Whole(s, data)
    ensures r.Some? ==> r.value == Layout(w, Encode(s, data))
  {
    hide Encode, Wrapped, ColumnAfter, WrittenSo, Whole;
    var pos, col: nat := 0, 0;
    var out: seq<Byte> := [];
    var more := true;
    NothingYet(s, w);
    assert data[..0] == [];
    while more
      invariant 0 <= pos <= |data| && (w > 0 ==> col <= w) && Whole(s, data[..pos])
      invariant if more then pos % ENC_BLOCKSIZE == 0 else pos == |data|
      invariant WrittenSo(w, Encode(s, data[..pos]), out, col)
      decreases more, |data| - pos
    {
      var sum := if |data| - pos < ENC_BLOCKSIZE then |data| - pos else ENC_BLOCKSIZE;
      BlockCut(s, data, pos, sum);
      BlockCut(s, data, pos, |data| - pos);
      assert data[pos..|data|] == data[pos..] && data[..|data|] == data;
      if sum > 0 {
        var block := data[pos..pos + sum];
        var enc := EncodeBlock(s, block);
        if enc.None? {
          NotWhole(s, data, pos, sum);
          return None;
        }
        EncodeConcat(s, data[..pos], block);
        ghost var out0, col0 := out, col;
        var text;
        text, col := WrapWrite(enc.value, w, col);
        WriteMore(w, Encode(s, data[..pos]), out0, col0, enc.value, text, col);
        out := out + text;
      }
      pos := pos + sum;
      more := sum == ENC_BLOCKSIZE;
    }
    assert data[..pos] == data;
    Finished(w, Encode(s, data), out, col);
    if w > 0 && col > 0 {
      out := out + [NEWLINE];
    }
    return Some(out);
  }

  lemma NothingYet(s: Scheme, w: nat)
    ensures Whole(s, []) && WrittenSo(w, Encode(s, []), [], 0)
  {
  }

  /** A block that cannot be encoded is the last one, and the input is not whole. */
  lemma NotWhole(s: Scheme, data: seq<Byte>, pos: nat, sum: nat)
    requires pos % ENC_BLOCKSIZE == 0 && pos + sum <= |data| && !Whole(s, data[pos..pos + sum])
    requires sum == ENC_BLOCKSIZE || pos + sum == |data|
    ensures !Whole(s, data)
  {
  }

  lemma Finished(w: nat, t: seq<Byte>, out: seq<Byte>, col: nat)
    requires WrittenSo(w, t, out, col)
    ensures Layout(w, t) == if w > 0 && col > 0 then out + [NEWLINE] else out
  {
    if w > 0 && t == [] {
      assert out + [] == out;
    }
  }

  // ---------------------------------------------------------------- decode contexts

  /** struct base_decode_context, with the union of the schemes' own fields. */
  class Context {
    const scheme: Scheme
    var i: nat
    var haveNibble: bool
    var nibble: nat
    var octets: seq<nat>
    var octet: nat
    /** The digits of the unfinished group. */
    ghost var pend: seq<nat>

    /** base16_decode_ctx_init, z85_decode_ctx_init and base2_decode_ctx_init. */
    constructor (s: Scheme)
      ensures Valid() && pend == [] && scheme == s
    {
      scheme := s;
      i := if s.Base16? || s.Z85? then 1 else 0;
      haveNibble, nibble, octets, octet, pend := false, 0, [], 0, [];
    }

    ghost predicate Keeps()
      reads this
    {
      && Pending(scheme, pend)
      && match scheme
         case Base16 => i == 1 && pend == if haveNibble then [nibble] else []
         case Base2Msb => i == (8 - |pend|) % 8 && octet == FromDigits(pend, 2) * P2(8 - |pend|)
         case Base2Lsb => i == |pend| && octet == FromDigits(Reverse(pend), 2)
         case Z85 => octets == pend
    }

    /** Between calls; z85 copies its counter to the field i at the end of a call. */
    ghost predicate Valid()
      reads this
    {
      Keeps() && (scheme.Z85? ==> i == |pend| || (i == 1 && pend == []))
    }

    /** One character of base16_decode_ctx. */
    method Char16(c: Byte) returns (ok: bool, out: seq<Byte>)
      requires Keeps() && scheme.Base16? && c != NEWLINE
      modifies this`haveNibble, this`nibble, this`pend
      ensures var r := FeedChar(scheme, old(pend), c); ok == r.ok && out == r.out && pend == r.pend
      ensures Keeps()
    {
      out := [];
      var nib;
      if 65 <= c <= 70 {
        nib := c - 65 + 10;
      } else if 48 <= c <= 57 {
        nib := c - 48;
      } else {
        return false, [];
      }
      if haveNibble {
        assert pend[0] == nibble;
        TwoNibbles(nibble, nib);
        out := [nibble * 16 + nib];
        pend := [];
      } else {
        nibble := nib;
        pend := pend + [nib];
      }
      haveNibble := !haveNibble;
      return true, out;
    }

    /** One character of base2lsbf_decode_ctx; the bit or'ed in was clear. */
    method CharLsb(c: Byte) returns (ok: bool, out: seq<Byte>)
      requires Keeps() && scheme.Base2Lsb? && c != NEWLINE
      modifies this`i, this`octet, this`pend
      ensures var r := FeedChar(scheme, old(pend), c); ok == r.ok && out == r.out && pend == r.pend
      ensures Keeps()
    {
      hide FromDigits, DecodeGroup, Reverse;
      if c != 48 && c != 49 {
        return false, [];
      }
      var bit := c - 48;
      LsbNext(pend, bit);
      octet := octet + bit * P2(i);
      i := i + 1;
      ghost var d := pend + [bit];
      if i == 8 {
        ByteGroup(Base2Lsb, d);
        out := [octet];
        NoBits();
        octet, i, pend := 0, 0, [];
      } else {
        out, pend := [], d;
      }
      return true, out;
    }

    /** One character of base2msbf_decode_ctx. */
    method CharMsb(c: Byte) returns (ok: bool, out: seq<Byte>)
      requires Keeps() && scheme.Base2Msb? && c != NEWLINE
      modifies this`i, this`octet, this`pend
      ensures var r := FeedChar(scheme, old(pend), c); ok == r.ok && out == r.out && pend == r.pend
      ensures Keeps()
    {
      hide FromDigits, DecodeGroup;
      if c != 48 && c != 49 {
        return false, [];
      }
      var bit := c - 48;
      MsbNext(pend, bit);
      if i == 0 {
        i := 8;
      }
      i := i - 1;
      octet := octet + bit * P2(i);
      ghost var d := pend + [bit];
      if i == 0 {
        ByteGroup(Base2Msb, d);
        out := [octet];
        NoBits();
        octet, pend := 0, [];
      } else {
        out, pend := [], d;
      }
      return true, out;
    }

    /** One character of z85_decode_ctx: a group whose value exceeds 32 bits is rejected. */
    method Char85(c: Byte) returns (ok: bool, out: seq<Byte>)
      requires Keeps() && scheme.Z85? && c != NEWLINE
      modifies this`octets, this`pend
      ensures var r := FeedChar(scheme, old(pend), c); ok == r.ok && out == r.out && pend == r.pend
      ensures ok ==> Keeps()
    {
      hide FromDigits, DecodeGroup;
      var d := Digit(Z85, c);
      if d.None? {
        return false, [];
      }
      TablesAgree(Z85, c, 0);
      hide Digit, Symbol;
      octets := octets + [d.value];
      if |octets| == 5 {
        Group85(octets);
        var lo := octets[1] * 614125 + octets[2] * 7225 + octets[3] * 85 + octets[4];
        if octets[0] == 84 || octets[0] == 83 || (octets[0] == 82 && lo > 0xFFFF_FFFF - 82 * 52200625) {
          return false, [];
        }
        var val := lo + octets[0] * 52200625;
        Bytes85(val);
        out := [val / 0x100_0000 % 256, val / 0x1_0000 % 256, val / 0x100 % 256, val % 256];
        octets, pend := [], [];
      } else {
        out, pend := [], octets;
      }
      return true, out;
    }

    /** One character other than a newline, by scheme. */
    method Char(c: Byte) returns (ok: bool, out: seq<Byte>)
      requires Keeps() && c != NEWLINE
      modifies this
      ensures var r := FeedChar(scheme, old(pend), c); ok == r.ok && out == r.out && pend == r.pend
      ensures ok ==> Keeps()
    {
      hide FeedChar;
      match scheme
      case Base16 => ok, out := Char16(c);
      case Base2Msb => ok, out := CharMsb(c);
      case Base2Lsb => ok, out := CharLsb(c);
      case Z85 => ok, out := Char85(c);
    }

    /** The decode functions: the empty text asks whether the input may end here. */
    method DecodeCtx(t: seq<Byte>) returns (ok: bool, out: seq<Byte>)
      requires Valid()
      modifies this
      ensures t == [] ==> ok == (pend == []) && out == [] && pend == old(pend) && Valid()
      ensures t != [] ==> var f := Feed(scheme, old(pend), t); ok == f.ok && out == f.out && (ok ==> Valid() && pend == f.pend)
    {
      hide Feed, FeedChar, Resumed, FromDigits;
      if t == [] {
        match scheme
        case Base16 => return !haveNibble, [];
        case Base2Msb => return i == 0, [];
        case Base2Lsb => return i == 0, [];
        case Z85 => return |octets| == 0, [];
      }
      out := [];
      ghost var all := Feed(scheme, pend, t);
      ResumedNothing(pend, all);
      var k := 0;
      assert t[0..] == t;
      while k < |t|
        invariant 0 <= k <= |t| && Keeps() && all == Resumed(Fed(true, pend, out), Feed(scheme, pend, t[k..]))
      {
        ghost var pend0, out0 := pend, out;
        assert t[k..] == [t[k]] + t[k + 1..];
        FeedStep(scheme, pend, t[k], t[k + 1..]);
        ghost var r := FeedChar(scheme, pend, t[k]);
        ResumedAssoc(Fed(true, pend0, out0), r, Feed(scheme, r.pend, t[k + 1..]));
        ResumedOk(pend0, out0, r);
        if t[k] == NEWLINE {
          NewlineFed(scheme, pend);
          assert out + [] == out;
        } else {
          var more;
          ok, more := Char(t[k]);
          out := out + more;
          if !ok {
            ResumedStops(Resumed(Fed(true, pend0, out0), r), Feed(scheme, r.pend, t[k + 1..]));
            return false, out;
          }
        }
        k := k + 1;
      }
      FedEnd(scheme, pend, out);
      assert t[|t|..] == [];
      if scheme.Z85? {
        i := |octets|;
      }
      return true, out;
    }
  }

  lemma ResumedNothing(pend: seq<nat>, q: Fed)
    ensures Resumed(Fed(true, pend, []), q) == q
  {
    assert [] + q.out == q.out;
  }

  lemma ResumedOk(pend: seq<nat>, out: seq<Byte>, r: Fed)
    ensures Resumed(Fed(true, pend, out), r) == Fed(r.ok, r.pend, out + r.out)
  {
  }

  lemma ResumedStops(r: Fed, q: Fed)
    ensures !r.ok ==> Resumed(r, q) == r
  {
  }

  lemma NewlineFed(s: Scheme, pend: seq<nat>)
    requires Pending(s, pend)
    ensures FeedChar(s, pend, NEWLINE) == Fed(true, pend, [])
  {
  }

  lemma FedEnd(s: Scheme, pend: seq<nat>, out: seq<Byte>)
    requires Pending(s, pend)
    ensures Resumed(Fed(true, pend, out), Feed(s, pend, [])) == Fed(true, pend, out)
  {
    assert out + [] == out;
  }

  // ---------------------------------------------------------------- decoding a file

  function Flatten(chunks: seq<seq<Byte>>): (t: seq<Byte>) {
    if chunks == [] then [] else Flatten(chunks[..|chunks| - 1]) + chunks[|chunks| - 1]
  }

  // ---------------------------------------------------------------- ignoring garbage

  /** isbase of the scheme.  isz85 asks strchr, which also finds the NUL that ends its list. */
  predicate IsBase(s: Scheme, c: Byte) {
    match s
    case Base16 => 48 <= c <= 57 || 65 <= c <= 70
    case Base2Msb => c == 48 || c == 49
    case Base2Lsb => c == 48 || c == 49
    case Z85 =>
      || 48 <= c <= 57 || 65 <= c <= 90 || 97 <= c <= 122
      || c in [46, 45, 58, 43, 61, 94, 33, 47, 42, 63, 38, 60, 62, 40, 41, 91, 93, 123, 125, 64, 37, 36, 35, 0]
  }

  predicate Wanted(s: Scheme, c: Byte) {
    IsBase(s, c) || c == 61
  }

  function Kept(s: Scheme, t: seq<Byte>): (u: seq<Byte>) {
    if t == [] then [] else (if Wanted(s, t[0]) then [t[0]] else []) + Kept(s, t[1..])
  }

  function OnlyDigits(s: Scheme, t: seq<Byte>): (u: seq<Byte>) {
    if t == [] then [] else (if Digit(s, t[0]).Some? then [t[0]] else []) + OnlyDigits(s, t[1..])
  }

  /** The filter keeps c though the decoder refuses it. */
  predicate Slips(c: Byte, s: Scheme) {
    if s.Z85? then c == 0 else c == 61
  }

  lemma WantedDigits(s: Scheme, c: Byte)
    ensures Wanted(s, c) <==> Digit(s, c).Some? || Slips(c, s)
    ensures Slips(c, s) ==> Digit(s, c).None?
  {
  }

  lemma {:induction false} KeptConcat(s: Scheme, a: seq<Byte>, b: seq<Byte>)
    ensures Kept(s, a + b) == Kept(s, a) + Kept(s, b)
  {
    if a == [] {
      assert a + b == b;
    } else {
      assert (a + b)[0] == a[0] && (a + b)[1..] == a[1..] + b;
      KeptConcat(s, a[1..], b);
    }
  }

  lemma {:induction false} KeptDigits(s: Scheme, t: seq<Byte>)
    ensures (forall i | 0 <= i < |t| :: !Slips(t[i], s)) ==> Kept(s, t) == OnlyDigits(s, t)
    ensures forall c | c in t && Slips(c, s) :: c in Kept(s, t)
  {
    if t != [] {
      WantedDigits(s, t[0]);
      hide Wanted, Slips, Digit;
      KeptDigits(s, t[1..]);
    }
  }

  /** A character that is neither digit nor newline spoils the text. */
  lemma Foreign(s: Scheme, t: seq<Byte>, c: Byte)
    requires c in t && Digit(s, c).None? && c != NEWLINE
    ensures Decode(s, t).None?
  {
    var i :| 0 <= i < |t| && t[i] == c;
    assert t == t[..i] + t[i..] && t[i..] == [c] + t[i + 1..];
    FeedConcat(s, [], t[..i], t[i..]);
    FeedStep(s, Feed(s, [], t[..i]).pend, c, t[i + 1..]);
    hide Feed, Digit;
  }

  /** What --ignore-garbage promises, that only the digits of the text count, holds exactly if no character slips
      through the filter or the digits alone are no encoding. */
  lemma IgnoreGarbage(s: Scheme, t: seq<Byte>)
    ensures Decode(s, Kept(s, t)) == Decode(s, OnlyDigits(s, t)) <==>
            (forall i | 0 <= i < |t| :: !Slips(t[i], s)) || Decode(s, OnlyDigits(s, t)).None?
  {
    KeptDigits(s, t);
    hide Decode, OnlyDigits;
    if i :| 0 <= i < |t| && Slips(t[i], s) {
      WantedDigits(s, t[i]);
      Foreign(s, Kept(s, t), t[i]);
    }
  }

  /** Such a text: an encoding with one more character. */
  lemma GarbageKept(s: Scheme, data: seq<Byte>, c: Byte)
    requires Whole(s, data) && Slips(c, s)
    ensures OnlyDigits(s, Encode(s, data) + [c]) == Encode(s, data)
    ensures Decode(s, OnlyDigits(s, Encode(s, data) + [c])) == Some(data)
    ensures Decode(s, Kept(s, Encode(s, data) + [c])).None?
  {
    var t := Encode(s, data) + [c];
    EncodeDigits(s, data);
    WantedDigits(s, c);
    DigitsOnly(s, Encode(s, data), c);
    EncodePlain(s, data);
    StripPlain(Encode(s, data));
    RoundTrip(s, data, Encode(s, data));
    hide Decode, Encode, OnlyDigits;
    assert t[|t| - 1] == c;
    KeptDigits(s, t);
    Foreign(s, Kept(s, t), c);
  }

  lemma {:induction false} EncodeDigits(s: Scheme, data: seq<Byte>)
    requires Whole(s, data)
    ensures forall i | 0 <= i < |Encode(s, data)| :: Digit(s, Encode(s, data)[i]).Some?
    decreases |data|
  {
    if data != [] {
      WholeParts(s, data);
      var n := GroupBytes(s);
      var d := EncodeGroup(s, data[..n]);
      EncodeDigits(s, data[n..]);
      forall i | 0 <= i < |Symbols(s, d)| ensures Digit(s, Symbols(s, d)[i]).Some? {
        TablesAgree(s, 0, d[i]);
      }
      hide Digit, Symbols, EncodeGroup;
    }
  }

  lemma {:induction false} DigitsOnly(s: Scheme, t: seq<Byte>, c: Byte)
    requires Digit(s, c).None? && forall i | 0 <= i < |t| :: Digit(s, t[i]).Some?
    ensures OnlyDigits(s, t + [c]) == t
  {
    hide Digit;
    if t == [] {
      assert (t + [c])[1..] == [];
    } else {
      assert (t + [c])[0] == t[0] && (t + [c])[1..] == t[1..] + [c];
      DigitsOnly(s, t[1..], c);
    }
  }

  /** The filter loop of do_decode, over what one fread brought. */
  method DropGarbage(s: Scheme, read: seq<Byte>) returns (inbuf: seq<Byte>)
    ensures inbuf == Kept(s, read)
  {
    hide Wanted;
    inbuf := read;
    var i := 0;
    assert read[..0] == [] && read[0..] == read;
    while i < |inbuf|
      invariant 0 <= i <= |inbuf| && Kept(s, read) == inbuf[..i] + Kept(s, inbuf[i..])
      decreases |inbuf| - i
    {
      ghost var rest := inbuf[i..];
      assert rest[0] == inbuf[i] && rest[1..] == inbuf[i + 1..];
      if Wanted(s, inbuf[i]) {
        assert inbuf[..i + 1] == inbuf[..i] + [inbuf[i]];
        Assoc(inbuf[..i], [inbuf[i]], Kept(s, inbuf[i + 1..]));
        i := i + 1;
      } else {
        assert [] + Kept(s, rest[1..]) == Kept(s, rest[1..]);
        ghost var before := inbuf;
        inbuf := inbuf[..i] + inbuf[i + 1..];
        assert inbuf[..i] == before[..i] && inbuf[i..] == rest[1..];
      }
    }
    assert inbuf[..i] == inbuf && inbuf[i..] == [];
  }

  /** What the option leaves of a text. */
  function Taken(s: Scheme, ignoreGarbage: bool, t: seq<Byte>): (u: seq<Byte>) {
    if ignoreGarbage then Kept(s, t) else t
  }

  lemma TakenConcat(s: Scheme, ignoreGarbage: bool, a: seq<Byte>, b: seq<Byte>)
    ensures Taken(s, ignoreGarbage, []) == []
    ensures Taken(s, ignoreGarbage, a + b) == Taken(s, ignoreGarbage, a) + Taken(s, ignoreGarbage, b)
  {
    KeptConcat(s, a, b);
  }

  /** The reading loop: one block out of as many parts as fread delivers. */
  method FillBlock(s: Scheme, ignoreGarbage: bool, parts: seq<seq<Byte>>) returns (inbuf: seq<Byte>)
    ensures inbuf == Taken(s, ignoreGarbage, Flatten(parts))
  {
    TakenConcat(s, ignoreGarbage, [], []);
    hide Taken, Kept;
    inbuf := [];
    var k := 0;
    while k < |parts|
      invariant 0 <= k <= |parts| && inbuf == Taken(s, ignoreGarbage, Flatten(parts[..k]))
    {
      var more := TakeRead(s, ignoreGarbage, parts[k]);
      assert parts[..k + 1][..k] == parts[..k];
      TakenConcat(s, ignoreGarbage, Flatten(parts[..k]), parts[k]);
      inbuf := inbuf + more;
      k := k + 1;
    }
    assert parts[..k] == parts;
  }

  method TakeRead(s: Scheme, ignoreGarbage: bool, read: seq<Byte>) returns (inbuf: seq<Byte>)
    ensures inbuf == Taken(s, ignoreGarbage, read)
  {
    inbuf := read;
    if ignoreGarbage {
      inbuf := DropGarbage(s, read);
    }
  }

  /** The input, read block by block. */
  function Input(blocks: seq<seq<seq<Byte>>>): (t: seq<Byte>) {
    if blocks == [] then [] else Input(blocks[..|blocks| - 1]) + Flatten(blocks[|blocks| - 1])
  }

  function Chunks(s: Scheme, ignoreGarbage: bool, blocks: seq<seq<seq<Byte>>>): (c: seq<seq<Byte>>) {
    seq(|blocks|, k requires 0 <= k < |blocks| => Taken(s, ignoreGarbage, Flatten(blocks[k])))
  }

  lemma {:induction false} ChunksInput(s: Scheme, ignoreGarbage: bool, blocks: seq<seq<seq<Byte>>>)
    ensures Flatten(Chunks(s, ignoreGarbage, blocks)) == Taken(s, ignoreGarbage, Input(blocks))
  {
    if blocks == [] {
      TakenConcat(s, ignoreGarbage, [], []);
    } else {
      var n := |blocks| - 1;
      var c := Chunks(s, ignoreGarbage, blocks);
      ChunksInput(s, ignoreGarbage, blocks[..n]);
      assert c[..n] == Chunks(s, ignoreGarbage, blocks[..n]);
      TakenConcat(s, ignoreGarbage, Input(blocks[..n]), Flatten(blocks[n]));
      hide Taken;
    }
  }

  /** do_decode over the blocks that are read, of which only the last may be empty: what is written, and whether the
      input, without garbage if that is asked for, was valid.  How it falls into blocks makes no difference. */
  method DoDecode(s: Scheme, ignoreGarbage: bool, blocks: seq<seq<seq<Byte>>>) returns (ok: bool, out: seq<Byte>)
    requires blocks != [] && forall k | 0 <= k < |blocks| - 1 :: Taken(s, ignoreGarbage, Flatten(blocks[k])) != []
    ensures var t := Taken(s, ignoreGarbage, Input(blocks));
      && (ok <==> Decode(s, t).Some?)
      && (ok ==> Decode(s, t) == Some(out))
      && (!ok ==> out == Feed(s, [], t).out)
  {
    ghost var chunks, t := Chunks(s, ignoreGarbage, blocks), Taken(s, ignoreGarbage, Input(blocks));
    ChunksInput(s, ignoreGarbage, blocks);
    NoChunks(s, chunks);
    hide Feed, FeedChar, Resumed, Taken, Input, Progress, Flatten;
    var ctx := new Context(s);
    out := [];
    var k := 0;
    while k < |blocks|
      invariant 0 <= k <= |blocks| && ctx.Valid() && ctx.scheme == s && fresh(ctx)
      invariant Progress(s, chunks, k, ctx.pend, out)
      invariant k == |blocks| ==> ctx.pend == []
    {
      ghost var pend := ctx.pend;
      var inbuf := FillBlock(s, ignoreGarbage, blocks[k]);
      assert inbuf == chunks[k];
      var more;
      ok, more := ctx.DecodeCtx(inbuf);
      NextChunk(s, chunks, k, pend, out);
      out := out + more;
      if !ok {
        if inbuf == [] {
          AllChunks(s, chunks, pend, out);
        }
        return false, out;
      }
      k := k + 1;
      if k == |blocks| && ctx.i != 0 {
        AllChunks(s, chunks, ctx.pend, out);
        ok, more := ctx.DecodeCtx([]);
        NothingFed(s, ctx.pend, out);
        if !ok {
          return false, out;
        }
      }
    }
    AllChunks(s, chunks, ctx.pend, out);
    return true, out;
  }

  /** After the first k blocks the decoder keeps pend and has written out. */
  ghost predicate Progress(s: Scheme, chunks: seq<seq<Byte>>, k: nat, pend: seq<nat>, out: seq<Byte>) {
    k <= |chunks| && Feed(s, [], Flatten(chunks[..k])) == Fed(true, pend, out)
  }

  lemma NoChunks(s: Scheme, chunks: seq<seq<Byte>>)
    ensures Progress(s, chunks, 0, [], [])
  {
    assert chunks[..0] == [];
  }

  lemma AllChunks(s: Scheme, chunks: seq<seq<Byte>>, pend: seq<nat>, out: seq<Byte>)
    requires Progress(s, chunks, |chunks|, pend, out)
    ensures Feed(s, [], Flatten(chunks)) == Fed(true, pend, out)
  {
    assert chunks[..|chunks|] == chunks;
  }

  lemma NothingFed(s: Scheme, pend: seq<nat>, out: seq<Byte>)
    requires Pending(s, pend)
    ensures Feed(s, pend, []) == Fed(true, pend, []) && out + [] == out
  {
  }

  /** One more block.  Once one has been refused, the rest is not looked at. */
  lemma NextChunk(s: Scheme, chunks: seq<seq<Byte>>, k: nat, pend: seq<nat>, out: seq<Byte>)
    requires k < |chunks| && Pending(s, pend) && Progress(s, chunks, k, pend, out)
    ensures var f := Feed(s, pend, chunks[k]);
      && (f.ok ==> Progress(s, chunks, k + 1, f.pend, out + f.out))
      && (!f.ok ==> Feed(s, [], Flatten(chunks)) == Fed(false, f.pend, out + f.out))
      && (chunks[k] == [] ==> f == Fed(true, pend, []))
  {
    assert chunks[..k + 1][..k] == chunks[..k];
    FeedConcat(s, [], Flatten(chunks[..k]), chunks[k]);
    Unread(s, chunks, k);
  }

  /** Once a block has been refused, the rest is not looked at. */
  lemma {:induction false} Unread(s: Scheme, chunks: seq<seq<Byte>>, k: nat)
    requires k < |chunks|
    ensures !Feed(s, [], Flatten(chunks[..k + 1])).ok ==> Feed(s, [], Flatten(chunks)) == Feed(s, [], Flatten(chunks[..k + 1]))
    decreases |chunks|
  {
    if k + 1 == |chunks| {
      assert chunks[..k + 1] == chunks;
    } else {
      var front := chunks[..|chunks| - 1];
      Unread(s, front, k);
      assert front[..k + 1] == chunks[..k + 1];
      FeedConcat(s, [], Flatten(front), chunks[|chunks| - 1]);
    }
  }

  lemma TwoNibbles(a: nat, b: nat)
    requires a < 16 && b < 16
    ensures [a] + [b] == [a, b] && DigitsOk(Base16, [a, b]) && DecodeGroup(Base16, [a, b]) == Some([a * 16 + b])
  {
    assert [a, b][..1] == [a] && [a][..0] == [];
    assert FromDigits([a], 16) == a;
    ByteGroup(Base16, [a, b]);
  }

  /** Groups of one byte always decode. */
  lemma ByteGroup(s: Scheme, d: seq<nat>)
    requires !s.Z85? && |d| == GroupDigits(s) && DigitsOk(s, d)
    ensures var v := FromDigits(Ordered(s, d), Radix(s)); v < 256 && DecodeGroup(s, d) == Some([v])
  {
    var v := FromDigits(Ordered(s, d), Radix(s));
    Powers();
    DigitsRound(Ordered(s, d), Radix(s));
    assert ToDigits(v, 256, 1) == ToDigits(v / 256, 256, 0) + [v % 256] == [v];
  }

  lemma LsbNext(p: seq<nat>, b: nat)
    requires |p| < 8
    ensures FromDigits(Reverse(p + [b]), 2) == FromDigits(Reverse(p), 2) + b * P2(|p|)
  {
    assert Reverse(p + [b]) == [b] + Reverse(p);
    FrontDigit(b, Reverse(p));
  }

  lemma MsbNext(p: seq<nat>, b: nat)
    requires |p| < 8
    ensures FromDigits(p + [b], 2) * P2(7 - |p|) == FromDigits(p, 2) * P2(8 - |p|) + b * P2(7 - |p|)
  {
    assert (p + [b])[..|p|] == p;
    var f := FromDigits(p, 2);
    match |p|
    case 0 => case 1 => case 2 => case 3 => case 4 => case 5 => case 6 => case _ =>
  }

  lemma NoBits()
    ensures FromDigits([], 2) == 0 && Reverse([]) == []
  {
  }

  /** The test for overflow is exact. */
  lemma Group85(d: seq<nat>)
    requires |d| == 5 && DigitsOk(Z85, d)
    ensures var lo := d[1] * 614125 + d[2] * 7225 + d[3] * 85 + d[4]; var val := lo + d[0] * 52200625;
      && (d[0] == 84 || d[0] == 83 || (d[0] == 82 && lo > 0xFFFF_FFFF - 82 * 52200625) <==> val >= 0x1_0000_0000)
      && DecodeGroup(Z85, d) == if val < 0x1_0000_0000 then Some(ToDigits(val, 256, 4)) else None
  {
    assert d[..4][..3] == d[..3] && d[..3][..2] == d[..2] && d[..2][..1] == d[..1] && d[..1][..0] == [];
    assert FromDigits(d[..1], 85) == d[0];
    assert FromDigits(d[..2], 85) == 85 * d[0] + d[1];
    assert FromDigits(d[..3], 85) == 7225 * d[0] + 85 * d[1] + d[2];
    assert FromDigits(d[..4], 85) == 614125 * d[0] + 7225 * d[1] + 85 * d[2] + d[3];
    Powers();
  }

  lemma Bytes85(v: nat)
    ensures ToDigits(v, 256, 4) == [v / 0x100_0000 % 256, v / 0x1_0000 % 256, v / 0x100 % 256, v % 256]
  {
    var a, b, c := v / 256, v / 0x1_0000, v / 0x100_0000;
    assert a / 256 == b && b / 256 == c;
    assert ToDigits(c, 256, 1) == ToDigits(c / 256, 256, 0) + [c % 256] == [c % 256];
    assert ToDigits(b, 256, 2) == ToDigits(c, 256, 1) + [b % 256];
    assert ToDigits(a, 256, 3) == ToDigits(b, 256, 2) + [a % 256];
  }
}
