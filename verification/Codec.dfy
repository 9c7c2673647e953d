/** base16, base2 (both bit orders) and z85 of coreutils-8.32/src/basenc.c as values.

Each scheme turns groups of bytes into groups of symbols: base16 one byte into two (section 8 of RFC 4648), base2
one into eight, z85 four into five (ZeroMQ specification 32).  A streaming decoder keeps the digits of an
unfinished group.
*/
module Codec {
  import opened Common

  datatype Scheme = Base16 | Base2Msb | Base2Lsb | Z85

  const NEWLINE: Byte := 10

  /** Bytes and symbols of a group, and the number of symbols. */
  function GroupBytes(s: Scheme): (n: nat) {
    if s.Z85? then 4 else 1
  }

  function GroupDigits(s: Scheme): (n: nat) {
    match s case Base16 => 2 case Base2Msb => 8 case Base2Lsb => 8 case Z85 => 5
  }

  function Radix(s: Scheme): (n: nat) {
    match s case Base16 => 16 case Base2Msb => 2 case Base2Lsb => 2 case Z85 => 85
  }

  // ---------------------------------------------------------------- symbols

  /** The part of z85_encoding after the letters. */
  function Z85Special(d: nat): (c: Byte)
    requires 62 <= d < 85
  {
    match d
    case 62 => 46 case 63 => 45 case 64 => 58 case 65 => 43 case 66 => 61 case 67 => 94 case 68 => 33 case 69 => 47
    case 70 => 42 case 71 => 63 case 72 => 38 case 73 => 60 case 74 => 62 case 75 => 40 case 76 => 41 case 77 => 91
    case 78 => 93 case 79 => 123 case 80 => 125 case 81 => 64 case 82 => 37 case 83 => 36 case _ => 35
  }

  /** The encoding tables. */
  function Symbol(s: Scheme, d: nat): (c: Byte)
    requires d < Radix(s)
  {
    match s
    case Base16 => if d < 10 then 48 + d else 65 + d - 10
    case Base2Msb => 48 + d
    case Base2Lsb => 48 + d
    case Z85 => if d < 10 then 48 + d else if d < 36 then 97 + d - 10 else if d < 62 then 65 + d - 36 else Z85Special(d)
  }

  /** The entries of z85_decoding for characters that are no letters or digits; 255 marks garbage. */
  function Z85Unspecial(c: Byte): (d: nat) {
    match c
    case 33 => 68 case 35 => 84 case 36 => 83 case 37 => 82 case 38 => 72 case 40 => 75 case 41 => 76 case 42 => 70
    case 43 => 65 case 45 => 63 case 46 => 62 case 47 => 69 case 58 => 64 case 60 => 73 case 61 => 66 case 62 => 74
    case 63 => 71 case 64 => 81 case 91 => 77 case 93 => 78 case 94 => 67 case 123 => 79 case 125 => 80 case _ => 255
  }

  /** The decoding tables. */
  function Digit(s: Scheme, c: Byte): (d: Option<nat>) {
    match s
    case Base16 => if 65 <= c <= 70 then Some(c - 65 + 10) else if 48 <= c <= 57 then Some(c - 48) else None
    case Base2Msb => if c == 48 || c == 49 then Some(c - 48) else None
    case Base2Lsb => if c == 48 || c == 49 then Some(c - 48) else None
    case Z85 =>
      if 48 <= c <= 57 then Some(c - 48)
      else if 97 <= c <= 122 then Some(c - 97 + 10)
      else if 65 <= c <= 90 then Some(c - 65 + 36)
      else if Z85Unspecial(c) != 255 then Some(Z85Unspecial(c)) else None
  }

  /** The tables are inverse to each other, and no symbol is a newline. */
  lemma TablesAgree(s: Scheme, c: Byte, d: nat)
    ensures Digit(s, c).Some? ==> Digit(s, c).value < Radix(s) && Symbol(s, Digit(s, c).value) == c && c != NEWLINE
    ensures d < Radix(s) ==> Digit(s, Symbol(s, d)) == Some(d) && Symbol(s, d) != NEWLINE
  {
  }

  predicate DigitsOk(s: Scheme, ds: seq<nat>) {
    forall i | 0 <= i < |ds| :: ds[i] < Radix(s)
  }

  function Symbols(s: Scheme, ds: seq<nat>): (t: seq<Byte>)
    requires DigitsOk(s, ds)
    ensures |t| == |ds|
  {
    seq(|ds|, i requires 0 <= i < |ds| => Symbol(s, ds[i]))
  }

  // ---------------------------------------------------------------- positional numbers

  predicate IsRadix(r: nat) {
    r == 2 || r == 16 || r == 85 || r == 256
  }

  function Pow(r: nat, n: nat): (p: nat) {
    if n == 0 then 1 else r * Pow(r, n - 1)
  }

  /** The n last digits of v in radix r, most significant first. */
  function ToDigits(v: nat, r: nat, n: nat): (d: seq<nat>)
    requires IsRadix(r)
    ensures |d| == n && forall i | 0 <= i < n :: d[i] < r
  {
    if n == 0 then [] else ToDigits(v / r, r, n - 1) + [v % r]
  }

  function FromDigits(d: seq<nat>, r: nat): (v: nat) {
    if d == [] then 0 else r * FromDigits(d[..|d| - 1], r) + d[|d| - 1]
  }

  lemma DivMod(q: nat, x: nat, r: nat)
    requires IsRadix(r) && x < r
    ensures (r * q + x) / r == q && (r * q + x) % r == x
  {
    if r == 2 {
    } else if r == 16 {
    } else if r == 85 {
    } else {
    }
  }

  lemma Shrinks(v: nat, p: nat, r: nat)
    requires IsRadix(r) && v < r * p
    ensures v / r < p && v == r * (v / r) + v % r
  {
    if r == 2 {
    } else if r == 16 {
    } else if r == 85 {
    } else {
    }
  }

  lemma {:induction false} NumberRound(v: nat, r: nat, n: nat)
    requires IsRadix(r) && v < Pow(r, n)
    ensures FromDigits(ToDigits(v, r, n), r) == v
  {
    if n > 0 {
      Shrinks(v, Pow(r, n - 1), r);
      NumberRound(v / r, r, n - 1);
      assert ToDigits(v, r, n)[..n - 1] == ToDigits(v / r, r, n - 1);
    }
  }

  lemma {:induction false} DigitsRound(d: seq<nat>, r: nat)
    requires IsRadix(r) && forall i | 0 <= i < |d| :: d[i] < r
    ensures ToDigits(FromDigits(d, r), r, |d|) == d && FromDigits(d, r) < Pow(r, |d|)
  {
    if d != [] {
      var front := d[..|d| - 1];
      DigitsRound(front, r);
      DivMod(FromDigits(front, r), d[|d| - 1], r);
      NextBelow(FromDigits(front, r), Pow(r, |front|), d[|d| - 1], r);
    }
  }

  lemma NextBelow(q: nat, p: nat, x: nat, r: nat)
    requires IsRadix(r) && q < p && x < r
    ensures r * q + x < r * p
  {
    if r == 2 {
    } else if r == 16 {
    } else if r == 85 {
    } else {
    }
  }

  // ---------------------------------------------------------------- groups

  /** base2lsbf writes the digits the other way round. */
  function Ordered(s: Scheme, d: seq<nat>): (e: seq<nat>) {
    if s.Base2Lsb? then Reverse(d) else d
  }

  function Reverse(d: seq<nat>): (e: seq<nat>)
    ensures |e| == |d| && forall i | 0 <= i < |d| :: e[i] == d[|d| - 1 - i]
  {
    if d == [] then [] else [d[|d| - 1]] + Reverse(d[..|d| - 1])
  }

  lemma ReverseTwice(d: seq<nat>)
    ensures Reverse(Reverse(d)) == d
  {
  }

  function EncodeGroup(s: Scheme, b: seq<Byte>): (d: seq<nat>)
    requires |b| == GroupBytes(s)
    ensures |d| == GroupDigits(s) && DigitsOk(s, d)
  {
    Ordered(s, ToDigits(FromDigits(b, 256), Radix(s), GroupDigits(s)))
  }

  /** None only for a z85 group whose value does not fit 32 bits. */
  function DecodeGroup(s: Scheme, d: seq<nat>): (b: Option<seq<Byte>>)
    requires |d| == GroupDigits(s) && DigitsOk(s, d)
    ensures b.Some? ==> |b.value| == GroupBytes(s)
  {
    var v := FromDigits(Ordered(s, d), Radix(s));
    if v < Pow(256, GroupBytes(s)) then Some(ToDigits(v, 256, GroupBytes(s))) else None
  }

  lemma Powers()
    ensures Pow(256, 1) == Pow(16, 2) == Pow(2, 8) == 256 && Pow(256, 4) == 0x1_0000_0000 && Pow(85, 5) == 4437053125
  {
    assert Pow(2, 4) == 16;
    assert Pow(256, 2) == 0x1_0000;
    assert Pow(85, 2) == 7225 && Pow(85, 3) == 614125 && Pow(85, 4) == 52200625;
  }

  /** Encoding a group and decoding it. */
  lemma GroupRound(s: Scheme, b: seq<Byte>)
    requires |b| == GroupBytes(s)
    ensures DecodeGroup(s, EncodeGroup(s, b)) == Some(b)
  {
    var v := FromDigits(b, 256);
    Powers();
    DigitsRound(b, 256);
    NumberRound(v, Radix(s), GroupDigits(s));
    ReverseTwice(ToDigits(v, Radix(s), GroupDigits(s)));
  }

  /** A group that decodes is the encoding of its bytes. */
  lemma GroupCanonical(s: Scheme, d: seq<nat>)
    requires |d| == GroupDigits(s) && DigitsOk(s, d) && DecodeGroup(s, d).Some?
    ensures EncodeGroup(s, DecodeGroup(s, d).value) == d
  {
    var v := FromDigits(Ordered(s, d), Radix(s));
    NumberRound(v, 256, GroupBytes(s));
    DigitsRound(Ordered(s, d), Radix(s));
    ReverseTwice(d);
  }

  /** Only z85 has groups that do not decode: those of 2^32 and more. */
  lemma GroupFits(s: Scheme, d: seq<nat>)
    requires |d| == GroupDigits(s) && DigitsOk(s, d)
    ensures DecodeGroup(s, d).None? <==> s.Z85? && FromDigits(d, 85) >= 0x1_0000_0000
  {
    Powers();
    DigitsRound(Ordered(s, d), Radix(s));
  }

  // ---------------------------------------------------------------- texts

  /** The data fills its groups. */
  predicate Whole(s: Scheme, data: seq<Byte>) {
    s.Z85? ==> |data| % 4 == 0
  }

  lemma WholeParts(s: Scheme, data: seq<Byte>)
    requires Whole(s, data) && data != []
    ensures |data| >= GroupBytes(s) && Whole(s, data[GroupBytes(s)..])
    ensures data == data[..GroupBytes(s)] + data[GroupBytes(s)..]
  {
  }

  lemma WholeConcat(s: Scheme, a: seq<Byte>, b: seq<Byte>)
    requires Whole(s, a) && Whole(s, b)
    ensures Whole(s, a + b)
  {
  }

  /** The encoding of data that fills its groups. */
  function Encode(s: Scheme, data: seq<Byte>): (t: seq<Byte>)
    requires Whole(s, data)
  {
    if data == [] then []
    else
      WholeParts(s, data);
      Symbols(s, EncodeGroup(s, data[..GroupBytes(s)])) + Encode(s, data[GroupBytes(s)..])
  }

  function Plain(c: Byte): (u: seq<Byte>) {
    if c == NEWLINE then [] else [c]
  }

  function Strip(t: seq<Byte>): (u: seq<Byte>) {
    if t == [] then [] else Plain(t[0]) + Strip(t[1..])
  }

  /** What a decoder makes of a text: whether it accepted it, the digits it keeps, and the bytes it wrote. */
  datatype Fed = Fed(ok: bool, pend: seq<nat>, out: seq<Byte>)

  predicate Pending(s: Scheme, pend: seq<nat>) {
    |pend| < GroupDigits(s) && DigitsOk(s, pend)
  }

  /** One character. */
  function FeedChar(s: Scheme, pend: seq<nat>, c: Byte): (r: Fed)
    requires Pending(s, pend)
    ensures Pending(s, r.pend) && Whole(s, r.out)
  {
    if c == NEWLINE then Fed(true, pend, [])
    else if Digit(s, c).None? then Fed(false, pend, [])
    else
      TablesAgree(s, c, 0);
      var d := pend + [Digit(s, c).value];
      if |d| < GroupDigits(s) then Fed(true, d, [])
      else if DecodeGroup(s, d).None? then Fed(false, pend, [])
      else Fed(true, [], DecodeGroup(s, d).value)
  }

  /** After r, more text. */
  function Resumed(r: Fed, q: Fed): (r': Fed) {
    if !r.ok then r else q.(out := r.out + q.out)
  }

  function Feed(s: Scheme, pend: seq<nat>, t: seq<Byte>): (r: Fed)
    requires Pending(s, pend)
    ensures Pending(s, r.pend) && Whole(s, r.out)
    decreases |t|
  {
    if t == [] then Fed(true, pend, [])
    else
      var r := FeedChar(s, pend, t[0]);
      Resumed(r, Feed(s, r.pend, t[1..]))
  }

  /** A whole text: no group may be left unfinished. */
  function Decode(s: Scheme, t: seq<Byte>): (r: Option<seq<Byte>>) {
    var f := Feed(s, [], t);
    if f.ok && f.pend == [] then Some(f.out) else None
  }

  // ---------------------------------------------------------------- decoding in pieces

  lemma ResumedAssoc(r: Fed, p: Fed, q: Fed)
    ensures Resumed(r, Resumed(p, q)) == Resumed(Resumed(r, p), q)
  {
    Assoc(r.out, p.out, q.out);
  }

  lemma FeedStep(s: Scheme, pend: seq<nat>, c: Byte, t: seq<Byte>)
    requires Pending(s, pend)
    ensures Feed(s, pend, [c] + t) == Resumed(FeedChar(s, pend, c), Feed(s, FeedChar(s, pend, c).pend, t))
  {
    assert ([c] + t)[1..] == t;
  }

  /** How a text is cut into pieces makes no difference. */
  lemma {:induction false} FeedConcat(s: Scheme, pend: seq<nat>, a: seq<Byte>, b: seq<Byte>)
    requires Pending(s, pend)
    ensures Feed(s, pend, a + b) == Resumed(Feed(s, pend, a), Feed(s, Feed(s, pend, a).pend, b))
    decreases |a|
  {
    if a == [] {
      assert a + b == b;
      assert [] + Feed(s, pend, b).out == Feed(s, pend, b).out;
    } else {
      FeedStep(s, pend, a[0], a[1..] + b);
      FeedStep(s, pend, a[0], a[1..]);
      assert a + b == [a[0]] + (a[1..] + b) && a == [a[0]] + a[1..];
      hide Feed, FeedChar, Resumed;
      var r := FeedChar(s, pend, a[0]);
      FeedConcat(s, r.pend, a[1..], b);
      var p := Feed(s, r.pend, a[1..]);
      ResumedAssoc(r, p, Feed(s, p.pend, b));
      ResumedPend(r, p);
    }
  }

  lemma ResumedPend(r: Fed, q: Fed)
    ensures r.ok ==> Resumed(r, q).pend == q.pend
    ensures !r.ok ==> forall x :: Resumed(Resumed(r, q), x) == Resumed(r, q)
  {
  }

  lemma StripStep(c: Byte, t: seq<Byte>)
    ensures Strip([c] + t) == Plain(c) + Strip(t)
  {
    assert ([c] + t)[1..] == t;
  }

  lemma {:induction false} StripConcat(a: seq<Byte>, b: seq<Byte>)
    ensures Strip(a + b) == Strip(a) + Strip(b)
  {
    if a == [] {
      assert a + b == b;
    } else {
      StripStep(a[0], a[1..] + b);
      StripStep(a[0], a[1..]);
      assert a + b == [a[0]] + (a[1..] + b) && a == [a[0]] + a[1..];
      hide Strip, Plain;
      StripConcat(a[1..], b);
      Assoc(Plain(a[0]), Strip(a[1..]), Strip(b));
    }
  }

  lemma {:induction false} StripPlain(t: seq<Byte>)
    requires forall i | 0 <= i < |t| :: t[i] != NEWLINE
    ensures Strip(t) == t
  {
    if t != [] {
      StripPlain(t[1..]);
    }
  }

  /** Newlines change nothing. */
  lemma {:induction false} FeedStrip(s: Scheme, pend: seq<nat>, t: seq<Byte>)
    requires Pending(s, pend)
    ensures Feed(s, pend, t) == Feed(s, pend, Strip(t))
    decreases |t|
  {
    if t != [] {
      var r := FeedChar(s, pend, t[0]);
      FeedStep(s, pend, t[0], t[1..]);
      assert t == [t[0]] + t[1..];
      FeedStrip(s, r.pend, t[1..]);
      var q := Feed(s, r.pend, t[1..]);
      if t[0] == NEWLINE {
        assert [] + q.out == q.out && [] + Strip(t[1..]) == Strip(t[1..]);
      } else {
        FeedStep(s, pend, t[0], Strip(t[1..]));
      }
    }
  }

  // ---------------------------------------------------------------- round trips

  /** A symbol that does not complete its group, and one that does. */
  lemma FeedSymbol(s: Scheme, pend: seq<nat>, d: nat)
    requires Pending(s, pend) && d < Radix(s)
    ensures |pend| + 1 < GroupDigits(s) ==> FeedChar(s, pend, Symbol(s, d)) == Fed(true, pend + [d], [])
    ensures |pend| + 1 == GroupDigits(s) && DecodeGroup(s, pend + [d]).Some? ==>
      FeedChar(s, pend, Symbol(s, d)) == Fed(true, [], DecodeGroup(s, pend + [d]).value)
  {
    hide DecodeGroup;
    TablesAgree(s, Symbol(s, d), d);
    hide Digit, Symbol;
  }

  /** The symbols that complete a group, fed one by one. */
  lemma {:induction false} FeedGroup(s: Scheme, pend: seq<nat>, d: seq<nat>)
    requires |pend| + |d| == GroupDigits(s) && d != [] && DigitsOk(s, pend) && DigitsOk(s, d) && DecodeGroup(s, pend + d).Some?
    ensures Feed(s, pend, Symbols(s, d)) == Fed(true, [], DecodeGroup(s, pend + d).value)
    decreases |d|
  {
    hide DecodeGroup, FeedChar, GroupDigits, Radix, Symbols, Symbol, Feed;
    var rest := d[1..];
    SymbolsFront(s, d);
    assert (pend + [d[0]]) + rest == pend + d;
    FeedStep(s, pend, Symbol(s, d[0]), Symbols(s, rest));
    FeedSymbol(s, pend, d[0]);
    if |d| == 1 {
      assert rest == [] && pend + [d[0]] == pend + d;
      FeedNothing(s);
      assert DecodeGroup(s, pend + d).value + [] == DecodeGroup(s, pend + d).value;
    } else {
      FeedGroup(s, pend + [d[0]], rest);
      assert [] + DecodeGroup(s, pend + d).value == DecodeGroup(s, pend + d).value;
    }
  }

  lemma SymbolsFront(s: Scheme, d: seq<nat>)
    requires DigitsOk(s, d) && d != []
    ensures DigitsOk(s, d[1..]) && d[0] < Radix(s) && Symbols(s, d) == [Symbol(s, d[0])] + Symbols(s, d[1..])
  {
    hide Symbol;
  }

  lemma FeedNothing(s: Scheme)
    ensures Pending(s, []) && Symbols(s, []) == [] && Feed(s, [], []) == Fed(true, [], [])
  {
  }

  lemma {:induction false} FeedEncoded(s: Scheme, data: seq<Byte>)
    requires Whole(s, data)
    ensures Feed(s, [], Encode(s, data)) == Fed(true, [], data)
    decreases |data|
  {
    if data != [] {
      hide Encode, EncodeGroup, DecodeGroup, Feed, FeedChar, Whole, Symbols;
      WholeParts(s, data);
      var b, rest := data[..GroupBytes(s)], data[GroupBytes(s)..];
      var d := EncodeGroup(s, b);
      EncodeFront(s, b, rest);
      GroupRound(s, b);
      assert [] + d == d;
      FeedGroup(s, [], d);
      FeedEncoded(s, rest);
      FeedConcat(s, [], Symbols(s, d), Encode(s, rest));
    }
  }

  lemma EncodeFront(s: Scheme, b: seq<Byte>, rest: seq<Byte>)
    requires |b| == GroupBytes(s) && Whole(s, rest)
    ensures Whole(s, b + rest) && Encode(s, b + rest) == Symbols(s, EncodeGroup(s, b)) + Encode(s, rest)
  {
    assert (b + rest)[..|b|] == b && (b + rest)[|b|..] == rest;
  }

  /** Decoding any text that is the encoding but for newlines returns the data. */
  lemma RoundTrip(s: Scheme, data: seq<Byte>, t: seq<Byte>)
    requires Whole(s, data) && Strip(t) == Encode(s, data)
    ensures Decode(s, t) == Some(data)
  {
    FeedStrip(s, [], t);
    FeedEncoded(s, data);
  }

  /** One character: the symbols kept and the character are the encoding of what came out and the symbols kept. */
  lemma CharCanonical(s: Scheme, pend: seq<nat>, c: Byte)
    requires Pending(s, pend) && FeedChar(s, pend, c).ok
    ensures var r := FeedChar(s, pend, c); Symbols(s, pend) + Plain(c) == Encode(s, r.out) + Symbols(s, r.pend)
  {
    if c != NEWLINE {
      var d := DigitFed(s, pend, c);
      hide FeedChar, DecodeGroup, EncodeGroup, Symbols;
      if |d| == GroupDigits(s) {
        GroupCanonical(s, d);
        var b := DecodeGroup(s, d).value;
        EncodeFront(s, b, []);
        assert b + [] == b && Symbols(s, d) + [] == Symbols(s, d);
        assert Symbols(s, []) == [];
      } else {
        assert [] + Symbols(s, d) == Symbols(s, d);
      }
    }
  }

  /** What a symbol does to the digits kept. */
  lemma DigitFed(s: Scheme, pend: seq<nat>, c: Byte) returns (d: seq<nat>)
    requires Pending(s, pend) && c != NEWLINE && FeedChar(s, pend, c).ok
    ensures |d| == |pend| + 1 && DigitsOk(s, d) && Symbols(s, d) == Symbols(s, pend) + Plain(c)
    ensures if |d| < GroupDigits(s) then FeedChar(s, pend, c) == Fed(true, d, [])
      else DecodeGroup(s, d).Some? && FeedChar(s, pend, c) == Fed(true, [], DecodeGroup(s, d).value)
  {
    hide DecodeGroup;
    TablesAgree(s, c, 0);
    hide Digit, Symbol;
    d := pend + [Digit(s, c).value];
  }

  lemma {:induction false} EncodeConcat(s: Scheme, a: seq<Byte>, b: seq<Byte>)
    requires Whole(s, a) && Whole(s, b)
    ensures Whole(s, a + b) && Encode(s, a + b) == Encode(s, a) + Encode(s, b)
    decreases |a|
  {
    if a == [] {
      assert a + b == b;
    } else {
      hide Encode, EncodeGroup, Symbols, Whole;
      WholeParts(s, a);
      var f, rest := a[..GroupBytes(s)], a[GroupBytes(s)..];
      WholeConcat(s, rest, b);
      WholeConcat(s, a, b);
      EncodeConcat(s, rest, b);
      EncodeFront(s, f, rest + b);
      EncodeFront(s, f, rest);
      Assoc(f, rest, b);
      Assoc(Symbols(s, EncodeGroup(s, f)), Encode(s, rest), Encode(s, b));
    }
  }

  /** What has been fed is the encoding of what came out, and the symbols that are kept. */
  lemma {:induction false} FeedCanonical(s: Scheme, pend: seq<nat>, t: seq<Byte>)
    requires Pending(s, pend) && Feed(s, pend, t).ok
    ensures Symbols(s, pend) + Strip(t) == Encode(s, Feed(s, pend, t).out) + Symbols(s, Feed(s, pend, t).pend)
    decreases |t|
  {
    if t == [] {
      assert Symbols(s, pend) + [] == [] + Symbols(s, pend);
    } else {
      var r := FeedChar(s, pend, t[0]);
      FeedStep(s, pend, t[0], t[1..]);
      StripStep(t[0], t[1..]);
      assert t == [t[0]] + t[1..];
      hide Feed, FeedChar, Strip, Plain, Encode, EncodeGroup, Symbols;
      var q := Feed(s, r.pend, t[1..]);
      CharCanonical(s, pend, t[0]);
      FeedCanonical(s, r.pend, t[1..]);
      EncodeConcat(s, r.out, q.out);
      Assoc(Symbols(s, pend), Plain(t[0]), Strip(t[1..]));
      Assoc(Encode(s, r.out), Symbols(s, r.pend), Strip(t[1..]));
      Assoc(Encode(s, r.out), Encode(s, q.out), Symbols(s, q.pend));
    }
  }

  /** Every accepted text is the encoding of what it decodes to, but for newlines. */
  lemma Canonical(s: Scheme, t: seq<Byte>)
    requires Decode(s, t).Some?
    ensures Whole(s, Decode(s, t).value) && Encode(s, Decode(s, t).value) == Strip(t)
  {
    FeedCanonical(s, [], t);
    var u := Encode(s, Decode(s, t).value);
    assert Symbols(s, []) + Strip(t) == Strip(t) && u + Symbols(s, []) == u;
  }

  // ---------------------------------------------------------------- the tables, by their published form

  /** The bytes of an ASCII text. */
  function Ascii(t: string): (u: seq<Byte>)
    requires forall i | 0 <= i < |t| :: t[i] < 128 as char
  {
    seq(|t|, i requires 0 <= i < |t| => t[i] as int)
  }

  lemma DecimalSymbols(s: Scheme, d: nat)
    requires d < 10 && d < Radix(s)
    ensures Symbol(s, d) == "0123456789"[d] as int
  {
  }

  lemma Base16Symbols(d: nat)
    requires d < 16
    ensures Symbol(Base16, d) == "0123456789ABCDEF"[d] as int
  {
  }

  /** The z85 alphabet after its digits, in its parts. */
  lemma Z85Lower(d: nat)
    requires d < 26
    ensures Symbol(Z85, 10 + d) == "abcdefghijklmnopqrstuvwxyz"[d] as int
  {
  }

  lemma Z85Upper(d: nat)
    requires d < 26
    ensures Symbol(Z85, 36 + d) == "ABCDEFGHIJKLMNOPQRSTUVWXYZ"[d] as int
  {
  }

  lemma Z85Marks(d: nat)
    requires d < 23
    ensures Symbol(Z85, 62 + d) == ".-:+=^!/*?&<>()[]{}@%$#"[d] as int
  {
  }

  /** Each byte becomes its two hexadecimal digits, the high one first. */
  lemma HexFront(x: Byte, rest: seq<Byte>)
    ensures Encode(Base16, [x] + rest) == [Symbol(Base16, x / 16), Symbol(Base16, x % 16)] + Encode(Base16, rest)
  {
    EncodeFront(Base16, [x], rest);
    assert FromDigits([x], 256) == x by { assert [x][..0] == []; }
    assert ToDigits(x / 16, 16, 1) == ToDigits(x / 16 / 16, 16, 0) + [x / 16 % 16];
    assert ToDigits(x, 16, 2) == [x / 16, x % 16];
  }

  /** One more byte in front: data encodes to u. */
  lemma HexStep(x: Byte, rest: seq<Byte>, t: seq<Byte>, data: seq<Byte>, u: seq<Byte>)
    requires Encode(Base16, rest) == t && data == [x] + rest
    requires u == [Symbol(Base16, x / 16), Symbol(Base16, x % 16)] + t
    ensures Encode(Base16, data) == u
  {
    HexFront(x, rest);
  }

  /** The longest test vector of section 10 of RFC 4648: "foobar" is 666F6F626172. */
  lemma Rfc4648()
    ensures Encode(Base16, Ascii("foobar")) == Ascii("666F6F626172")
  {
    assert Encode(Base16, []) == [];
    hide Encode;
    HexStep(114, [], [], [114], [55, 50]);
    HexStep(97, [114], [55, 50], [97, 114], [54, 49, 55, 50]);
    HexStep(98, [97, 114], [54, 49, 55, 50], [98, 97, 114], [54, 50, 54, 49, 55, 50]);
    Foobar();
  }

  lemma Foobar()
    requires Encode(Base16, [98, 97, 114]) == [54, 50, 54, 49, 55, 50]
    ensures Encode(Base16, Ascii("foobar")) == Ascii("666F6F626172")
  {
    hide Encode;
    HexStep(111, [98, 97, 114], [54, 50, 54, 49, 55, 50], [111, 98, 97, 114], [54, 70, 54, 50, 54, 49, 55, 50]);
    HexStep(111, [111, 98, 97, 114], [54, 70, 54, 50, 54, 49, 55, 50], [111, 111, 98, 97, 114],
            [54, 70, 54, 70, 54, 50, 54, 49, 55, 50]);
    HexStep(102, [111, 111, 98, 97, 114], [54, 70, 54, 70, 54, 50, 54, 49, 55, 50], [102, 111, 111, 98, 97, 114],
            [54, 54, 54, 70, 54, 70, 54, 50, 54, 49, 55, 50]);
    assert Ascii("foobar") == [102, 111, 111, 98, 97, 114];
    assert Ascii("666F6F626172") == [54, 54, 54, 70, 54, 70, 54, 50, 54, 49, 55, 50];
  }

  /** Four bytes, the first the highest, become the five digits in radix 85 of their value, the highest first. */
  lemma QuadFront(b: seq<Byte>, ds: seq<nat>, rest: seq<Byte>)
    requires |b| == 4 && |rest| % 4 == 0 && |ds| == 5 && DigitsOk(Z85, ds)
    requires BigEndian(b) == 52200625 * ds[0] + 614125 * ds[1] + 7225 * ds[2] + 85 * ds[3] + ds[4]
    ensures |b + rest| % 4 == 0 && Encode(Z85, b + rest) == Symbols(Z85, ds) + Encode(Z85, rest)
  {
    EncodeFront(Z85, b, rest);
    BytesValue(b);
    DigitsValue(ds);
    DigitsRound(ds, 85);
    hide Encode, Symbols, FromDigits, ToDigits;
  }

  /** The value of four bytes, the first the highest. */
  function BigEndian(b: seq<nat>): (v: nat)
    requires |b| == 4
  {
    0x100_0000 * b[0] + 0x1_0000 * b[1] + 0x100 * b[2] + b[3]
  }

  lemma BytesValue(b: seq<nat>)
    requires |b| == 4
    ensures FromDigits(b, 256) == BigEndian(b)
  {
    var b3, b2, b1 := b[..3], b[..2], b[..1];
    assert b3[..2] == b2 && b2[..1] == b1 && b1[..0] == [];
    assert FromDigits(b1, 256) == b[0];
    assert FromDigits(b2, 256) == 256 * b[0] + b[1];
    assert FromDigits(b3, 256) == 256 * (256 * b[0] + b[1]) + b[2];
  }

  lemma DigitsValue(d: seq<nat>)
    requires |d| == 5
    ensures FromDigits(d, 85) == 52200625 * d[0] + 614125 * d[1] + 7225 * d[2] + 85 * d[3] + d[4]
  {
    var d4, d3, d2, d1 := d[..4], d[..3], d[..2], d[..1];
    assert d4[..3] == d3 && d3[..2] == d2 && d2[..1] == d1 && d1[..0] == [];
    assert FromDigits(d1, 85) == d[0];
    assert FromDigits(d2, 85) == 85 * d[0] + d[1];
    assert FromDigits(d3, 85) == 85 * (85 * d[0] + d[1]) + d[2];
    assert FromDigits(d4, 85) == 85 * (85 * (85 * d[0] + d[1]) + d[2]) + d[3];
  }

  /** The test vector of ZeroMQ specification 32: 86 4F D2 6F B5 59 F7 5B is HelloWorld. */
  lemma ZeroMq32(hello: seq<Byte>, world: seq<Byte>)
    requires hello == [0x86, 0x4F, 0xD2, 0x6F] && world == [0xB5, 0x59, 0xF7, 0x5B]
    ensures Encode(Z85, hello + world) == Ascii("HelloWorld")
  {
    assert Encode(Z85, []) == [];
    hide Encode, FromDigits;
    QuadFront(world, [58, 24, 27, 21, 13], []);
    QuadFront(hello, [43, 14, 21, 21, 24], world);
    assert world + [] == world;
    Greeting();
  }

  lemma Greeting()
    ensures Symbols(Z85, [43, 14, 21, 21, 24]) + (Symbols(Z85, [58, 24, 27, 21, 13]) + []) == Ascii("HelloWorld")
  {
    assert Symbols(Z85, [43, 14, 21, 21, 24]) == [72, 101, 108, 108, 111];
    assert Symbols(Z85, [58, 24, 27, 21, 13]) == [87, 111, 114, 108, 100];
    hide Symbols;
    assert Ascii("HelloWorld") == [72, 101, 108, 108, 111] + [87, 111, 114, 108, 100];
  }

  lemma OneGroup(s: Scheme, b: seq<Byte>, ds: seq<nat>)
    requires |b| == GroupBytes(s) && EncodeGroup(s, b) == ds
    ensures Whole(s, b) && Encode(s, b) == Symbols(s, ds)
  {
    EncodeFront(s, b, []);
    assert b + [] == b;
    assert Encode(s, []) == [];
    hide EncodeGroup;
  }

  /** Bit by bit: the byte of "a", 0x61, in both orders. */
  lemma MsbVector(a: seq<Byte>)
    requires a == [0x61]
    ensures Encode(Base2Msb, a) == Ascii("01100001")
  {
    Bits61(a);
    hide Encode, ToDigits, FromDigits;
    OneGroup(Base2Msb, a, [0, 1, 1, 0, 0, 0, 0, 1]);
    hide EncodeGroup;
  }

  lemma LsbVector(a: seq<Byte>)
    requires a == [0x61]
    ensures Encode(Base2Lsb, a) == Ascii("10000110")
  {
    Bits61(a);
    hide Encode, ToDigits, FromDigits;
    assert Reverse([0, 1, 1, 0, 0, 0, 0, 1]) == [1, 0, 0, 0, 0, 1, 1, 0];
    OneGroup(Base2Lsb, a, [1, 0, 0, 0, 0, 1, 1, 0]);
    hide EncodeGroup, Reverse;
  }

  lemma Bits61(a: seq<Byte>)
    requires a == [0x61]
    ensures ToDigits(FromDigits(a, 256), 2, 8) == [0, 1, 1, 0, 0, 0, 0, 1]
  {
    assert a[..0] == [];
    assert FromDigits(a, 256) == 0x61;
    Bits6();
    assert ToDigits(12, 2, 5) == [0, 1, 1, 0] + [0];
    assert ToDigits(24, 2, 6) == [0, 1, 1, 0, 0] + [0];
    assert ToDigits(48, 2, 7) == [0, 1, 1, 0, 0, 0] + [0];
  }

  lemma Bits6()
    ensures ToDigits(6, 2, 4) == [0, 1, 1, 0]
  {
    assert ToDigits(1, 2, 2) == [0, 1];
    assert ToDigits(3, 2, 3) == [0, 1] + [1];
  }
}
