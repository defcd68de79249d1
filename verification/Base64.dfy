/** The base-64 encoder used for byte strings in JSON output (section 4 of RFC 4648), with its decoder. */
module Base64 {
  import opened Prelude

  /** The alphabet A-Z, a-z, 0-9, +, / by position. */
  function Symbol(n: nat): char
    requires n < 64
  {
    if n < 26 then 'A' + n as char
    else if n < 52 then 'a' + (n - 26) as char
    else if n < 62 then '0' + (n - 52) as char
    else if n == 62 then '+'
    else '/'
  }

  function SymbolValue(c: char): Option<sextet> {
    if 'A' <= c <= 'Z' then Some((c - 'A') as int)
    else if 'a' <= c <= 'z' then Some((c - 'a') as int + 26)
    else if '0' <= c <= '9' then Some((c - '0') as int + 52)
    else if c == '+' then Some(62)
    else if c == '/' then Some(63)
    else None
  }

  lemma SymbolRoundTrip(n: nat)
    requires n < 64
    ensures SymbolValue(Symbol(n)) == Some(n)
  {
  }

  type sextet = n: int | 0 <= n < 64

  /** Twenty-four bits as three bytes or as four sextets. */
  function Pack(a: byte, b: byte, c: byte): (v: nat)
    ensures v < 0x1000000
  {
    a as int * 0x10000 + b as int * 0x100 + c as int
  }

  function Unpack(v: nat): (r: seq<byte>)
    requires v < 0x1000000
    ensures |r| == 3
  {
    [v / 0x10000, v / 0x100 % 256, v % 256]
  }

  datatype Quad = Quad(a: sextet, b: sextet, c: sextet, d: sextet)

  function Split(v: nat): Quad
    requires v < 0x1000000
  {
    Quad(v / 0x40000, v / 0x1000 % 64, v / 64 % 64, v % 64)
  }

  function Join(q: Quad): (v: nat)
    ensures v < 0x1000000
  {
    ((q.a as int * 64 + q.b) * 64 + q.c) * 64 + q.d
  }

  lemma UnpackPack(a: byte, b: byte, c: byte)
    ensures Unpack(Pack(a, b, c)) == [a, b, c]
  {
    var v := Pack(a, b, c);
    assert v / 0x100 == a as int * 0x100 + b;
    assert v / 0x10000 == a as int;
  }

  lemma DivideTwice(v: nat)
    ensures v / 0x1000 == v / 64 / 64
  {
    var q, r, low := v / 64 / 64, v / 64 % 64, v % 64;
    DivMod(v, 0x1000, q, 64 * r + low);
  }

  lemma DivideThrice(v: nat)
    ensures v / 0x40000 == v / 0x1000 / 64
  {
    var q, r, low := v / 0x1000 / 64, v / 0x1000 % 64, v % 0x1000;
    DivMod(v, 0x40000, q, 0x1000 * r + low);
  }

  lemma JoinSplit(v: nat)
    requires v < 0x1000000
    ensures Join(Split(v)) == v
  {
    DivideTwice(v);
    DivideThrice(v);
  }

  /** The bits that padding replaces are zero. */
  lemma PaddingOfOne(a: byte)
    ensures var q := Split(Pack(a, 0, 0)); q.b % 16 == 0 && q.c == 0 && q.d == 0
  {
    var v := Pack(a, 0, 0);
    var high, low := a as int / 4, a as int % 4;
    DivMod(v, 64, 1024 * a, 0);
    DivMod(v, 0x1000, 16 * a, 0);
    DivMod(16 * a, 64, high, 16 * low);
    DivMod(1024 * a, 64, 16 * a, 0);
    DivMod(16 * low, 16, low, 0);
  }

  lemma PaddingOfTwo(a: byte, b: byte)
    ensures var q := Split(Pack(a, b, 0)); q.c % 4 == 0 && q.d == 0
  {
    var v := Pack(a, b, 0);
    var word := a as int * 256 + b as int;
    var high, low := word / 16, word % 16;
    DivMod(v, 64, 4 * word, 0);
    DivMod(4 * word, 64, high, 4 * low);
    DivMod(4 * low, 4, low, 0);
  }

  function Symbols(q: Quad): string {
    [Symbol(q.a), Symbol(q.b), Symbol(q.c), Symbol(q.d)]
  }

  /** The last one or two bytes, padded. */
  function Tail(rem: seq<byte>): string
    requires |rem| < 3
  {
    if |rem| == 0 then ""
    else if |rem| == 1 then
      var q := Split(Pack(rem[0], 0, 0));
      [Symbol(q.a), Symbol(q.b), '=', '=']
    else
      var q := Split(Pack(rem[0], rem[1], 0));
      [Symbol(q.a), Symbol(q.b), Symbol(q.c), '=']
  }

  function Encode(bytes: seq<byte>): string {
    if |bytes| < 3 then Tail(bytes)
    else Symbols(Split(Pack(bytes[0], bytes[1], bytes[2]))) + Encode(bytes[3..])
  }

  lemma EncodeStep(bytes: seq<byte>, at: nat)
    requires at + 3 <= |bytes|
    ensures Encode(bytes[at..])
         == Symbols(Split(Pack(bytes[at], bytes[at + 1], bytes[at + 2]))) + Encode(bytes[at + 3..])
  {
    assert bytes[at..][3..] == bytes[at + 3..];
  }

  method Base64Encode(bytes: seq<byte>) returns (out: string)
    ensures out == Encode(bytes)
  {
    out := "";
    var at := 0;
    while at + 3 <= |bytes|
      invariant 0 <= at <= |bytes|
      invariant out + Encode(bytes[at..]) == Encode(bytes)
    {
      EncodeStep(bytes, at);
      ghost var rest := Encode(bytes[at + 3..]);
      var four := Symbols(Split(Pack(bytes[at], bytes[at + 1], bytes[at + 2])));
      assert out + (four + rest) == (out + four) + rest;
      out := out + four;
      at := at + 3;
    }
    var last := Base64Tail(bytes[at..]);
    out := out + last;
  }

  /** The padded end of the text, symbol by symbol. */
  method Base64Tail(rem: seq<byte>) returns (out: string)
    requires |rem| < 3
    ensures out == Tail(rem)
  {
    out := "";
    if |rem| != 0 {
      var q := if |rem| == 1 then Split(Pack(rem[0], 0, 0)) else Split(Pack(rem[0], rem[1], 0));
      out := [Symbol(q.a), Symbol(q.b)];
      if |rem| == 2 {
        out := out + [Symbol(q.c)];
      } else {
        out := out + "=";
      }
      out := out + "=";
    }
  }

  function Decode(s: string): Option<seq<byte>> {
    if s == "" then Some([])
    else if |s| < 4 then None
    else
      match (SymbolValue(s[0]), SymbolValue(s[1]), SymbolValue(s[2]), SymbolValue(s[3]))
      case (Some(a), Some(b), Some(c), Some(d)) =>
        (match Decode(s[4..])
         case None => None
         case Some(rest) => Some(Unpack(Join(Quad(a, b, c, d))) + rest))
      case (Some(a), Some(b), Some(c), None) =>
        if s[3..] == "=" && c % 4 == 0 then Some(Unpack(Join(Quad(a, b, c, 0)))[..2]) else None
      case (Some(a), Some(b), None, None) =>
        if s[2..] == "==" && b % 16 == 0 then Some(Unpack(Join(Quad(a, b, 0, 0)))[..1]) else None
      case _ => None
  }

  lemma DecodeQuad(q: Quad, tail: string)
    requires Decode(tail).Some?
    ensures Decode(Symbols(q) + tail) == Some(Unpack(Join(q)) + Decode(tail).value)
  {
    var s := Symbols(q) + tail;
    SymbolRoundTrip(q.a);
    SymbolRoundTrip(q.b);
    SymbolRoundTrip(q.c);
    SymbolRoundTrip(q.d);
    assert s[4..] == tail;
  }

  lemma DecodePadded(q: Quad)
    ensures q.b % 16 == 0 && q.c == 0 && q.d == 0 ==>
              Decode([Symbol(q.a), Symbol(q.b), '=', '=']) == Some(Unpack(Join(q))[..1])
    ensures q.c % 4 == 0 && q.d == 0 ==>
              Decode([Symbol(q.a), Symbol(q.b), Symbol(q.c), '=']) == Some(Unpack(Join(q))[..2])
  {
    SymbolRoundTrip(q.a);
    SymbolRoundTrip(q.b);
    SymbolRoundTrip(q.c);
    assert [Symbol(q.a), Symbol(q.b), '=', '='][2..] == "==";
    assert [Symbol(q.a), Symbol(q.b), Symbol(q.c), '='][3..] == "=";
  }

  lemma DecodeTail(rem: seq<byte>)
    requires |rem| < 3
    ensures Decode(Tail(rem)) == Some(rem)
  {
    if |rem| == 1 {
      var v := Pack(rem[0], 0, 0);
      PaddingOfOne(rem[0]);
      DecodePadded(Split(v));
      JoinSplit(v);
      UnpackPack(rem[0], 0, 0);
      assert Unpack(v)[..1] == rem;
    } else if |rem| == 2 {
      var v := Pack(rem[0], rem[1], 0);
      PaddingOfTwo(rem[0], rem[1]);
      DecodePadded(Split(v));
      JoinSplit(v);
      UnpackPack(rem[0], rem[1], 0);
      assert Unpack(v)[..2] == rem;
    }
  }

  /** Decoding inverts encoding on every byte string, so distinct byte strings get distinct texts. */
  lemma {:induction false} DecodeOfEncode(bytes: seq<byte>)
    ensures Decode(Encode(bytes)) == Some(bytes)
  {
    if |bytes| < 3 {
      DecodeTail(bytes);
    } else {
      var v := Pack(bytes[0], bytes[1], bytes[2]);
      DecodeOfEncode(bytes[3..]);
      DecodeQuad(Split(v), Encode(bytes[3..]));
      JoinSplit(v);
      UnpackPack(bytes[0], bytes[1], bytes[2]);
      assert bytes == [bytes[0], bytes[1], bytes[2]] + bytes[3..];
    }
  }
}
