/**
 * The base 64 encoding of section 4 of RFC 4648 (standard alphabet, `=` padding), and the
 * runtime's `btoa`/`atob`, which apply it to strings whose characters are all in the
 * Latin-1 range (one byte per character).
 */
module Base64 {
  import opened Wrappers

  type Byte = b: int | 0 <= b < 256
  type Sextet = x: int | 0 <= x < 64

  /** The character for a 6-bit value, as in Table 1 of RFC 4648. */
  function Symbol(x: Sextet): char {
    if x < 26 then ('A' as int + x) as char
    else if x < 52 then ('a' as int + (x - 26)) as char
    else if x < 62 then ('0' as int + (x - 52)) as char
    else if x == 62 then '+'
    else '/'
  }

  /** The 6-bit value of an alphabet character; padding and anything else have none. */
  function SymbolValue(c: char): (r: Option<Sextet>)
    ensures r.Some? ==> Symbol(r.value) == c
  {
    if 'A' <= c <= 'Z' then Some(c as int - 'A' as int)
    else if 'a' <= c <= 'z' then Some(c as int - 'a' as int + 26)
    else if '0' <= c <= '9' then Some(c as int - '0' as int + 52)
    else if c == '+' then Some(62)
    else if c == '/' then Some(63)
    else None
  }

  lemma SymbolValueOfSymbol(x: Sextet)
    ensures SymbolValue(Symbol(x)) == Some(x)
  {
  }

  /** The first byte of a group, from its first two sextets. */
  function Join0(c0: Sextet, c1: Sextet): Byte { c0 * 4 + c1 / 16 }

  /** The second byte of a group, from its second and third sextets. */
  function Join1(c1: Sextet, c2: Sextet): Byte { (c1 % 16) * 16 + c2 / 4 }

  /** The third byte of a group, from its last two sextets. */
  function Join2(c2: Sextet, c3: Sextet): Byte { (c2 % 4) * 64 + c3 }

  /** Splitting three bytes into four sextets and joining them back is the identity. */
  lemma SplitJoin(b0: Byte, b1: Byte, b2: Byte)
    ensures Join0(b0 / 4, (b0 % 4) * 16 + b1 / 16) == b0
    ensures Join1((b0 % 4) * 16 + b1 / 16, (b1 % 16) * 4 + b2 / 64) == b1
    ensures Join2((b1 % 16) * 4 + b2 / 64, b2 % 64) == b2
  {
  }

  /** The four characters for three bytes. */
  function EncodeTriple(b0: Byte, b1: Byte, b2: Byte): string {
    [Symbol(b0 / 4), Symbol((b0 % 4) * 16 + b1 / 16), Symbol((b1 % 16) * 4 + b2 / 64), Symbol(b2 % 64)]
  }

  /** The padded group for a final single byte. */
  function EncodeOne(b0: Byte): string {
    [Symbol(b0 / 4), Symbol((b0 % 4) * 16), '=', '=']
  }

  /** The padded group for a final pair of bytes. */
  function EncodeTwo(b0: Byte, b1: Byte): string {
    [Symbol(b0 / 4), Symbol((b0 % 4) * 16 + b1 / 16), Symbol((b1 % 16) * 4), '=']
  }

  /** Encoding of a byte string; a final group of one or two bytes is padded with `=`. */
  function Encode(b: seq<Byte>): (r: string)
    ensures |r| == 4 * ((|b| + 2) / 3)
  {
    if |b| == 0 then []
    else if |b| == 1 then EncodeOne(b[0])
    else if |b| == 2 then EncodeTwo(b[0], b[1])
    else EncodeTriple(b[0], b[1], b[2]) + Encode(b[3..])
  }

  /** Decoding of an unpadded group of four characters into three bytes. */
  function DecodeFullQuad(q: string): (r: Option<seq<Byte>>)
    requires |q| == 4
    ensures r.Some? ==> |r.value| == 3
  {
    match (SymbolValue(q[0]), SymbolValue(q[1]), SymbolValue(q[2]), SymbolValue(q[3]))
    case (Some(c0), Some(c1), Some(c2), Some(c3)) => Some([Join0(c0, c1), Join1(c1, c2), Join2(c2, c3)])
    case _ => None
  }

  /**
   * Decoding of a final group of four characters. A group whose padding discards
   * non-zero bits is refused, so that every accepted text is the encoding of its result.
   */
  function DecodeLastQuad(q: string): Option<seq<Byte>>
    requires |q| == 4
  {
    if q[3] != '=' then DecodeFullQuad(q)
    else
      match (SymbolValue(q[0]), SymbolValue(q[1]), SymbolValue(q[2]))
      case (Some(c0), Some(c1), None) =>
        if q[2] == '=' && c1 % 16 == 0 then Some([Join0(c0, c1)]) else None
      case (Some(c0), Some(c1), Some(c2)) =>
        if c2 % 4 == 0 then Some([Join0(c0, c1), Join1(c1, c2)]) else None
      case _ => None
  }

  /** Decoding; `None` for a text that is not a canonical padded encoding. */
  function Decode(s: string): Option<seq<Byte>>
    decreases |s|
  {
    if |s| == 0 then Some([])
    else if |s| < 4 then None
    else if |s| == 4 then DecodeLastQuad(s)
    else
      match (DecodeFullQuad(s[..4]), Decode(s[4..]))
      case (Some(head), Some(tail)) => Some(head + tail)
      case _ => None
  }

  lemma TripleRoundTrip(b0: Byte, b1: Byte, b2: Byte)
    ensures DecodeFullQuad(EncodeTriple(b0, b1, b2)) == Some([b0, b1, b2])
  {
    SymbolValueOfSymbol(b0 / 4);
    SymbolValueOfSymbol((b0 % 4) * 16 + b1 / 16);
    SymbolValueOfSymbol((b1 % 16) * 4 + b2 / 64);
    SymbolValueOfSymbol(b2 % 64);
    SplitJoin(b0, b1, b2);
  }

  /** No alphabet character is the padding character. */
  lemma SymbolIsNotPad(x: Sextet)
    ensures Symbol(x) != '='
  {
  }

  /** A final single byte round-trips through its padded group. */
  lemma PaddedOneRoundTrip(b0: Byte)
    ensures DecodeLastQuad(EncodeOne(b0)) == Some([b0])
  {
    var c0, c1 := b0 / 4, (b0 % 4) * 16;
    assert c1 % 16 == 0;
    SymbolValueOfSymbol(c0);
    SymbolValueOfSymbol(c1);
    SplitJoin(b0, 0, 0);
    var q := EncodeOne(b0);
    assert SymbolValue(q[0]) == Some(c0) && SymbolValue(q[1]) == Some(c1) && SymbolValue(q[2]) == None;
    assert DecodeLastQuad(q) == Some([Join0(c0, c1)]);
  }

  /** A final pair of bytes round-trips through its padded group. */
  lemma PaddedTwoRoundTrip(b0: Byte, b1: Byte)
    ensures DecodeLastQuad(EncodeTwo(b0, b1)) == Some([b0, b1])
  {
    var c0, c1, c2 := b0 / 4, (b0 % 4) * 16 + b1 / 16, (b1 % 16) * 4;
    SymbolValueOfSymbol(c0);
    SymbolValueOfSymbol(c1);
    SymbolValueOfSymbol(c2);
    SymbolIsNotPad(c2);
    SplitJoin(b0, b1, 0);
    var q := EncodeTwo(b0, b1);
    assert SymbolValue(q[0]) == Some(c0) && SymbolValue(q[1]) == Some(c1) && SymbolValue(q[2]) == Some(c2);
    assert DecodeLastQuad(q) == Some([Join0(c0, c1), Join1(c1, c2)]);
  }

  /** A final group of three bytes is unpadded and round-trips. */
  lemma LastTripleRoundTrip(b0: Byte, b1: Byte, b2: Byte)
    ensures DecodeLastQuad(EncodeTriple(b0, b1, b2)) == Some([b0, b1, b2])
  {
    SymbolIsNotPad(b2 % 64);
    TripleRoundTrip(b0, b1, b2);
  }

  /** Decoding an encoding gives back the bytes. */
  lemma {:induction false} DecodeEncode(b: seq<Byte>)
    ensures Decode(Encode(b)) == Some(b)
  {
    if 1 <= |b| <= 3 {
      DecodeEncodeLast(b);
    } else if |b| > 3 {
      DecodeEncode(b[3..]);
      DecodeEncodeCons(b);
    }
  }

  /** The last group, of one to three bytes, round-trips. */
  lemma DecodeEncodeLast(b: seq<Byte>)
    requires 1 <= |b| <= 3
    ensures Decode(Encode(b)) == Some(b)
  {
    var q := LastGroup(b);
    DecodeOfQuad(q);
    if |b| == 1 {
      PaddedOneRoundTrip(b[0]);
    } else if |b| == 2 {
      PaddedTwoRoundTrip(b[0], b[1]);
    } else {
      LastTripleRoundTrip(b[0], b[1], b[2]);
    }
  }

  /** The encoding of one to three bytes is a single group, padded as the byte count demands. */
  lemma LastGroup(b: seq<Byte>) returns (q: string)
    requires 1 <= |b| <= 3
    ensures q == Encode(b) && |q| == 4
    ensures |b| == 1 ==> b == [b[0]] && q == EncodeOne(b[0])
    ensures |b| == 2 ==> b == [b[0], b[1]] && q == EncodeTwo(b[0], b[1])
    ensures |b| == 3 ==> b == [b[0], b[1], b[2]] && q == EncodeTriple(b[0], b[1], b[2])
  {
    q := Encode(b);
    if |b| == 3 {
      assert b[3..] == [];
    }
  }

  /** A text of one group decodes as a last group. */
  lemma DecodeOfQuad(q: string)
    requires |q| == 4
    ensures Decode(q) == DecodeLastQuad(q)
  {
  }

  /** A full group in front of a round-tripping rest round-trips. */
  lemma DecodeEncodeCons(b: seq<Byte>)
    requires |b| > 3 && Decode(Encode(b[3..])) == Some(b[3..])
    ensures Decode(Encode(b)) == Some(b)
  {
    SplitAfterThree(b);
    TripleRoundTrip(b[0], b[1], b[2]);
    DecodeCons(EncodeTriple(b[0], b[1], b[2]), Encode(b[3..]), [b[0], b[1], b[2]], b[3..]);
  }

  /** A sequence of at least three elements is its first three followed by the rest. */
  lemma SplitAfterThree(b: seq<Byte>)
    requires |b| >= 3
    ensures b == [b[0], b[1], b[2]] + b[3..]
  {
  }

  /** A full group followed by a decodable non-empty rest decodes to the group's bytes and then the rest's. */
  lemma DecodeCons(q: string, rest: string, head: seq<Byte>, tail: seq<Byte>)
    requires |q| == 4 && DecodeFullQuad(q) == Some(head)
    requires rest != [] && Decode(rest) == Some(tail)
    ensures Decode(q + rest) == Some(head + tail)
  {
    var s := q + rest;
    assert s[..4] == q && s[4..] == rest;
  }

  /** Splitting the bytes joined from four sextets gives the sextets back. */
  lemma JoinSplit(c0: Sextet, c1: Sextet, c2: Sextet, c3: Sextet)
    ensures Join0(c0, c1) / 4 == c0
    ensures (Join0(c0, c1) % 4) * 16 + Join1(c1, c2) / 16 == c1
    ensures (Join1(c1, c2) % 16) * 4 + Join2(c2, c3) / 64 == c2
    ensures Join2(c2, c3) % 64 == c3
  {
  }

  lemma FullQuadEncodes(q: string)
    requires |q| == 4 && DecodeFullQuad(q).Some?
    ensures var r := DecodeFullQuad(q).value; EncodeTriple(r[0], r[1], r[2]) == q
  {
    var c0, c1, c2, c3 := SymbolValue(q[0]).value, SymbolValue(q[1]).value, SymbolValue(q[2]).value, SymbolValue(q[3]).value;
    JoinSplit(c0, c1, c2, c3);
  }

  /** Every text that decodes is the encoding of what it decodes to: the encoding is canonical. */
  lemma {:induction false} EncodeDecode(s: string)
    requires Decode(s).Some?
    ensures Encode(Decode(s).value) == s
  {
    if |s| == 4 {
      EncodeDecodeLast(s);
    } else if |s| > 4 {
      EncodeDecode(s[4..]);
      EncodeDecodeCons(s);
    }
  }

  /** A last group that decodes is the encoding of its bytes. */
  lemma EncodeDecodeLast(q: string)
    requires |q| == 4 && Decode(q).Some?
    ensures Encode(Decode(q).value) == q
  {
    DecodeOfQuad(q);
    if q[3] != '=' {
      UnpaddedEncodes(q);
    } else if SymbolValue(q[2]).None? {
      PaddedOneEncodes(q);
    } else {
      PaddedTwoEncodes(q);
    }
  }

  /** An unpadded last group is the encoding of its three bytes. */
  lemma UnpaddedEncodes(q: string)
    requires |q| == 4 && q[3] != '=' && DecodeLastQuad(q).Some?
    ensures Encode(DecodeLastQuad(q).value) == q
  {
    var r := DecodeFullQuad(q).value;
    FullQuadEncodes(q);
    var e := LastGroup(r);
  }

  /** A group with two `=` is the encoding of its single byte. */
  lemma PaddedOneEncodes(q: string)
    requires |q| == 4 && q[3] == '=' && SymbolValue(q[2]).None? && DecodeLastQuad(q).Some?
    ensures Encode(DecodeLastQuad(q).value) == q
  {
    var c0, c1 := SymbolValue(q[0]).value, SymbolValue(q[1]).value;
    JoinSplit(c0, c1, 0, 0);
    var b0 := Join0(c0, c1);
    var e := LastGroup([b0]);
    assert e == [Symbol(c0), Symbol(c1), '=', '='];
  }

  /** A group with one `=` is the encoding of its two bytes. */
  lemma PaddedTwoEncodes(q: string)
    requires |q| == 4 && q[3] == '=' && SymbolValue(q[2]).Some? && DecodeLastQuad(q).Some?
    ensures Encode(DecodeLastQuad(q).value) == q
  {
    var c0, c1, c2 := SymbolValue(q[0]).value, SymbolValue(q[1]).value, SymbolValue(q[2]).value;
    JoinSplit(c0, c1, c2, 0);
    var b0, b1 := Join0(c0, c1), Join1(c1, c2);
    var e := LastGroup([b0, b1]);
    assert e == [Symbol(c0), Symbol(c1), Symbol(c2), '='];
  }

  /** A full group in front of a canonical rest is canonical. */
  lemma EncodeDecodeCons(s: string)
    requires |s| > 4 && Decode(s).Some?
    requires Decode(s[4..]).Some? && Encode(Decode(s[4..]).value) == s[4..]
    ensures Encode(Decode(s).value) == s
  {
    var head := DecodeFullQuad(s[..4]).value;
    var tail := Decode(s[4..]).value;
    FullQuadEncodes(s[..4]);
    var r := head + tail;
    assert r[3..] == tail;
    assert s == s[..4] + s[4..];
  }

  predicate IsLatin1(s: string) {
    forall i :: 0 <= i < |s| ==> s[i] as int < 256
  }

  function Latin1Bytes(s: string): (b: seq<Byte>)
    requires IsLatin1(s)
    ensures |b| == |s| && forall i :: 0 <= i < |s| ==> b[i] == s[i] as int
  {
    seq(|s|, i requires 0 <= i < |s| => s[i] as int)
  }

  function Latin1Chars(b: seq<Byte>): (s: string)
    ensures |s| == |b| && forall i :: 0 <= i < |b| ==> s[i] as int == b[i]
  {
    seq(|b|, i requires 0 <= i < |b| => b[i] as char)
  }

  /** `btoa`: fails (throws, in the runtime) on a character outside the Latin-1 range. */
  function Btoa(s: string): (r: Option<string>)
    ensures r.Some? <==> IsLatin1(s)
  {
    if IsLatin1(s) then Some(Encode(Latin1Bytes(s))) else None
  }

  /** `atob` on canonical padded input. */
  function Atob(t: string): Option<string> {
    match Decode(t)
    case Some(b) => Some(Latin1Chars(b))
    case None => None
  }

  /** `atob` undoes `btoa`. */
  lemma AtobBtoa(s: string)
    requires Btoa(s).Some?
    ensures Atob(Btoa(s).value) == Some(s)
  {
    DecodeEncode(Latin1Bytes(s));
    assert Latin1Chars(Latin1Bytes(s)) == s;
  }
}
