/** UTF-8 as the line editor reads it (cli/linenoise.c:169-260).

    A byte is an integer in 0..255 and the mask tests of the source are written
    as ranges: `(b & 0xE0) == 0xC0` is `0xC0 <= b < 0xE0`, `b & 0x3F` is `b % 64`,
    and the disjoint fields joined by `|` are added.  Reading past the last byte
    of a text yields the terminating NUL. */
module Utf8 {
  import opened Seqs

  type byte = b: int | 0 <= b < 256

  const LF: byte := 10
  const CR: byte := 13
  const ESC: byte := 27
  const SPACE: byte := 32
  const BRACKET: byte := 91

  /** A Unicode scalar value: what section 3 of RFC 3629 can encode. */
  type Scalar = c: int | 0 <= c < 0xD800 || 0xE000 <= c < 0x110000

  predicate IsDigit(b: byte) { 48 <= b <= 57 }

  predicate IsCont(b: byte) { 0x80 <= b < 0xC0 }

  function At(s: seq<byte>, i: nat): byte { if i < |s| then s[i] else 0 }

  /** What section 3 of RFC 3629 writes for one scalar value. */
  function Encode1(c: Scalar): (s: seq<byte>)
    ensures 1 <= |s| <= 4 && !IsCont(s[0])
  {
    if c < 0x80 then [c]
    else if c < 0x800 then [0xC0 + c / 64, 0x80 + c % 64]
    else if c < 0x10000 then [0xE0 + c / 4096, 0x80 + c / 64 % 64, 0x80 + c % 64]
    else [0xF0 + c / 262144, 0x80 + c / 4096 % 64, 0x80 + c / 64 % 64, 0x80 + c % 64]
  }

  function Encode(cs: seq<Scalar>): (s: seq<byte>)
    ensures |cs| <= |s|
  {
    if cs == [] then [] else Encode1(cs[0]) + Encode(cs[1..])
  }

  lemma EncodeTail(c: Scalar, k: nat)
    requires 1 <= k < |Encode1(c)|
    ensures IsCont(Encode1(c)[k])
  {}

  /** Well-formed UTF-8. */
  ghost predicate IsText(s: seq<byte>) { exists cs: seq<Scalar> :: Encode(cs) == s }

  /** An index between two characters: the end, or not at a continuation byte. */
  predicate Boundary(s: seq<byte>, i: nat)
    ensures Boundary(s, i) ==> i <= |s|
  {
    i == |s| || (i < |s| && !IsCont(s[i]))
  }

  datatype Point = Point(cp: nat, len: nat)

  /** utf8ByteLen: the length announced by a leading byte. */
  function ByteLen(b: byte): (n: nat)
  {
    if b < 0x80 then 1
    else if 0xC0 <= b < 0xE0 then 2
    else if 0xE0 <= b < 0xF0 then 3
    else if 0xF0 <= b < 0xF8 then 4
    else 1
  }

  /** utf8DecodeChar: the code point that starts at index i, and its length. */
  function Decode(s: seq<byte>, i: nat): (p: Point)
    ensures 1 <= p.len <= 4
  {
    var b := At(s, i);
    if b < 0x80 then Point(b, 1)
    else if 0xC0 <= b < 0xE0 then
      Point(b % 32 * 64 + At(s, i + 1) % 64, 2)
    else if 0xE0 <= b < 0xF0 then
      Point(b % 16 * 4096 + At(s, i + 1) % 64 * 64 + At(s, i + 2) % 64, 3)
    else if 0xF0 <= b < 0xF8 then
      Point(b % 8 * 262144 + At(s, i + 1) % 64 * 4096 + At(s, i + 2) % 64 * 64 + At(s, i + 3) % 64, 4)
    else Point(b, 1)
  }

  /** The index where the backward scan of utf8DecodePrev stops. */
  function ScanBack(s: seq<byte>, pos: nat, i: nat): (r: nat)
    requires i < pos <= |s|
    ensures r <= i
  {
    if 0 < i && pos - i < 4 && IsCont(s[i]) then ScanBack(s, pos, i - 1) else i
  }

  /** utf8DecodePrev as a function: the code point that ends at pos. */
  function DecodeBack(s: seq<byte>, pos: nat): (p: Point)
    requires pos <= |s|
    ensures p.len <= pos && (p.len == 0 <==> pos == 0)
  {
    if pos == 0 then Point(0, 0)
    else
      var i := ScanBack(s, pos, pos - 1);
      Point(Decode(s, i).cp, pos - i)
  }

  method Utf8DecodePrev(s: seq<byte>, pos: nat) returns (cp: nat, cplen: nat)
    requires pos <= |s|
    ensures Point(cp, cplen) == DecodeBack(s, pos)
    ensures forall a: seq<Scalar>, c: Scalar, b: seq<Scalar> ::
              s == Encode(a) + Encode1(c) + Encode(b) && pos == |Encode(a) + Encode1(c)|
              ==> cp == c && cplen == |Encode1(c)|
  {
    if pos == 0 {
      return 0, 0;
    }
    var i := pos - 1;
    while 0 < i && pos - i < 4 && IsCont(s[i])
      invariant 0 <= i < pos
      invariant ScanBack(s, pos, i) == ScanBack(s, pos, pos - 1)
    {
      i := i - 1;
    }
    cplen := pos - i;
    cp := Decode(s, i).cp;
    DecodeBackMeans(s, pos);
  }

  /** Backward decoding after any character of any text yields that character. */
  lemma DecodeBackMeans(s: seq<byte>, pos: nat)
    requires pos <= |s|
    ensures forall a: seq<Scalar>, c: Scalar, b: seq<Scalar> ::
              s == Encode(a) + Encode1(c) + Encode(b) && pos == |Encode(a) + Encode1(c)|
              ==> DecodeBack(s, pos) == Point(c, |Encode1(c)|)
  {
    hide *;
    forall a: seq<Scalar>, c: Scalar, b: seq<Scalar> |
      s == Encode(a) + Encode1(c) + Encode(b) && pos == |Encode(a) + Encode1(c)|
      ensures DecodeBack(s, pos) == Point(c, |Encode1(c)|)
    {
      MiddleOf(Encode(a), Encode1(c), Encode(b));
      DecodeBackEncoded(s, pos, c);
    }
  }

  // ----- encoding and concatenation

  lemma {:induction false} EncodeConcat(a: seq<Scalar>, b: seq<Scalar>)
    ensures Encode(a + b) == Encode(a) + Encode(b)
  {
    if a == [] {
      assert a + b == b;
    } else {
      assert (a + b)[1..] == a[1..] + b;
      EncodeConcat(a[1..], b);
    }
  }

  lemma EncodeNil()
    ensures Encode([]) == []
  {}

  lemma EncodeOne(c: Scalar)
    ensures Encode([c]) == Encode1(c)
  {
    assert Encode([c][1..]) == [];
  }

  lemma EncodeCons(c: Scalar, cs: seq<Scalar>)
    ensures Encode([c] + cs) == Encode1(c) + Encode(cs)
  {
    assert ([c] + cs)[1..] == cs;
  }

  lemma EncodeHead(cs: seq<Scalar>)
    requires cs != []
    ensures Encode(cs) == Encode1(cs[0]) + Encode(cs[1..])
  {}

  lemma EncodeSnoc(cs: seq<Scalar>, c: Scalar)
    ensures Encode(cs + [c]) == Encode(cs) + Encode1(c)
  {
    EncodeConcat(cs, [c]);
    EncodeOne(c);
  }

  /** Cutting a list of code points cuts its encoding. */
  lemma EncodeCut(cs: seq<Scalar>, k: nat)
    requires k <= |cs|
    ensures Encode(cs) == Encode(cs[..k]) + Encode(cs[k..])
  {
    hide Encode;
    Rejoin(cs, k);
    EncodeConcat(cs[..k], cs[k..]);
  }

  // ----- decoding what was encoded

  lemma Recombine2(c: Scalar)
    requires 0x80 <= c < 0x800
    ensures (0xC0 + c / 64) % 32 == c / 64 && (0x80 + c % 64) % 64 == c % 64
    ensures c / 64 * 64 + c % 64 == c
  {}

  lemma Recombine3(c: Scalar)
    requires 0x800 <= c < 0x10000
    ensures (0xE0 + c / 4096) % 16 == c / 4096
    ensures (0x80 + c / 64 % 64) % 64 == c / 64 % 64 && (0x80 + c % 64) % 64 == c % 64
    ensures c / 4096 * 4096 + c / 64 % 64 * 64 + c % 64 == c
  {
    assert c / 64 / 64 == c / 4096;
  }

  lemma Recombine4(c: Scalar)
    requires 0x10000 <= c
    ensures (0xF0 + c / 262144) % 8 == c / 262144
    ensures (0x80 + c / 4096 % 64) % 64 == c / 4096 % 64
    ensures (0x80 + c / 64 % 64) % 64 == c / 64 % 64 && (0x80 + c % 64) % 64 == c % 64
    ensures c / 262144 * 262144 + c / 4096 % 64 * 4096 + c / 64 % 64 * 64 + c % 64 == c
  {
    assert c / 64 / 64 == c / 4096 && c / 4096 / 64 == c / 262144;
  }

  /** The byte patterns alone: what Decode computes from the bytes of Encode1. */
  lemma DecodeBytes(s: seq<byte>, i: nat, c: Scalar)
    requires forall k :: 0 <= k < |Encode1(c)| ==> At(s, i + k) == Encode1(c)[k]
    ensures Decode(s, i) == Point(c, |Encode1(c)|)
    ensures ByteLen(At(s, i)) == |Encode1(c)|
  {
    var e := Encode1(c);
    assert At(s, i + 0) == e[0];
    if c < 0x80 {
    } else if c < 0x800 {
      Recombine2(c);
      assert At(s, i + 1) == e[1];
    } else if c < 0x10000 {
      Recombine3(c);
      assert At(s, i + 1) == e[1] && At(s, i + 2) == e[2];
    } else {
      Recombine4(c);
      assert At(s, i + 1) == e[1] && At(s, i + 2) == e[2] && At(s, i + 3) == e[3];
    }
  }

  lemma DecodeEncoded(s: seq<byte>, i: nat, c: Scalar)
    requires i + |Encode1(c)| <= |s| && s[i..i + |Encode1(c)|] == Encode1(c)
    ensures Decode(s, i) == Point(c, |Encode1(c)|)
    ensures ByteLen(s[i]) == |Encode1(c)|
  {
    forall k | 0 <= k < |Encode1(c)| ensures At(s, i + k) == Encode1(c)[k] {
      assert s[i..i + |Encode1(c)|][k] == s[i + k];
    }
    DecodeBytes(s, i, c);
  }

  /** The encoding is the shortest: what a shorter leading byte announces decodes to less. */
  lemma ShortestEncoding(c: Scalar, s: seq<byte>, i: nat)
    requires At(s, i) < 0x80 || 0xC0 <= At(s, i) < 0xF8
    ensures Decode(s, i).len < |Encode1(c)| ==> Decode(s, i).cp < c
  {}

  /** The examples of section 7 of RFC 3629. */
  lemma KnownEncodings()
    ensures Encode([0x41, 0x2262, 0x391, 0x2E]) == [0x41, 0xE2, 0x89, 0xA2, 0xCE, 0x91, 0x2E]
    ensures Encode([0x233B4]) == [0xF0, 0xA3, 0x8E, 0xB4]
  {
    hide Encode;
    var a, b, c: seq<Scalar> := [0x2262, 0x391, 0x2E], [0x391, 0x2E], [0x2E];
    EncodeCons(0x41, a);
    EncodeCons(0x2262, b);
    EncodeCons(0x391, c);
    EncodeOne(0x2E);
    EncodeOne(0x233B4);
    assert [0x41] + a == [0x41, 0x2262, 0x391, 0x2E] && [0x2262] + b == a && [0x391] + c == b;
  }

  /** Different lists of code points have different encodings. */
  lemma {:induction false} EncodeInjective(a: seq<Scalar>, b: seq<Scalar>)
    requires Encode(a) == Encode(b)
    ensures a == b
    decreases |a|
  {
    hide Encode1, Decode;
    if a == [] {
      EncodeNil();
    } else if b == [] {
      EncodeNil();
    } else {
      var s := Encode(a);
      EncodeHead(a);
      EncodeHead(b);
      Halves(Encode1(a[0]), Encode(a[1..]));
      Halves(Encode1(b[0]), Encode(b[1..]));
      NoneLeft(s);
      DecodeEncoded(s, 0, a[0]);
      DecodeEncoded(s, 0, b[0]);
      EncodeInjective(a[1..], b[1..]);
      HeadTail(a);
      HeadTail(b);
    }
  }

  /** Backward decoding yields the character that ends at pos, with its length. */
  lemma DecodeBackEncoded(s: seq<byte>, pos: nat, c: Scalar)
    requires |Encode1(c)| <= pos <= |s| && s[pos - |Encode1(c)|..pos] == Encode1(c)
    ensures DecodeBack(s, pos) == Point(c, |Encode1(c)|)
  {
    var e := Encode1(c);
    var i := pos - |e|;
    assert s[i] == s[i..pos][0] == e[0];
    forall k | i < k < pos ensures IsCont(s[k]) {
      assert s[k] == s[i..pos][k - i];
      EncodeTail(c, k - i);
    }
    ScanBackStops(s, pos, pos - 1, i);
    DecodeEncoded(s, i, c);
  }

  lemma {:induction false} ScanBackStops(s: seq<byte>, pos: nat, j: nat, i: nat)
    requires i <= j < pos <= |s| && pos - i <= 4
    requires !IsCont(s[i]) && forall k :: i < k <= j ==> IsCont(s[k])
    ensures ScanBack(s, pos, j) == i
    decreases j
  {
    if i < j {
      ScanBackStops(s, pos, j - 1, i);
    }
  }

  /** At every boundary after the first, backward decoding agrees with forward
      decoding of the sequence that ends there. */
  lemma BackAgreesWithForward(s: seq<byte>, pos: nat)
    requires IsText(s) && Boundary(s, pos) && 0 < pos
    ensures var p := DecodeBack(s, pos);
            Decode(s, pos - p.len) == p && Boundary(s, pos - p.len)
  {
    var a, b := SplitText(s, pos);
    hide Decode, DecodeBack, Encode, Encode1, IsText;
    if a == [] {
      EncodeNil();
    }
    var c := a[|a| - 1];
    var i := LastEncoded(a);
    CutOfTake(s, pos, i);
    SliceAt(s, i, pos, i);
    DecodeBackEncoded(s, pos, c);
    DecodeEncoded(s, i, c);
  }

  lemma LastEncoded(a: seq<Scalar>) returns (i: nat)
    requires a != []
    ensures i == |Encode(a)| - |Encode1(a[|a| - 1])|
    ensures Encode(a)[i..] == Encode1(a[|a| - 1]) && Encode(a)[..i] == Encode(a[..|a| - 1])
  {
    hide Encode, Encode1;
    var b, c := a[..|a| - 1], a[|a| - 1];
    LastOf(a);
    EncodeSnoc(b, c);
    i := |Encode(b)|;
    Halves(Encode(b), Encode1(c));
  }

  // ----- texts and boundaries

  lemma TextConcat(s: seq<byte>, t: seq<byte>)
    requires IsText(s) && IsText(t)
    ensures IsText(s + t)
  {
    var a: seq<Scalar> :| Encode(a) == s;
    var b: seq<Scalar> :| Encode(b) == t;
    EncodeConcat(a, b);
  }

  lemma EmptyIsText()
    ensures IsText([])
  {
    assert Encode([]) == [];
  }

  /** The code points on the two sides of a boundary. */
  lemma SplitText(s: seq<byte>, i: nat) returns (a: seq<Scalar>, b: seq<Scalar>)
    requires IsText(s) && Boundary(s, i)
    ensures s[..i] == Encode(a) && s[i..] == Encode(b) && s == Encode(a) + Encode(b)
  {
    var cs: seq<Scalar> :| Encode(cs) == s;
    hide Encode, IsText;
    var k := SplitAt(cs, i);
    a, b := cs[..k], cs[k..];
    Rejoin(s, i);
  }

  lemma {:induction false} SplitAt(cs: seq<Scalar>, i: nat) returns (k: nat)
    requires Boundary(Encode(cs), i)
    ensures k <= |cs|
    ensures Encode(cs)[..i] == Encode(cs[..k]) && Encode(cs)[i..] == Encode(cs[k..])
    decreases |cs|
  {
    hide Encode1;
    if i == 0 {
      k := 0;
      assert cs[0..] == cs;
    } else {
      var c, rest := cs[0], cs[1..];
      var e, s := Encode1(c), Encode(rest);
      InsideIsCont(c, s, i);
      assert i < |e + s| ==> (e + s)[i] == s[i - |e|];
      var k1 := SplitAt(rest, i - |e|);
      k := k1 + 1;
      CutOfConcat(e, s, i);
      assert cs[..k] == [c] + rest[..k1];
      EncodeCons(c, rest[..k1]);
      assert cs[k..] == rest[k1..];
    }
  }

  lemma InsideIsCont(c: Scalar, s: seq<byte>, i: nat)
    requires 0 < i && Boundary(Encode1(c) + s, i)
    ensures |Encode1(c)| <= i
  {
    hide Encode1;
    if i < |Encode1(c)| {
      EncodeTail(c, i);
    }
  }

  lemma TextSplits(s: seq<byte>, i: nat)
    requires IsText(s) && Boundary(s, i)
    ensures IsText(s[..i]) && IsText(s[i..])
  {
    var a, b := SplitText(s, i);
  }

  /** A text starts at a character. */
  lemma TextStarts(s: seq<byte>)
    requires IsText(s)
    ensures Boundary(s, 0)
  {
    var cs: seq<Scalar> :| Encode(cs) == s;
  }

  lemma BoundaryAfterEncode(a: seq<Scalar>, b: seq<Scalar>)
    ensures Boundary(Encode(a) + Encode(b), |Encode(a)|)
  {
    TextStarts(Encode(b));
  }

  /** No character of a text contains an ASCII byte except that character itself. */
  lemma {:induction false} AsciiInEncode(cs: seq<Scalar>, b: byte)
    requires b < 0x80
    ensures b in Encode(cs) <==> b in cs
  {
    if cs != [] {
      AsciiInEncode(cs[1..], b);
      assert cs == [cs[0]] + cs[1..];
      assert b in Encode1(cs[0]) <==> b == cs[0] by {
        var e := Encode1(cs[0]);
        if b == cs[0] { assert e[0] == b; }
      }
    }
  }
}
