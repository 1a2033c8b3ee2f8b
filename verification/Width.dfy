/** Display width of a line (cli/linenoise.c:371-497). */
module Width {
  import opened Seqs
  import opened Utf8
  import opened Clusters


  predicate IsWide(cp: nat) {
    && 0x1100 <= cp
    && (|| cp <= 0x115F
        || cp == 0x2329 || cp == 0x232A
        || 0x231A <= cp <= 0x231B
        || 0x23E9 <= cp <= 0x23F3
        || 0x23F8 <= cp <= 0x23FA
        || 0x25AA <= cp <= 0x25AB
        || 0x25B6 <= cp <= 0x25C0
        || 0x25FB <= cp <= 0x25FE
        || 0x2600 <= cp <= 0x26FF
        || 0x2700 <= cp <= 0x27BF
        || 0x2934 <= cp <= 0x2935
        || 0x2B05 <= cp <= 0x2B07
        || 0x2B1B <= cp <= 0x2B1C
        || cp == 0x2B50 || cp == 0x2B55
        || (0x2E80 <= cp <= 0xA4CF && cp != 0x303F)
        || 0xAC00 <= cp <= 0xD7A3
        || 0xF900 <= cp <= 0xFAFF
        || 0xFE10 <= cp <= 0xFE1F
        || 0xFE30 <= cp <= 0xFE6F
        || 0xFF00 <= cp <= 0xFF60
        || 0xFFE0 <= cp <= 0xFFE6
        || 0x1F1E6 <= cp <= 0x1F1FF
        || 0x1F300 <= cp <= 0x1F64F
        || 0x1F680 <= cp <= 0x1F6FF
        || 0x1F900 <= cp <= 0x1F9FF
        || 0x1FA00 <= cp <= 0x1FAFF
        || 0x20000 <= cp <= 0x2FFFF)
  }

  /** utf8CharWidth. */
  function CharWidth(cp: nat): nat
  {
    if cp < 32 || 0x7F <= cp < 0xA0 then 0
    else if IsCombiningMark(cp) || IsVariationSelector(cp) || IsSkinToneModifier(cp) || IsZwj(cp) then 0
    else if IsWide(cp) then 2
    else 1
  }

  lemma ExtendersHaveNoWidth(cp: nat)
    requires IsExtend(cp)
    ensures CharWidth(cp) == 0
  {}

  // ----- control sequences

  /** The first index from i on whose byte is not in lo..hi. */
  function Skip(s: seq<byte>, i: nat, lo: byte, hi: byte): (j: nat)
    requires i <= |s|
    ensures i <= j <= |s|
    decreases |s| - i
  {
    if i < |s| && lo <= s[i] <= hi then Skip(s, i + 1, lo, hi) else i
  }

  /** ansiEscapeLen for the sequence whose ESC stands at index i. */
  function EscapeLen(s: seq<byte>, i: nat): (n: nat)
    ensures n == 0 || i + n <= |s|
  {
    if i + 2 > |s| || s[i + 1] != BRACKET then 0
    else
      var k := Skip(s, Skip(s, i + 2, 0x30, 0x3f), 0x20, 0x2f);
      if k >= |s| || s[k] < 0x40 || 0x7e < s[k] then 0 else k + 1 - i
  }

  method AnsiEscapeLen(s: seq<byte>, at: nat) returns (n: nat)
    ensures n == EscapeLen(s, at)
  {
    if at + 2 > |s| || s[at + 1] != BRACKET {
      return 0;
    }
    var i := at + 2;
    while i < |s| && 0x30 <= s[i] <= 0x3f
      invariant at + 2 <= i <= |s|
      invariant Skip(s, i, 0x30, 0x3f) == Skip(s, at + 2, 0x30, 0x3f)
    {
      i := i + 1;
    }
    ghost var p := i;
    while i < |s| && 0x20 <= s[i] <= 0x2f
      invariant p <= i <= |s|
      invariant Skip(s, i, 0x20, 0x2f) == Skip(s, p, 0x20, 0x2f)
    {
      i := i + 1;
    }
    if i >= |s| || s[i] < 0x40 || 0x7e < s[i] {
      return 0;
    }
    n := i + 1 - at;
  }

  /** utf8StrWidth from index i on; joined says that the previous code point was a ZWJ. */
  function StrWidth(s: seq<byte>, i: nat, joined: bool): nat
    decreases |s| - i
  {
    if i >= |s| then 0
    else
      var p := Decode(s, i);
      var skip := if p.cp == ESC then EscapeLen(s, i) else 0;
      if 0 < skip then StrWidth(s, i + skip, joined)
      else (if joined then 0 else CharWidth(p.cp)) + StrWidth(s, i + p.len, IsZwj(p.cp))
  }

  method Utf8StrWidth(s: seq<byte>) returns (width: nat)
    ensures width == StrWidth(s, 0, false)
  {
    hide Decode, CharWidth, EscapeLen;
    width := 0;
    var i, joined := 0, false;
    while i < |s|
      invariant 0 <= i
      invariant width + StrWidth(s, i, joined) == StrWidth(s, 0, false)
      decreases |s| - i
    {
      var p := Decode(s, i);
      if p.cp == ESC {
        var skip := AnsiEscapeLen(s, i);
        if 0 < skip {
          i := i + skip;
          continue;
        }
      }
      if joined {
        joined := false;
      } else {
        width := width + CharWidth(p.cp);
      }
      if IsZwj(p.cp) {
        joined := true;
      }
      i := i + p.len;
    }
  }

  // ----- the width counted in code points

  function PointsWidth(cs: seq<Scalar>, joined: bool): nat
  {
    if cs == [] then 0
    else (if joined then 0 else CharWidth(cs[0])) + PointsWidth(cs[1..], IsZwj(cs[0]))
  }

  predicate JoinedAfter(cs: seq<Scalar>, joined: bool) {
    if cs == [] then joined else IsZwj(cs[|cs| - 1])
  }

  /** An ESC-free run of characters adds its own width, whatever follows it. */
  lemma {:induction false} RunWidth(s: seq<byte>, i: nat, cs: seq<Scalar>, joined: bool)
    requires i + |Encode(cs)| <= |s| && s[i..i + |Encode(cs)|] == Encode(cs)
    requires ESC !in cs
    ensures StrWidth(s, i, joined) ==
            PointsWidth(cs, joined) + StrWidth(s, i + |Encode(cs)|, JoinedAfter(cs, joined))
    decreases |cs|
  {
    hide Decode, Encode1, CharWidth, IsZwj, EscapeLen, Encode;
    if cs == [] {
      EncodeNil();
    } else {
      var c, r := cs[0], cs[1..];
      var e, n := |Encode1(c)|, |Encode(cs)|;
      EncodeHead(cs);
      Halves(Encode1(c), Encode(r));
      SliceSlice(s, i, i + n, 0, e);
      SliceSlice(s, i, i + n, e, n);
      DecodeEncoded(s, i, c);
      assert c in cs;
      assert forall d :: d in r ==> d in cs;
      RunWidth(s, i + e, r, IsZwj(c));
    }
  }

  /** A control sequence in the layout of section 5.4 of ECMA-48. */
  datatype Csi = Csi(params: seq<byte>, inter: seq<byte>, final: byte)
  {
    predicate Valid() {
      && (forall b :: b in params ==> 0x30 <= b <= 0x3f)
      && (forall b :: b in inter ==> 0x20 <= b <= 0x2f)
      && 0x40 <= final <= 0x7e
    }

    function Bytes(): (s: seq<byte>)
      ensures 3 <= |s|
    {
      [ESC, BRACKET] + params + inter + [final]
    }
  }

  lemma {:induction false} SkipRun(s: seq<byte>, i: nat, j: nat, lo: byte, hi: byte)
    requires i <= j < |s|
    requires forall k :: i <= k < j ==> lo <= s[k] <= hi
    requires s[j] < lo || hi < s[j]
    ensures Skip(s, i, lo, hi) == j
    decreases j - i
  {
    if i < j {
      SkipRun(s, i + 1, j, lo, hi);
    }
  }

  /** ansiEscapeLen measures exactly a well-formed sequence, whatever follows it. */
  lemma EscapeMeasured(s: seq<byte>, i: nat, e: Csi)
    requires e.Valid()
    requires i + |e.Bytes()| <= |s| && s[i..i + |e.Bytes()|] == e.Bytes()
    ensures EscapeLen(s, i) == |e.Bytes()| && s[i] == ESC
  {
    var w := e.Bytes();
    var p, q := i + 2 + |e.params|, i + 2 + |e.params| + |e.inter|;
    SliceAt(s, i, i + |w|, i);
    SliceAt(s, i, i + |w|, i + 1);
    forall k | i + 2 <= k < p ensures 0x30 <= s[k] <= 0x3f {
      SliceAt(s, i, i + |w|, k);
      assert w[k - i] == e.params[k - i - 2] && w[k - i] in e.params;
    }
    forall k | p <= k < q ensures 0x20 <= s[k] <= 0x2f {
      SliceAt(s, i, i + |w|, k);
      assert w[k - i] == e.inter[k - p] && w[k - i] in e.inter;
    }
    SliceAt(s, i, i + |w|, q);
    assert w[q - i] == e.final;
    SkipRun(s, i + 2, p, 0x30, 0x3f);
    SkipRun(s, p, q, 0x20, 0x2f);
  }

  lemma EscapeSkipped(s: seq<byte>, i: nat, joined: bool)
    requires i < |s| && s[i] == ESC && 0 < EscapeLen(s, i)
    ensures StrWidth(s, i, joined) == StrWidth(s, i + EscapeLen(s, i), joined)
  {
    hide EscapeLen;
  }

  /** A run of characters and the control sequence after it. */
  datatype Coloured = Coloured(cs: seq<Scalar>, csi: Csi)

  function Painted(ps: seq<Coloured>): seq<byte>
  {
    if ps == [] then [] else Encode(ps[0].cs) + ps[0].csi.Bytes() + Painted(ps[1..])
  }

  function Unpainted(ps: seq<Coloured>): seq<Scalar>
  {
    if ps == [] then [] else ps[0].cs + Unpainted(ps[1..])
  }

  predicate WellPainted(ps: seq<Coloured>) {
    forall p :: p in ps ==> p.csi.Valid() && ESC !in p.cs
  }

  lemma {:induction false} PointsWidthConcat(a: seq<Scalar>, b: seq<Scalar>, joined: bool)
    ensures PointsWidth(a + b, joined) == PointsWidth(a, joined) + PointsWidth(b, JoinedAfter(a, joined))
  {
    if a == [] {
      assert a + b == b;
    } else {
      assert (a + b)[1..] == a[1..] + b;
      PointsWidthConcat(a[1..], b, IsZwj(a[0]));
    }
  }

  /** One run of characters and the control sequence after it. */
  lemma PieceWidth(s: seq<byte>, i: nat, p: Coloured, rest: seq<byte>, joined: bool)
    requires i <= |s| && s[i..] == Encode(p.cs) + p.csi.Bytes() + rest
    requires p.csi.Valid() && ESC !in p.cs
    ensures var j := i + |Encode(p.cs)| + |p.csi.Bytes()|;
            j <= |s| && s[j..] == rest &&
            StrWidth(s, i, joined) ==
              PointsWidth(p.cs, joined) + StrWidth(s, j, JoinedAfter(p.cs, joined))
  {
    hide *;
    var t, e := Encode(p.cs), p.csi.Bytes();
    Assoc(t, e, rest);
    Halves(t, e + rest);
    CutOfDrop(s, i, |t|);
    var k := i + |t|;
    Halves(e, rest);
    CutOfDrop(s, k, |e|);
    RunWidth(s, i, p.cs, joined);
    EscapeMeasured(s, k, p.csi);
    EscapeSkipped(s, k, JoinedAfter(p.cs, joined));
  }

  lemma {:induction false} PaintedWidth(s: seq<byte>, i: nat, ps: seq<Coloured>, last: seq<Scalar>, joined: bool)
    requires i <= |s| && s[i..] == Painted(ps) + Encode(last) && WellPainted(ps) && ESC !in last
    ensures StrWidth(s, i, joined) == PointsWidth(Unpainted(ps) + last, joined)
    decreases |ps|
  {
    hide CharWidth, IsZwj, Decode, EscapeLen, Csi.Bytes, Csi.Valid, Encode;
    if ps == [] {
      NoneLeft(Encode(last));
      NoneLeft(last);
      assert s[i..i + |Encode(last)|] == s[i..];
      RunWidth(s, i, last, joined);
    } else {
      var p, r := ps[0], ps[1..];
      assert p in ps;
      Assoc(Encode(p.cs) + p.csi.Bytes(), Painted(r), Encode(last));
      Assoc(p.cs, Unpainted(r), last);
      PieceWidth(s, i, p, Painted(r) + Encode(last), joined);
      PaintedWidth(s, i + |Encode(p.cs)| + |p.csi.Bytes()|, r, last, JoinedAfter(p.cs, joined));
      PointsWidthConcat(p.cs, Unpainted(r) + last, joined);
    }
  }

  lemma {:induction false} UnpaintedHasNoEsc(ps: seq<Coloured>)
    requires WellPainted(ps)
    ensures ESC !in Unpainted(ps)
  {
    if ps != [] {
      assert ps[0] in ps;
      UnpaintedHasNoEsc(ps[1..]);
    }
  }

  /** Control sequences between, before and after pieces of text do not change the width,
      also right after a ZWJ. */
  lemma WidthIgnoresColour(ps: seq<Coloured>, last: seq<Scalar>)
    requires WellPainted(ps) && ESC !in last
    ensures StrWidth(Painted(ps) + Encode(last), 0, false) == StrWidth(Encode(Unpainted(ps) + last), 0, false)
  {
    var s, t := Painted(ps) + Encode(last), Encode(Unpainted(ps) + last);
    assert s[0..] == s && t[0..|t|] == t;
    PaintedWidth(s, 0, ps, last, false);
    UnpaintedHasNoEsc(ps);
    RunWidth(t, 0, Unpainted(ps) + last, false);
  }
}
