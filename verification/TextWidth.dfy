/** How many columns whole texts take, on code points given by their numbers
    (cli/linenoise.c:371-497). */
module TextWidth {
  import opened Seqs
  import opened Utf8
  import opened Clusters
  import opened Width
  import opened ClusterShapes

  /** Printable ASCII, Latin, Greek, Cyrillic and their neighbours, punctuation, arrows. */
  predicate Narrow(c: Scalar) {
    || 32 <= c <= 126 || 0xA0 <= c < 0x300 || 0x370 <= c < 0x1100
    || 0x1E00 <= c <= 0x200C || 0x200E <= c < 0x20D0 || 0x2100 <= c < 0x231A
  }

  /** Hangul, CJK, fullwidth forms and the blocks of emoji but the skin tones. */
  predicate Broad(c: Scalar) {
    || 0x1100 <= c <= 0x115F || 0xAC00 <= c <= 0xD7A3
    || 0x2E80 <= c <= 0x303E || 0x3040 <= c <= 0xA4CF || 0xF900 <= c <= 0xFAFF
    || 0xFF00 <= c <= 0xFF60 || 0xFFE0 <= c <= 0xFFE6
    || 0x2600 <= c <= 0x27BF || 0x1F1E6 <= c <= 0x1F1FF
    || 0x1F300 <= c <= 0x1F3FA || 0x1F400 <= c <= 0x1F64F || 0x1F680 <= c <= 0x1F6FF
    || 0x1F900 <= c <= 0x1F9FF || 0x1FA00 <= c <= 0x1FAFF || 0x20000 <= c <= 0x2FFFF
  }

  /** Control characters other than ESC, and the marks. */
  predicate Silent(c: Scalar) { (c < 32 && c != 27) || 0x7F <= c < 0xA0 || Mark(c) }

  lemma NarrowChar(c: Scalar)
    requires Narrow(c)
    ensures CharWidth(c) == 1 && c != 0x200D && c != ESC
  {}

  lemma BroadChar(c: Scalar)
    requires Broad(c)
    ensures CharWidth(c) == 2 && c != 0x200D && c != ESC
  {}

  lemma SilentChar(c: Scalar)
    requires Silent(c)
    ensures CharWidth(c) == 0 && c != 0x200D && c != ESC
  {}

  // ----- texts of one kind

  lemma {:induction false} EachPoint(cs: seq<Scalar>, w: nat)
    requires forall c :: c in cs ==> CharWidth(c) == w && c != 0x200D
    ensures PointsWidth(cs, false) == w * |cs|
  {
    hide CharWidth;
    if cs != [] {
      assert cs[0] in cs && forall c :: c in cs[1..] ==> c in cs;
      EachPoint(cs[1..], w);
      OneMore(w, |cs[1..]|);
    }
  }

  lemma OneMore(w: nat, n: nat)
    ensures w * (n + 1) == w + w * n
  {}

  lemma NothingAfter(s: seq<byte>, joined: bool)
    ensures StrWidth(s, |s|, joined) == 0
  {}

  lemma WidthOfPoints(cs: seq<Scalar>)
    requires ESC !in cs
    ensures StrWidth(Encode(cs), 0, false) == PointsWidth(cs, false)
  {
    hide *;
    var s := Encode(cs);
    assert s[0..|s|] == s;
    RunWidth(s, 0, cs, false);
    NothingAfter(s, JoinedAfter(cs, false));
  }

  /** One column per narrow character. */
  lemma NarrowText(cs: seq<Scalar>)
    requires forall c :: c in cs ==> Narrow(c)
    ensures StrWidth(Encode(cs), 0, false) == |cs|
  {
    hide CharWidth, Narrow, StrWidth, PointsWidth, Encode;
    forall c | c in cs ensures CharWidth(c) == 1 && c != 0x200D && c != ESC {
      NarrowChar(c);
    }
    EachPoint(cs, 1);
    WidthOfPoints(cs);
  }

  /** Two columns per CJK, Hangul, fullwidth or emoji character. */
  lemma BroadText(cs: seq<Scalar>)
    requires forall c :: c in cs ==> Broad(c)
    ensures StrWidth(Encode(cs), 0, false) == 2 * |cs|
  {
    hide CharWidth, Broad, StrWidth, PointsWidth, Encode;
    forall c | c in cs ensures CharWidth(c) == 2 && c != 0x200D && c != ESC {
      BroadChar(c);
    }
    EachPoint(cs, 2);
    WidthOfPoints(cs);
  }

  /** No column for control characters and marks. */
  lemma SilentText(cs: seq<Scalar>)
    requires forall c :: c in cs ==> Silent(c)
    ensures StrWidth(Encode(cs), 0, false) == 0
  {
    hide CharWidth, Silent, StrWidth, PointsWidth, Encode;
    forall c | c in cs ensures CharWidth(c) == 0 && c != 0x200D && c != ESC {
      SilentChar(c);
    }
    EachPoint(cs, 0);
    WidthOfPoints(cs);
  }

  /** Bytes of printable ASCII take one column each. */
  lemma AsciiText(s: seq<byte>)
    requires forall b :: b in s ==> 32 <= b <= 126
    ensures StrWidth(s, 0, false) == |s|
  {
    AsciiFrom(s, 0);
  }

  lemma {:induction false} AsciiFrom(s: seq<byte>, i: nat)
    requires i <= |s| && forall b :: b in s ==> 32 <= b <= 126
    ensures StrWidth(s, i, false) == |s| - i
    decreases |s| - i
  {
    if i < |s| {
      assert s[i] in s;
      AsciiFrom(s, i + 1);
    }
  }

  // ----- texts put together

  /** Texts side by side take the sum of their columns unless a joiner stands between. */
  lemma SideBySide(a: seq<Scalar>, b: seq<Scalar>)
    requires ESC !in a && ESC !in b && (a == [] || a[|a| - 1] != 0x200D)
    ensures StrWidth(Encode(a + b), 0, false) == StrWidth(Encode(a), 0, false) + StrWidth(Encode(b), 0, false)
  {
    hide StrWidth, PointsWidth, Encode;
    WidthOfPoints(a);
    WidthOfPoints(b);
    WidthOfPoints(a + b);
    PointsWidthConcat(a, b, false);
  }

  lemma {:induction false} PiecesAreSilent(ps: seq<Piece>)
    requires AllOk(ps)
    ensures PointsWidth(Points(ps), false) == 0 && !JoinedAfter(Points(ps), false)
  {
    hide CharWidth, Mark;
    if ps != [] {
      var p, r := ps[0], Points(ps[1..]);
      assert p in ps;
      PiecesAreSilent(ps[1..]);
      PieceIsSilent(p);
      PointsWidthConcat(p.Points(), r, false);
      assert r != [] ==> Points(ps)[|Points(ps)| - 1] == r[|r| - 1];
    }
  }

  lemma PieceIsSilent(p: Piece)
    requires p.Ok()
    ensures PointsWidth(p.Points(), false) == 0 && p.c != 0x200D
  {
    if p.Extra? {
      SilentChar(p.c);
      assert [p.c][1..] == [];
    } else {
      var c, j: seq<Scalar> := [p.c], [0x200D, p.c];
      assert c[1..] == [] && j[1..] == c;
      assert PointsWidth(c, true) == 0;
    }
  }

  /** A joined cluster takes the columns of its first character. */
  lemma ClusterText(h: Scalar, ps: seq<Piece>)
    requires AllOk(ps) && h != 0x200D && ESC !in [h] + Points(ps)
    ensures StrWidth(Encode([h] + Points(ps)), 0, false) == StrWidth(Encode([h]), 0, false)
  {
    hide StrWidth, PointsWidth, Encode, AllOk;
    assert ESC in Points(ps) ==> ESC in [h] + Points(ps);
    assert ESC in [h] ==> ESC in [h] + Points(ps);
    SideBySide([h], Points(ps));
    WidthOfPoints(Points(ps));
    PiecesAreSilent(ps);
  }

  // ----- ESC

  /** Only a whole control sequence is measured: a positive length is that of one. */
  lemma OnlySequences(s: seq<byte>, i: nat) returns (e: Csi)
    requires i < |s| && s[i] == ESC && 0 < EscapeLen(s, i)
    ensures e.Valid() && i + EscapeLen(s, i) <= |s| && s[i..i + EscapeLen(s, i)] == e.Bytes()
  {
    var p := Skip(s, i + 2, 0x30, 0x3f);
    var q := Skip(s, p, 0x20, 0x2f);
    e := Csi(s[i + 2..p], s[p..q], s[q]);
    SkippedRun(s, i + 2, 0x30, 0x3f);
    SkippedRun(s, p, 0x20, 0x2f);
    FourParts(s, i, p, q);
  }

  lemma FourParts(s: seq<byte>, i: nat, p: nat, q: nat)
    requires i + 2 <= p <= q < |s| && s[i] == ESC && s[i + 1] == BRACKET
    ensures s[i..q + 1] == [ESC, BRACKET] + s[i + 2..p] + s[p..q] + [s[q]]
  {
    SliceJoin(s, i + 2, p, q);
    SliceJoin(s, i, i + 2, q);
    SliceSnoc(s, i, q);
    assert s[i..i + 2] == [ESC, BRACKET];
    Assoc([ESC, BRACKET], s[i + 2..p], s[p..q]);
  }

  lemma {:induction false} SkippedRun(s: seq<byte>, i: nat, lo: byte, hi: byte)
    requires i <= |s|
    ensures forall b :: b in s[i..Skip(s, i, lo, hi)] ==> lo <= b <= hi
    decreases |s| - i
  {
    if i < |s| && lo <= s[i] <= hi {
      SkippedRun(s, i + 1, lo, hi);
      SliceCons(s, i, Skip(s, i, lo, hi));
    }
  }

  /** An ESC that starts no sequence takes no column and hides nothing. */
  lemma LoneEscape(cs: seq<Scalar>)
    requires ESC !in cs && (cs == [] || cs[0] != 91)
    ensures StrWidth([ESC] + Encode(cs), 0, false) == StrWidth(Encode(cs), 0, false)
  {
    hide Encode, PointsWidth, Encode1;
    var s := [ESC] + Encode(cs);
    ConsTail(ESC, Encode(cs));
    NotBracket(cs);
    assert EscapeLen(s, 0) == 0;
    assert s[1..|s|] == Encode(cs);
    RunWidth(s, 1, cs, false);
    WidthOfPoints(cs);
  }

  lemma NotBracket(cs: seq<Scalar>)
    requires cs == [] || cs[0] != 91
    ensures Encode(cs) == [] || Encode(cs)[0] != 91
  {}
}
