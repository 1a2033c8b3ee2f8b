/** When a cursor step enters a fold (cli/linenoise.c:1098-1124, 1739-1754), and that no other
    key ever puts the cursor inside one. */
module Cursor {
  import opened Seqs
  import opened Utf8
  import opened Clusters
  import opened Document
  import opened Refinement

  // ----- the characters of a text

  ghost function PointsOf(s: seq<byte>): (cs: seq<Scalar>)
    requires IsText(s)
    ensures Encode(cs) == s
  {
    var cs: seq<Scalar> :| Encode(cs) == s;
    cs
  }

  lemma PointsOfEncode(cs: seq<Scalar>)
    ensures IsText(Encode(cs)) && PointsOf(Encode(cs)) == cs
  {
    EncodeInjective(PointsOf(Encode(cs)), cs);
  }

  /** How many characters stand before a byte offset. */
  function IndexOf(cs: seq<Scalar>, off: nat): (i: nat)
    ensures i <= |cs|
  {
    if cs == [] || off == 0 then 0
    else 1 + IndexOf(cs[1..], if off < |Encode1(cs[0])| then 0 else off - |Encode1(cs[0])|)
  }

  lemma {:induction false} IndexOfCut(cs: seq<Scalar>, i: nat)
    requires i <= |cs|
    ensures IndexOf(cs, |Encode(cs[..i])|) == i
    decreases i
  {
    hide Encode, Encode1;
    if i == 0 {
      EncodeNil();
    } else {
      EncodeHead(cs[..i]);
      CutOfTake(cs, i, 1);
      SliceCons(cs, 0, i);
      assert cs[..i][1..] == cs[1..][..i - 1];
      IndexOfCut(cs[1..], i - 1);
    }
  }

  /** At a boundary the characters before it are the bytes before it. */
  lemma BytesBefore(s: seq<byte>, off: nat)
    requires IsText(s) && Boundary(s, off)
    ensures var cs := PointsOf(s); |Encode(cs[..IndexOf(cs, off)])| == off
  {
    hide PointsOf, IndexOf, Encode, IsText;
    var cs := PointsOf(s);
    var k := SplitAt(cs, off);
    IndexOfCut(cs, k);
    assert |s[..off]| == off;
  }

  lemma Ordered(cs: seq<Scalar>, i: nat, j: nat)
    requires i <= |cs| && j <= |cs|
    ensures |Encode(cs[..i])| < |Encode(cs[..j])| <==> i < j
  {
    if i < j {
      Before(cs, i, j);
    } else if j < i {
      Before(cs, j, i);
    }
  }

  lemma Before(cs: seq<Scalar>, i: nat, j: nat)
    requires i < j <= |cs|
    ensures |Encode(cs[..i])| < |Encode(cs[..j])|
  {
    hide Encode;
    EncodeCut(cs[..j], i);
    CutOfTake(cs, j, i);
    assert |cs[i..j]| <= |Encode(cs[i..j])|;
  }

  // ----- where a step lands, in characters

  lemma {:induction false} ExtendersSkipped(b: seq<Scalar>)
    requires NoJoin(b) && b != []
    ensures var n := NextCount(b);
            && 0 < n <= |b|
            && (forall k :: 0 < k < n ==> IsExtend(b[k])) && (n < |b| ==> !IsExtend(b[n]))
  {
    hide IsExtend, IsZwj, IsRegionalIndicator;
    assert b[0] in b && forall c :: c in b[1..] ==> c in b;
    NextMoreExtenders(b[1..]);
    var n := NextCount(b);
    assert n == 1 + Extenders(b[1..]);
    forall k | 0 < k < n ensures IsExtend(b[k]) {
      assert b[k] == b[1..][k - 1];
    }
    assert n < |b| ==> b[n] == b[1..][n - 1];
  }

  /** The characters the backward loop passes are extenders, and it ends at a base or at
      the start. */
  lemma {:induction false} BaseFound(a: seq<Scalar>, c: Scalar)
    requires NoJoin(a + [c])
    ensures var all, q := a + [c], |a| - PrevMore(a, c);
            && (q == 0 || !IsExtend(all[q])) && forall k :: q < k < |all| ==> IsExtend(all[k])
    decreases |a|
  {
    hide IsExtend, IsZwj, IsRegionalIndicator;
    var all := a + [c];
    assert all[|a|] == c && c in all && forall d :: d in a ==> d in all;
    if a != [] {
      var p, a1 := a[|a| - 1], a[..|a| - 1];
      assert p in a;
      LastOf(a);
      if IsExtend(c) {
        BaseFound(a1, p);
        assert forall k :: 0 <= k < |a| ==> (a1 + [p])[k] == all[k];
      }
    }
  }

  lemma ExtendersPassed(cs: seq<Scalar>, p: nat)
    requires NoJoin(cs) && 0 < p <= |cs|
    ensures var q := p - PrevCount(cs[..p]);
            && q < p && (q == 0 || !IsExtend(cs[q])) && forall k :: q < k < p ==> IsExtend(cs[k])
  {
    hide IsExtend, IsZwj, IsRegionalIndicator;
    var a := cs[..p];
    assert forall c :: c in a ==> c in cs;
    LastOf(a);
    BaseFound(a[..p - 1], a[p - 1]);
  }

  /** A step right over a character: q is where it ends. */
  lemma RightLands(d: Doc, cs: seq<Scalar>, p: nat) returns (q: nat)
    requires Inv(d) && d.text == Encode(cs) && p < |cs| && d.pos == |Encode(cs[..p])| && NoJoin(cs)
    requires StartingAt(d.folds, |d.text|, d.pos) == 0
    ensures p < q <= |cs| && MoveRight(d).pos == |Encode(cs[..q])|
    ensures (forall k :: p < k < q ==> IsExtend(cs[k])) && (q < |cs| ==> !IsExtend(cs[q]))
  {
    hide Encode, NextLen, NextCount, IsExtend, Inv, StartingAt;
    var a, b := cs[..p], cs[p..];
    EncodeCut(cs, p);
    Halves(Encode(a), Encode(b));
    NextLenCounts(d.text, d.pos, b);
    NoJoinPart(cs, p);
    ExtendersSkipped(b);
    var n := NextCount(b);
    q := p + n;
    EncodeCut(cs[..q], p);
    CutOfTake(cs, q, p);
    CutOfDrop(cs, p, n);
    Before(cs, p, |cs|);
    NoneLeft(cs);
    forall k | p < k < q ensures IsExtend(cs[k]) {
      assert cs[k] == b[k - p];
    }
    assert q < |cs| ==> cs[q] == b[n];
  }

  lemma NoJoinPart(cs: seq<Scalar>, p: nat)
    requires NoJoin(cs) && p <= |cs|
    ensures NoJoin(cs[..p]) && NoJoin(cs[p..])
  {
    assert forall c :: c in cs[..p] ==> c in cs;
    assert forall c :: c in cs[p..] ==> c in cs;
  }

  lemma LeftLands(d: Doc, cs: seq<Scalar>, p: nat) returns (q: nat)
    requires Inv(d) && d.text == Encode(cs) && 0 < p <= |cs| && d.pos == |Encode(cs[..p])| && NoJoin(cs)
    requires EndingAt(d.folds, |d.text|, d.pos) == 0
    ensures q < p && MoveLeft(d).pos == |Encode(cs[..q])|
    ensures (forall k :: q < k < p ==> IsExtend(cs[k])) && (q == 0 || !IsExtend(cs[q]))
  {
    hide Encode, PrevLen, PrevCount, IsExtend, Inv, EndingAt;
    var a := cs[..p];
    EncodeCut(cs, p);
    Halves(Encode(a), Encode(cs[p..]));
    PrevLenCounts(d.text, d.pos, a);
    ExtendersPassed(cs, p);
    q := p - PrevCount(a);
    CutOfTake(cs, p, q);
    Before(cs, 0, p);
    assert d.pos - PrevLen(d.text, d.pos) <= |d.text|;
  }

  // ----- folds beside the cursor

  lemma {:induction false} FoldStarting(fs: seq<Fold>, len: nat, pos: nat)
    ensures StartingAt(fs, len, pos) != 0 ==>
              exists f :: f in fs && f.start == pos && f.end == pos + StartingAt(fs, len, pos)
    ensures StartingAt(fs, len, pos) == 0 ==> forall f :: f in fs && Live(f, len) ==> f.start != pos
  {
    if fs != [] {
      FoldStarting(fs[1..], len, pos);
      assert fs[0] in fs && forall f :: f in fs[1..] ==> f in fs;
    }
  }

  lemma {:induction false} FoldEnding(fs: seq<Fold>, len: nat, pos: nat)
    ensures EndingAt(fs, len, pos) != 0 ==>
              exists f :: f in fs && f.end == pos && f.start == pos - EndingAt(fs, len, pos)
    ensures EndingAt(fs, len, pos) == 0 ==> forall f :: f in fs && Live(f, len) ==> f.end != pos
  {
    if fs != [] {
      FoldEnding(fs[1..], len, pos);
      assert fs[0] in fs && forall f :: f in fs[1..] ==> f in fs;
    }
  }

  /** Neither end of a fold is inside another. */
  lemma EndsAreOutside(d: Doc, f: Fold)
    requires Inv(d) && f in d.folds
    ensures forall g :: g in d.folds ==> !(g.start < f.start < g.end) && !(g.start < f.end < g.end)
    ensures f.start < f.end <= |d.text| && Boundary(d.text, f.start) && Boundary(d.text, f.end)
  {
    FoldsOrdered(d.folds, 0, d.text);
    var i :| 0 <= i < |d.folds| && d.folds[i] == f;
    forall g | g in d.folds ensures !(g.start < f.start < g.end) && !(g.start < f.end < g.end) {
      var j :| 0 <= j < |d.folds| && d.folds[j] == g;
    }
  }

  // ----- exactly when a step enters a fold

  /** The characters after the one at the cursor, up to and with the first of the fold, are
      extenders, and the fold has a base after its first character. */
  ghost predicate EntersRight(d: Doc, f: Fold)
    requires IsText(d.text)
  {
    var cs := PointsOf(d.text);
    var p, i, j := IndexOf(cs, d.pos), IndexOf(cs, f.start), IndexOf(cs, f.end);
    && StartingAt(d.folds, |d.text|, d.pos) == 0 && p < i
    && (forall k :: p < k <= i && k < |cs| ==> IsExtend(cs[k]))
    && (exists k :: i < k < j && !IsExtend(cs[k]))
  }

  /** The characters from the end of the fold to the cursor are extenders, and the fold has
      a base after its first character. */
  ghost predicate EntersLeft(d: Doc, f: Fold)
    requires IsText(d.text)
  {
    var cs := PointsOf(d.text);
    var p, i, j := IndexOf(cs, d.pos), IndexOf(cs, f.start), IndexOf(cs, f.end);
    && EndingAt(d.folds, |d.text|, d.pos) == 0 && j < p
    && (forall k :: j <= k < p ==> IsExtend(cs[k]))
    && (exists k :: i < k < j && !IsExtend(cs[k]))
  }

  ghost predicate JoinFree(s: seq<byte>) { IsText(s) && NoJoin(PointsOf(s)) }

  lemma TextOfDoc(d: Doc)
    requires Inv(d)
    ensures IsText(d.text) && Boundary(d.text, d.pos) && d.pos <= |d.text|
  {}

  /** Index and offset of a fold and of the cursor. */
  lemma Indices(d: Doc, f: Fold)
    requires Inv(d) && f in d.folds
    ensures IsText(d.text)
    ensures var cs := PointsOf(d.text);
            var p, i, j := IndexOf(cs, d.pos), IndexOf(cs, f.start), IndexOf(cs, f.end);
            && d.pos == |Encode(cs[..p])| && f.start == |Encode(cs[..i])| && f.end == |Encode(cs[..j])|
            && i < j && (p < i <==> d.pos < f.start) && (i < p <==> f.start < d.pos)
            && (p < j <==> d.pos < f.end) && (j < p <==> f.end < d.pos)
  {
    hide PointsOf, IndexOf, Encode, IsText, Inv, Boundary;
    TextOfDoc(d);
    EndsAreOutside(d, f);
    BytesBefore(d.text, d.pos);
    BytesBefore(d.text, f.start);
    BytesBefore(d.text, f.end);
    var cs := PointsOf(d.text);
    var p, i, j := IndexOf(cs, d.pos), IndexOf(cs, f.start), IndexOf(cs, f.end);
    Ordered(cs, p, i);
    Ordered(cs, i, p);
    Ordered(cs, p, j);
    Ordered(cs, j, p);
    Ordered(cs, i, j);
  }

  lemma RightEntersIff(d: Doc, f: Fold)
    requires Inv(d) && JoinFree(d.text) && CursorOutside(d) && f in d.folds && d.pos < |d.text|
    requires StartingAt(d.folds, |d.text|, d.pos) == 0
    ensures f.start < MoveRight(d).pos < f.end <==> EntersRight(d, f)
  {
    hide PointsOf, IndexOf, Encode, IsText, Inv, Boundary, NoJoin, IsExtend, StartingAt, MoveRight;
    TextOfDoc(d);
    Indices(d, f);
    EndsAreOutside(d, f);
    FoldStarting(d.folds, |d.text|, d.pos);
    var cs := PointsOf(d.text);
    var p, i, j := IndexOf(cs, d.pos), IndexOf(cs, f.start), IndexOf(cs, f.end);
    NoneLeft(cs);
    var q := RightLands(d, cs, p);
    Ordered(cs, i, q);
    Ordered(cs, q, j);
    if i < q < j {
      assert p < i;
      assert !IsExtend(cs[q]);
    }
    if EntersRight(d, f) {
      var k :| i < k < j && !IsExtend(cs[k]);
      assert i < q && q <= k;
    }
  }

  lemma LeftEntersIff(d: Doc, f: Fold)
    requires Inv(d) && JoinFree(d.text) && CursorOutside(d) && f in d.folds && 0 < d.pos
    requires EndingAt(d.folds, |d.text|, d.pos) == 0
    ensures f.start < MoveLeft(d).pos < f.end <==> EntersLeft(d, f)
  {
    hide PointsOf, IndexOf, Encode, IsText, Inv, Boundary, NoJoin, IsExtend, EndingAt, MoveLeft;
    TextOfDoc(d);
    Indices(d, f);
    EndsAreOutside(d, f);
    FoldEnding(d.folds, |d.text|, d.pos);
    var cs := PointsOf(d.text);
    var p, i, j := IndexOf(cs, d.pos), IndexOf(cs, f.start), IndexOf(cs, f.end);
    EncodeStart(cs, p);
    var q := LeftLands(d, cs, p);
    Ordered(cs, i, q);
    Ordered(cs, q, j);
    if i < q < j {
      assert j < p;
      assert !IsExtend(cs[q]);
    }
    if EntersLeft(d, f) {
      var k :| i < k < j && !IsExtend(cs[k]);
      assert k <= q && q < j;
    }
  }

  lemma EncodeStart(cs: seq<Scalar>, p: nat)
    requires p <= |cs|
    ensures 0 < |Encode(cs[..p])| ==> 0 < p
  {
    EncodeNil();
  }

  /** With the cursor outside all folds, Right keeps it outside exactly when it enters none
      by the condition above. */
  lemma RightKeepsOutside(d: Doc)
    requires Inv(d) && JoinFree(d.text) && CursorOutside(d)
    ensures CursorOutside(MoveRight(d)) <==> forall f :: f in d.folds ==> !EntersRight(d, f)
  {
    hide JoinFree, IsText, Inv, EntersRight, StartingAt, NextLen;
    TextOfDoc(d);
    if d.pos == |d.text| {
      forall f | f in d.folds ensures !EntersRight(d, f) {
        NothingAhead(d, f);
      }
    } else if StartingAt(d.folds, |d.text|, d.pos) == 0 {
      forall f | f in d.folds ensures f.start < MoveRight(d).pos < f.end <==> EntersRight(d, f) {
        RightEntersIff(d, f);
      }
      assert MoveRight(d).folds == d.folds;
    } else {
      FoldStarting(d.folds, |d.text|, d.pos);
      var f :| f in d.folds && f.start == d.pos && f.end == d.pos + StartingAt(d.folds, |d.text|, d.pos);
      EndsAreOutside(d, f);
      forall g | g in d.folds ensures !EntersRight(d, g) {
        FoldAtCursor(d, g);
      }
    }
  }

  lemma FoldAtCursor(d: Doc, f: Fold)
    requires IsText(d.text)
    ensures StartingAt(d.folds, |d.text|, d.pos) != 0 ==> !EntersRight(d, f)
    ensures EndingAt(d.folds, |d.text|, d.pos) != 0 ==> !EntersLeft(d, f)
  {}

  lemma NothingAhead(d: Doc, f: Fold)
    requires Inv(d) && f in d.folds
    ensures IsText(d.text)
    ensures d.pos == |d.text| ==> !EntersRight(d, f)
    ensures d.pos == 0 ==> !EntersLeft(d, f)
  {
    hide PointsOf, IndexOf, Encode, IsText, Inv, Boundary, StartingAt, EndingAt, IsExtend;
    EndsAreOutside(d, f);
    Indices(d, f);
  }

  /** Left keeps it outside exactly when it enters none. */
  lemma LeftKeepsOutside(d: Doc)
    requires Inv(d) && JoinFree(d.text) && CursorOutside(d)
    ensures CursorOutside(MoveLeft(d)) <==> forall f :: f in d.folds ==> !EntersLeft(d, f)
  {
    hide JoinFree, IsText, Inv, EntersLeft, EndingAt, PrevLen;
    TextOfDoc(d);
    if d.pos == 0 {
      forall f | f in d.folds ensures !EntersLeft(d, f) {
        NothingAhead(d, f);
      }
    } else if EndingAt(d.folds, |d.text|, d.pos) == 0 {
      forall f | f in d.folds ensures f.start < MoveLeft(d).pos < f.end <==> EntersLeft(d, f) {
        LeftEntersIff(d, f);
      }
      assert MoveLeft(d).folds == d.folds;
    } else {
      FoldEnding(d.folds, |d.text|, d.pos);
      var f :| f in d.folds && f.end == d.pos && f.start == d.pos - EndingAt(d.folds, |d.text|, d.pos);
      EndsAreOutside(d, f);
      forall g | g in d.folds ensures !EntersLeft(d, g) {
        FoldAtCursor(d, g);
      }
    }
  }
}
