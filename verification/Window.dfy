/** Horizontal trimming of the shown line (cli/linenoise.c:1406-1453). */
module Window {
  import opened Seqs
  import opened Utf8
  import opened Clusters
  import opened Width
  import opened TextWidth

  /** Text the terminal draws cluster by cluster: no control sequences, joiners or flags. */
  predicate Drawable(cs: seq<Scalar>) { NoJoin(cs) && 27 !in cs }

  /** A place between two clusters. */
  predicate ClusterEdge(cs: seq<Scalar>, i: nat)
    requires i <= |cs|
  {
    i == 0 || i == |cs| || !IsExtend(cs[i])
  }

  /** Columns taken by the code points from i up to j. */
  function Columns(cs: seq<Scalar>, i: nat, j: nat): nat
    requires i <= j <= |cs|
  {
    PointsWidth(cs[i..j], false)
  }

  lemma DrawablePart(cs: seq<Scalar>, i: nat, j: nat)
    requires Drawable(cs) && i <= j <= |cs|
    ensures Drawable(cs[i..j])
  {
    forall c | c in cs[i..j] ensures c in cs {
    }
  }

  lemma NotJoined(cs: seq<Scalar>)
    requires NoJoin(cs)
    ensures !JoinedAfter(cs, false)
  {
    assert cs != [] ==> cs[|cs| - 1] in cs;
  }

  lemma ColumnsSplit(cs: seq<Scalar>, i: nat, k: nat, j: nat)
    requires Drawable(cs) && i <= k <= j <= |cs|
    ensures Columns(cs, i, j) == Columns(cs, i, k) + Columns(cs, k, j)
  {
    hide CharWidth, IsZwj;
    assert cs[i..j] == cs[i..k] + cs[k..j];
    PointsWidthConcat(cs[i..k], cs[k..j], false);
    DrawablePart(cs, i, k);
    NotJoined(cs[i..k]);
  }

  /** A base and its extenders take the columns of the base. */
  lemma {:induction false} ClusterColumns(cs: seq<Scalar>, i: nat, j: nat)
    requires Drawable(cs) && i < j <= |cs|
    requires forall k :: i < k < j ==> IsExtend(cs[k])
    ensures Columns(cs, i, j) == CharWidth(cs[i])
    decreases j - i
  {
    hide CharWidth, IsExtend, IsZwj;
    OneColumn(cs, j - 1);
    if i + 1 < j {
      ColumnsSplit(cs, i, j - 1, j);
      ClusterColumns(cs, i, j - 1);
      ExtendersHaveNoWidth(cs[j - 1]);
    }
  }

  lemma OneColumn(cs: seq<Scalar>, k: nat)
    requires k < |cs|
    ensures Columns(cs, k, k + 1) == CharWidth(cs[k])
  {
    hide CharWidth, IsZwj;
    var x := cs[k..k + 1];
    assert x[0] == cs[k] && x[1..] == [];
    assert PointsWidth(x, false) == CharWidth(x[0]) + PointsWidth(x[1..], IsZwj(x[0]));
  }

  lemma NoColumns(cs: seq<Scalar>, i: nat)
    requires i <= |cs|
    ensures Columns(cs, i, i) == 0
  {
    assert cs[i..i] == [];
  }

  lemma WidthIsColumns(cs: seq<Scalar>, i: nat, j: nat)
    requires Drawable(cs) && i <= j <= |cs|
    ensures StrWidth(Encode(cs[i..j]), 0, false) == Columns(cs, i, j)
  {
    var x := cs[i..j];
    DrawablePart(cs, i, j);
    assert Encode(x)[0..|Encode(x)|] == Encode(x);
    RunWidth(Encode(x), 0, x, false);
  }

  /** The first cluster of a drawable text. */
  lemma FirstCluster(b: seq<Scalar>)
    requires Drawable(b) && b != []
    ensures var k := NextCount(b);
            && (forall j :: 0 < j < k ==> IsExtend(b[j])) && ClusterEdge(b, k)
  {
    hide IsExtend, IsZwj, IsRegionalIndicator;
    var r := b[1..];
    forall c | c in r ensures c in b {
    }
    assert b[0] in b;
    NextMoreExtenders(r);
    forall j | 0 < j < NextCount(b) ensures IsExtend(b[j]) {
      assert b[j] == r[j - 1];
    }
    assert NextCount(b) < |b| ==> b[NextCount(b)] == r[NextCount(b) - 1];
  }

  lemma {:induction false} LastMore(a: seq<Scalar>, c: Scalar)
    requires NoJoin(a + [c])
    ensures var x, k := a + [c], 1 + PrevMore(a, c);
            && (forall j :: |x| - k < j < |x| ==> IsExtend(x[j]))
            && (k == |x| || !IsExtend(x[|x| - k]))
    decreases |a|
  {
    hide IsExtend, IsZwj, IsRegionalIndicator;
    if a != [] {
      var a1, p := a[..|a| - 1], a[|a| - 1];
      assert p in a + [c] && c in a + [c];
      assert a1 + [p] == a;
      forall d | d in a ensures d in a + [c] {
      }
      LastMore(a1, p);
    }
  }

  /** The last cluster of a drawable text. */
  lemma LastCluster(x: seq<Scalar>)
    requires Drawable(x) && x != []
    ensures var i := |x| - PrevCount(x);
            && (forall j :: i < j < |x| ==> IsExtend(x[j])) && ClusterEdge(x, i)
  {
    assert x[..|x| - 1] + [x[|x| - 1]] == x;
    LastMore(x[..|x| - 1], x[|x| - 1]);
  }

  /** No shorter whole-cluster prefix brings the cursor into the terminal. */
  predicate ShortestDrop(cs: seq<Scalar>, p: nat, pwidth: nat, cols: nat, i: nat)
    requires i <= p <= |cs|
  {
    forall k: nat :: k < i && ClusterEdge(cs, k) ==> pwidth + Columns(cs, k, p) >= cols
  }

  /** No longer whole-cluster slice from i fits the terminal. */
  predicate LongestFit(cs: seq<Scalar>, pwidth: nat, cols: nat, i: nat, j: nat)
    requires i <= j <= |cs|
  {
    forall k: nat :: j < k <= |cs| && ClusterEdge(cs, k) ==> pwidth + Columns(cs, i, k) > cols
  }

  /** The bytes of the code points i up to j, with the cursor before code point p. */
  predicate Shows(s: seq<byte>, pos: nat, cs: seq<Scalar>, i: nat, p: nat, j: nat) {
    i <= p <= j <= |cs| && s == Encode(cs[i..j]) && pos == |Encode(cs[i..p])|
  }

  /** The end of the first cluster from i on is an edge not past the cursor. */
  lemma FirstEdge(cs: seq<Scalar>, i: nat, p: nat) returns (k: nat)
    requires Drawable(cs) && i <= p <= |cs| && ClusterEdge(cs, p) && 0 < Columns(cs, i, p)
    ensures i < k <= p && k == i + NextCount(cs[i..|cs|])
    ensures ClusterEdge(cs, k) && (forall m :: i < m < k ==> IsExtend(cs[m]))
    ensures CharWidth(cs[i]) == Columns(cs, i, k) <= Columns(cs, i, p)
    ensures Columns(cs, k, p) == Columns(cs, i, p) - Columns(cs, i, k)
  {
    hide IsExtend, CharWidth, NextCount;
    var b := cs[i..|cs|];
    DrawablePart(cs, i, |cs|);
    NoColumns(cs, i);
    FirstCluster(b);
    k := i + NextCount(b);
    assert forall m :: i < m < k ==> cs[m] == b[m - i];
    assert k < |cs| ==> cs[k] == b[k - i];
    ColumnsSplit(cs, i, k, p);
    ClusterColumns(cs, i, k);
  }

  /** The bytes of that cluster. */
  lemma FirstBytes(cs: seq<Scalar>, s: seq<byte>, pos: nat, i: nat, p: nat, k: nat)
    requires Shows(s, pos, cs, i, p, |cs|) && i < k <= p && k == i + NextCount(cs[i..|cs|])
    ensures 0 < NextLen(s, 0) <= pos && NextLen(s, 0) <= |s|
    ensures Shows(s[NextLen(s, 0)..], pos - NextLen(s, 0), cs, k, p, |cs|)
    ensures Decode(s, 0).cp == cs[i]
  {
    hide Decode, Encode1, NextLen, NextCount, Encode;
    var b := cs[i..|cs|];
    NoneLeft(s);
    NextLenCounts(s, 0, b);
    SliceSlice(cs, i, |cs|, k - i, |b|);
    SliceSlice(cs, i, |cs|, 0, k - i);
    assert b[k - i..|b|] == b[k - i..] && b[0..k - i] == b[..k - i];
    SliceJoin(cs, i, k, p);
    EncodeConcat(cs[i..k], cs[k..p]);
    DecodeNext(s, 0, b);
  }

  /** One round of the left loop. */
  lemma DropFirst(cs: seq<Scalar>, s: seq<byte>, pos: nat, i: nat, p: nat) returns (k: nat)
    requires Drawable(cs) && Shows(s, pos, cs, i, p, |cs|) && ClusterEdge(cs, p) && 0 < Columns(cs, i, p)
    ensures i < k <= p && ClusterEdge(cs, k) && (forall m :: i < m < k ==> IsExtend(cs[m]))
    ensures 0 < NextLen(s, 0) <= pos && NextLen(s, 0) <= |s|
    ensures Shows(s[NextLen(s, 0)..], pos - NextLen(s, 0), cs, k, p, |cs|)
    ensures CharWidth(Decode(s, 0).cp) == Columns(cs, i, k) <= Columns(cs, i, p)
    ensures Columns(cs, k, p) == Columns(cs, i, p) - Columns(cs, i, k)
  {
    hide Drawable, Decode, NextLen, NextCount, Columns, CharWidth, IsExtend;
    k := FirstEdge(cs, i, p);
    FirstBytes(cs, s, pos, i, p, k);
  }

  /** The start of the last cluster up to j is an edge not before the cursor. */
  lemma LastEdge(cs: seq<Scalar>, i: nat, p: nat, j: nat) returns (k: nat)
    requires Drawable(cs) && i <= p <= j <= |cs| && ClusterEdge(cs, p) && ClusterEdge(cs, i)
    requires Columns(cs, i, p) < Columns(cs, i, j)
    ensures p <= k < j && k == j - PrevCount(cs[i..j])
    ensures ClusterEdge(cs, k) && (forall m :: k < m < j ==> IsExtend(cs[m]))
    ensures CharWidth(cs[k]) == Columns(cs, k, j)
    ensures Columns(cs, i, k) == Columns(cs, i, j) - Columns(cs, k, j)
  {
    hide IsExtend, CharWidth, PrevCount;
    var x := cs[i..j];
    DrawablePart(cs, i, j);
    LastCluster(x);
    k := j - PrevCount(x);
    assert forall m :: k < m < j ==> cs[m] == x[m - i];
    assert k < j ==> cs[k] == x[k - i];
    ColumnsSplit(cs, i, k, j);
    ClusterColumns(cs, k, j);
  }

  /** The bytes of that cluster. */
  lemma LastBytes(cs: seq<Scalar>, s: seq<byte>, pos: nat, i: nat, p: nat, j: nat, k: nat)
    requires Shows(s, pos, cs, i, p, j) && p <= k < j && k == j - PrevCount(cs[i..j])
    ensures 0 < PrevLen(s, |s|) <= |s|
    ensures Shows(s[..|s| - PrevLen(s, |s|)], pos, cs, i, p, k)
    ensures Decode(s, |s| - PrevLen(s, |s|)).cp == cs[k]
  {
    hide Decode, Encode1, PrevLen, PrevCount, Encode;
    var x := cs[i..j];
    NoneLeft(s);
    PrevLenCounts(s, |s|, x);
    SliceSlice(cs, i, j, 0, k - i);
    SliceSlice(cs, i, j, k - i, |x|);
    assert x[k - i..|x|] == x[k - i..] && x[0..k - i] == x[..k - i];
    var d := |s| - PrevLen(s, |s|);
    assert s[d..|s|] == s[d..];
    DecodeNext(s, d, cs[k..j]);
  }

  /** One round of the right loop. */
  lemma DropLast(cs: seq<Scalar>, s: seq<byte>, pos: nat, i: nat, p: nat, j: nat) returns (k: nat)
    requires Drawable(cs) && Shows(s, pos, cs, i, p, j) && ClusterEdge(cs, p) && ClusterEdge(cs, i)
    requires Columns(cs, i, p) < Columns(cs, i, j)
    ensures p <= k < j && ClusterEdge(cs, k) && (forall m :: k < m < j ==> IsExtend(cs[m]))
    ensures 0 < PrevLen(s, |s|) <= |s|
    ensures Shows(s[..|s| - PrevLen(s, |s|)], pos, cs, i, p, k)
    ensures CharWidth(Decode(s, |s| - PrevLen(s, |s|)).cp) == Columns(cs, k, j)
    ensures Columns(cs, i, k) == Columns(cs, i, j) - Columns(cs, k, j)
  {
    hide Drawable, Decode, PrevLen, PrevCount, Columns, CharWidth, IsExtend;
    k := LastEdge(cs, i, p, j);
    LastBytes(cs, s, pos, i, p, j, k);
  }

  lemma AllOf(cs: seq<Scalar>, p: nat)
    requires Drawable(cs) && p <= |cs|
    ensures Shows(Encode(cs), |Encode(cs[..p])|, cs, 0, p, |cs|)
    ensures StrWidth(Encode(cs), 0, false) == Columns(cs, 0, |cs|)
    ensures |Encode(cs[..p])| <= |Encode(cs)|
    ensures StrWidth(Encode(cs)[..|Encode(cs[..p])|], 0, false) == Columns(cs, 0, p)
  {
    hide Encode1;
    assert cs[0..|cs|] == cs && cs[0..p] == cs[..p];
    WidthIsColumns(cs, 0, |cs|);
    WidthIsColumns(cs, 0, p);
    EncodeCut(cs, p);
  }

  /** utf8SingleCharWidth of the cluster that starts at index i. */
  function SingleCharWidth(s: seq<byte>, i: nat): nat {
    if i < |s| then CharWidth(Decode(s, i).cp) else 0
  }

  /** Printable ASCII. */
  predicate Printable(s: seq<byte>) { forall b :: b in s ==> 32 <= b <= 126 }

  /** The two trimming loops of refreshSingleLine, on the shown text of the code points cs
      with the cursor before code point p.  The result is the slice [from, to) of the text
      and the cursor in it: whole clusters around the cursor that fit the terminal beside
      the prompt, with as little as possible dropped on the left, and then on the right.
      A line of printable ASCII that fits, one byte per column, is shown whole. */
  method TrimLine(render: seq<byte>, cursor: nat, prompt: seq<byte>, cols: nat, ghost cs: seq<Scalar>, ghost p: nat)
    returns (from: nat, to: nat, pos: nat, ghost i: nat, ghost j: nat)
    requires Drawable(cs) && p <= |cs| && ClusterEdge(cs, p)
    requires render == Encode(cs) && cursor == |Encode(cs[..p])| && cursor <= |render|
    requires StrWidth(prompt, 0, false) < cols
    ensures from <= to <= |render| && cursor == from + pos
    ensures Shows(render[from..to], pos, cs, i, p, j) && ClusterEdge(cs, i) && ClusterEdge(cs, j)
    ensures StrWidth(prompt, 0, false) + StrWidth(render[from..to], 0, false) <= cols
    ensures StrWidth(prompt, 0, false) + StrWidth(Encode(cs[i..p]), 0, false) < cols
    ensures ShortestDrop(cs, p, StrWidth(prompt, 0, false), cols, i)
    ensures LongestFit(cs, StrWidth(prompt, 0, false), cols, i, j)
    ensures Printable(prompt) && Printable(render) && cursor < |render| && |prompt| + |render| <= cols
            ==> from == 0 && to == |render|
  {
    hide IsExtend, Decode, Encode1, CharWidth, NextLen, PrevLen, StrWidth, Drawable, Encode, PointsWidth, Printable;
    var pwidth := Utf8StrWidth(prompt);
    AllOf(cs, p);
    var poscol := Utf8StrWidth(render[..cursor]);
    var lencol := Utf8StrWidth(render);
    from, to, pos := 0, |render|, cursor;
    i, j := 0, |cs|;
    assert render[0..|render|] == render;
    while pwidth + poscol >= cols
      invariant 0 <= from && cursor == from + pos && 0 <= poscol && 0 <= lencol
      invariant Shows(render[from..to], pos, cs, i, p, |cs|) && to == |render| && ClusterEdge(cs, i)
      invariant poscol == Columns(cs, i, p) && lencol == Columns(cs, i, |cs|)
      invariant ShortestDrop(cs, p, pwidth, cols, i)
      decreases |cs| - i
    {
      ghost var s := render[from..to];
      ghost var k := DropFirst(cs, s, pos, i, p);
      ColumnsSplit(cs, i, k, |cs|);
      EdgesDropped(cs, p, pwidth, cols, i, k);
      var clen := Utf8NextCharLen(render[from..to], 0);
      var cwidth := SingleCharWidth(render[from..to], 0);
      assert s[clen..] == render[from + clen..to];
      from := from + clen;
      pos := pos - clen;
      poscol := poscol - cwidth;
      lencol := lencol - cwidth;
      i := k;
    }
    while pwidth + lencol > cols
      invariant from <= to <= |render| && cursor == from + pos && 0 <= lencol
      invariant Shows(render[from..to], pos, cs, i, p, j) && ClusterEdge(cs, j)
      invariant poscol == Columns(cs, i, p) && lencol == Columns(cs, i, j)
      invariant LongestFit(cs, pwidth, cols, i, j)
      decreases j
    {
      ghost var s := render[from..to];
      ghost var k := DropLast(cs, s, pos, i, p, j);
      EdgesCut(cs, pwidth, cols, i, k, j);
      var clen := Utf8PrevCharLen(render[from..to], to - from);
      var cwidth := SingleCharWidth(render[from..to], to - from - clen);
      assert s[..|s| - clen] == render[from..to - clen];
      to := to - clen;
      lencol := lencol - cwidth;
      j := k;
    }
    WidthIsColumns(cs, i, j);
    WidthIsColumns(cs, i, p);
    if Printable(prompt) && Printable(render) && cursor < |render| && |prompt| + |render| <= cols {
      ShownWhole(cs, p, prompt, cols, i, j);
      assert cs[0..|cs|] == cs;
    }
  }

  /** What the two loops keep of a line of printable ASCII that fits. */
  lemma ShownWhole(cs: seq<Scalar>, p: nat, prompt: seq<byte>, cols: nat, i: nat, j: nat)
    requires Drawable(cs) && i <= p <= j <= |cs| && |Encode(cs[..p])| < |Encode(cs)|
    requires Printable(prompt) && Printable(Encode(cs)) && |prompt| + |Encode(cs)| <= cols
    requires ShortestDrop(cs, p, StrWidth(prompt, 0, false), cols, i)
    requires LongestFit(cs, StrWidth(prompt, 0, false), cols, i, j)
    ensures i == 0 && j == |cs|
  {
    hide Encode, StrWidth, PointsWidth, Drawable, IsExtend;
    AsciiText(prompt);
    AsciiText(Encode(cs));
    EncodeCut(cs, p);
    PrintablePart(Encode(cs[..p]), Encode(cs[p..]));
    AsciiText(Encode(cs[..p]));
    WidthIsColumns(cs, 0, |cs|);
    WidthIsColumns(cs, 0, p);
    assert cs[0..|cs|] == cs && cs[0..p] == cs[..p];
    assert ClusterEdge(cs, 0);
    assert ClusterEdge(cs, |cs|);
  }

  lemma PrintablePart(a: seq<byte>, b: seq<byte>)
    requires Printable(a + b)
    ensures Printable(a)
  {
    forall x | x in a ensures x in a + b {
    }
  }

  /** Between two consecutive cluster edges there is no other. */
  lemma EdgesDropped(cs: seq<Scalar>, p: nat, pwidth: nat, cols: nat, i: nat, k: nat)
    requires i < k <= p <= |cs| && (forall m :: i < m < k ==> IsExtend(cs[m]))
    requires ShortestDrop(cs, p, pwidth, cols, i) && pwidth + Columns(cs, i, p) >= cols
    ensures ShortestDrop(cs, p, pwidth, cols, k)
  {
    hide IsExtend, Columns;
  }

  lemma EdgesCut(cs: seq<Scalar>, pwidth: nat, cols: nat, i: nat, k: nat, j: nat)
    requires i <= k < j <= |cs| && (forall m :: k < m < j ==> IsExtend(cs[m]))
    requires LongestFit(cs, pwidth, cols, i, j) && pwidth + Columns(cs, i, j) > cols
    ensures LongestFit(cs, pwidth, cols, i, k)
  {
    hide IsExtend, Columns;
  }
}
