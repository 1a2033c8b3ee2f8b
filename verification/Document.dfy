/** The edited line with its folds, and the editing operations as functions on it
    (state in cli/linenoise.h:55-76; cli/linenoise.c:925-1003, 1096-1203, 1685-1863,
    2152-2171, 2285-2296). */
module Document {
  import opened Seqs
  import opened Utf8
  import opened Clusters

  const MAX_FOLDS: nat := 16
  const PASTE_FOLD_THRESHOLD: nat := 200
  const PASTE_FOLD_CONTEXT: nat := 8
  const TRANSPOSE_MAX: nat := 32

  /** A display-only range [start, end) of the text. */
  datatype Fold = Fold(start: nat, end: nat)

  datatype Doc = Doc(text: seq<byte>, pos: nat, folds: seq<Fold>)

  // ----- what every operation keeps

  /** Sorted, disjoint, non-empty ranges between characters, none before lo. */
  predicate FoldsFrom(fs: seq<Fold>, lo: nat, s: seq<byte>) {
    fs == [] ||
    (&& lo <= fs[0].start < fs[0].end <= |s|
     && Boundary(s, fs[0].start) && Boundary(s, fs[0].end)
     && FoldsFrom(fs[1..], fs[0].end, s))
  }

  ghost predicate Inv(d: Doc) {
    && IsText(d.text)
    && Boundary(d.text, d.pos)
    && FoldsFrom(d.folds, 0, d.text)
    && |d.folds| <= MAX_FOLDS
  }

  // ----- fold bookkeeping

  /** The ranges linenoiseGetRenderFolds does not skip. */
  predicate Live(f: Fold, len: nat) { f.start < f.end <= len }

  /** Length of the first live fold that starts at pos; 0 when there is none. */
  function StartingAt(fs: seq<Fold>, len: nat, pos: nat): (n: nat)
    ensures n != 0 ==> pos + n <= len
  {
    if fs == [] then 0
    else if Live(fs[0], len) && fs[0].start == pos then fs[0].end - fs[0].start
    else StartingAt(fs[1..], len, pos)
  }

  /** Length of the first live fold that ends at pos; 0 when there is none. */
  function EndingAt(fs: seq<Fold>, len: nat, pos: nat): (n: nat)
    ensures n <= pos
  {
    if fs == [] then 0
    else if Live(fs[0], len) && fs[0].end == pos then fs[0].end - fs[0].start
    else EndingAt(fs[1..], len, pos)
  }

  /** linenoiseAdjustFoldsAfterInsert. */
  function ShiftedByInsert(fs: seq<Fold>, pos: nat, n: nat): (r: seq<Fold>)
    ensures |r| <= |fs|
  {
    if fs == [] then []
    else
      var f, rest := fs[0], ShiftedByInsert(fs[1..], pos, n);
      if pos <= f.start then [Fold(f.start + n, f.end + n)] + rest
      else if pos < f.end then rest
      else [f] + rest
  }

  /** linenoiseAdjustFoldsAfterDelete.  A stored fold has start < end, so that the
      subtraction from its end never goes below zero. */
  function ShiftedByDelete(fs: seq<Fold>, pos: nat, n: nat): (r: seq<Fold>)
    ensures |r| <= |fs|
  {
    if fs == [] then []
    else
      var f, rest := fs[0], ShiftedByDelete(fs[1..], pos, n);
      if pos + n <= f.start then [Fold(f.start - n, if f.end < n then 0 else f.end - n)] + rest
      else if pos >= f.end then [f] + rest
      else rest
  }

  /** The place linenoiseFoldAdd gives to a new range: before the folds at the end
      that start later. */
  function InsertSorted(fs: seq<Fold>, f: Fold): (r: seq<Fold>)
    ensures |r| == |fs| + 1
  {
    if fs == [] || fs[|fs| - 1].start <= f.start then fs + [f]
    else InsertSorted(fs[..|fs| - 1], f) + [fs[|fs| - 1]]
  }

  /** linenoiseFoldAdd. */
  function FoldAdded(fs: seq<Fold>, start: nat, end: nat): seq<Fold> {
    if start >= end || |fs| == MAX_FOLDS then fs else InsertSorted(fs, Fold(start, end))
  }

  /** linenoiseRangeOverlapsFold. */
  predicate Overlaps(fs: seq<Fold>, pos: nat, n: nat) {
    exists j :: 0 <= j < |fs| && pos + n > fs[j].start && pos < fs[j].end
  }

  // ----- cursor steps

  /** linenoiseEditNextLen. */
  function StepRight(d: Doc, pos: nat): nat {
    var n := StartingAt(d.folds, |d.text|, pos);
    if n != 0 then n else NextLen(d.text, pos)
  }

  /** linenoiseEditPrevLen. */
  function StepLeft(d: Doc, pos: nat): (n: nat)
    requires pos <= |d.text|
    ensures n <= pos && (0 < pos ==> 0 < n)
  {
    var n := EndingAt(d.folds, |d.text|, pos);
    if n != 0 then n else PrevLen(d.text, pos)
  }

  /** Where a loop of linenoiseEditDeletePrevWord stops: left over spaces, or over non-spaces. */
  function SkipLeft(d: Doc, pos: nat, spaces: bool): (p: nat)
    requires pos <= |d.text|
    ensures p <= pos
  {
    if 0 < pos && (d.text[pos - 1] == SPACE) == spaces
    then SkipLeft(d, pos - StepLeft(d, pos), spaces)
    else pos
  }

  function WordStart(d: Doc): (p: nat)
    requires d.pos <= |d.text|
    ensures p <= d.pos
  {
    SkipLeft(d, SkipLeft(d, d.pos, true), false)
  }

  // ----- facts about texts, boundaries and folds

  lemma FoldsWeaken(fs: seq<Fold>, lo: nat, lo': nat, s: seq<byte>)
    requires FoldsFrom(fs, lo, s) && lo' <= lo
    ensures FoldsFrom(fs, lo', s)
  {}

  lemma {:induction false} FoldsOrdered(fs: seq<Fold>, lo: nat, s: seq<byte>)
    requires FoldsFrom(fs, lo, s)
    ensures forall f :: f in fs ==> lo <= f.start < f.end <= |s| && Boundary(s, f.start) && Boundary(s, f.end)
    ensures forall i, j :: 0 <= i < j < |fs| ==> fs[i].end <= fs[j].start
  {
    if fs != [] {
      FoldsOrdered(fs[1..], fs[0].end, s);
      assert fs == [fs[0]] + fs[1..];
      forall i, j | 0 <= i < j < |fs| ensures fs[i].end <= fs[j].start {
        assert fs[j] == fs[1..][j - 1];
        assert fs[j] in fs[1..];
        if 0 < i {
          assert fs[i] == fs[1..][i - 1];
        }
      }
    }
  }

  function EndOf(fs: seq<Fold>, lo: nat): nat { if fs == [] then lo else fs[|fs| - 1].end }

  lemma {:induction false} FoldsConcat(a: seq<Fold>, b: seq<Fold>, lo: nat, s: seq<byte>)
    ensures FoldsFrom(a + b, lo, s) <==> FoldsFrom(a, lo, s) && FoldsFrom(b, EndOf(a, lo), s)
  {
    if a == [] {
      assert a + b == b;
    } else {
      assert (a + b)[1..] == a[1..] + b;
      FoldsConcat(a[1..], b, a[0].end, s);
    }
  }

  /** s with x put in at p. */
  function Spliced(s: seq<byte>, p: nat, x: seq<byte>): (t: seq<byte>)
    requires p <= |s|
    ensures |t| == |s| + |x|
  {
    s[..p] + x + s[p..]
  }

  /** s without the n bytes at p. */
  function Cut(s: seq<byte>, p: nat, n: nat): (t: seq<byte>)
    requires p + n <= |s|
    ensures |t| == |s| - n
  {
    s[..p] + s[p + n..]
  }

  lemma SplicedText(s: seq<byte>, p: nat, x: seq<byte>)
    requires IsText(s) && Boundary(s, p) && IsText(x)
    ensures IsText(Spliced(s, p, x))
  {
    TextSplits(s, p);
    TextConcat(s[..p], x);
    TextConcat(s[..p] + x, s[p..]);
  }

  lemma BoundaryBefore(s: seq<byte>, p: nat, x: seq<byte>, k: nat)
    requires IsText(x) && k <= p && Boundary(s, p) && Boundary(s, k)
    ensures Boundary(Spliced(s, p, x), k)
  {
    TextStarts(x);
    var t := Spliced(s, p, x);
    assert k < p ==> t[k] == s[k];
    assert x != [] ==> t[p] == x[0];
    assert x == [] && p < |s| ==> t[p] == s[p];
  }

  lemma BoundaryAfter(s: seq<byte>, p: nat, x: seq<byte>, k: nat)
    requires p <= k && Boundary(s, p) && Boundary(s, k)
    ensures Boundary(Spliced(s, p, x), k + |x|)
  {
    assert k < |s| ==> Spliced(s, p, x)[k + |x|] == s[k];
  }

  lemma CutText(s: seq<byte>, p: nat, n: nat)
    requires IsText(s) && Boundary(s, p) && Boundary(s, p + n)
    ensures IsText(Cut(s, p, n))
  {
    TextSplits(s, p);
    TextSplits(s, p + n);
    TextConcat(s[..p], s[p + n..]);
  }

  /** Where index k of a text goes when the n bytes at p are removed. */
  function Collapsed(k: nat, p: nat, n: nat): nat {
    if k <= p then k else if k <= p + n then p else k - n
  }

  lemma BoundaryCut(s: seq<byte>, p: nat, n: nat, k: nat)
    requires Boundary(s, p) && Boundary(s, p + n) && Boundary(s, k)
    ensures Boundary(Cut(s, p, n), Collapsed(k, p, n))
  {
    var t := Cut(s, p, n);
    assert p + n < |s| ==> t[p] == s[p + n];
    assert k < p ==> t[k] == s[k];
    assert p + n < k < |s| ==> t[k - n] == s[k];
  }

  lemma {:induction false} AllShifted(fs: seq<Fold>, lo: nat, s: seq<byte>, p: nat, x: seq<byte>)
    requires Boundary(s, p) && FoldsFrom(fs, lo, s) && p <= lo
    ensures FoldsFrom(ShiftedByInsert(fs, p, |x|), lo + |x|, Spliced(s, p, x))
  {
    hide IsText, Boundary;
    if fs != [] {
      BoundaryAfter(s, p, x, fs[0].start);
      BoundaryAfter(s, p, x, fs[0].end);
      AllShifted(fs[1..], fs[0].end, s, p, x);
    }
  }

  /** After an insertion the folds fall into those up to it and those after it. */
  lemma {:induction false} FoldsAfterInsert(fs: seq<Fold>, lo: nat, s: seq<byte>, p: nat, x: seq<byte>)
    returns (a: seq<Fold>, b: seq<Fold>)
    requires Boundary(s, p) && IsText(x) && FoldsFrom(fs, lo, s) && lo <= p
    ensures ShiftedByInsert(fs, p, |x|) == a + b
    ensures FoldsFrom(a, lo, Spliced(s, p, x)) && EndOf(a, lo) <= p
    ensures FoldsFrom(b, p + |x|, Spliced(s, p, x))
  {
    hide IsText, Boundary;
    if fs == [] {
      a, b := [], [];
    } else {
      var f := fs[0];
      if f.end <= p {
        var a1, b1 := FoldsAfterInsert(fs[1..], f.end, s, p, x);
        BoundaryBefore(s, p, x, f.start);
        BoundaryBefore(s, p, x, f.end);
        FoldsCons(f, a1, lo, Spliced(s, p, x));
        Assoc([f], a1, b1);
        a, b := [f] + a1, b1;
      } else {
        a, b := [], ShiftedByInsert(fs, p, |x|);
        AllShifted(fs[1..], f.end, s, p, x);
        if p <= f.start {
          BoundaryAfter(s, p, x, f.start);
          BoundaryAfter(s, p, x, f.end);
          FoldsCons(Fold(f.start + |x|, f.end + |x|), ShiftedByInsert(fs[1..], p, |x|), p + |x|, Spliced(s, p, x));
        } else {
          FoldsWeaken(b, f.end + |x|, p + |x|, Spliced(s, p, x));
        }
      }
    }
  }

  lemma FoldsCons(f: Fold, fs: seq<Fold>, lo: nat, s: seq<byte>)
    requires lo <= f.start < f.end <= |s| && Boundary(s, f.start) && Boundary(s, f.end)
    requires FoldsFrom(fs, f.end, s)
    ensures FoldsFrom([f] + fs, lo, s)
    ensures EndOf([f] + fs, lo) == EndOf(fs, f.end)
  {
    hide Boundary;
    assert ([f] + fs)[1..] == fs;
  }

  lemma {:induction false} FoldsAfterDelete(fs: seq<Fold>, lo: nat, s: seq<byte>, p: nat, n: nat)
    requires Boundary(s, p) && Boundary(s, p + n) && FoldsFrom(fs, lo, s)
    ensures FoldsFrom(ShiftedByDelete(fs, p, n), Collapsed(lo, p, n), Cut(s, p, n))
  {
    hide Boundary;
    if fs != [] {
      var f := fs[0];
      BoundaryCut(s, p, n, f.start);
      BoundaryCut(s, p, n, f.end);
      FoldsAfterDelete(fs[1..], f.end, s, p, n);
      var rest := ShiftedByDelete(fs[1..], p, n);
      if p + n <= f.start {
        FoldsCons(Fold(f.start - n, f.end - n), rest, Collapsed(lo, p, n), Cut(s, p, n));
      } else if p >= f.end {
        FoldsCons(f, rest, Collapsed(lo, p, n), Cut(s, p, n));
      } else {
        FoldsWeaken(rest, Collapsed(f.end, p, n), Collapsed(lo, p, n), Cut(s, p, n));
      }
    }
  }

  lemma {:induction false} InsertSortedBetween(a: seq<Fold>, b: seq<Fold>, f: Fold)
    requires a == [] || a[|a| - 1].start <= f.start
    requires forall g :: g in b ==> f.start < g.start
    ensures InsertSorted(a + b, f) == a + [f] + b
    decreases |b|
  {
    if b == [] {
      NoneLeft(a);
      NoneLeft(a + [f]);
    } else {
      var b1, g := b[..|b| - 1], b[|b| - 1];
      LastOfConcat(a, b);
      LastOf(b);
      InsertSortedBetween(a, b1, f);
      Assoc(a + [f], b1, [g]);
    }
  }

  lemma {:induction false} SteppedFoldBounds(fs: seq<Fold>, lo: nat, s: seq<byte>, pos: nat)
    requires FoldsFrom(fs, lo, s)
    ensures StartingAt(fs, |s|, pos) != 0 ==> Boundary(s, pos + StartingAt(fs, |s|, pos))
    ensures EndingAt(fs, |s|, pos) != 0 ==> Boundary(s, pos - EndingAt(fs, |s|, pos))
  {
    if fs != [] {
      SteppedFoldBounds(fs[1..], fs[0].end, s, pos);
    }
  }

  /** Both cursor steps land between characters, inside the text. */
  lemma StepRightLands(d: Doc, pos: nat)
    requires Inv(d) && Boundary(d.text, pos) && pos < |d.text|
    ensures 0 < StepRight(d, pos) && Boundary(d.text, pos + StepRight(d, pos))
  {
    hide IsText, NextLen, FoldsFrom, StartingAt;
    SteppedFoldBounds(d.folds, 0, d.text, pos);
    NextLands(d.text, pos);
  }

  lemma StepLeftLands(d: Doc, pos: nat)
    requires Inv(d) && Boundary(d.text, pos)
    ensures Boundary(d.text, pos - StepLeft(d, pos))
  {
    hide IsText, PrevLen, FoldsFrom, EndingAt;
    SteppedFoldBounds(d.folds, 0, d.text, pos);
    if 0 < pos {
      PrevLands(d.text, pos);
    }
  }

  lemma {:induction false} SkipLeftLands(d: Doc, pos: nat, spaces: bool)
    requires Inv(d) && Boundary(d.text, pos)
    ensures Boundary(d.text, SkipLeft(d, pos, spaces))
    decreases pos
  {
    if 0 < pos && (d.text[pos - 1] == SPACE) == spaces {
      StepLeftLands(d, pos);
      SkipLeftLands(d, pos - StepLeft(d, pos), spaces);
    }
  }

  // ----- the editing operations; each keeps the invariant

  function Home(d: Doc): (r: Doc)
    requires Inv(d)
    ensures Inv(r)
  {
    TextStarts(d.text);
    d.(pos := 0)
  }

  function End(d: Doc): (r: Doc)
    requires Inv(d)
    ensures Inv(r)
  {
    d.(pos := |d.text|)
  }

  function MoveLeft(d: Doc): (r: Doc)
    requires Inv(d)
    ensures Inv(r)
  {
    StepLeftLands(d, d.pos);
    if 0 < d.pos then d.(pos := d.pos - StepLeft(d, d.pos)) else d
  }

  function MoveRight(d: Doc): (r: Doc)
    requires Inv(d)
    ensures Inv(r)
  {
    if d.pos != |d.text| then
      StepRightLands(d, d.pos);
      d.(pos := d.pos + StepRight(d, d.pos))
    else d
  }

  /** In a line without folds Left undoes Right exactly from the start and from positions
      that are not at an extender. */
  lemma RightThenLeft(d: Doc, a: seq<Scalar>, b: seq<Scalar>)
    requires Inv(d) && d.folds == [] && d.text == Encode(a) + Encode(b) && d.pos == |Encode(a)|
    requires NoJoin(a + b) && b != []
    ensures MoveLeft(MoveRight(d)) == d <==> a == [] || !IsExtend(b[0])
  {
    hide Encode, Inv, NoJoin, IsExtend, NextLen, PrevLen, Boundary;
    LeftUndoesRight(d.text, d.pos, a, b);
    CharactersLeft(a, b);
    TextIsLonger(d, b);
  }

  lemma CharactersLeft(a: seq<Scalar>, b: seq<Scalar>)
    requires b != []
    ensures |Encode(a)| < |Encode(a) + Encode(b)|
  {}

  lemma TextIsLonger(d: Doc, b: seq<Scalar>)
    requires Inv(d) && d.folds == [] && b != []
    ensures d.pos <= |d.text| && 0 < |Encode(b)|
    ensures forall p: nat :: p <= |d.text| ==>
                              StepLeft(d, p) == PrevLen(d.text, p) && StepRight(d, p) == NextLen(d.text, p)
  {
    hide Encode, NextLen, PrevLen;
  }

  /** linenoiseEditInsertNoRefresh, once the buffer is large enough. */
  function Insert(d: Doc, x: seq<byte>): (r: Doc)
    requires Inv(d) && IsText(x)
    ensures Inv(r)
  {
    InsertInv(d, x);
    Doc(Spliced(d.text, d.pos, x), d.pos + |x|, ShiftedByInsert(d.folds, d.pos, |x|))
  }

  lemma InsertInv(d: Doc, x: seq<byte>)
    requires Inv(d) && IsText(x)
    ensures Inv(Doc(Spliced(d.text, d.pos, x), d.pos + |x|, ShiftedByInsert(d.folds, d.pos, |x|)))
  {
    hide Boundary, IsText, Spliced, ShiftedByInsert;
    var s := Spliced(d.text, d.pos, x);
    SplicedText(d.text, d.pos, x);
    BoundaryAfter(d.text, d.pos, x, d.pos);
    var a, b := FoldsAfterInsert(d.folds, 0, d.text, d.pos, x);
    FoldsWeaken(b, d.pos + |x|, EndOf(a, 0), s);
    FoldsConcat(a, b, 0, s);
  }

  /** The insertion of a pasted text that is shown folded: linenoiseEditInsertNoRefresh,
      then linenoiseFoldAdd. */
  function InsertFolded(d: Doc, x: seq<byte>): (r: Doc)
    requires Inv(d) && IsText(x)
    ensures Inv(r)
  {
    InsertFoldedInv(d, x);
    var r := Insert(d, x);
    r.(folds := FoldAdded(r.folds, d.pos, d.pos + |x|))
  }

  /** linenoiseFoldAdd puts the new range between the folds before and after it. */
  lemma FoldAddedBetween(a: seq<Fold>, b: seq<Fold>, f: Fold, s: seq<byte>)
    requires FoldsFrom(a, 0, s) && EndOf(a, 0) <= f.start < f.end <= |s|
    requires Boundary(s, f.start) && Boundary(s, f.end) && FoldsFrom(b, f.end, s)
    ensures InsertSorted(a + b, f) == a + [f] + b && FoldsFrom(a + [f] + b, 0, s)
  {
    hide Boundary;
    FoldsOrdered(a, 0, s);
    FoldsOrdered(b, f.end, s);
    assert a != [] ==> a[|a| - 1] in a;
    InsertSortedBetween(a, b, f);
    FoldsCons(f, b, EndOf(a, 0), s);
    Assoc(a, [f], b);
    FoldsConcat(a, [f] + b, 0, s);
  }

  lemma InsertFoldedInv(d: Doc, x: seq<byte>)
    requires Inv(d) && IsText(x)
    ensures var r := Insert(d, x);
            Inv(r.(folds := FoldAdded(r.folds, d.pos, d.pos + |x|)))
  {
    hide Boundary, IsText, Spliced;
    var p, s := d.pos, Spliced(d.text, d.pos, x);
    InsertInv(d, x);
    if x != [] && |ShiftedByInsert(d.folds, p, |x|)| < MAX_FOLDS {
      BoundaryBefore(d.text, p, x, p);
      BoundaryAfter(d.text, p, x, p);
      var a, b := FoldsAfterInsert(d.folds, 0, d.text, p, x);
      assert p + |x| <= |s|;
      FoldAddedBetween(a, b, Fold(p, p + |x|), s);
    }
  }

  /** The removal shared by Delete, Backspace, DeleteWord and KillEnd. */
  function Removed(d: Doc, p: nat, n: nat): (r: Doc)
    requires Inv(d) && Boundary(d.text, p) && Boundary(d.text, p + n)
    ensures Inv(r)
  {
    CutText(d.text, p, n);
    BoundaryCut(d.text, p, n, p);
    FoldsAfterDelete(d.folds, 0, d.text, p, n);
    Doc(Cut(d.text, p, n), p, ShiftedByDelete(d.folds, p, n))
  }

  /** linenoiseEditDelete. */
  function Delete(d: Doc): (r: Doc)
    requires Inv(d)
    ensures Inv(r)
  {
    if d.pos < |d.text| then
      StepRightLands(d, d.pos);
      Removed(d, d.pos, StepRight(d, d.pos))
    else d
  }

  /** linenoiseEditBackspace. */
  function Backspace(d: Doc): (r: Doc)
    requires Inv(d)
    ensures Inv(r)
  {
    if 0 < d.pos then
      StepLeftLands(d, d.pos);
      var n := StepLeft(d, d.pos);
      Removed(d, d.pos - n, n)
    else d
  }

  /** linenoiseEditDeletePrevWord. */
  function DeleteWord(d: Doc): (r: Doc)
    requires Inv(d)
    ensures Inv(r)
  {
    SkipLeftLands(d, d.pos, true);
    SkipLeftLands(d, SkipLeft(d, d.pos, true), false);
    Removed(d, WordStart(d), d.pos - WordStart(d))
  }

  /** Ctrl-K. */
  function KillEnd(d: Doc): (r: Doc)
    requires Inv(d)
    ensures Inv(r)
  {
    Removed(d, d.pos, |d.text| - d.pos)
  }

  /** Ctrl-U. */
  function KillLine(d: Doc): (r: Doc)
    ensures Inv(r)
  {
    EmptyIsText();
    Doc([], 0, [])
  }

  /** Ctrl-T. */
  function Transpose(d: Doc): (r: Doc)
    requires Inv(d)
    ensures Inv(r)
  {
    hide FoldsFrom, IsText, NextLen, PrevLen, StartingAt, EndingAt, Swapped;
    if 0 < d.pos < |d.text| then
      var p, c := StepLeft(d, d.pos), StepRight(d, d.pos);
      TransposeSteps(d);
      if p > TRANSPOSE_MAX || c > TRANSPOSE_MAX || Overlaps(d.folds, d.pos - p, p + c) then d
      else
        TransposeInv(d, d.pos - p, d.pos + c);
        Doc(Swapped(d.text, d.pos - p, d.pos, d.pos + c), d.pos + c, d.folds)
    else d
  }

  lemma TransposeSteps(d: Doc)
    requires Inv(d) && 0 < d.pos < |d.text|
    ensures 0 < StepRight(d, d.pos) && d.pos + StepRight(d, d.pos) <= |d.text|
    ensures Boundary(d.text, d.pos - StepLeft(d, d.pos)) && Boundary(d.text, d.pos + StepRight(d, d.pos))
  {
    hide StepLeft, StepRight, FoldsFrom, IsText;
    StepLeftLands(d, d.pos);
    StepRightLands(d, d.pos);
  }

  /** s with the pieces [i, p) and [p, j) exchanged. */
  function Swapped(s: seq<byte>, i: nat, p: nat, j: nat): (t: seq<byte>)
    requires i <= p <= j <= |s|
    ensures |t| == |s|
  {
    s[..i] + s[p..j] + s[i..p] + s[j..]
  }

  lemma TransposeInv(d: Doc, i: nat, j: nat)
    requires Inv(d) && i < d.pos < j && Boundary(d.text, i) && Boundary(d.text, j)
    requires !Overlaps(d.folds, i, j - i)
    ensures Inv(Doc(Swapped(d.text, i, d.pos, j), j, d.folds))
  {
    var s, p := d.text, d.pos;
    SwappedText(s, i, p, j);
    SwappedBoundary(s, i, p, j, j);
    FoldsOrdered(d.folds, 0, s);
    forall f | f in d.folds ensures f.end <= i || j <= f.start {
      var k :| 0 <= k < |d.folds| && d.folds[k] == f;
    }
    FoldsAfterSwap(d.folds, 0, s, i, p, j);
  }

  lemma SwappedText(s: seq<byte>, i: nat, p: nat, j: nat)
    requires IsText(s) && i < p < j && Boundary(s, i) && Boundary(s, p) && Boundary(s, j)
    ensures IsText(Swapped(s, i, p, j))
  {
    hide IsText;
    TextSplits(s, i);
    TextSplits(s, j);
    MiddleIsText(s, i, p);
    MiddleIsText(s, p, j);
    TextConcat(s[..i], s[p..j]);
    TextConcat(s[..i] + s[p..j], s[i..p]);
    TextConcat(s[..i] + s[p..j] + s[i..p], s[j..]);
  }

  lemma SwappedBoundary(s: seq<byte>, i: nat, p: nat, j: nat, k: nat)
    requires i < p < j && Boundary(s, p) && Boundary(s, j)
    requires Boundary(s, k) && (k <= i || j <= k)
    ensures Boundary(Swapped(s, i, p, j), k)
  {
    var t := Swapped(s, i, p, j);
    assert k < i ==> t[k] == s[k];
    assert t[i] == s[p];
    assert j <= k < |s| ==> t[k] == s[k];
  }

  lemma MiddleIsText(s: seq<byte>, i: nat, j: nat)
    requires IsText(s) && Boundary(s, i) && Boundary(s, j) && i <= j
    ensures IsText(s[i..j])
  {
    hide IsText;
    TextSplits(s, i);
    var r := s[i..];
    assert j < |s| ==> r[j - i] == s[j];
    TextSplits(r, j - i);
    CutOfDrop(s, i, j - i);
  }

  lemma {:induction false} FoldsAfterSwap(fs: seq<Fold>, lo: nat, s: seq<byte>, i: nat, p: nat, j: nat)
    requires FoldsFrom(fs, lo, s) && i < p < j && Boundary(s, p) && Boundary(s, j)
    requires forall f :: f in fs ==> f.end <= i || j <= f.start
    ensures FoldsFrom(fs, lo, Swapped(s, i, p, j))
  {
    hide Boundary;
    if fs != [] {
      assert fs[0] in fs;
      SwappedBoundary(s, i, p, j, fs[0].start);
      SwappedBoundary(s, i, p, j, fs[0].end);
      FoldsAfterSwap(fs[1..], fs[0].end, s, i, p, j);
    }
  }

  // ----- recalling a history entry

  /** shouldFoldText. */
  predicate ShouldFold(s: seq<byte>) { LF in s || |s| >= PASTE_FOLD_THRESHOLD }

  datatype Context = Context(pos: nat, sawNewline: bool)

  /** The first loop of linenoiseBuildHistoryFold: up to `chars` more characters right of pos. */
  function ContextRight(s: seq<byte>, pos: nat, chars: nat, nl: bool): (c: Context)
    requires pos <= |s|
    ensures pos <= c.pos <= |s|
    decreases chars
  {
    var step := NextLen(s, pos);
    if pos < |s| && 0 < chars && step != 0 && pos + step <= |s|
    then ContextRight(s, pos + step, chars - 1, nl || s[pos] == LF)
    else Context(pos, nl)
  }

  /** The second loop: up to `chars` more characters left of pos. */
  function ContextLeft(s: seq<byte>, pos: nat, chars: nat, nl: bool): (c: Context)
    requires pos <= |s|
    ensures c.pos <= pos
    decreases chars
  {
    if 0 < pos && 0 < chars then
      var p := pos - PrevLen(s, pos);
      ContextLeft(s, p, chars - 1, nl || s[p] == LF)
    else Context(pos, nl)
  }

  /** The range linenoiseBuildHistoryFold hides in a text that should be folded. */
  function HistoryFold(s: seq<byte>): (f: Fold)
    ensures f.start <= f.end <= |s|
  {
    if |s| > PASTE_FOLD_CONTEXT * 2 then
      var a := ContextRight(s, 0, PASTE_FOLD_CONTEXT, false);
      var b := ContextLeft(s, |s|, PASTE_FOLD_CONTEXT, false);
      var start := if a.sawNewline then 0 else a.pos;
      var end := if b.sawNewline then |s| else b.pos;
      if start >= end then Fold(0, |s|) else Fold(start, end)
    else Fold(0, |s|)
  }

  /** The document that shows the recalled text. */
  function Recalled(s: seq<byte>): Doc {
    Doc(s, |s|, if ShouldFold(s) then FoldAdded([], HistoryFold(s).start, HistoryFold(s).end) else [])
  }

  lemma {:induction false} ContextRightLands(s: seq<byte>, pos: nat, chars: nat, nl: bool)
    requires IsText(s) && Boundary(s, pos)
    ensures Boundary(s, ContextRight(s, pos, chars, nl).pos)
    decreases chars
  {
    if pos < |s| && 0 < chars {
      NextLands(s, pos);
      ContextRightLands(s, pos + NextLen(s, pos), chars - 1, nl || s[pos] == LF);
    }
  }

  lemma {:induction false} ContextLeftLands(s: seq<byte>, pos: nat, chars: nat, nl: bool)
    requires IsText(s) && Boundary(s, pos)
    ensures Boundary(s, ContextLeft(s, pos, chars, nl).pos)
    decreases chars
  {
    if 0 < pos && 0 < chars {
      PrevLands(s, pos);
      var p := pos - PrevLen(s, pos);
      ContextLeftLands(s, p, chars - 1, nl || s[p] == LF);
    }
  }

  lemma RecalledInv(s: seq<byte>)
    requires IsText(s)
    ensures Inv(Recalled(s))
  {
    hide IsText, HistoryFold, ShouldFold;
    HistoryFoldLands(s);
    var f := HistoryFold(s);
    if ShouldFold(s) && f.start < f.end {
      assert FoldAdded([], f.start, f.end) == [f];
      assert [f][1..] == [];
    }
    assert FoldsFrom(Recalled(s).folds, 0, s);
  }

  lemma HistoryFoldLands(s: seq<byte>)
    requires IsText(s)
    ensures Boundary(s, HistoryFold(s).start) && Boundary(s, HistoryFold(s).end) && Boundary(s, |s|)
  {
    hide IsText, ContextRight, ContextLeft;
    TextStarts(s);
    ContextRightLands(s, 0, PASTE_FOLD_CONTEXT, false);
    ContextLeftLands(s, |s|, PASTE_FOLD_CONTEXT, false);
  }
}
