/** What is shown in place of the edited text: each fold replaced by a marker
    (cli/linenoise.c:915-945 and 1005-1094). */
module Render {
  import opened Seqs
  import opened Utf8
  import opened Clusters
  import opened Document
  import opened Atoms

  // ----- markers

  function Digits(n: nat): (s: seq<byte>)
    ensures |s| >= 1 && forall b :: b in s ==> 48 <= b <= 57
  {
    if n < 10 then [48 + n] else Digits(n / 10) + [48 + n % 10]
  }

  /** "[... " */
  const OPENING: seq<byte> := [91, 46, 46, 46, 32]
  /** " pasted lines ...]" */
  const PASTED_LINES: seq<byte> := [32, 112, 97, 115, 116, 101, 100, 32, 108, 105, 110, 101, 115, 32, 46, 46, 46, 93]
  /** " pasted chars ...]" */
  const PASTED_CHARS: seq<byte> := [32, 112, 97, 115, 116, 101, 100, 32, 99, 104, 97, 114, 115, 32, 46, 46, 46, 93]

  /** foldCountLines. */
  function LineCount(s: seq<byte>): (n: nat)
    ensures n >= 1
  {
    if s == [] then 1 else LineCount(s[..|s| - 1]) + (if s[|s| - 1] == LF then 1 else 0)
  }

  /** One line more than newlines. */
  lemma {:induction false} LinesAreNewlines(s: seq<byte>)
    ensures LineCount(s) == 1 + multiset(s)[10]
  {
    if s != [] {
      LinesAreNewlines(s[..|s| - 1]);
      LastOf(s);
    }
  }

  method FoldCountLines(s: seq<byte>) returns (lines: nat)
    ensures lines == LineCount(s) && lines == 1 + multiset(s)[10]
  {
    lines := 1;
    for j := 0 to |s|
      invariant lines == LineCount(s[..j])
    {
      assert s[..j + 1][..j] == s[..j];
      if s[j] == LF {
        lines := lines + 1;
      }
    }
    assert s[..|s|] == s;
    LinesAreNewlines(s);
  }

  /** The marker of a hidden text (foldSetRenderedText). */
  function Marker(hidden: seq<byte>): (m: seq<byte>)
    ensures LF !in m && m != []
  {
    var lines := LineCount(hidden);
    if lines > 1 then OPENING + Digits(lines) + PASTED_LINES
    else OPENING + Digits(|hidden|) + PASTED_CHARS
  }

  /** The number that a decimal numeral reads as. */
  function Value(s: seq<byte>): int {
    if s == [] then 0 else 10 * Value(s[..|s| - 1]) + s[|s| - 1] as int - 48
  }

  /** A numeral reads back to its number and has no leading zero. */
  lemma {:induction false} NumeralReadsBack(n: nat)
    ensures Value(Digits(n)) == n && (Digits(n)[0] == 48 ==> n == 0)
  {
    if n < 10 {
      assert [48 + n][..0] == [];
    } else {
      NumeralReadsBack(n / 10);
      LastOfConcat(Digits(n / 10), [48 + n % 10]);
      NoneLeft(Digits(n / 10));
    }
  }

  /** A hidden text with newlines is shown as "[... k + 1 pasted lines ...]", where k is
      how many it has; one without as "[... n pasted chars ...]", where n is how many
      bytes it has; the numeral between the brackets reads as that number. */
  lemma MarkerShows(hidden: seq<byte>)
    ensures var k := multiset(hidden)[10];
            var number := if 0 < k then k + 1 else |hidden|;
            && Marker(hidden) ==
               [91, 46, 46, 46, 32] + Digits(number) + [32, 112, 97, 115, 116, 101, 100, 32]
               + (if 0 < k then [108, 105, 110, 101, 115] else [99, 104, 97, 114, 115]) + [32, 46, 46, 46, 93]
            && Value(Digits(number)) == number
  {
    LinesAreNewlines(hidden);
    hide Digits, Value;
    var k := multiset(hidden)[10];
    NumeralReadsBack(if 0 < k then k + 1 else |hidden|);
    assert PASTED_LINES ==
           [32, 112, 97, 115, 116, 101, 100, 32] + [108, 105, 110, 101, 115] + [32, 46, 46, 46, 93];
    assert PASTED_CHARS ==
           [32, 112, 97, 115, 116, 101, 100, 32] + [99, 104, 97, 114, 115] + [32, 46, 46, 46, 93];
  }

  lemma {:induction false} DigitsLength(n: nat, k: nat)
    requires 0 < k && n < Pow10(k)
    ensures |Digits(n)| <= k
    decreases k
  {
    if 10 <= n {
      DigitsLength(n / 10, k - 1);
    }
  }

  function Pow10(k: nat): nat { if k == 0 then 1 else 10 * Pow10(k - 1) }

  lemma {:induction false} LineCountBound(s: seq<byte>)
    ensures LineCount(s) <= |s| + 1
  {
    if s != [] {
      LineCountBound(s[..|s| - 1]);
    }
  }

  /** The marker of anything shorter than 10^20 bytes, which covers every size_t, fits the
      64 bytes of its display field with the NUL. */
  lemma MarkerFits(hidden: seq<byte>)
    requires |hidden| + 1 < Pow10(20)
    ensures |Marker(hidden)| < 64
  {
    LineCountBound(hidden);
    DigitsLength(LineCount(hidden), 20);
    DigitsLength(|hidden|, 20);
  }

  // ----- the rendered text and cursor

  /** The folds linenoiseGetRenderFolds keeps. */
  function LiveFolds(fs: seq<Fold>, len: nat): seq<Fold> {
    if fs == [] then []
    else (if Live(fs[0], len) then [fs[0]] else []) + LiveFolds(fs[1..], len)
  }

  /** They are the non-empty ones that end inside the text. */
  lemma {:induction false} LiveFoldsAre(fs: seq<Fold>, len: nat)
    ensures forall f :: f in LiveFolds(fs, len) <==> f in fs && f.start < f.end <= len
  {
    if fs != [] {
      LiveFoldsAre(fs[1..], len);
      HeadTail(fs);
    }
  }

  /** Sorted, disjoint, non-empty ranges, the first not before lo. */
  predicate Sorted(fs: seq<Fold>, lo: nat) {
    fs == [] || (lo <= fs[0].start < fs[0].end && Sorted(fs[1..], fs[0].end))
  }

  predicate Fits(fs: seq<Fold>, lo: nat, len: nat) {
    Sorted(fs, lo) && lo <= len && forall f :: f in fs ==> f.end <= len
  }

  function Face(s: seq<byte>, f: Fold): seq<byte>
    requires f.start <= f.end <= |s|
  {
    Marker(s[f.start..f.end])
  }

  /** The text from src on: gap, marker, gap, marker, ..., gap. */
  function Rendered(s: seq<byte>, fs: seq<Fold>, src: nat): seq<byte>
    requires Fits(fs, src, |s|)
  {
    if fs == [] then s[src..]
    else
      assert fs[0] in fs;
      assert forall f :: f in fs[1..] ==> f in fs;
      s[src..fs[0].start] + Face(s, fs[0]) + Rendered(s, fs[1..], fs[0].end)
  }

  /** Where cursor position pos goes in the rendered text from src on. */
  function RenderedPos(s: seq<byte>, fs: seq<Fold>, src: nat, pos: nat): nat
    requires Fits(fs, src, |s|) && src <= pos
  {
    if fs == [] || pos <= fs[0].start then pos - src
    else
      assert fs[0] in fs;
      assert forall f :: f in fs[1..] ==> f in fs;
      var upTo := fs[0].start - src + |Face(s, fs[0])|;
      if pos <= fs[0].end then upTo else upTo + RenderedPos(s, fs[1..], fs[0].end, pos)
  }

  function Hidden(fs: seq<Fold>): nat {
    if fs == [] then 0 else (if fs[0].start <= fs[0].end then fs[0].end - fs[0].start else 0) + Hidden(fs[1..])
  }

  function Faces(s: seq<byte>, fs: seq<Fold>): nat
    requires forall f :: f in fs ==> f.start <= f.end <= |s|
  {
    if fs == [] then 0
    else
      assert fs[0] in fs;
      assert forall f :: f in fs[1..] ==> f in fs;
      |Face(s, fs[0])| + Faces(s, fs[1..])
  }

  lemma {:induction false} LiveFoldsFit(fs: seq<Fold>, lo: nat, len: nat)
    requires Sorted(fs, lo) && lo <= len
    ensures Fits(LiveFolds(fs, len), lo, len)
  {
    if fs != [] {
      if Live(fs[0], len) {
        LiveFoldsFit(fs[1..], fs[0].end, len);
        assert ([fs[0]] + LiveFolds(fs[1..], len))[1..] == LiveFolds(fs[1..], len);
      } else {
        NothingLive(fs[1..], fs[0].end, len);
        assert [] + LiveFolds(fs[1..], len) == [];
      }
    }
  }

  /** In a sorted list everything after a fold that ends past the text starts past it too. */
  lemma {:induction false} NothingLive(fs: seq<Fold>, lo: nat, len: nat)
    requires Sorted(fs, lo) && len < lo
    ensures LiveFolds(fs, len) == []
  {
    if fs != [] {
      NothingLive(fs[1..], fs[0].end, len);
    }
  }

  lemma FitsTail(fs: seq<Fold>, lo: nat, len: nat)
    requires Fits(fs, lo, len) && fs != []
    ensures lo <= fs[0].start < fs[0].end <= len && Fits(fs[1..], fs[0].end, len)
  {
    assert fs[0] in fs;
    assert forall f :: f in fs[1..] ==> f in fs;
  }

  /** The length computed before copying is the length of the copy; subtracting the hidden
      bytes one fold at a time never goes below zero. */
  lemma {:induction false} RenderedLength(s: seq<byte>, fs: seq<Fold>, src: nat)
    requires Fits(fs, src, |s|)
    ensures forall f :: f in fs ==> f.start <= f.end <= |s|
    ensures src + Hidden(fs) <= |s|
    ensures |Rendered(s, fs, src)| == |s| - src - Hidden(fs) + Faces(s, fs)
    decreases |fs|
  {
    hide Marker;
    if fs != [] {
      FitsTail(fs, src, |s|);
      RenderedLength(s, fs[1..], fs[0].end);
      assert fs == [fs[0]] + fs[1..];
    }
  }

  /** The rendered cursor stays in the rendered text and never moves against the cursor. */
  lemma {:induction false} RenderedPosMonotone(s: seq<byte>, fs: seq<Fold>, src: nat, p: nat, q: nat)
    requires Fits(fs, src, |s|) && src <= p <= q <= |s|
    ensures RenderedPos(s, fs, src, p) <= RenderedPos(s, fs, src, q) <= |Rendered(s, fs, src)|
    decreases |fs|
  {
    hide Marker;
    if fs != [] {
      FitsTail(fs, src, |s|);
      if fs[0].end < q {
        RenderedPosMonotone(s, fs[1..], fs[0].end, if fs[0].end < p then p else fs[0].end, q);
      }
    }
  }

  /** Inside a fold and at its end the cursor is shown after the marker. */
  lemma {:induction false} CursorInsideFold(s: seq<byte>, fs: seq<Fold>, src: nat, k: nat, pos: nat)
    requires Fits(fs, src, |s|) && k < |fs| && fs[k].start < pos <= fs[k].end
    ensures src <= fs[k].start
    ensures RenderedPos(s, fs, src, pos) == RenderedPos(s, fs, src, fs[k].end)
    ensures RenderedPos(s, fs, src, pos) == RenderedPos(s, fs, src, fs[k].start) + |Face(s, fs[k])|
    decreases |fs|
  {
    hide Marker;
    FitsTail(fs, src, |s|);
    if 0 < k {
      CursorInsideFold(s, fs[1..], fs[0].end, k - 1, pos);
      FitsAt(fs[1..], fs[0].end, |s|, k - 1);
    }
  }

  lemma {:induction false} FitsAt(fs: seq<Fold>, lo: nat, len: nat, k: nat)
    requires Fits(fs, lo, len) && k < |fs|
    ensures lo <= fs[k].start < fs[k].end <= len
    decreases |fs|
  {
    FitsTail(fs, lo, len);
    if 0 < k {
      FitsAt(fs[1..], fs[0].end, len, k - 1);
    }
  }

  /** The folds that end at or before pos. */
  function Passed(fs: seq<Fold>, pos: nat): seq<Fold> {
    if fs == [] || pos < fs[0].end then [] else [fs[0]] + Passed(fs[1..], pos)
  }

  /** Outside folds the cursor is exact: what is rendered before it is the rendering of
      the text before it. */
  lemma {:induction false} CursorIsExact(s: seq<byte>, fs: seq<Fold>, src: nat, pos: nat)
    requires Fits(fs, src, |s|) && src <= pos <= |s|
    requires forall f :: f in fs ==> !(f.start < pos < f.end)
    ensures Fits(Passed(fs, pos), src, pos) && RenderedPos(s, fs, src, pos) <= |Rendered(s, fs, src)|
    ensures Rendered(s, fs, src)[..RenderedPos(s, fs, src, pos)] == Rendered(s[..pos], Passed(fs, pos), src)
    decreases |fs|
  {
    hide Marker, Fits, Face, Rendered, RenderedPos;
    RenderedPosMonotone(s, fs, src, pos, pos);
    if fs == [] {
      ExactInGap(s, fs, src, pos);
    } else {
      FitsTail(fs, src, |s|);
      var f, rest := fs[0], fs[1..];
      assert f in fs && forall g :: g in rest ==> g in fs;
      if pos <= f.start {
        ExactInGap(s, fs, src, pos);
      } else {
        CursorIsExact(s, rest, f.end, pos);
        ExactAfterFold(s, fs, src, pos);
      }
    }
  }

  /** The cursor before the first fold. */
  lemma ExactInGap(s: seq<byte>, fs: seq<Fold>, src: nat, pos: nat)
    requires Fits(fs, src, |s|) && src <= pos <= |s| && (fs == [] || pos <= fs[0].start < fs[0].end)
    ensures Passed(fs, pos) == [] && Fits([], src, pos) && RenderedPos(s, fs, src, pos) <= |Rendered(s, fs, src)|
    ensures Rendered(s, fs, src)[..RenderedPos(s, fs, src, pos)] == Rendered(s[..pos], [], src)
  {
    hide Marker, Face;
    if fs == [] {
      assert s[src..][..pos - src] == s[..pos][src..];
    } else {
      FitsTail(fs, src, |s|);
      var gap, tail := s[src..fs[0].start], Face(s, fs[0]) + Rendered(s, fs[1..], fs[0].end);
      Assoc(gap, Face(s, fs[0]), Rendered(s, fs[1..], fs[0].end));
      assert (gap + tail)[..pos - src] == s[..pos][src..];
    }
  }

  /** The cursor after the first fold, when it is exact in the rest. */
  lemma ExactAfterFold(s: seq<byte>, fs: seq<Fold>, src: nat, pos: nat)
    requires fs != [] && Fits(fs, src, |s|) && fs[0].end <= pos <= |s| && Fits(fs[1..], fs[0].end, |s|)
    requires Fits(Passed(fs[1..], pos), fs[0].end, pos)
    requires RenderedPos(s, fs[1..], fs[0].end, pos) <= |Rendered(s, fs[1..], fs[0].end)|
    requires Rendered(s, fs[1..], fs[0].end)[..RenderedPos(s, fs[1..], fs[0].end, pos)] ==
             Rendered(s[..pos], Passed(fs[1..], pos), fs[0].end)
    ensures src <= pos && Fits(Passed(fs, pos), src, pos) && RenderedPos(s, fs, src, pos) <= |Rendered(s, fs, src)|
    ensures Rendered(s, fs, src)[..RenderedPos(s, fs, src, pos)] == Rendered(s[..pos], Passed(fs, pos), src)
  {
    hide Marker, Fits;
    FitsTail(fs, src, |s|);
    var f, rest, passed := fs[0], fs[1..], Passed(fs[1..], pos);
    var gap, m, tail := s[src..f.start], Face(s, f), Rendered(s, rest, f.end);
    var n := RenderedPos(s, rest, f.end, pos);
    AtEndOfFold(s, rest, f.end, pos);
    assert RenderedPos(s, fs, src, pos) == |gap + m| + n;
    ConsTail(f, passed);
    FitsCons(f, passed, src, pos);
    assert s[..pos][src..f.start] == gap && s[..pos][f.start..f.end] == s[f.start..f.end];
    CutOfConcat(gap + m, tail, |gap + m| + n);
  }

  lemma FitsCons(f: Fold, fs: seq<Fold>, lo: nat, len: nat)
    requires lo <= f.start < f.end && Fits(fs, f.end, len)
    ensures Fits([f] + fs, lo, len)
  {
    assert ([f] + fs)[1..] == fs;
  }

  lemma AtEndOfFold(s: seq<byte>, rest: seq<Fold>, end: nat, pos: nat)
    requires Fits(rest, end, |s|) && end <= pos
    ensures pos == end ==> RenderedPos(s, rest, end, pos) == 0
  {
    if rest != [] {
      FitsTail(rest, end, |s|);
    }
  }

  // ----- the rendering of atoms

  function AtomFace(x: Atom): seq<byte> {
    match x
    case Char(c) => Encode1(c)
    case Folded(cs) => Marker(Encode(cs))
  }

  function AtomFaces(xs: seq<Atom>): seq<byte> {
    if xs == [] then [] else AtomFace(xs[0]) + AtomFaces(xs[1..])
  }

  lemma {:induction false} AtomFacesConcat(a: seq<Atom>, b: seq<Atom>)
    ensures AtomFaces(a + b) == AtomFaces(a) + AtomFaces(b)
  {
    hide AtomFace;
    if a == [] {
      assert a + b == b;
    } else {
      assert (a + b)[1..] == a[1..] + b;
      AtomFacesConcat(a[1..], b);
    }
  }

  /** Moving the start of a rendering over a gap of the text. */
  lemma RenderedSkip(s: seq<byte>, fs: seq<Fold>, src: nat, mid: nat)
    requires Fits(fs, mid, |s|) && src <= mid
    ensures Fits(fs, src, |s|) && Rendered(s, fs, src) == s[src..mid] + Rendered(s, fs, mid)
  {
    hide Marker;
    if fs == [] {
      assert s[src..] == s[src..mid] + s[mid..];
    } else {
      FitsTail(fs, mid, |s|);
      assert s[src..fs[0].start] == s[src..mid] + s[mid..fs[0].start];
      Assoc(s[src..mid], s[mid..fs[0].start], Face(s, fs[0]));
      Assoc(s[src..mid], s[mid..fs[0].start] + Face(s, fs[0]), Rendered(s, fs[1..], fs[0].end));
    }
  }

  lemma SliceOfJoin(p: seq<byte>, x: seq<byte>, t: seq<byte>)
    ensures (p + (x + t))[|p|..|p| + |x|] == x
  {}

  lemma {:induction false} AtomsFit(pre: seq<byte>, xs: seq<Atom>)
    requires AllOk(xs)
    ensures Fits(Ranges(xs, |pre|), |pre|, |pre + Bytes(xs)|)
    decreases |xs|
  {
    hide Encode, Atom.Ok, Bytes, AllOk;
    RangesWithin(xs, |pre|);
    AtomsSorted(xs, |pre|);
  }

  lemma {:induction false} AtomsSorted(xs: seq<Atom>, off: nat)
    requires AllOk(xs)
    ensures Sorted(Ranges(xs, off), off)
    decreases |xs|
  {
    hide Encode, Atom.Ok;
    if xs != [] {
      var x, r := xs[0], xs[1..];
      assert x in xs && forall y :: y in r ==> y in xs;
      var n := |Encode(x.Points())|;
      AtomsSorted(r, off + n);
      OneSize(x);
      if x.Folded? {
        assert ([Fold(off, off + n)] + Ranges(r, off + n))[1..] == Ranges(r, off + n);
      } else {
        assert [] + Ranges(r, off + n) == Ranges(r, off + n);
        SortedWeaken(Ranges(r, off + n), off + n, off);
      }
    }
  }

  lemma SortedWeaken(fs: seq<Fold>, lo: nat, lo': nat)
    requires Sorted(fs, lo) && lo' <= lo
    ensures Sorted(fs, lo')
  {}

  /** Atoms are rendered one after the other. */
  lemma {:induction false} RenderedAtoms(pre: seq<byte>, xs: seq<Atom>)
    requires AllOk(xs)
    ensures Fits(Ranges(xs, |pre|), |pre|, |pre + Bytes(xs)|)
    ensures Rendered(pre + Bytes(xs), Ranges(xs, |pre|), |pre|) == AtomFaces(xs)
    decreases |xs|
  {
    hide Encode, Encode1, Atom.Ok, Bytes, AllOk, Marker, Fits;
    AtomsFit(pre, xs);
    if xs == [] {
      EmptyBytes();
      assert (pre + [])[|pre|..] == [];
    } else {
      var x, r := xs[0], xs[1..];
      FirstAtom(xs);
      OneSize(x);
      var b := Encode(x.Points());
      var s, mid := pre + Bytes(xs), pre + b;
      Assoc(pre, b, Bytes(r));
      RenderedAtoms(mid, r);
      SliceOfJoin(pre, b, Bytes(r));
      if x.Folded? {
        assert ([Fold(|pre|, |mid|)] + Ranges(r, |mid|))[1..] == Ranges(r, |mid|);
        assert s[|pre|..|pre|] == [];
        FoldFirst(s, pre, mid, Ranges(r, |mid|));
      } else {
        assert [] + Ranges(r, |mid|) == Ranges(r, |mid|);
        RenderedSkip(s, Ranges(r, |mid|), |pre|, |mid|);
        EncodeOne(x.c);
      }
    }
  }

  lemma FoldFirst(s: seq<byte>, pre: seq<byte>, mid: seq<byte>, rest: seq<Fold>)
    requires |pre| < |mid| <= |s| && Fits(rest, |mid|, |s|)
    requires Fits([Fold(|pre|, |mid|)] + rest, |pre|, |s|)
    ensures Rendered(s, [Fold(|pre|, |mid|)] + rest, |pre|) ==
            Marker(s[|pre|..|mid|]) + Rendered(s, rest, |mid|)
  {
    hide Marker;
    var fs := [Fold(|pre|, |mid|)] + rest;
    assert fs[1..] == rest && fs[0] == Fold(|pre|, |mid|);
    assert s[|pre|..|pre|] + Face(s, fs[0]) == Face(s, fs[0]);
  }

  lemma {:induction false} AllLive(fs: seq<Fold>, lo: nat, len: nat)
    requires Fits(fs, lo, len)
    ensures LiveFolds(fs, len) == fs
    decreases |fs|
  {
    if fs != [] {
      FitsTail(fs, lo, len);
      AllLive(fs[1..], fs[0].end, len);
      assert fs == [fs[0]] + fs[1..];
    }
  }

  lemma {:induction false} PassedAll(a: seq<Fold>, b: seq<Fold>, pos: nat)
    requires (forall f :: f in a ==> f.end <= pos) && forall f :: f in b ==> pos <= f.start < f.end
    ensures Passed(a + b, pos) == a
  {
    if a == [] {
      assert a + b == b;
      assert b != [] ==> b[0] in b;
    } else {
      assert a[0] in a;
      assert (a + b)[1..] == a[1..] + b;
      PassedAll(a[1..], b, pos);
      assert a == [a[0]] + a[1..];
    }
  }

  lemma RenderedWhole(xs: seq<Atom>)
    requires AllOk(xs)
    ensures var s, fs := Bytes(xs), Ranges(xs, 0);
            LiveFolds(fs, |s|) == fs && Fits(fs, 0, |s|) && Rendered(s, fs, 0) == AtomFaces(xs)
  {
    hide Encode, Encode1, Bytes, AllOk, Marker, Fits, Rendered;
    RenderedAtoms([], xs);
    assert [] + Bytes(xs) == Bytes(xs);
    AllLive(Ranges(xs, 0), 0, Size(xs));
  }

  /** The folds of x and y seen from between them. */
  lemma RangesAt(x: seq<Atom>, y: seq<Atom>)
    requires AllOk(x) && AllOk(y)
    ensures var fs, p := Ranges(x + y, 0), Size(x);
            (forall f :: f in fs ==> !(f.start < p < f.end)) && Passed(fs, p) == Ranges(x, 0)
  {
    hide Encode, Bytes, AllOk, Ranges, Passed;
    var p := Size(x);
    RangesConcat(x, y, 0);
    RangesWithin(x, 0);
    RangesWithin(y, p);
    PassedAll(Ranges(x, 0), Ranges(y, p), p);
  }

  lemma CursorBetween(x: seq<Atom>, y: seq<Atom>)
    requires AllOk(x) && AllOk(y)
    ensures var s, fs := Bytes(x + y), Ranges(x + y, 0);
            Fits(fs, 0, |s|) && RenderedPos(s, fs, 0, Size(x)) == |AtomFaces(x)|
  {
    hide Encode, Encode1, Bytes, AllOk, Marker, Fits, Rendered, RenderedPos, Ranges, Passed, AtomFaces;
    OkJoin(x, y);
    RenderedWhole(x + y);
    RenderedWhole(x);
    RangesAt(x, y);
    BytesConcat(x, y);
    Halves(Bytes(x), Bytes(y));
    CursorIsExact(Bytes(x + y), Ranges(x + y, 0), 0, Size(x));
  }

  lemma OkJoin(x: seq<Atom>, y: seq<Atom>)
    requires AllOk(x) && AllOk(y)
    ensures AllOk(x + y)
  {}

  /** The rendered line of an editor is the faces of its atoms; the rendered cursor stands
      right after the faces before it; no raw newline is shown. */
  lemma RenderedEditor(e: Editor)
    requires e.Ok()
    ensures var d := Concrete(e);
            && LiveFolds(d.folds, |d.text|) == d.folds && Fits(d.folds, 0, |d.text|)
            && Rendered(d.text, d.folds, 0) == AtomFaces(e.before) + AtomFaces(e.after)
            && RenderedPos(d.text, d.folds, 0, d.pos) == |AtomFaces(e.before)|
            && LF !in Rendered(d.text, d.folds, 0)
  {
    hide Encode, Encode1, Atom.Ok, Bytes, Marker, Fits, Rendered, RenderedPos, Ranges;
    OkParts(e.before, e.after);
    RenderedWhole(e.All());
    AtomFacesConcat(e.before, e.after);
    CursorBetween(e.before, e.after);
    NoNewlineShown(e.All());
  }

  lemma {:induction false} NoNewlineShown(xs: seq<Atom>)
    requires AllOk(xs)
    ensures LF !in AtomFaces(xs)
  {
    hide Encode, Marker, Plain;
    if xs != [] {
      var x := xs[0];
      assert x in xs && forall y :: y in xs[1..] ==> y in xs;
      NoNewlineShown(xs[1..]);
      if x.Char? {
        EncodeOne(x.c);
        AsciiInEncode([x.c], LF);
      }
    }
  }
}
