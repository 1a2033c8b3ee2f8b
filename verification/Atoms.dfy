/** The simple editor that the folded line editor refines: a list of atoms with a
    cursor between two of them.  An atom is one character or one whole fold. */
module Atoms {
  import opened Seqs
  import opened Utf8
  import opened Clusters
  import opened Document

  datatype Atom = Char(c: Scalar) | Folded(cs: seq<Scalar>)
  {
    function Points(): seq<Scalar> {
      match this
      case Char(c) => [c]
      case Folded(cs) => cs
    }

    /** Plain code points only; a newline stands only in a fold. */
    predicate Ok() {
      Points() != [] && AllPlain(Points()) && 0 !in Points() && (Char? ==> c != 10)
    }

    predicate EndsInSpace() requires Points() != [] { Points()[|Points()| - 1] == 32 }
  }

  datatype Editor = Editor(before: seq<Atom>, after: seq<Atom>)
  {
    function All(): seq<Atom> { before + after }

    predicate Ok() { AllOk(All()) && FoldCount(All()) <= MAX_FOLDS }
  }

  predicate AllOk(xs: seq<Atom>) { forall x :: x in xs ==> x.Ok() }

  function FoldCount(xs: seq<Atom>): nat {
    if xs == [] then 0 else (if xs[0].Folded? then 1 else 0) + FoldCount(xs[1..])
  }

  function Flat(xs: seq<Atom>): seq<Scalar> {
    if xs == [] then [] else xs[0].Points() + Flat(xs[1..])
  }

  function Bytes(xs: seq<Atom>): seq<byte> { Encode(Flat(xs)) }

  function Size(xs: seq<Atom>): nat { |Bytes(xs)| }

  /** The fold ranges of a list of atoms whose first byte is at offset off. */
  function Ranges(xs: seq<Atom>, off: nat): seq<Fold> {
    if xs == [] then []
    else
      var n := |Encode(xs[0].Points())|;
      (if xs[0].Folded? then [Fold(off, off + n)] else []) + Ranges(xs[1..], off + n)
  }

  /** The document an editor stands for. */
  function Concrete(e: Editor): Doc {
    Doc(Bytes(e.All()), Size(e.before), Ranges(e.All(), 0))
  }

  function Chars(cs: seq<Scalar>): (xs: seq<Atom>)
    ensures |xs| == |cs| && forall k :: 0 <= k < |cs| ==> xs[k] == Char(cs[k])
  {
    seq(|cs|, k requires 0 <= k < |cs| => Char(cs[k]))
  }

  // ----- the operations on atoms

  function Left(e: Editor): Editor {
    if e.before == [] then e
    else Editor(e.before[..|e.before| - 1], [e.before[|e.before| - 1]] + e.after)
  }

  function Right(e: Editor): Editor {
    if e.after == [] then e else Editor(e.before + [e.after[0]], e.after[1..])
  }

  function ToHome(e: Editor): Editor { Editor([], e.All()) }

  function ToEnd(e: Editor): Editor { Editor(e.All(), []) }

  function Put(e: Editor, xs: seq<Atom>): Editor { Editor(e.before + xs, e.after) }

  function DeleteNext(e: Editor): Editor {
    if e.after == [] then e else Editor(e.before, e.after[1..])
  }

  function DeletePrevious(e: Editor): Editor {
    if e.before == [] then e else Editor(e.before[..|e.before| - 1], e.after)
  }

  function Exchange(e: Editor): Editor {
    if e.before != [] && e.after != [] && e.before[|e.before| - 1].Char? && e.after[0].Char?
    then Editor(e.before[..|e.before| - 1] + [e.after[0], e.before[|e.before| - 1]], e.after[1..])
    else e
  }

  /** xs without its longest end of atoms that do (or do not) end in a space. */
  function DropEnd(xs: seq<Atom>, spaces: bool): (r: seq<Atom>)
    requires AllOk(xs)
    ensures |r| <= |xs| && r == xs[..|r|]
  {
    if xs != [] && xs[|xs| - 1] in xs && xs[|xs| - 1].EndsInSpace() == spaces
    then DropEnd(xs[..|xs| - 1], spaces)
    else xs
  }

  function DeleteWordBack(e: Editor): Editor
    requires e.Ok()
  {
    assert forall x :: x in e.before ==> x in e.All();
    var r := DropEnd(e.before, true);
    assert forall x :: x in r ==> x in e.before;
    Editor(DropEnd(r, false), e.after)
  }

  /** A recalled entry: short single lines are characters; the others show at most
      eight characters on each side of one fold. */
  function Recall(cs: seq<Scalar>): Editor {
    if 10 in cs || |Encode(cs)| >= PASTE_FOLD_THRESHOLD then
      var k := if |cs| < PASTE_FOLD_CONTEXT then |cs| else PASTE_FOLD_CONTEXT;
      var i := if |Encode(cs)| <= 2 * PASTE_FOLD_CONTEXT || 10 in cs[..k] then 0 else k;
      var j := if |Encode(cs)| <= 2 * PASTE_FOLD_CONTEXT || 10 in cs[|cs| - k..] then |cs| else |cs| - k;
      if i >= j then Editor([Folded(cs)], [])
      else Editor(Chars(cs[..i]) + [Folded(cs[i..j])] + Chars(cs[j..]), [])
    else Editor(Chars(cs), [])
  }

  // ----- concatenation

  lemma {:induction false} FlatConcat(a: seq<Atom>, b: seq<Atom>)
    ensures Flat(a + b) == Flat(a) + Flat(b)
  {
    if a == [] {
      assert a + b == b;
    } else {
      assert (a + b)[1..] == a[1..] + b;
      FlatConcat(a[1..], b);
    }
  }

  lemma FlatOne(x: Atom)
    ensures Flat([x]) == x.Points()
  {
    assert [x][1..] == [];
  }

  lemma BytesConcat(a: seq<Atom>, b: seq<Atom>)
    ensures Bytes(a + b) == Bytes(a) + Bytes(b)
  {
    FlatConcat(a, b);
    EncodeConcat(Flat(a), Flat(b));
  }

  lemma {:induction false} RangesConcat(a: seq<Atom>, b: seq<Atom>, off: nat)
    ensures Ranges(a + b, off) == Ranges(a, off) + Ranges(b, off + Size(a))
    decreases |a|
  {
    hide Encode;
    if a == [] {
      assert a + b == b;
      assert Bytes(a) == [] by { EncodeNil(); }
    } else {
      assert (a + b)[1..] == a[1..] + b;
      var n := |Encode(a[0].Points())|;
      RangesConcat(a[1..], b, off + n);
      EncodeConcat(a[0].Points(), Flat(a[1..]));
    }
  }

  lemma {:induction false} CountConcat(a: seq<Atom>, b: seq<Atom>)
    ensures FoldCount(a + b) == FoldCount(a) + FoldCount(b)
  {
    if a == [] {
      assert a + b == b;
    } else {
      assert (a + b)[1..] == a[1..] + b;
      CountConcat(a[1..], b);
    }
  }

  lemma {:induction false} RangesCount(xs: seq<Atom>, off: nat)
    ensures |Ranges(xs, off)| == FoldCount(xs)
    decreases |xs|
  {
    if xs != [] {
      RangesCount(xs[1..], off + |Encode(xs[0].Points())|);
    }
  }

  lemma {:induction false} CharsFlat(cs: seq<Scalar>)
    ensures Flat(Chars(cs)) == cs && FoldCount(Chars(cs)) == 0
    ensures forall off: nat :: Ranges(Chars(cs), off) == []
  {
    hide Encode;
    if cs != [] {
      assert Chars(cs)[1..] == Chars(cs[1..]);
      CharsFlat(cs[1..]);
    }
  }

  lemma {:induction false} FlatPlain(xs: seq<Atom>)
    requires AllOk(xs)
    ensures AllPlain(Flat(xs)) && 0 !in Flat(xs)
  {
    if xs != [] {
      assert xs[0] in xs;
      assert forall x :: x in xs[1..] ==> x in xs;
      FlatPlain(xs[1..]);
    }
  }

  lemma OkTail(xs: seq<Atom>)
    requires AllOk(xs) && xs != []
    ensures xs[0].Ok() && AllOk(xs[1..])
  {
    assert xs[0] in xs;
  }

  lemma OneSize(x: Atom)
    requires x.Ok()
    ensures Size([x]) == |Encode(x.Points())| && 0 < Size([x])
  {
    FlatOne(x);
  }

  lemma FirstAtom(xs: seq<Atom>)
    requires AllOk(xs) && xs != []
    ensures xs[0].Ok() && AllOk(xs[1..])
    ensures Bytes(xs) == Encode(xs[0].Points()) + Bytes(xs[1..])
  {
    hide Encode, Atom.Ok;
    assert xs[0] in xs;
    EncodeConcat(xs[0].Points(), Flat(xs[1..]));
  }

  // ----- the ranges of a list of atoms

  /** Ranges of a list, one atom at a time. */
  lemma RangesStep(xs: seq<Atom>, off: nat)
    requires xs != []
    ensures var n := |Encode(xs[0].Points())|;
            && (xs[0].Folded? ==> Ranges(xs, off) == [Fold(off, off + n)] + Ranges(xs[1..], off + n))
            && (xs[0].Char? ==> Ranges(xs, off) == Ranges(xs[1..], off + n))
  {
    hide Encode;
    NoneLeft(Ranges(xs[1..], off + |Encode(xs[0].Points())|));
  }

  lemma {:induction false} RangesWithin(xs: seq<Atom>, off: nat)
    requires AllOk(xs)
    ensures forall f :: f in Ranges(xs, off) ==> off <= f.start < f.end <= off + Size(xs)
    decreases |xs|
  {
    hide Encode, Atom.Ok, AllOk, Ranges;
    if xs == [] {
      EmptyRanges(off);
    } else {
      OkTail(xs);
      OneSize(xs[0]);
      RangesStep(xs, off);
      EncodeConcat(xs[0].Points(), Flat(xs[1..]));
      RangesWithin(xs[1..], off + |Encode(xs[0].Points())|);
    }
  }

  lemma EmptyRanges(off: nat)
    ensures Ranges([], off) == []
  {}

  /** Ranges of atoms inside a text are sorted, disjoint ranges between characters. */
  lemma {:induction false} RangesAreFolds(pre: seq<Scalar>, xs: seq<Atom>)
    requires AllOk(xs)
    ensures FoldsFrom(Ranges(xs, |Encode(pre)|), |Encode(pre)|, Encode(pre + Flat(xs)))
    decreases |xs|
  {
    hide Encode, Encode1, Boundary, Atom.Ok, AllOk, Ranges;
    if xs == [] {
      EmptyRanges(|Encode(pre)|);
    } else {
      var x, r := xs[0], xs[1..];
      OkTail(xs);
      OneSize(x);
      RangesStep(xs, |Encode(pre)|);
      var mid := pre + x.Points();
      EncodeConcat(pre, x.Points());
      Assoc(pre, x.Points(), Flat(r));
      RangesAreFolds(mid, r);
      var s := Encode(mid + Flat(r));
      PrefixBoundary(pre, x.Points() + Flat(r));
      PrefixBoundary(mid, Flat(r));
      var rest := Ranges(r, |Encode(mid)|);
      if x.Folded? {
        FoldsCons(Fold(|Encode(pre)|, |Encode(mid)|), rest, |Encode(pre)|, s);
      } else {
        FoldsWeaken(rest, |Encode(mid)|, |Encode(pre)|, s);
      }
    }
  }

  lemma PrefixBoundary(a: seq<Scalar>, b: seq<Scalar>)
    ensures Boundary(Encode(a + b), |Encode(a)|)
  {
    hide Encode1;
    EncodeConcat(a, b);
    BoundaryAfterEncode(a, b);
  }

  /** Every document an editor stands for keeps the invariant of the line editor. */
  lemma ConcreteInv(e: Editor)
    requires e.Ok()
    ensures Inv(Concrete(e))
  {
    hide Encode, Encode1, Boundary;
    var xs := e.All();
    EncodeNil();
    RangesAreFolds([], xs);
    assert [] + Flat(xs) == Flat(xs);
    RangesCount(xs, 0);
    FlatConcat(e.before, e.after);
    PrefixBoundary(Flat(e.before), Flat(e.after));
  }

  lemma {:induction false} StartingAtLater(a: seq<Fold>, b: seq<Fold>, len: nat, pos: nat)
    requires forall f :: f in a ==> f.start != pos
    ensures StartingAt(a + b, len, pos) == StartingAt(b, len, pos)
  {
    if a == [] {
      assert a + b == b;
    } else {
      assert (a + b)[1..] == a[1..] + b;
      assert a[0] in a;
      StartingAtLater(a[1..], b, len, pos);
    }
  }

  lemma {:induction false} EndingAtLater(a: seq<Fold>, b: seq<Fold>, len: nat, pos: nat)
    requires forall f :: f in a ==> f.end != pos
    ensures EndingAt(a + b, len, pos) == EndingAt(b, len, pos)
  {
    if a == [] {
      assert a + b == b;
    } else {
      assert (a + b)[1..] == a[1..] + b;
      assert a[0] in a;
      EndingAtLater(a[1..], b, len, pos);
    }
  }

  /** The fold found at a cursor between x and y, looking right: the first atom of y. */
  lemma FoldOnRight(x: seq<Atom>, y: seq<Atom>, len: nat)
    requires AllOk(x) && AllOk(y) && y != [] && Size(x) + Size([y[0]]) <= len
    ensures StartingAt(Ranges(x + y, 0), len, Size(x)) == if y[0].Folded? then Size([y[0]]) else 0
  {
    hide Encode, Encode1, Atom.Ok, AllOk, Ranges, Bytes;
    var p, c, r := Size(x), y[0], y[1..];
    OkTail(y);
    OneSize(c);
    RangesConcat(x, y, 0);
    RangesWithin(x, 0);
    StartingAtLater(Ranges(x, 0), Ranges(y, p), len, p);
    RangesStep(y, p);
    var n := Size([c]);
    if c.Folded? {
      ConsTail(Fold(p, p + n), Ranges(r, p + n));
    } else {
      RangesWithin(r, p + n);
      NoneLeft(Ranges(r, p + n));
      StartingAtLater(Ranges(r, p + n), [], len, p);
    }
  }

  /** Looking left: the last atom of x. */
  lemma FoldOnLeft(x: seq<Atom>, c: Atom, y: seq<Atom>, len: nat)
    requires AllOk(x) && c.Ok() && AllOk(y) && Size(x) + Size([c]) <= len
    ensures EndingAt(Ranges(x + [c] + y, 0), len, Size(x + [c])) == if c.Folded? then Size([c]) else 0
  {
    hide Encode, Encode1, Atom.Ok, AllOk, Ranges, Bytes, EndingAt;
    SizeOfConcat(x, [c]);
    var p := Size(x + [c]);
    RangesAroundOne(x, c, y);
    RangesWithin(x, 0);
    RangesWithin(y, p);
    var fc, fy := RangeOf(c, Size(x)), Ranges(y, p);
    OneSize(c);
    EndingAtLater(Ranges(x, 0), fc + fy, len, p);
    EndingInFront(c, Size(x), fy, len);
  }

  /** The range of one atom. */
  function RangeOf(c: Atom, off: nat): seq<Fold> {
    if c.Folded? then [Fold(off, off + Size([c]))] else []
  }

  lemma RangesAroundOne(x: seq<Atom>, c: Atom, y: seq<Atom>)
    requires c.Ok()
    ensures Ranges(x + [c] + y, 0) == Ranges(x, 0) + (RangeOf(c, Size(x)) + Ranges(y, Size(x + [c])))
  {
    hide Encode, Encode1, Atom.Ok, Ranges, Bytes;
    hide FoldCount, AllOk;
    OneSize(c);
    SizeOfConcat(x, [c]);
    var p := Size(x + [c]);
    RangesConcat(x + [c], y, 0);
    RangesConcat(x, [c], 0);
    RangesStep([c], Size(x));
    assert [c][1..] == [];
    EmptyRanges(Size(x) + Size([c]));
    NoneLeft([Fold(Size(x), Size(x) + Size([c]))]);
    Assoc(Ranges(x, 0), RangeOf(c, Size(x)), Ranges(y, p));
  }

  /** A fold that ends at the cursor is found; later folds are not. */
  lemma EndingInFront(c: Atom, off: nat, fy: seq<Fold>, len: nat)
    requires 0 < Size([c]) && off + Size([c]) <= len
    requires forall f :: f in fy ==> off + Size([c]) < f.end
    ensures EndingAt(RangeOf(c, off) + fy, len, off + Size([c])) == if c.Folded? then Size([c]) else 0
  {
    hide Bytes;
    if c.Folded? {
      ConsTail(Fold(off, off + Size([c])), fy);
    } else {
      NoneLeft(fy);
      EndingAtLater(fy, [], len, off + Size([c]));
    }
  }

  /** The cluster steps at the same cursor, for single characters. */
  lemma CharOnRight(x: seq<Atom>, y: seq<Atom>)
    requires AllOk(x) && AllOk(y) && y != [] && y[0].Char?
    ensures NextLen(Bytes(x + y), Size(x)) == Size([y[0]])
  {
    hide Encode, Encode1, NextLen, PrevLen, Plain;
    FlatPlain(x);
    FlatPlain(y);
    BytesConcat(x, y);
    PlainSteps(Flat(x), Flat(y));
    FlatOne(y[0]);
    EncodeOne(y[0].c);
  }

  lemma CharOnLeft(x: seq<Atom>, c: Scalar, y: seq<Atom>)
    requires AllOk(x) && Char(c).Ok() && AllOk(y)
    ensures Size(x + [Char(c)]) <= Size(x + [Char(c)] + y)
    ensures PrevLen(Bytes(x + [Char(c)] + y), Size(x + [Char(c)])) == Size([Char(c)])
  {
    hide Encode, Encode1, NextLen, PrevLen, Plain;
    var xc := x + [Char(c)];
    FlatPlain(xc);
    FlatPlain(y);
    BytesConcat(xc, y);
    FlatConcat(x, [Char(c)]);
    FlatOne(Char(c));
    PlainSteps(Flat(xc), Flat(y));
    EncodeOne(c);
  }

  /** A document made of atoms. */
  predicate MadeOf(d: Doc, xs: seq<Atom>) {
    AllOk(xs) && d.text == Bytes(xs) && d.folds == Ranges(xs, 0)
  }

  lemma OkParts(x: seq<Atom>, y: seq<Atom>)
    requires AllOk(x + y)
    ensures AllOk(x) && AllOk(y)
  {
    assert forall z :: z in x ==> z in x + y;
    assert forall z :: z in y ==> z in x + y;
  }

  /** One step right from between x and y crosses exactly the first atom of y. */
  lemma StepRightIsAtom(d: Doc, x: seq<Atom>, y: seq<Atom>)
    requires MadeOf(d, x + y) && y != []
    ensures StepRight(d, Size(x)) == Size([y[0]])
  {
    hide Encode, Encode1, NextLen;
    OkParts(x, y);
    assert y == [y[0]] + y[1..] && y[0] in y;
    OneSize(y[0]);
    BytesConcat(x, y);
    BytesConcat([y[0]], y[1..]);
    FoldOnRight(x, y, |d.text|);
    if y[0].Char? {
      CharOnRight(x, y);
    }
  }

  /** One step left from between x and y crosses exactly the last atom of x. */
  lemma StepLeftIsAtom(d: Doc, x: seq<Atom>, y: seq<Atom>)
    requires MadeOf(d, x + y) && x != []
    ensures Size(x) <= |d.text| && StepLeft(d, Size(x)) == Size([x[|x| - 1]])
  {
    hide Encode, Encode1, PrevLen;
    OkParts(x, y);
    var r, c := x[..|x| - 1], x[|x| - 1];
    assert x == r + [c];
    OkParts(r, [c]);
    assert c in x;
    OneSize(c);
    BytesConcat(x, y);
    BytesConcat(r, [c]);
    FoldOnLeft(r, c, y, |d.text|);
    if c.Char? {
      CharOnLeft(r, c.c, y);
    }
  }

  // ----- each operation of the line editor is the operation on atoms

  lemma SizeOfConcat(a: seq<Atom>, b: seq<Atom>)
    ensures Size(a + b) == Size(a) + Size(b)
  {
    BytesConcat(a, b);
  }

  lemma LeftIsLeft(e: Editor)
    requires e.Ok()
    ensures Inv(Concrete(e)) && MoveLeft(Concrete(e)) == Concrete(Left(e))
  {
    hide Encode, Encode1;
    ConcreteInv(e);
    var d := Concrete(e);
    EncodeNil();
    if e.before != [] {
      var r, c := e.before[..|e.before| - 1], e.before[|e.before| - 1];
      StepLeftIsAtom(d, e.before, e.after);
      assert e.before == r + [c];
      Assoc(r, [c], e.after);
      SizeOfConcat(r, [c]);
      assert c in e.All();
      OneSize(c);
    }
  }

  lemma RightIsRight(e: Editor)
    requires e.Ok()
    ensures Inv(Concrete(e)) && MoveRight(Concrete(e)) == Concrete(Right(e))
  {
    hide Encode, Encode1;
    ConcreteInv(e);
    var d := Concrete(e);
    EncodeNil();
    SizeOfConcat(e.before, e.after);
    if e.after == [] {
    } else {
      var c, r := e.after[0], e.after[1..];
      StepRightIsAtom(d, e.before, e.after);
      assert e.after == [c] + r;
      Assoc(e.before, [c], r);
      SizeOfConcat([c], r);
      SizeOfConcat(e.before, [c]);
      assert c in e.All();
      OneSize(c);
    }
  }

  lemma HomeIsHome(e: Editor)
    requires e.Ok()
    ensures Inv(Concrete(e)) && Home(Concrete(e)) == Concrete(ToHome(e))
    ensures End(Concrete(e)) == Concrete(ToEnd(e))
  {
    ConcreteInv(e);
    EncodeNil();
    assert [] + e.All() == e.All() == e.All() + [];
  }

  /** Shifting the folds after a removal: those of m go, those of y move left. */
  lemma {:induction false} KeptBefore(a: seq<Fold>, b: seq<Fold>, p: nat, n: nat)
    requires forall f :: f in a ==> f.start < f.end <= p
    ensures ShiftedByDelete(a + b, p, n) == a + ShiftedByDelete(b, p, n)
  {
    if a == [] {
      assert a + b == b;
    } else {
      assert a[0] in a;
      assert (a + b)[1..] == a[1..] + b;
      KeptBefore(a[1..], b, p, n);
      Assoc([a[0]], a[1..], ShiftedByDelete(b, p, n));
    }
  }

  lemma {:induction false} DroppedWithin(m: seq<Fold>, b: seq<Fold>, p: nat, n: nat)
    requires forall f :: f in m ==> p <= f.start < f.end <= p + n
    ensures ShiftedByDelete(m + b, p, n) == ShiftedByDelete(b, p, n)
  {
    if m == [] {
      assert m + b == b;
    } else {
      assert m[0] in m;
      assert (m + b)[1..] == m[1..] + b;
      DroppedWithin(m[1..], b, p, n);
    }
  }

  lemma {:induction false} MovedAfter(y: seq<Atom>, off: nat, p: nat, n: nat)
    requires p + n <= off
    ensures ShiftedByDelete(Ranges(y, off), p, n) == Ranges(y, off - n)
    decreases |y|
  {
    hide Encode, Ranges;
    if y == [] {
      EmptyRanges(off);
      EmptyRanges(off - n);
    } else {
      var k := |Encode(y[0].Points())|;
      RangesStep(y, off);
      RangesStep(y, off - n);
      MovedAfter(y[1..], off + k, p, n);
      assert off + k - n == off - n + k;
      ConsTail(Fold(off, off + k), Ranges(y[1..], off + k));
    }
  }

  lemma RangesAroundCut(x: seq<Atom>, m: seq<Atom>, y: seq<Atom>)
    requires AllOk(x) && AllOk(m) && AllOk(y)
    ensures ShiftedByDelete(Ranges(x + m + y, 0), Size(x), Size(m)) == Ranges(x + y, 0)
  {
    hide Encode, Ranges, ShiftedByDelete, Bytes, AllOk;
    var p, n := Size(x), Size(m);
    SizeOfConcat(x, m);
    RangesConcat(x + m, y, 0);
    RangesConcat(x, m, 0);
    RangesConcat(x, y, 0);
    RangesWithin(x, 0);
    RangesWithin(m, p);
    var fx, fm, fy := Ranges(x, 0), Ranges(m, p), Ranges(y, p + n);
    Assoc(fx, fm, fy);
    KeptBefore(fx, fm + fy, p, n);
    DroppedWithin(fm, fy, p, n);
    MovedAfter(y, p + n, p, n);
  }

  lemma BytesAroundCut(x: seq<Atom>, m: seq<Atom>, y: seq<Atom>)
    ensures var s := Bytes(x + m + y);
            Boundary(s, Size(x)) && Boundary(s, Size(x) + Size(m)) &&
            Cut(s, Size(x), Size(m)) == Bytes(x + y)
  {
    hide Encode, Encode1, Boundary, Flat;
    BytesConcat(x + m, y);
    BytesConcat(x, m);
    BytesConcat(x, y);
    FlatConcat(x + m, y);
    FlatConcat(x, m);
    Assoc(Flat(x), Flat(m), Flat(y));
    PrefixBoundary(Flat(x + m), Flat(y));
    PrefixBoundary(Flat(x), Flat(m) + Flat(y));
    Assoc(Bytes(x), Bytes(m), Bytes(y));
    Halves(Bytes(x), Bytes(m) + Bytes(y));
    Halves(Bytes(x) + Bytes(m), Bytes(y));
  }

  /** Removing the bytes of some consecutive atoms removes those atoms. */
  lemma RemovedIsCut(d: Doc, x: seq<Atom>, m: seq<Atom>, y: seq<Atom>)
    requires Inv(d) && MadeOf(d, x + m + y)
    ensures Boundary(d.text, Size(x)) && Boundary(d.text, Size(x) + Size(m))
    ensures Removed(d, Size(x), Size(m)) == Doc(Bytes(x + y), Size(x), Ranges(x + y, 0))
  {
    hide Encode, Encode1, Boundary, Cut, Ranges, ShiftedByDelete, Inv, Bytes;
    OkParts(x + m, y);
    OkParts(x, m);
    BytesAroundCut(x, m, y);
    RangesAroundCut(x, m, y);
  }

  lemma DeleteIsDelete(e: Editor)
    requires e.Ok()
    ensures Inv(Concrete(e)) && Delete(Concrete(e)) == Concrete(DeleteNext(e))
  {
    hide Encode, Encode1, Boundary, Ranges, Removed, Inv;
    ConcreteInv(e);
    SizeOfConcat(e.before, e.after);
    if e.after == [] {
      EncodeNil();
    } else {
      var d, c, r := Concrete(e), e.after[0], e.after[1..];
      StepRightIsAtom(d, e.before, e.after);
      assert e.after == [c] + r;
      Assoc(e.before, [c], r);
      RemovedIsCut(d, e.before, [c], r);
      SizeOfConcat([c], r);
      assert c in e.All();
      OneSize(c);
    }
  }

  lemma BackspaceIsBackspace(e: Editor)
    requires e.Ok()
    ensures Inv(Concrete(e)) && Backspace(Concrete(e)) == Concrete(DeletePrevious(e))
  {
    hide Encode, Encode1, Boundary, Ranges, Removed, Inv;
    ConcreteInv(e);
    if e.before == [] {
      EncodeNil();
    } else {
      var d, r, c := Concrete(e), e.before[..|e.before| - 1], e.before[|e.before| - 1];
      StepLeftIsAtom(d, e.before, e.after);
      assert e.before == r + [c];
      SizeOfConcat(r, [c]);
      RemovedIsCut(d, r, [c], e.after);
      assert c in e.All();
      OneSize(c);
    }
  }

  lemma KillEndIsCut(e: Editor)
    requires e.Ok()
    ensures Inv(Concrete(e)) && KillEnd(Concrete(e)) == Concrete(Editor(e.before, []))
    ensures KillLine(Concrete(e)) == Concrete(Editor([], []))
  {
    hide Encode, Encode1, Boundary, Ranges, Removed, Inv;
    ConcreteInv(e);
    SizeOfConcat(e.before, e.after);
    assert e.before + e.after == e.before + e.after + [];
    RemovedIsCut(Concrete(e), e.before, e.after, []);
    assert Bytes([]) == [] && Ranges([], 0) == [] by { EncodeNil(); EmptyRanges(0); }
  }

  // ----- words

  lemma LastByte(cs: seq<Scalar>)
    requires cs != []
    ensures Encode(cs)[|Encode(cs)| - 1] == SPACE <==> cs[|cs| - 1] == 32
  {
    var r, c := cs[..|cs| - 1], cs[|cs| - 1];
    assert cs == r + [c];
    EncodeSnoc(r, c);
    var e := Encode1(c);
    assert e[|e| - 1] == SPACE <==> c == 32 by {
      if 1 < |e| {
        EncodeTail(c, |e| - 1);
      }
    }
  }

  lemma {:induction false} SkipLeftIsDropEnd(d: Doc, x: seq<Atom>, y: seq<Atom>, spaces: bool)
    requires MadeOf(d, x + y) && AllOk(x)
    ensures Size(x) <= |d.text| && SkipLeft(d, Size(x), spaces) == Size(DropEnd(x, spaces))
    decreases |x|
  {
    hide Encode, Encode1, Ranges, Flat, StepLeft;
    BytesConcat(x, y);
    if x == [] {
      assert Size(x) == 0 by { EncodeNil(); EmptyFlat(); }
    } else {
      var r, c := x[..|x| - 1], x[|x| - 1];
      assert c in x;
      StepLeftIsAtom(d, x, y);
      OneSize(c);
      assert x == r + [c];
      SizeOfConcat(r, [c]);
      BytesConcat(r, [c]);
      FlatOne(c);
      LastByte(c.Points());
      assert d.text[Size(x) - 1] == Bytes([c])[Size([c]) - 1];
      if c.EndsInSpace() == spaces {
        Assoc(r, [c], y);
        assert forall z :: z in r ==> z in x;
        SkipLeftIsDropEnd(d, r, [c] + y, spaces);
      }
    }
  }

  lemma EmptyFlat()
    ensures Flat([]) == []
  {}

  lemma DeleteWordIsDropEnd(e: Editor)
    requires e.Ok()
    ensures Inv(Concrete(e)) && DeleteWord(Concrete(e)) == Concrete(DeleteWordBack(e))
  {
    hide Encode, Encode1, Ranges, Flat, StepLeft, Removed, SkipLeft, DropEnd, Inv;
    ConcreteInv(e);
    var d, x, y := Concrete(e), e.before, e.after;
    OkParts(x, y);
    SkipLeftIsDropEnd(d, x, y, true);
    var r := DropEnd(x, true);
    var z := x[|r|..];
    Rejoin(x, |r|);
    Assoc(r, z, y);
    OkParts(r, z);
    SkipLeftIsDropEnd(d, r, z + y, false);
    var w := DropEnd(r, false);
    var m := x[|w|..];
    assert w == x[..|w|];
    Rejoin(x, |w|);
    SizeOfConcat(w, m);
    RemovedIsCut(d, w, m, y);
  }

  // ----- insertion

  lemma {:induction false} KeptBeforeInsert(a: seq<Fold>, b: seq<Fold>, p: nat, n: nat)
    requires forall f :: f in a ==> f.start < f.end <= p
    ensures ShiftedByInsert(a + b, p, n) == a + ShiftedByInsert(b, p, n)
  {
    if a == [] {
      assert a + b == b;
    } else {
      assert a[0] in a;
      assert (a + b)[1..] == a[1..] + b;
      KeptBeforeInsert(a[1..], b, p, n);
      Assoc([a[0]], a[1..], ShiftedByInsert(b, p, n));
    }
  }

  lemma {:induction false} MovedByInsert(y: seq<Atom>, off: nat, p: nat, n: nat)
    requires p <= off
    ensures ShiftedByInsert(Ranges(y, off), p, n) == Ranges(y, off + n)
    decreases |y|
  {
    hide Encode, Ranges;
    if y == [] {
      EmptyRanges(off);
      EmptyRanges(off + n);
    } else {
      var k := |Encode(y[0].Points())|;
      RangesStep(y, off);
      RangesStep(y, off + n);
      MovedByInsert(y[1..], off + k, p, n);
      assert off + k + n == off + n + k;
      ConsTail(Fold(off, off + k), Ranges(y[1..], off + k));
    }
  }

  /** After an insertion of n bytes at the cursor the folds are those of the two sides. */
  lemma RangesAroundInsert(x: seq<Atom>, y: seq<Atom>, n: nat)
    requires AllOk(x)
    ensures ShiftedByInsert(Ranges(x + y, 0), Size(x), n) == Ranges(x, 0) + Ranges(y, Size(x) + n)
  {
    hide Encode, Ranges, ShiftedByInsert, Bytes, AllOk;
    RangesConcat(x, y, 0);
    RangesWithin(x, 0);
    KeptBeforeInsert(Ranges(x, 0), Ranges(y, Size(x)), Size(x), n);
    MovedByInsert(y, Size(x), Size(x), n);
  }

  /** The text after an insertion at the cursor. */
  lemma BytesAroundInsert(x: seq<Atom>, m: seq<Atom>, y: seq<Atom>)
    ensures Size(x) <= Size(x + y) && Spliced(Bytes(x + y), Size(x), Bytes(m)) == Bytes(x + m + y)
  {
    hide Encode, Flat;
    BytesConcat(x, y);
    BytesConcat(x, m);
    BytesConcat(x + m, y);
    Halves(Bytes(x), Bytes(y));
  }

  lemma BytesAreText(xs: seq<Atom>)
    ensures IsText(Bytes(xs))
  {}

  lemma InsertIsPut(e: Editor, cs: seq<Scalar>)
    requires e.Ok()
    ensures Inv(Concrete(e)) && IsText(Encode(cs))
    ensures Insert(Concrete(e), Encode(cs)) == Concrete(Put(e, Chars(cs)))
  {
    hide Encode, Encode1, Ranges, Flat, ShiftedByInsert, Inv, IsText, Spliced, Chars;
    ConcreteInv(e);
    var x, m, y := e.before, Chars(cs), e.after;
    CharsFlat(cs);
    BytesAreText(m);
    OkParts(x, y);
    RangesAroundInsert(x, y, Size(m));
    BytesAroundInsert(x, m, y);
    SizeOfConcat(x, m);
    RangesConcat(x + m, y, 0);
    RangesConcat(x, m, 0);
    assert Ranges(x, 0) + [] == Ranges(x, 0);
  }

  lemma InsertFoldedIsPut(e: Editor, cs: seq<Scalar>)
    requires e.Ok() && cs != [] && FoldCount(e.All()) < MAX_FOLDS
    requires Folded(cs).Ok()
    ensures Inv(Concrete(e)) && IsText(Encode(cs))
    ensures InsertFolded(Concrete(e), Encode(cs)) == Concrete(Put(e, [Folded(cs)]))
  {
    hide Encode, Encode1, Ranges, Flat, ShiftedByInsert, Inv, IsText, Spliced, Bytes, AllOk, FoldAdded,
      FoldCount, Atom.Ok, Insert, InsertFolded;
    ConcreteInv(e);
    var x, m, y := e.before, [Folded(cs)], e.after;
    FoldedBytes(cs);
    BytesAreText(m);
    OkParts(x, y);
    BytesAroundInsert(x, m, y);
    SizeOfConcat(x, m);
    FoldsAroundInsert(x, cs, y);
    FoldedParts(Concrete(e), Encode(cs));
  }

  lemma FoldedParts(d: Doc, s: seq<byte>)
    requires Inv(d) && IsText(s)
    ensures InsertFolded(d, s) == Doc(Spliced(d.text, d.pos, s), d.pos + |s|,
                                      FoldAdded(ShiftedByInsert(d.folds, d.pos, |s|), d.pos, d.pos + |s|))
  {
    hide ShiftedByInsert, Inv, IsText, Spliced, FoldAdded;
  }

  /** The folds after a folded text was inserted at the cursor. */
  lemma FoldsAroundInsert(x: seq<Atom>, cs: seq<Scalar>, y: seq<Atom>)
    requires AllOk(x) && AllOk(y) && Folded(cs).Ok() && FoldCount(x + y) < MAX_FOLDS
    ensures var n := Size([Folded(cs)]);
            FoldAdded(ShiftedByInsert(Ranges(x + y, 0), Size(x), n), Size(x), Size(x) + n)
            == Ranges(x + [Folded(cs)] + y, 0)
  {
    hide Encode, Encode1, Ranges, Flat, ShiftedByInsert, Bytes, AllOk, InsertSorted, FoldCount, Atom.Ok;
    var c := Folded(cs);
    var n := Size([c]);
    OneSize(c);
    RangesAroundInsert(x, y, n);
    RangesAroundOne(x, c, y);
    SizeOfConcat(x, [c]);
    RangesWithin(x, 0);
    RangesWithin(y, Size(x) + n);
    FreePlace(x, y, n);
    var fx, fy, f := Ranges(x, 0), Ranges(y, Size(x) + n), Fold(Size(x), Size(x) + n);
    assert fx != [] ==> fx[|fx| - 1] in fx;
    InsertSortedBetween(fx, fy, f);
    Assoc(fx, [f], fy);
  }

  lemma FreePlace(x: seq<Atom>, y: seq<Atom>, n: nat)
    requires FoldCount(x + y) < MAX_FOLDS
    ensures |Ranges(x, 0)| + |Ranges(y, Size(x) + n)| < MAX_FOLDS
  {
    hide Encode, Ranges, Bytes;
    RangesCount(x, 0);
    RangesCount(y, Size(x) + n);
    CountConcat(x, y);
  }

  lemma FoldedBytes(cs: seq<Scalar>)
    ensures Bytes([Folded(cs)]) == Encode(cs) && Size([Folded(cs)]) == |Encode(cs)|
  {
    FlatOne(Folded(cs));
  }

  lemma FoldedRange(cs: seq<Scalar>, off: nat)
    ensures Ranges([Folded(cs)], off) == [Fold(off, off + |Encode(cs)|)]
  {
    assert [Folded(cs)][1..] == [];
  }

  // ----- transposition

  lemma ExchangeBytes(x: seq<Atom>, a: Atom, b: Atom, y: seq<Atom>)
    ensures Size(x) + Size([a]) + Size([b]) <= Size(x + [a] + ([b] + y))
    ensures Swapped(Bytes(x + [a] + ([b] + y)), Size(x), Size(x) + Size([a]), Size(x) + Size([a]) + Size([b]))
            == Bytes(x + [b, a] + y)
  {
    hide Encode, Flat;
    hide Bytes, Swapped;
    var p, q, r, t := Bytes(x), Bytes([a]), Bytes([b]), Bytes(y);
    BytesConcat(x, [a]);
    BytesConcat([b], y);
    BytesConcat(x + [a], [b] + y);
    Exchanged(p, q, r, t);
    assert [b, a] == [b] + [a];
    BytesConcat([b], [a]);
    BytesConcat(x, [b, a]);
    BytesConcat(x + [b, a], y);
  }

  lemma Exchanged(p: seq<byte>, q: seq<byte>, r: seq<byte>, t: seq<byte>)
    ensures Swapped(p + q + (r + t), |p|, |p| + |q|, |p| + |q| + |r|) == p + (r + q) + t
  {
    var s := p + q + (r + t);
    assert s[..|p|] == p && s[|p| + |q|..|p| + |q| + |r|] == r;
    assert s[|p|..|p| + |q|] == q && s[|p| + |q| + |r|..] == t;
  }

  lemma CharRange(c: Scalar, off: nat)
    ensures Ranges([Char(c)], off) == [] && 1 <= Size([Char(c)]) <= 4
  {
    FlatOne(Char(c));
    EncodeOne(c);
    assert [Char(c)][1..] == [];
  }

  /** The folds around two adjacent atoms. */
  lemma RangesAroundTwo(x: seq<Atom>, a: Atom, b: Atom, y: seq<Atom>)
    ensures Ranges(x + [a] + ([b] + y), 0) ==
            Ranges(x, 0) + (Ranges([a], Size(x)) + (Ranges([b], Size(x) + Size([a])) +
            Ranges(y, Size(x) + Size([a]) + Size([b]))))
  {
    hide Encode, Flat, Ranges, Bytes;
    SizeOfConcat(x, [a]);
    RangesConcat(x + [a], [b] + y, 0);
    RangesConcat(x, [a], 0);
    RangesConcat([b], y, Size(x) + Size([a]));
    Assoc(Ranges(x, 0), Ranges([a], Size(x)), Ranges([b] + y, Size(x) + Size([a])));
  }

  /** Two characters overlap no fold; a fold overlaps itself. */
  lemma OverlapsIffFolded(x: seq<Atom>, a: Atom, b: Atom, y: seq<Atom>)
    requires AllOk(x) && a.Ok() && b.Ok() && AllOk(y)
    ensures Overlaps(Ranges(x + [a] + ([b] + y), 0), Size(x), Size([a]) + Size([b]))
            <==> a.Folded? || b.Folded?
  {
    hide Encode, Flat, Ranges, Bytes, AllOk;
    var fs := Ranges(x + [a] + ([b] + y), 0);
    var p, q := Size(x) + Size([a]), Size(x) + Size([a]) + Size([b]);
    RangesAroundTwo(x, a, b, y);
    RangesWithin(x, 0);
    RangesWithin(y, q);
    OneSize(a);
    OneSize(b);
    var fx, fa, fb, fy := Ranges(x, 0), Ranges([a], Size(x)), Ranges([b], p), Ranges(y, q);
    if a.Char? { CharRange(a.c, Size(x)); } else { FoldedRange(a.cs, Size(x)); FoldedBytes(a.cs); }
    if b.Char? { CharRange(b.c, p); } else { FoldedRange(b.cs, p); FoldedBytes(b.cs); }
    if a.Folded? {
      assert fs[|fx|] == Fold(Size(x), p);
    } else if b.Folded? {
      assert fs[|fx|] == Fold(p, q);
    } else {
      assert fs == fx + fy;
      forall j | 0 <= j < |fs| ensures !(q > fs[j].start && Size(x) < fs[j].end) {
        assert fs[j] in fx || fs[j] in fy;
      }
    }
  }

  lemma TransposeIsExchange(e: Editor)
    requires e.Ok()
    ensures Inv(Concrete(e)) && Transpose(Concrete(e)) == Concrete(Exchange(e))
  {
    hide Encode, Encode1, Ranges, Flat, StepLeft, StepRight, Overlaps, Inv, IsText, Swapped, Bytes, AllOk, Atom.Ok;
    ConcreteInv(e);
    var d := Concrete(e);
    SizeOfConcat(e.before, e.after);
    if e.before != [] && e.after != [] {
      var x, a := e.before[..|e.before| - 1], e.before[|e.before| - 1];
      var b, y := e.after[0], e.after[1..];
      StepLeftIsAtom(d, e.before, e.after);
      StepRightIsAtom(d, e.before, e.after);
      assert e.before == x + [a] && e.after == [b] + y;
      OkAround(x, a, b, y);
      SizeOfConcat(x, [a]);
      SizeOfConcat([b], y);
      OneSize(a);
      OneSize(b);
      OverlapsIffFolded(x, a, b, y);
      if a.Char? && b.Char? {
        CharRange(a.c, Size(x));
        CharRange(b.c, 0);
        ExchangeBytes(x, a, b, y);
        ExchangeRanges(x, a, b, y);
        assert [b, a] == [b] + [a];
        SizeOfConcat(x, [b, a]);
        SizeOfConcat([b], [a]);
      }
    } else {
      assert Size([]) == 0 by { EncodeNil(); EmptyFlat(); EmptyBytes(); }
    }
  }

  lemma EmptyBytes()
    ensures Bytes([]) == []
  {}

  lemma OkAround(x: seq<Atom>, a: Atom, b: Atom, y: seq<Atom>)
    requires AllOk(x + [a] + ([b] + y))
    ensures AllOk(x) && a.Ok() && b.Ok() && AllOk(y)
  {
    OkParts(x + [a], [b] + y);
    OkParts(x, [a]);
    OkParts([b], y);
    assert a in [a] && b in [b];
  }

  lemma ExchangeRanges(x: seq<Atom>, a: Atom, b: Atom, y: seq<Atom>)
    requires a.Char? && b.Char?
    ensures Ranges(x + [b, a] + y, 0) == Ranges(x + [a] + ([b] + y), 0)
  {
    hide Encode, Flat, Ranges, Bytes;
    assert x + [b, a] + y == x + [b] + ([a] + y);
    RangesAroundTwo(x, a, b, y);
    RangesAroundTwo(x, b, a, y);
    CharRange(a.c, Size(x));
    CharRange(b.c, Size(x));
    CharRange(a.c, Size(x) + Size([b]));
    CharRange(b.c, Size(x) + Size([a]));
  }

  // ----- recalling a history entry

  lemma FirstByte(c: Scalar)
    ensures Encode1(c)[0] == LF <==> c == 10
  {}

  lemma PlainPart(cs: seq<Scalar>, i: nat, j: nat)
    requires AllPlain(cs) && i <= j <= |cs|
    ensures AllPlain(cs[i..j])
  {
    assert forall c :: c in cs[i..j] ==> c in cs;
  }

  /** The character at a code-point index: its offset, length and first byte. */
  lemma PointAt(cs: seq<Scalar>, i: nat)
    requires AllPlain(cs) && i < |cs|
    ensures var s, p := Encode(cs), |Encode(cs[..i])|;
            && p + |Encode1(cs[i])| == |Encode(cs[..i + 1])| <= |s|
            && NextLen(s, p) == |Encode1(cs[i])|
            && PrevLen(s, |Encode(cs[..i + 1])|) == |Encode1(cs[i])|
            && (s[p] == LF <==> cs[i] == 10)
  {
    hide Encode, Encode1, NextLen, PrevLen, AllPlain;
    var a, b, c := cs[..i], cs[i..], cs[i];
    EncodeCut(cs, i);
    PlainPart(cs, 0, i);
    PlainPart(cs, i, |cs|);
    assert cs[i..|cs|] == b && cs[i + 1..|cs|] == cs[i + 1..];
    PlainSteps(a, b);
    EncodeCut(cs, i + 1);
    PlainPart(cs, 0, i + 1);
    PlainPart(cs, i + 1, |cs|);
    PlainSteps(cs[..i + 1], cs[i + 1..]);
    assert cs[..i + 1] == a + [c];
    EncodeSnoc(a, c);
    assert b == [c] + cs[i + 1..];
    EncodeCons(c, cs[i + 1..]);
    FirstByte(c);
  }

  lemma {:induction false} ContextRightPoints(cs: seq<Scalar>, i: nat, chars: nat, nl: bool)
    requires AllPlain(cs) && i <= |cs|
    ensures var k := if chars < |cs| - i then i + chars else |cs|;
            |Encode(cs[..i])| <= |Encode(cs)| &&
            ContextRight(Encode(cs), |Encode(cs[..i])|, chars, nl) ==
              Context(|Encode(cs[..k])|, nl || 10 in cs[i..k])
    decreases chars
  {
    hide Encode, Encode1, NextLen;
    EncodeCut(cs, i);
    if i == |cs| {
      assert cs[..i] == cs;
    } else if chars == 0 {
    } else {
      PointAt(cs, i);
      var k := if chars < |cs| - i then i + chars else |cs|;
      ContextRightPoints(cs, i + 1, chars - 1, nl || cs[i] == 10);
      SliceCons(cs, i, k);
    }
  }

  lemma {:induction false} ContextLeftPoints(cs: seq<Scalar>, i: nat, chars: nat, nl: bool)
    requires AllPlain(cs) && i <= |cs|
    ensures var k := if chars < i then i - chars else 0;
            |Encode(cs[..i])| <= |Encode(cs)| &&
            ContextLeft(Encode(cs), |Encode(cs[..i])|, chars, nl) ==
              Context(|Encode(cs[..k])|, nl || 10 in cs[k..i])
    decreases chars
  {
    hide Encode, Encode1, PrevLen;
    EncodeCut(cs, i);
    if i == 0 {
      assert Encode(cs[..0]) == [] by { EncodeNil(); }
    } else if chars == 0 {
    } else {
      PointAt(cs, i - 1);
      var k := if chars < i then i - chars else 0;
      ContextLeftPoints(cs, i - 1, chars - 1, nl || cs[i - 1] == 10);
      SliceSnoc(cs, k, i - 1);
    }
  }

  /** Characters, one fold, characters. */
  lemma AroundFold(a: seq<Scalar>, b: seq<Scalar>, c: seq<Scalar>)
    requires b != []
    ensures var xs := Chars(a) + [Folded(b)] + Chars(c);
            Flat(xs) == a + b + c && FoldCount(xs) == 1 &&
            Ranges(xs, 0) == [Fold(|Encode(a)|, |Encode(a + b)|)]
  {
    hide Encode, Flat, Ranges, Chars;
    var x, m, y := Chars(a), [Folded(b)], Chars(c);
    CharsFlat(a);
    CharsFlat(c);
    FlatConcat(x + m, y);
    FlatConcat(x, m);
    FlatOne(Folded(b));
    CountConcat(x + m, y);
    CountConcat(x, m);
    assert FoldCount(m) == 1 by { assert m[1..] == []; }
    RangesConcat(x + m, y, 0);
    RangesConcat(x, m, 0);
    FoldedRange(b, Size(x));
    EncodeConcat(a, b);
    assert [] + [Fold(|Encode(a)|, |Encode(a + b)|)] + [] == [Fold(|Encode(a)|, |Encode(a + b)|)];
  }

  lemma CharsOk(cs: seq<Scalar>)
    requires AllPlain(cs) && 0 !in cs && 10 !in cs
    ensures AllOk(Chars(cs))
  {
    forall x | x in Chars(cs) ensures x.Ok() {
      var k :| 0 <= k < |cs| && x == Char(cs[k]);
      assert cs[k] in cs;
    }
  }

  lemma AroundFoldOk(a: seq<Scalar>, b: seq<Scalar>, c: seq<Scalar>)
    requires AllPlain(a + b + c) && 0 !in a + b + c && b != [] && 10 !in a && 10 !in c
    ensures AllOk(Chars(a) + [Folded(b)] + Chars(c))
  {
    hide Plain, Chars;
    assert forall d :: d in a || d in b || d in c ==> d in a + b + c;
    CharsOk(a);
    CharsOk(c);
    assert Folded(b).Ok();
  }

  /** Where the hidden range of a recalled text begins and ends, in code points. */
  lemma HistoryFoldPoints(cs: seq<Scalar>) returns (i: nat, j: nat)
    requires AllPlain(cs)
    ensures var k := if |cs| < PASTE_FOLD_CONTEXT then |cs| else PASTE_FOLD_CONTEXT;
            && i == (if |Encode(cs)| <= 2 * PASTE_FOLD_CONTEXT || 10 in cs[..k] then 0 else k)
            && j == (if |Encode(cs)| <= 2 * PASTE_FOLD_CONTEXT || 10 in cs[|cs| - k..] then |cs| else |cs| - k)
    ensures HistoryFold(Encode(cs)) ==
            if i >= j then Fold(0, |Encode(cs)|) else Fold(|Encode(cs[..i])|, |Encode(cs[..j])|)
  {
    hide Encode, Encode1, ContextLeft, ContextRight;
    var s := Encode(cs);
    var k := if |cs| < PASTE_FOLD_CONTEXT then |cs| else PASTE_FOLD_CONTEXT;
    EncodeNil();
    assert cs[..0] == [] && cs[..|cs|] == cs;
    i := if |s| <= 2 * PASTE_FOLD_CONTEXT || 10 in cs[..k] then 0 else k;
    j := if |s| <= 2 * PASTE_FOLD_CONTEXT || 10 in cs[|cs| - k..] then |cs| else |cs| - k;
    if |s| > 2 * PASTE_FOLD_CONTEXT {
      ContextRightPoints(cs, 0, PASTE_FOLD_CONTEXT, false);
      ContextLeftPoints(cs, |cs|, PASTE_FOLD_CONTEXT, false);
      assert cs[0..k] == cs[..k] && cs[|cs| - k..|cs|] == cs[|cs| - k..];
      EncodeOrdered(cs, i, j);
    } else if i >= j {
      assert cs == [];
    }
  }

  lemma EncodeOrdered(cs: seq<Scalar>, i: nat, j: nat)
    requires i <= |cs| && j <= |cs|
    ensures |Encode(cs[..i])| < |Encode(cs[..j])| <==> i < j
  {
    hide Encode1;
    if i < j {
      assert cs[..j] == cs[..i] + cs[i..j];
      EncodeConcat(cs[..i], cs[i..j]);
    } else {
      assert cs[..i] == cs[..j] + cs[j..i];
      EncodeConcat(cs[..j], cs[j..i]);
    }
  }

  /** Recalling a plain text shows exactly the atoms of Recall, and they are well formed. */
  lemma RecalledIsRecall(cs: seq<Scalar>)
    requires AllPlain(cs) && 0 !in cs
    ensures Recall(cs).Ok() && Recalled(Encode(cs)) == Concrete(Recall(cs))
    ensures Flat(Recall(cs).All()) == cs && Recall(cs).after == []
  {
    hide Encode, Encode1, Plain, Chars, Flat, Ranges, HistoryFold;
    AsciiInEncode(cs, LF);
    var e := Recall(cs);
    assert e.All() == e.before;
    if ShouldFold(Encode(cs)) {
      RecalledFolded(cs);
    } else {
      CharsFlat(cs);
      CharsOk(cs);
    }
  }

  lemma RecalledFolded(cs: seq<Scalar>)
    requires AllPlain(cs) && 0 !in cs && ShouldFold(Encode(cs))
    ensures var xs, f := Recall(cs).before, HistoryFold(Encode(cs));
            && Recall(cs).after == []
            && AllOk(xs) && FoldCount(xs) == 1 && Flat(xs) == cs
            && f.start < f.end && Ranges(xs, 0) == [f]
  {
    hide Encode, Encode1, Plain, Chars, Flat, Ranges, HistoryFold, AllOk, FoldCount;
    AsciiInEncode(cs, LF);
    var i, j := HistoryFoldPoints(cs);
    assert |Encode(cs)| > 0;
    assert cs != [] by { EncodeNil(); }
    if i >= j {
      AroundFoldWhole(cs);
    } else {
      var a, b, c := cs[..i], cs[i..j], cs[j..];
      AroundFold(a, b, c);
      SliceJoin(cs, 0, i, j);
      Rejoin(cs, j);
      NoNewlineAround(cs, i, j);
      AroundFoldOk(a, b, c);
      EncodeOrdered(cs, i, j);
    }
  }

  lemma AroundFoldWhole(cs: seq<Scalar>)
    requires AllPlain(cs) && 0 !in cs && cs != []
    ensures AllOk([Folded(cs)]) && Flat([Folded(cs)]) == cs && FoldCount([Folded(cs)]) == 1
    ensures Ranges([Folded(cs)], 0) == [Fold(0, |Encode(cs)|)]
  {
    hide Plain;
    FlatOne(Folded(cs));
    FoldedRange(cs, 0);
    assert [Folded(cs)][1..] == [];
  }

  lemma NoNewlineAround(cs: seq<Scalar>, i: nat, j: nat)
    requires i <= j <= |cs|
    requires var k := if |cs| < PASTE_FOLD_CONTEXT then |cs| else PASTE_FOLD_CONTEXT;
             (i == 0 || (i == k && 10 !in cs[..k])) && (j == |cs| || (j == |cs| - k && 10 !in cs[|cs| - k..]))
    ensures 10 !in cs[..i] && 10 !in cs[j..]
  {}
}
