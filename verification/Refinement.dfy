/** Whole prompts refine a prompt over atoms, as long as the typed, pasted and recalled
    characters are plain: one code point per cluster, no NUL, no typed newline. */
module Refinement {
  import opened Seqs
  import opened Utf8
  import opened Clusters
  import opened Capacity
  import opened Document
  import opened Paste
  import opened History
  import opened Atoms
  import opened Session

  /** The prompt over atoms: an editor, the room it has, the history as characters. */
  datatype Sim = Sim(e: Editor, cap: Cap, hist: seq<seq<Scalar>>, idx: nat)

  predicate PlainText(cs: seq<Scalar>) { AllPlain(cs) && 0 !in cs }

  predicate SimOk(a: Sim) {
    && a.e.Ok() && CapOk(a.cap) && Size(a.e.All()) <= a.cap.buflen
    && a.idx < |a.hist|
    && forall cs :: cs in a.hist ==> PlainText(cs) && |Encode(cs)| <= a.cap.Limit()
  }

  function EntryOf(cs: seq<Scalar>): Line { CStr(Encode(cs)) }

  function Entries(h: seq<seq<Scalar>>): (r: seq<Line>)
    ensures |r| == |h| && forall i :: 0 <= i < |h| ==> r[i] == EntryOf(h[i])
  {
    seq(|h|, i requires 0 <= i < |h| => EntryOf(h[i]))
  }

  /** The state a prompt over atoms stands for. */
  function Concretion(a: Sim): State { State(Concrete(a.e), a.cap, Entries(a.hist), a.idx) }

  // ----- the prompt over atoms

  /** The bytes a paste may have: what is left of the maximum (the buffer when there is
      none), at most one mebibyte, and none when sixteen folds are stored. */
  function Room(a: Sim): nat {
    var left := (if a.cap.max != 0 then a.cap.max else a.cap.buflen) - Size(a.e.All());
    if left <= 0 || FoldCount(a.e.All()) >= 16 then 0 else if left < 1048576 then left else 1048576
  }

  function Write(a: Sim, xs: seq<Atom>): Sim {
    var needed := Size(a.e.All()) + Size(xs);
    if needed <= a.cap.Limit() then a.(e := Put(a.e, xs), cap := Grown(a.cap, needed)) else a
  }

  /** A pasted text: one fold when it has a newline or is long, else its characters. */
  function Pieces(cs: seq<Scalar>): seq<Atom> {
    if 10 in cs || |Encode(cs)| >= PASTE_FOLD_THRESHOLD then [Folded(cs)] else Chars(cs)
  }

  function PasteIn(a: Sim, cs: seq<Scalar>): Sim {
    var cap := Grown(a.cap, Size(a.e.All()) + |Fitting(Encode(cs), Room(a))|);
    if cs == [] || |Encode(cs)| > Room(a) then a.(cap := cap)
    else a.(e := Put(a.e, Pieces(NormalisePoints(cs))), cap := cap)
  }

  function Browse(a: Sim, up: bool): Sim
    requires a.idx < |a.hist|
  {
    if |a.hist| <= 1 then a
    else
      var h := a.hist[|a.hist| - 1 - a.idx := Flat(a.e.All())];
      var i := if up && a.idx + 1 < |h| then a.idx + 1 else if !up && 0 < a.idx then a.idx - 1 else a.idx;
      if i == a.idx then a.(hist := h)
      else
        var cs := h[|h| - 1 - i];
        Sim(Recall(cs), Grown(a.cap, |Encode(cs)|), h, i)
  }

  function SimApply(a: Sim, k: Key): (Sim, Outcome)
    requires SimOk(a)
  {
    match k
    case Type(c) => (Write(a, [Char(c)]), More)
    case PasteText(cs) => (PasteIn(a, cs), More)
    case KeyLeft => (a.(e := Left(a.e)), More)
    case KeyRight => (a.(e := Right(a.e)), More)
    case KeyHome => (a.(e := ToHome(a.e)), More)
    case KeyEnd => (a.(e := ToEnd(a.e)), More)
    case KeyDelete => (a.(e := DeleteNext(a.e)), More)
    case KeyBackspace => (a.(e := DeletePrevious(a.e)), More)
    case KeyWord => (a.(e := DeleteWordBack(a.e)), More)
    case KeySwap => (a.(e := Exchange(a.e)), More)
    case KeyKillLine => (a.(e := Editor([], [])), More)
    case KeyKillEnd => (a.(e := Editor(a.e.before, [])), More)
    case KeyUp => (Browse(a, true), More)
    case KeyDown => (Browse(a, false), More)
    case KeyIgnored => (a, More)
    case KeyEnter => (a.(hist := a.hist[..|a.hist| - 1]), Finished(EntryOf(Flat(a.e.All()))))
    case KeyCtrlC => (a, Interrupted)
    case KeyEscape => (a, Finished([ESC]))
    case KeyCtrlD =>
      if a.e.All() != [] then (a.(e := DeleteNext(a.e)), More)
      else (a.(hist := a.hist[..|a.hist| - 1]), EndOfFile)
  }

  /** The keys the refinement is about. */
  predicate PlainKey(k: Key) {
    && KeyOk(k)
    && (k.Type? ==> Plain(k.c) && k.c != 0 && k.c != 10)
    && (k.PasteText? ==> PlainText(k.cs))
  }

  // ----- entries

  lemma EntryIsBytes(cs: seq<Scalar>)
    requires 0 !in cs
    ensures EntryOf(cs) == Encode(cs)
  {
    AsciiInEncode(cs, 0);
  }

  lemma EditorText(e: Editor)
    requires e.Ok()
    ensures PlainText(Flat(e.All())) && Concrete(e).text == Encode(Flat(e.All()))
    ensures CStr(Concrete(e).text) == EntryOf(Flat(e.All()))
  {
    FlatPlain(e.All());
  }

  lemma ConcretionInv(a: Sim)
    requires SimOk(a)
    ensures StateInv(Concretion(a))
  {
    hide Encode, Document.Inv, IsText, Editor.Ok;
    ConcreteInv(a.e);
    forall e | e in Entries(a.hist) ensures EntryOk(e, a.cap) {
      var i :| 0 <= i < |a.hist| && e == EntryOf(a.hist[i]);
      assert a.hist[i] in a.hist;
      EntryIsBytes(a.hist[i]);
      TextOfPoints(a.hist[i]);
    }
  }

  lemma TextOfPoints(cs: seq<Scalar>)
    ensures IsText(Encode(cs))
  {}

  // ----- the editor operations keep the editor well formed

  lemma SubsetOk(e: Editor, f: Editor)
    requires e.Ok() && (forall x :: x in f.All() ==> x in e.All()) && FoldCount(f.All()) <= FoldCount(e.All())
    ensures f.Ok()
  {}

  lemma CountParts(a: seq<Atom>, b: seq<Atom>, c: seq<Atom>)
    ensures FoldCount(a + c) <= FoldCount(a + b + c)
  {
    CountConcat(a + b, c);
    CountConcat(a, b);
    CountConcat(a, c);
  }

  /** Taking out the atoms b. */
  lemma CutOk(a: seq<Atom>, b: seq<Atom>, c: seq<Atom>, e: Editor)
    requires e.Ok() && e.All() == a + b + c
    ensures Editor(a, c).Ok() && Size(a + c) <= Size(a + b + c)
  {
    hide Atom.Ok, Bytes;
    CountParts(a, b, c);
    SubsetOk(e, Editor(a, c));
    SizeOfConcat(a + b, c);
    SizeOfConcat(a, b);
    SizeOfConcat(a, c);
  }

  /** Putting in the atoms m. */
  lemma PutOk(e: Editor, m: seq<Atom>)
    requires e.Ok() && AllOk(m) && FoldCount(e.All()) + FoldCount(m) <= MAX_FOLDS
    ensures Put(e, m).Ok() && Size(Put(e, m).All()) == Size(e.All()) + Size(m)
  {
    hide Atom.Ok, Bytes;
    var x, y := e.before, e.after;
    CountConcat(x + m, y);
    CountConcat(x, m);
    CountConcat(x, y);
    SizeOfConcat(x + m, y);
    SizeOfConcat(x, m);
    SizeOfConcat(x, y);
    forall z | z in x + m + y ensures z.Ok() {
      if z !in m {
        assert z in e.All();
      }
    }
  }

  lemma ExchangeOk(e: Editor)
    requires e.Ok()
    ensures Exchange(e).Ok() && Size(Exchange(e).All()) == Size(e.All())
  {
    hide Atom.Ok, Bytes;
    if Exchange(e) != e {
      var x, a := e.before[..|e.before| - 1], e.before[|e.before| - 1];
      var b, y := e.after[0], e.after[1..];
      assert e.before == x + [a] && e.after == [b] + y;
      assert [b, a] == [b] + [a];
      CountConcat(x + [a], [b] + y);
      CountConcat(x, [a]);
      CountConcat([b], y);
      CountConcat(x + [b, a], y);
      CountConcat(x, [b, a]);
      CountConcat([b], [a]);
      SizeOfConcat(x + [a], [b] + y);
      SizeOfConcat(x, [a]);
      SizeOfConcat([b], y);
      SizeOfConcat(x + [b, a], y);
      SizeOfConcat(x, [b, a]);
      SizeOfConcat([b], [a]);
      forall z | z in Exchange(e).All() ensures z in e.All() {
        assert z in x || z == b || z == a || z in y;
      }
      SubsetOk(e, Exchange(e));
    }
  }

  lemma MovesKeepAll(e: Editor)
    ensures Left(e).All() == e.All() && Right(e).All() == e.All()
    ensures ToHome(e).All() == e.All() && ToEnd(e).All() == e.All()
  {
    if e.before != [] {
      assert e.before == e.before[..|e.before| - 1] + [e.before[|e.before| - 1]];
    }
    if e.after != [] {
      assert e.after == [e.after[0]] + e.after[1..];
    }
  }

  // ----- key by key

  lemma EditRefines(a: Sim, k: Key)
    requires SimOk(a) && PlainKey(k)
    requires k.KeyLeft? || k.KeyRight? || k.KeyHome? || k.KeyEnd? || k.KeyIgnored?
             || k.KeyDelete? || k.KeyBackspace? || k.KeyWord? || k.KeySwap? || k.KeyKillLine? || k.KeyKillEnd?
    ensures StateInv(Concretion(a)) && SimOk(SimApply(a, k).0)
    ensures Apply(Concretion(a), k).0 == Concretion(SimApply(a, k).0)
  {
    hide Encode, Document.Inv, IsText, StateInv, Editor.Ok, AllOk, Concrete, FoldCount, MoveLeft, MoveRight, Home, End,
      Delete, Backspace, DeleteWord, Transpose, KillEnd, KillLine, Flat, CapOk, Entries, DropEnd;
    ConcretionInv(a);
    var e := a.e;
    MovesKeepAll(e);
    SameAllOk(e);
    match k
    case KeyLeft => LeftIsLeft(e);
    case KeyRight => RightIsRight(e);
    case KeyHome => HomeIsHome(e);
    case KeyEnd => HomeIsHome(e);
    case KeyDelete =>
      DeleteIsDelete(e);
      DeleteNextOk(e);
    case KeyBackspace =>
      BackspaceIsBackspace(e);
      if e.before != [] {
        var r, c := e.before[..|e.before| - 1], e.before[|e.before| - 1];
        assert e.before == r + [c];
        CutOk(r, [c], e.after, e);
      }
    case KeyWord =>
      DeleteWordIsDropEnd(e);
      var w := DeleteWordBack(e).before;
      assert w == e.before[..|w|] by { DropTwice(e); }
      Rejoin(e.before, |w|);
      CutOk(w, e.before[|w|..], e.after, e);
    case KeySwap =>
      TransposeIsExchange(e);
      ExchangeOk(e);
    case KeyKillLine =>
      KillEndIsCut(e);
      assert [] + e.All() + [] == e.All();
      CutOk([], e.All(), [], e);
    case KeyKillEnd =>
      KillEndIsCut(e);
      assert e.before + e.after + [] == e.All();
      CutOk(e.before, e.after, [], e);
    case KeyIgnored =>
  }

  lemma SameAllOk(e: Editor)
    requires e.Ok()
    ensures Left(e).Ok() && Right(e).Ok() && ToHome(e).Ok() && ToEnd(e).Ok()
  {
    MovesKeepAll(e);
  }

  lemma DropTwice(e: Editor)
    requires e.Ok()
    ensures var w := DeleteWordBack(e).before; |w| <= |e.before| && w == e.before[..|w|]
  {
    OkParts(e.before, e.after);
    var r := DropEnd(e.before, true);
    assert e.before == r + e.before[|r|..];
    OkParts(r, e.before[|r|..]);
  }

  lemma DeleteNextOk(e: Editor)
    requires e.Ok()
    ensures DeleteNext(e).Ok() && Size(DeleteNext(e).All()) <= Size(e.All())
  {
    if e.after != [] {
      var c, r := e.after[0], e.after[1..];
      assert e.after == [c] + r;
      Assoc(e.before, [c], r);
      CutOk(e.before, [c], r, e);
    }
  }

  lemma TypeRefines(a: Sim, c: Scalar)
    requires SimOk(a) && PlainKey(Type(c))
    ensures StateInv(Concretion(a)) && SimOk(SimApply(a, Type(c)).0)
    ensures Apply(Concretion(a), Type(c)).0 == Concretion(SimApply(a, Type(c)).0)
  {
    hide Encode, Encode1, Document.Inv, IsText, StateInv, Editor.Ok, AllOk, Flat, Insert, Entries, Ranges;
    ConcretionInv(a);
    InsertIsPut(a.e, [c]);
    assert Chars([c]) == [Char(c)];
    EncodeOne(c);
    FlatOne(Char(c));
    var needed := Size(a.e.All()) + Size([Char(c)]);
    GrownCapOk(a.cap, needed);
    OneCharOk(c);
    PutOk(a.e, [Char(c)]) by { OkCount(a.e); }
  }

  lemma OkCount(e: Editor)
    requires e.Ok()
    ensures FoldCount(e.All()) <= MAX_FOLDS && AllOk(e.All())
  {}

  lemma OneCharOk(c: Scalar)
    requires Plain(c) && c != 0 && c != 10
    ensures AllOk([Char(c)]) && FoldCount([Char(c)]) == 0
  {
    assert [Char(c)][1..] == [];
  }

  // ----- pastes

  lemma PiecesAre(cs: seq<Scalar>)
    requires PlainText(cs) && cs != []
    ensures ShouldFold(Encode(cs)) <==> Pieces(cs) == [Folded(cs)]
    ensures !ShouldFold(Encode(cs)) ==> Pieces(cs) == Chars(cs)
    ensures AllOk(Pieces(cs)) && Size(Pieces(cs)) == |Encode(cs)|
    ensures FoldCount(Pieces(cs)) == if ShouldFold(Encode(cs)) then 1 else 0
  {
    hide Encode, Encode1, Plain, Flat;
    AsciiInEncode(cs, LF);
    if ShouldFold(Encode(cs)) {
      FoldedBytes(cs);
      assert [Folded(cs)][1..] == [];
    } else {
      CharsOk(cs);
      CharsFlat(cs);
      assert Chars(cs)[0] == Char(cs[0]);
    }
  }

  lemma PasteScanIs(a: Sim, cs: seq<Scalar>)
    requires SimOk(a) && NoEnd(Encode(cs))
    ensures PasteScan(Concretion(a), cs).kept == Fitting(Encode(cs), Room(a))
    ensures PasteLimit(a.cap, |Concrete(a.e).text|, |Concrete(a.e).folds|) == Room(a)
  {
    hide Encode, ScanPaste, Fitting, NoEnd;
    RangesCount(a.e.All(), 0);
    NoneLeft(Encode(cs) + END);
    PasteKeeps(Encode(cs), [], Room(a));
  }

  lemma PasteRefines(a: Sim, cs: seq<Scalar>)
    requires SimOk(a) && PlainKey(PasteText(cs))
    ensures StateInv(Concretion(a)) && SimOk(SimApply(a, PasteText(cs)).0)
    ensures Apply(Concretion(a), PasteText(cs)).0 == Concretion(SimApply(a, PasteText(cs)).0)
  {
    hide Encode, Encode1, Document.Inv, IsText, StateInv, Editor.Ok, AllOk, Flat, Insert, InsertFolded, Entries,
      Ranges, ShouldFold, Plain, NormalisePoints, Normalise, NoEnd, ScanPaste, PasteScan, PasteLimit, Pieces,
      Bytes, Put, Fitting;
    ConcretionInv(a);
    var st := Concretion(a);
    PasteScanIs(a, cs);
    PasteScanned(st, cs);
    RoomBound(a);
    var scan := PasteScan(st, cs);
    var needed := Size(a.e.All()) + |scan.kept|;
    GrownCapOk(a.cap, needed);
    GrownHistOk(a, needed);
    if cs == [] {
      EncodeNil();
    } else if |Encode(cs)| <= Room(a) {
      var xs := NormalisePoints(cs);
      NormaliseEncoded(cs);
      NormalisePointsPlain(cs);
      PiecesAre(xs);
      OkCount(a.e);
      PutOk(a.e, Pieces(xs));
      assert |Normalise(scan.kept)| <= |scan.kept|;
      assert scan.kept != [];
      if ShouldFold(Encode(xs)) {
        FoldedIsOk(xs);
        InsertFoldedIsPut(a.e, xs);
      } else {
        InsertIsPut(a.e, xs);
      }
    }
  }

  /** A paste in numbers: up to one mebibyte, within the maximum and with fewer than sixteen
      folds it goes in at the cursor, as one fold when it has a newline or 200 bytes and as
      its characters otherwise; any other changes nothing that is shown or edited. */
  lemma PasteInNumbers(a: Sim, cs: seq<Scalar>)
    requires SimOk(a) && PlainKey(PasteText(cs))
    ensures var n, xs, e := |Encode(cs)|, NormalisePoints(cs), a.e;
            var ys := if 10 in xs || |Encode(xs)| >= 200 then [Folded(xs)] else Chars(xs);
            var fits := && 0 < n <= 1048576 && FoldCount(e.All()) < 16
                        && Size(e.All()) + n <= (if a.cap.max != 0 then a.cap.max else a.cap.buflen);
            && StateInv(Concretion(a))
            && Apply(Concretion(a), PasteText(cs)).0.doc ==
               if fits then Concrete(Editor(e.before + ys, e.after)) else Concrete(e)
  {
    hide *;
    PasteRefines(a, cs);
    PastedAtoms(a, cs);
    DocOf(SimApply(a, PasteText(cs)).0);
  }

  lemma DocOf(a: Sim)
    ensures Concretion(a).doc == Concrete(a.e)
  {}

  lemma PastedAtoms(a: Sim, cs: seq<Scalar>)
    requires SimOk(a) && PlainKey(PasteText(cs))
    ensures var n, xs, e := |Encode(cs)|, NormalisePoints(cs), a.e;
            var ys := if 10 in xs || |Encode(xs)| >= 200 then [Folded(xs)] else Chars(xs);
            var fits := && 0 < n <= 1048576 && FoldCount(e.All()) < 16
                        && Size(e.All()) + n <= (if a.cap.max != 0 then a.cap.max else a.cap.buflen);
            SimApply(a, PasteText(cs)).0.e == if fits then Editor(e.before + ys, e.after) else e
  {
    hide Encode, NormalisePoints, Bytes, Editor.Ok, PlainText, NoEnd, Fitting;
    EmptyEncodes(cs);
  }

  lemma EmptyEncodes(cs: seq<Scalar>)
    ensures Encode(cs) == [] <==> cs == []
  {}

  lemma FoldedIsOk(cs: seq<Scalar>)
    requires PlainText(cs) && cs != []
    ensures Folded(cs).Ok()
  {}

  lemma RoomBound(a: Sim)
    requires SimOk(a)
    ensures Size(a.e.All()) + Room(a) <= a.cap.Limit()
    ensures 0 < Room(a) ==> FoldCount(a.e.All()) < MAX_FOLDS
  {
    hide Bytes;
  }

  lemma GrownHistOk(a: Sim, needed: nat)
    requires SimOk(a)
    ensures SimOk(a.(cap := Grown(a.cap, needed)))
  {
    hide Editor.Ok, Encode, PlainText;
    GrownCapOk(a.cap, needed);
  }

  // ----- history

  lemma ViewIs(a: Sim)
    requires SimOk(a)
    ensures Concretion(a).View() == Entries(a.hist[|a.hist| - 1 - a.idx := Flat(a.e.All())])
  {
    hide Encode, Flat;
    EditorText(a.e);
  }

  lemma StoredOk(a: Sim)
    requires SimOk(a)
    ensures var h := a.hist[|a.hist| - 1 - a.idx := Flat(a.e.All())];
            forall cs :: cs in h ==> PlainText(cs) && |Encode(cs)| <= a.cap.Limit()
  {
    hide Encode, PlainText, Flat;
    EditorText(a.e);
    var h := a.hist[|a.hist| - 1 - a.idx := Flat(a.e.All())];
    forall cs | cs in h ensures PlainText(cs) && |Encode(cs)| <= a.cap.Limit() {
      assert cs in a.hist || cs == Flat(a.e.All());
    }
  }

  lemma BrowseRefines(a: Sim, up: bool)
    requires SimOk(a)
    ensures StateInv(Concretion(a)) && SimOk(Browse(a, up))
    ensures Navigated(Concretion(a), up) == Concretion(Browse(a, up))
  {
    hide Encode, Document.Inv, IsText, StateInv, Editor.Ok, Flat, Entries, Recalled, Recall, Concrete, PlainText,
      EntryOf, Bytes;
    ConcretionInv(a);
    if 1 < |a.hist| {
      ViewIs(a);
      StoredOk(a);
      var h := a.hist[|a.hist| - 1 - a.idx := Flat(a.e.All())];
      var i := if up && a.idx + 1 < |h| then a.idx + 1 else if !up && 0 < a.idx then a.idx - 1 else a.idx;
      if i != a.idx {
        var cs := h[|h| - 1 - i];
        assert cs in h;
        assert PlainText(cs);
        ShownIs(a, h, i);
      }
    }
  }

  lemma ShownIs(a: Sim, h: seq<seq<Scalar>>, i: nat)
    requires CapOk(a.cap) && i < |h|
    requires forall cs :: cs in h ==> PlainText(cs) && |Encode(cs)| <= a.cap.Limit()
    ensures var cs := h[|h| - 1 - i];
            var b := Sim(Recall(cs), Grown(a.cap, |Encode(cs)|), h, i);
            SimOk(b) &&
            forall st: State :: st.cap == a.cap && st.hist == Entries(h) && st.idx == i ==> Shown(st) == Concretion(b)
  {
    hide Encode, Flat, Recalled, Recall, Concrete, Editor.Ok;
    var cs := h[|h| - 1 - i];
    assert cs in h;
    RecalledIsRecall(cs);
    EntryIsBytes(cs);
    GrownCapOk(a.cap, |Encode(cs)|);
  }

  // ----- any key, and any run of keys

  lemma EntriesInit(h: seq<seq<Scalar>>)
    requires h != []
    ensures Entries(h[..|h| - 1]) == Entries(h)[..|h| - 1]
  {}

  lemma EmptyIffNoAtoms(e: Editor)
    requires e.Ok()
    ensures Concrete(e).text == [] <==> e.All() == []
  {
    hide Encode;
    var xs := e.All();
    if xs == [] {
      EncodeNil();
    } else {
      assert xs == [xs[0]] + xs[1..] && xs[0] in xs;
      BytesConcat([xs[0]], xs[1..]);
      OneSize(xs[0]);
    }
  }

  /** Every key does to the line editor what it does to the list of atoms, with the same
      outcome, and leaves the atoms well formed. */
  lemma KeyRefines(a: Sim, k: Key)
    requires SimOk(a) && PlainKey(k)
    ensures StateInv(Concretion(a))
    ensures var (b, o) := SimApply(a, k);
            Apply(Concretion(a), k) == (Concretion(b), o) && (o.More? ==> SimOk(b))
  {
    hide Encode, Document.Inv, IsText, StateInv, Editor.Ok, Flat, Entries, Browse, Write, PasteIn, Pasted, Typed,
      Navigated, DeleteNext, Delete, Left, Right, MoveLeft, MoveRight, Home, End, Backspace, DeleteWord, Transpose,
      KillLine, KillEnd, Insert, InsertFolded, Put, PasteScan, Bytes, Ranges;
    ConcretionInv(a);
    match k
    case Type(c) => TypeRefines(a, c);
    case PasteText(cs) => PasteRefines(a, cs);
    case KeyUp => BrowseRefines(a, true);
    case KeyDown => BrowseRefines(a, false);
    case KeyEnter => EntriesInit(a.hist); EditorText(a.e);
    case KeyCtrlC =>
    case KeyEscape =>
    case KeyCtrlD =>
      EntriesInit(a.hist);
      EmptyIffNoAtoms(a.e);
      EditRefines(a, KeyDelete);
    case _ => EditRefines(a, k);
  }

  predicate PlainKeys(ks: seq<Key>) { forall k :: k in ks ==> PlainKey(k) }

  function SimRun(a: Sim, ks: seq<Key>): (Sim, Outcome)
    requires SimOk(a) && PlainKeys(ks)
    decreases |ks|
  {
    if ks == [] then (a, More)
    else
      assert ks[0] in ks && forall k :: k in ks[1..] ==> k in ks;
      KeyRefines(a, ks[0]);
      var (b, o) := SimApply(a, ks[0]);
      if o.More? then SimRun(b, ks[1..]) else (b, o)
  }

  /** Whole runs: the line editor reaches exactly the state that the run over atoms
      stands for, with the same outcome. */
  lemma {:induction false} RunRefines(a: Sim, ks: seq<Key>)
    requires SimOk(a) && PlainKeys(ks)
    ensures StateInv(Concretion(a)) && KeysOk(ks)
    ensures var (b, o) := SimRun(a, ks);
            Run(Concretion(a), ks) == (Concretion(b), o) && (o.More? ==> SimOk(b))
    decreases |ks|
  {
    hide SimOk, PlainKey, StateInv, Concretion, Apply, SimApply;
    SimStateInv(a);
    PlainKeysOk(ks);
    if ks != [] {
      assert ks[0] in ks && forall k :: k in ks[1..] ==> k in ks;
      KeyRefines(a, ks[0]);
      var (b, o) := SimApply(a, ks[0]);
      if o.More? {
        RunRefines(b, ks[1..]);
      }
    }
  }

  lemma SimStateInv(a: Sim)
    requires SimOk(a)
    ensures StateInv(Concretion(a))
  {
    ConcretionInv(a);
  }

  lemma PlainKeysOk(ks: seq<Key>)
    requires PlainKeys(ks)
    ensures KeysOk(ks)
  {}

  // ----- what the refinement gives for every reachable document

  /** The cursor is never strictly inside a fold. */
  predicate CursorOutside(d: Doc) {
    forall f :: f in d.folds ==> !(f.start < d.pos < f.end)
  }

  /** Every newline of the text is inside a fold. */
  predicate NewlinesFolded(d: Doc) {
    forall i :: 0 <= i < |d.text| && d.text[i] == LF ==> exists f :: f in d.folds && f.start <= i < f.end
  }

  lemma CursorIsOutside(e: Editor)
    requires e.Ok()
    ensures CursorOutside(Concrete(e))
  {
    hide Encode, Ranges, Flat, Bytes;
    OkParts(e.before, e.after);
    RangesConcat(e.before, e.after, 0);
    RangesWithin(e.before, 0);
    RangesWithin(e.after, Size(e.before));
  }

  lemma NewlineAtom(x: Atom, i: nat)
    requires x.Ok() && i < |Encode(x.Points())| && Encode(x.Points())[i] == LF
    ensures x.Folded?
  {
    hide Encode;
    AsciiInEncode(x.Points(), LF);
  }

  lemma {:induction false} NewlineInRange(xs: seq<Atom>, off: nat, i: nat)
    requires AllOk(xs) && i < Size(xs) && Bytes(xs)[i] == LF
    ensures exists f :: f in Ranges(xs, off) && f.start <= off + i < f.end
    decreases |xs|
  {
    hide Encode, Atom.Ok, AllOk, Bytes;
    if xs == [] {
      EmptyBytes();
    } else {
      var x, r := xs[0], xs[1..];
      FirstAtom(xs);
      var n := |Encode(x.Points())|;
      if i < n {
        NewlineAtom(x, i);
        assert Ranges(xs, off)[0] == Fold(off, off + n);
      } else {
        NewlineInRange(r, off + n, i - n);
        var f :| f in Ranges(r, off + n) && f.start <= off + i < f.end;
        assert f in Ranges(xs, off);
      }
    }
  }

  /** In every state reachable by plain keys: the folds are sorted, disjoint, non-empty,
      in range and at most sixteen (Inv), the cursor is outside them, and no newline is. */
  lemma ReachableDocument(a: Sim, ks: seq<Key>)
    requires SimOk(a) && PlainKeys(ks)
    ensures StateInv(Concretion(a)) && KeysOk(ks)
    ensures var (st, o) := Run(Concretion(a), ks);
            o.More? ==> Inv(st.doc) && CursorOutside(st.doc) && NewlinesFolded(st.doc)
  {
    RunRefines(a, ks);
    var (b, o) := SimRun(a, ks);
    if o.More? {
      EditorDocument(b.e);
    }
  }

  lemma EditorDocument(e: Editor)
    requires e.Ok()
    ensures Inv(Concrete(e)) && CursorOutside(Concrete(e)) && NewlinesFolded(Concrete(e))
  {
    hide Encode, Ranges, Flat;
    ConcreteInv(e);
    CursorIsOutside(e);
    var d := Concrete(e);
    forall i | 0 <= i < |d.text| && d.text[i] == LF
      ensures exists f :: f in d.folds && f.start <= i < f.end
    {
      NewlineInRange(e.All(), 0, i);
    }
  }
}
