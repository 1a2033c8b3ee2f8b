/** Over whole runs of a prompt: the cursor gets inside a fold by a step that enters one, and
    by nothing else (cli/linenoise.c:2120-2311). */
module CursorRuns {
  import opened Seqs
  import opened Utf8
  import opened Clusters
  import opened Capacity
  import opened Document
  import opened Paste
  import opened History
  import opened Session
  import opened Refinement
  import opened Zipper
  import opened Cursor

  // ----- keys that leave the cursor outside whatever the folds are

  lemma {:induction false} BesideInsert(fs: seq<Fold>, p: nat, n: nat)
    ensures forall f :: f in ShiftedByInsert(fs, p, n) ==> p + n <= f.start || f.end <= p
  {
    if fs != [] {
      BesideInsert(fs[1..], p, n);
    }
  }

  lemma {:induction false} BesideDelete(fs: seq<Fold>, p: nat, n: nat)
    ensures forall f :: f in ShiftedByDelete(fs, p, n) ==> p <= f.start || f.end <= p
  {
    if fs != [] {
      BesideDelete(fs[1..], p, n);
    }
  }

  lemma {:induction false} OneMoreFold(fs: seq<Fold>, f: Fold)
    ensures forall g :: g in InsertSorted(fs, f) ==> g in fs || g == f
  {
    if fs != [] && fs[|fs| - 1].start > f.start {
      OneMoreFold(fs[..|fs| - 1], f);
    }
  }

  lemma InsertOutside(d: Doc, x: seq<byte>)
    requires Inv(d) && IsText(x)
    ensures CursorOutside(Insert(d, x)) && CursorOutside(InsertFolded(d, x))
  {
    hide IsText, Inv, ShiftedByInsert, InsertSorted, Spliced;
    BesideInsert(d.folds, d.pos, |x|);
    OneMoreFold(ShiftedByInsert(d.folds, d.pos, |x|), Fold(d.pos, d.pos + |x|));
  }

  lemma RemovedOutside(d: Doc, p: nat, n: nat)
    requires Inv(d) && Boundary(d.text, p) && Boundary(d.text, p + n)
    ensures CursorOutside(Removed(d, p, n))
  {
    hide IsText, Inv, ShiftedByDelete;
    BesideDelete(d.folds, p, n);
  }

  lemma TransposeOutside(d: Doc)
    requires Inv(d) && CursorOutside(d)
    ensures CursorOutside(Transpose(d))
  {
    hide IsText, Inv, StepLeft, StepRight, Boundary, Swapped;
    if 0 < d.pos < |d.text| {
      TransposeSteps(d);
      var i, n := d.pos - StepLeft(d, d.pos), StepLeft(d, d.pos) + StepRight(d, d.pos);
      if !Overlaps(d.folds, i, n) {
        forall f | f in d.folds ensures i + n <= f.start || f.end <= i {
          var k :| 0 <= k < |d.folds| && d.folds[k] == f;
        }
      }
    }
  }

  lemma EndsOutside(d: Doc)
    requires Inv(d)
    ensures d.pos == 0 || d.pos == |d.text| ==> CursorOutside(d)
  {
    FoldsOrdered(d.folds, 0, d.text);
  }

  lemma EditsOutside(d: Doc)
    requires Inv(d) && CursorOutside(d)
    ensures CursorOutside(Home(d)) && CursorOutside(End(d)) && CursorOutside(Delete(d)) && CursorOutside(Backspace(d))
    ensures CursorOutside(DeleteWord(d)) && CursorOutside(KillEnd(d)) && CursorOutside(KillLine(d))
    ensures CursorOutside(Transpose(d))
  {
    hide IsText, Inv, StepLeft, StepRight, SkipLeft, Boundary, Removed, Transpose, CursorOutside;
    EndsOutside(Home(d));
    EndsOutside(End(d));
    EndsOutside(KillLine(d));
    TextOfDoc(d);
    WholeBoundary(d.text);
    TransposeOutside(d);
    if d.pos < |d.text| {
      StepRightLands(d, d.pos);
      RemovedOutside(d, d.pos, StepRight(d, d.pos));
    }
    if 0 < d.pos {
      StepLeftLands(d, d.pos);
      RemovedOutside(d, d.pos - StepLeft(d, d.pos), StepLeft(d, d.pos));
    }
    SkipLeftLands(d, d.pos, true);
    SkipLeftLands(d, SkipLeft(d, d.pos, true), false);
    RemovedOutside(d, WordStart(d), d.pos - WordStart(d));
    RemovedOutside(d, d.pos, |d.text| - d.pos);
  }

  lemma WholeBoundary(s: seq<byte>)
    ensures Boundary(s, |s|)
  {}

  lemma BrowsedOutside(st: State, up: bool)
    requires StateInv(st) && CursorOutside(st.doc)
    ensures CursorOutside(Navigated(st, up).doc)
  {
    hide Document.Inv, IsText, HistoryFold, FoldAdded, CursorOutside, ShouldFold;
    NavigatedInv(st, up);
    EndsOutside(Navigated(st, up).doc);
  }

  // ----- text without joiners and flags stays so

  lemma PartsJoinFree(s: seq<byte>, i: nat)
    requires JoinFree(s) && Boundary(s, i)
    ensures JoinFree(s[..i]) && JoinFree(s[i..])
  {
    hide PointsOf, Encode, IsText;
    var cs := PointsOf(s);
    var k := SplitAt(cs, i);
    PointsOfEncode(cs[..k]);
    PointsOfEncode(cs[k..]);
    NoJoinPart(cs, k);
  }

  lemma WholeJoinFree(s: seq<byte>, t: seq<byte>)
    requires JoinFree(s) && JoinFree(t)
    ensures JoinFree(s + t)
  {
    hide PointsOf, Encode, IsText;
    var a, b := PointsOf(s), PointsOf(t);
    EncodeConcat(a, b);
    PointsOfEncode(a + b);
  }

  lemma CharactersJoinFree(cs: seq<Scalar>)
    requires NoJoin(cs)
    ensures JoinFree(Encode(cs))
  {
    PointsOfEncode(cs);
  }

  lemma SplicedJoinFree(s: seq<byte>, p: nat, x: seq<byte>)
    requires JoinFree(s) && Boundary(s, p) && JoinFree(x)
    ensures JoinFree(Spliced(s, p, x))
  {
    hide JoinFree, Boundary;
    PartsJoinFree(s, p);
    WholeJoinFree(s[..p], x);
    WholeJoinFree(s[..p] + x, s[p..]);
  }

  lemma CutJoinFree(s: seq<byte>, p: nat, n: nat)
    requires JoinFree(s) && Boundary(s, p) && Boundary(s, p + n)
    ensures JoinFree(Cut(s, p, n))
  {
    hide JoinFree, Boundary;
    PartsJoinFree(s, p);
    PartsJoinFree(s, p + n);
    WholeJoinFree(s[..p], s[p + n..]);
  }

  lemma MiddleJoinFree(s: seq<byte>, i: nat, j: nat)
    requires JoinFree(s) && Boundary(s, i) && Boundary(s, j) && i <= j
    ensures JoinFree(s[i..j])
  {
    hide JoinFree;
    PartsJoinFree(s, i);
    var r := s[i..];
    assert j < |s| ==> r[j - i] == s[j];
    PartsJoinFree(r, j - i);
    CutOfDrop(s, i, j - i);
  }

  lemma SwappedJoinFree(s: seq<byte>, i: nat, p: nat, j: nat)
    requires JoinFree(s) && i < p < j && Boundary(s, i) && Boundary(s, p) && Boundary(s, j)
    ensures JoinFree(Swapped(s, i, p, j))
  {
    hide JoinFree;
    PartsJoinFree(s, i);
    PartsJoinFree(s, j);
    MiddleJoinFree(s, i, p);
    MiddleJoinFree(s, p, j);
    WholeJoinFree(s[..i], s[p..j]);
    WholeJoinFree(s[..i] + s[p..j], s[i..p]);
    WholeJoinFree(s[..i] + s[p..j] + s[i..p], s[j..]);
  }

  lemma CStrJoinFree(s: seq<byte>)
    requires JoinFree(s)
    ensures JoinFree(CStr(s))
  {
    hide JoinFree;
    var n := |CStr(s)|;
    assert CStr(s) == s[..n];
    PartsJoinFree(s, n);
  }

  lemma NothingJoinFree()
    ensures JoinFree([])
  {
    EncodeNil();
    CharactersJoinFree([]);
  }

  lemma EditsJoinFree(d: Doc)
    requires Inv(d) && JoinFree(d.text)
    ensures JoinFree(Delete(d).text) && JoinFree(Backspace(d).text) && JoinFree(DeleteWord(d).text)
    ensures JoinFree(KillEnd(d).text) && JoinFree(KillLine(d).text)
  {
    hide IsText, Inv, StepLeft, StepRight, SkipLeft, Boundary, JoinFree, Cut, ShiftedByDelete;
    TextOfDoc(d);
    WholeBoundary(d.text);
    NothingJoinFree();
    if d.pos < |d.text| {
      StepRightLands(d, d.pos);
      CutJoinFree(d.text, d.pos, StepRight(d, d.pos));
    }
    if 0 < d.pos {
      StepLeftLands(d, d.pos);
      CutJoinFree(d.text, d.pos - StepLeft(d, d.pos), StepLeft(d, d.pos));
    }
    SkipLeftLands(d, d.pos, true);
    SkipLeftLands(d, SkipLeft(d, d.pos, true), false);
    CutJoinFree(d.text, WordStart(d), d.pos - WordStart(d));
    CutJoinFree(d.text, d.pos, |d.text| - d.pos);
  }

  lemma TransposeJoinFree(d: Doc)
    requires Inv(d) && JoinFree(d.text)
    ensures JoinFree(Transpose(d).text)
  {
    hide IsText, Inv, StepLeft, StepRight, Boundary, JoinFree, Swapped, Overlaps;
    TextOfDoc(d);
    if 0 < d.pos < |d.text| {
      TransposeSteps(d);
      SwappedJoinFree(d.text, d.pos - StepLeft(d, d.pos), d.pos, d.pos + StepRight(d, d.pos));
    }
  }

  ghost predicate JoinFreeState(st: State) {
    JoinFree(st.doc.text) && forall e :: e in st.hist ==> JoinFree(e)
  }

  predicate JoinFreeKey(k: Key) {
    && KeyOk(k)
    && (k.Type? ==> NoJoin([k.c]))
    && (k.PasteText? ==> NoJoin(k.cs))
  }

  lemma BrowsedJoinFree(st: State, up: bool)
    requires StateInv(st) && JoinFreeState(st)
    ensures JoinFreeState(Navigated(st, up))
  {
    hide Document.Inv, IsText, HistoryFold, FoldAdded, ShouldFold, JoinFree, CStr, CanGrow, Grown;
    CStrJoinFree(st.doc.text);
    ViewEntriesFit(st);
    var h := st.View();
    forall e | e in h ensures JoinFree(e) {
      assert e in st.hist || e == CStr(st.doc.text);
    }
    var i := if up && st.idx + 1 < |h| then st.idx + 1 else if !up && 0 < st.idx then st.idx - 1 else st.idx;
    assert h[|h| - 1 - i] in h;
    GrownCapOk(st.cap, |h[|h| - 1 - i]|);
  }

  lemma {:induction false} NormalisedPoints(cs: seq<Scalar>)
    ensures forall c :: c in NormalisePoints(cs) ==> c in cs || c == 10
    decreases |cs|
  {
    if cs != [] {
      NormalisedPoints(cs[1..]);
      if 1 < |cs| {
        NormalisedPoints(cs[2..]);
      }
    }
  }

  lemma PastedJoinFree(st: State, cs: seq<Scalar>)
    requires StateInv(st) && NoEnd(Encode(cs)) && NoJoin(cs) && JoinFreeState(st)
    ensures JoinFreeState(Apply(st, PasteText(cs)).0)
  {
    hide StateInv, Document.Inv, IsText, Encode, ShiftedByInsert, Grown, CanGrow, Spliced, NoEnd, PasteScan, PasteLimit,
      Normalise, ShouldFold, FoldAdded, JoinFree, NormalisePoints, Boundary;
    DocInv(st);
    TextOfDoc(st.doc);
    PasteScanned(st, cs);
    NormaliseEncoded(cs);
    NormalisedPoints(cs);
    CharactersJoinFree(NormalisePoints(cs));
    SplicedJoinFree(st.doc.text, st.doc.pos, Normalise(Encode(cs)));
  }

  lemma TypedJoinFree(st: State, c: Scalar)
    requires StateInv(st) && KeyOk(Type(c)) && NoJoin([c]) && JoinFreeState(st)
    ensures JoinFreeState(Apply(st, Type(c)).0)
  {
    hide StateInv, Document.Inv, IsText, Encode, Encode1, ShiftedByInsert, Grown, CanGrow, Spliced, JoinFree, Boundary;
    DocInv(st);
    TextOfDoc(st.doc);
    EncodeOne(c);
    CharactersJoinFree([c]);
    SplicedJoinFree(st.doc.text, st.doc.pos, Encode1(c));
  }

  lemma KeyJoinFree(st: State, k: Key)
    requires StateInv(st) && JoinFreeKey(k) && JoinFreeState(st)
    ensures Apply(st, k).1.More? ==> JoinFreeState(Apply(st, k).0)
  {
    match k
    case Type(c) => TypedJoinFree(st, c);
    case PasteText(cs) => PastedJoinFree(st, cs);
    case KeyUp => {
      hide StateInv, Navigated, JoinFreeState;
      BrowsedJoinFree(st, true);
    }
    case KeyDown => {
      hide StateInv, Navigated, JoinFreeState;
      BrowsedJoinFree(st, false);
    }
    case _ => {
      hide StateInv, Document.Inv, JoinFree, MoveLeft, MoveRight, Delete, Backspace, DeleteWord, KillEnd, KillLine,
        Transpose;
      DocInv(st);
      EditsJoinFree(st.doc);
      TransposeJoinFree(st.doc);
      MovesKeepText(st.doc);
    }
  }

  lemma MovesKeepText(d: Doc)
    requires Inv(d)
    ensures MoveLeft(d).text == d.text && MoveRight(d).text == d.text
  {
    hide StepLeft, StepRight, Inv;
  }

  // ----- one key, and runs

  /** The key is not a step that enters a fold. */
  ghost predicate Harmless(st: State, k: Key)
    requires StateInv(st)
  {
    DocInv(st);
    && (k.KeyRight? ==> forall f :: f in st.doc.folds ==> !EntersRight(st.doc, f))
    && (k.KeyLeft? ==> forall f :: f in st.doc.folds ==> !EntersLeft(st.doc, f))
  }

  /** With the cursor outside, a key leaves it outside exactly when it is harmless. */
  lemma KeyKeepsOutside(st: State, k: Key)
    requires StateInv(st) && KeyOk(k) && JoinFree(st.doc.text) && CursorOutside(st.doc)
    requires Apply(st, k).1.More?
    ensures CursorOutside(Apply(st, k).0.doc) <==> Harmless(st, k)
  {
    DocInv(st);
    match k
    case Type(c) => TypedOutside(st, c);
    case PasteText(cs) => PastedOutside(st, cs);
    case KeyUp => {
      hide StateInv, Navigated, CursorOutside;
      BrowsedOutside(st, true);
    }
    case KeyDown => {
      hide StateInv, Navigated, CursorOutside;
      BrowsedOutside(st, false);
    }
    case KeyLeft => {
      hide StateInv, MoveLeft, CursorOutside, EntersLeft, JoinFree;
      LeftKeepsOutside(st.doc);
    }
    case KeyRight => {
      hide StateInv, MoveRight, CursorOutside, EntersRight, JoinFree;
      RightKeepsOutside(st.doc);
    }
    case _ => {
      hide StateInv, Document.Inv, Home, End, Delete, Backspace, DeleteWord, KillEnd, KillLine, Transpose,
        CursorOutside, JoinFree;
      EditsOutside(st.doc);
    }
  }

  lemma TypedOutside(st: State, c: Scalar)
    requires StateInv(st) && KeyOk(Type(c)) && CursorOutside(st.doc)
    ensures CursorOutside(Apply(st, Type(c)).0.doc)
  {
    hide StateInv, Document.Inv, Insert, InsertFolded, CursorOutside, Encode1, CanGrow, Grown;
    DocInv(st);
    EncodeOne(c);
    InsertOutside(st.doc, Encode1(c));
  }

  lemma PastedOutside(st: State, cs: seq<Scalar>)
    requires StateInv(st) && KeyOk(PasteText(cs)) && CursorOutside(st.doc)
    ensures CursorOutside(Apply(st, PasteText(cs)).0.doc)
  {
    hide StateInv, Document.Inv, IsText, Insert, InsertFolded, CursorOutside, Encode, CanGrow, Grown, PasteScan, NoEnd,
      PasteLimit, Normalise, ShouldFold;
    DocInv(st);
    PasteScanned(st, cs);
    if !PasteScan(st, cs).over {
      NormalisedIsText(PasteScan(st, cs).kept);
      InsertOutside(st.doc, Normalise(PasteScan(st, cs).kept));
    }
  }

  predicate JoinFreeKeys(ks: seq<Key>)
    ensures JoinFreeKeys(ks) ==> KeysOk(ks)
  {
    forall k :: k in ks ==> JoinFreeKey(k)
  }

  lemma JoinFreeHeadTail(ks: seq<Key>)
    requires JoinFreeKeys(ks) && ks != []
    ensures JoinFreeKey(ks[0]) && JoinFreeKeys(ks[1..])
  {}

  /** The cursor is outside all folds in every state of the run. */
  predicate AlwaysOutside(st: State, ks: seq<Key>)
    requires StateInv(st) && JoinFreeKeys(ks)
    decreases |ks|
  {
    && CursorOutside(st.doc)
    && (if ks == [] then true else
          JoinFreeHeadTail(ks);
          var (s, o) := Apply(st, ks[0]);
          o.More? ==> AlwaysOutside(s, ks[1..]))
  }

  /** Every key of the run that goes on is harmless where it is pressed. */
  ghost predicate NeverEnters(st: State, ks: seq<Key>)
    requires StateInv(st) && JoinFreeKeys(ks)
    decreases |ks|
  {
    if ks == [] then true
    else
      JoinFreeHeadTail(ks);
      var (s, o) := Apply(st, ks[0]);
      o.More? ==> Harmless(st, ks[0]) && NeverEnters(s, ks[1..])
  }

  /** Over every run of keys without joiners and flags, from any state with the cursor
      outside: it stays outside in every state exactly when no Left or Right is pressed
      where a fold has extenders between itself and the cursor and a base behind them. */
  lemma {:induction false} OutsideIff(st: State, ks: seq<Key>)
    requires StateInv(st) && JoinFreeKeys(ks) && JoinFreeState(st) && CursorOutside(st.doc)
    ensures AlwaysOutside(st, ks) <==> NeverEnters(st, ks)
    decreases |ks|
  {
    hide StateInv, JoinFreeKeys, JoinFreeKey, JoinFree, CursorOutside, Apply, Harmless;
    if ks != [] {
      JoinFreeHeadTail(ks);
      var (s, o) := Apply(st, ks[0]);
      if o.More? {
        KeyIsOk(ks[0]);
        KeyKeepsOutside(st, ks[0]);
        KeyJoinFree(st, ks[0]);
        if CursorOutside(s.doc) {
          OutsideIff(s, ks[1..]);
        } else {
          NotAlways(s, ks[1..]);
        }
      }
    }
  }

  lemma KeyIsOk(k: Key)
    requires JoinFreeKey(k)
    ensures KeyOk(k)
  {}

  lemma NotAlways(st: State, ks: seq<Key>)
    requires StateInv(st) && JoinFreeKeys(ks) && !CursorOutside(st.doc)
    ensures !AlwaysOutside(st, ks)
  {}

  /** In particular from the start of every prompt. */
  lemma PromptOutsideIff(h: seq<Line>, max: nat, ks: seq<Key>)
    requires ProgramInv(h, max) && (forall e :: e in h ==> JoinFree(e)) && JoinFreeKeys(ks)
    ensures StateInv(Start(h, max)) && (AlwaysOutside(Start(h, max), ks) <==> NeverEnters(Start(h, max), ks))
  {
    hide JoinFree, JoinFreeKeys, StateInv;
    StartInv(h, max);
    NothingJoinFree();
    var st := Start(h, max);
    assert forall e :: e in st.hist ==> e in h || e == [];
    OutsideIff(st, ks);
  }
}
