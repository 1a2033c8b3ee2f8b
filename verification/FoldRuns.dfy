/** The fold arrays over whole runs of the program, suggestions included (cli/linenoise.c:
    1127-1203, 1290-1298): whatever happens to the text, they stay fit for rendering. */
module FoldRuns {
  import opened Utf8
  import opened Capacity
  import opened Document
  import opened Paste
  import opened History
  import opened Session
  import opened Render
  import opened Suggestions

  /** What the program does to its folds, with whatever positions and lengths: nothing, as
      for a cursor key or a suggestion; an insertion; a folded insertion; a deletion; the
      clearing of the line; and a recalled entry, which gets at most one fold. */
  datatype FoldOp =
    | Stay
    | Insertion(pos: nat, n: nat)
    | FoldedInsertion(pos: nat, n: nat)
    | Deletion(pos: nat, n: nat)
    | Clear
    | Recall(start: nat, end: nat)

  function FoldsAfter(fs: seq<Fold>, op: FoldOp): seq<Fold> {
    match op
    case Stay => fs
    case Insertion(pos, n) => ShiftedByInsert(fs, pos, n)
    case FoldedInsertion(pos, n) => FoldAdded(ShiftedByInsert(fs, pos, n), pos, pos + n)
    case Deletion(pos, n) => ShiftedByDelete(fs, pos, n)
    case Clear => []
    case Recall(start, end) => FoldAdded([], start, end)
  }

  predicate Renderable(fs: seq<Fold>) { Sorted(fs, 0) && |fs| <= MAX_FOLDS }

  // ----- over a line of ASCII letters, sorted folds are valid folds

  lemma {:induction false} SortedFolds(fs: seq<Fold>, lo: nat, t: seq<byte>)
    requires Sorted(fs, lo) && (forall b :: b in t ==> b < 0x80) && EndOf(fs, lo) <= |t|
    ensures FoldsFrom(fs, lo, t)
  {
    if fs != [] {
      SortedGrows(fs[1..], fs[0].end);
      assert EndOf(fs, lo) == EndOf(fs[1..], fs[0].end);
      SortedFolds(fs[1..], fs[0].end, t);
      AsciiBoundary(t, fs[0].start);
      AsciiBoundary(t, fs[0].end);
    }
  }

  lemma {:induction false} SortedGrows(fs: seq<Fold>, lo: nat)
    requires Sorted(fs, lo)
    ensures lo <= EndOf(fs, lo)
  {
    if fs != [] {
      SortedGrows(fs[1..], fs[0].end);
      assert EndOf(fs, lo) == EndOf(fs[1..], fs[0].end);
    }
  }

  lemma {:induction false} FoldsSorted(fs: seq<Fold>, lo: nat, s: seq<byte>)
    requires FoldsFrom(fs, lo, s)
    ensures Sorted(fs, lo)
  {
    if fs != [] {
      FoldsSorted(fs[1..], fs[0].end, s);
    }
  }

  /** A line long enough for the folds and for what is to be done. */
  lemma LongLine(fs: seq<Fold>, pos: nat, n: nat) returns (d: Doc)
    requires Renderable(fs)
    ensures Document.Inv(d) && d.folds == fs && d.pos == pos && pos + n <= |d.text|
    ensures forall b :: b in d.text ==> b < 0x80
  {
    var t: seq<byte> := seq(EndOf(fs, 0) + pos + n, _ => 97);
    AsciiIsText(t);
    AsciiBoundary(t, pos);
    SortedFolds(fs, 0, t);
    d := Doc(t, pos, fs);
  }

  lemma Letters(n: nat) returns (x: seq<byte>)
    ensures |x| == n && IsText(x)
  {
    x := seq(n, _ => 97);
    AsciiIsText(x);
  }

  /** Every operation keeps the folds sorted, disjoint, non-empty and at most sixteen. */
  lemma OperationKeepsSorted(fs: seq<Fold>, op: FoldOp)
    requires Renderable(fs)
    ensures Renderable(FoldsAfter(fs, op))
  {
    hide IsText, ShiftedByInsert, ShiftedByDelete, FoldAdded, Spliced, Cut, Boundary, Sorted, FoldsFrom;
    match op
    case Insertion(pos, n) => {
      var d := LongLine(fs, pos, n);
      var x := Letters(n);
      FoldsSorted(Insert(d, x).folds, 0, Insert(d, x).text);
    }
    case FoldedInsertion(pos, n) => {
      var d := LongLine(fs, pos, n);
      var x := Letters(n);
      FoldsSorted(InsertFolded(d, x).folds, 0, InsertFolded(d, x).text);
    }
    case Deletion(pos, n) => {
      var d := LongLine(fs, pos, n);
      AsciiBoundary(d.text, pos);
      AsciiBoundary(d.text, pos + n);
      FoldsSorted(Document.Removed(d, pos, n).folds, 0, Document.Removed(d, pos, n).text);
    }
    case Recall(start, end) => OneFold(start, end);
    case Clear => OneFold(0, 0);
    case Stay =>
  }

  lemma OneFold(start: nat, end: nat)
    ensures Renderable([]) && Renderable(FoldAdded([], start, end))
  {
    assert start < end ==> [Fold(start, end)][1..] == [];
  }

  function AllAfter(fs: seq<Fold>, ops: seq<FoldOp>): seq<Fold>
    decreases |ops|
  {
    if ops == [] then fs else AllAfter(FoldsAfter(fs, ops[0]), ops[1..])
  }

  /** Over any run, and for a text of any length: the folds that are shown fit it, which is
      what rendering needs. */
  lemma {:induction false} RunKeepsSorted(fs: seq<Fold>, ops: seq<FoldOp>, len: nat)
    requires Renderable(fs)
    ensures var r := AllAfter(fs, ops); Renderable(r) && Fits(LiveFolds(r, len), 0, len)
    decreases |ops|
  {
    hide FoldsAfter, LiveFolds, Fits;
    if ops == [] {
      LiveFoldsFit(fs, 0, len);
    } else {
      OperationKeepsSorted(fs, ops[0]);
      RunKeepsSorted(FoldsAfter(fs, ops[0]), ops[1..], len);
    }
  }

  // ----- keys and suggestions are such operations

  lemma SuggestionStays(env: Env, d: Doc, nav: Nav, down: bool)
    requires NavOk(env, nav)
    ensures Suggested(env, d, nav, down).folds == FoldsAfter(d.folds, Stay)
  {
    hide Matches;
  }

  lemma KeyIsOperation(st: State, k: Key) returns (op: FoldOp)
    requires StateInv(st) && KeyOk(k) && Apply(st, k).1.More?
    ensures Apply(st, k).0.doc.folds == FoldsAfter(st.doc.folds, op)
  {
    match k
    case Type(c) => op := TypeOperation(st, c);
    case PasteText(cs) => op := PasteOperation(st, cs);
    case KeyUp => {
      hide StateInv, Navigated;
      InRange(st);
      op := BrowseOperation(st, true);
    }
    case KeyDown => {
      hide StateInv, Navigated;
      InRange(st);
      op := BrowseOperation(st, false);
    }
    case _ => op := EditOperation(st, k);
  }

  lemma InRange(st: State)
    requires StateInv(st)
    ensures st.idx < |st.hist| && st.doc.pos <= |st.doc.text|
  {}

  lemma TypeOperation(st: State, c: Scalar) returns (op: FoldOp)
    requires StateInv(st) && KeyOk(Type(c))
    ensures Apply(st, Type(c)).0.doc.folds == FoldsAfter(st.doc.folds, op)
  {
    hide StateInv, Document.Inv, IsText, Encode, Encode1, ShiftedByInsert, Spliced, Grown, CanGrow;
    op := if Apply(st, Type(c)).0 == st then Stay else Insertion(st.doc.pos, |Encode1(c)|);
  }

  lemma PasteOperation(st: State, cs: seq<Scalar>) returns (op: FoldOp)
    requires StateInv(st) && KeyOk(PasteText(cs))
    ensures Apply(st, PasteText(cs)).0.doc.folds == FoldsAfter(st.doc.folds, op)
  {
    hide StateInv, Document.Inv, IsText, Encode, ShiftedByInsert, FoldAdded, Spliced, Grown, CanGrow, ShouldFold,
      PasteScan, PasteLimit, Normalise, NoEnd;
    PasteScanned(st, cs);
    var scan := PasteScan(st, cs);
    var n := |Normalise(scan.kept)|;
    op := if scan.over || scan.kept == [] then Stay
          else if ShouldFold(Normalise(scan.kept)) then FoldedInsertion(st.doc.pos, n) else Insertion(st.doc.pos, n);
  }

  lemma CutOperations(d: Doc)
    requires Document.Inv(d) && d.pos <= |d.text|
    ensures Delete(d).folds ==
            if d.pos < |d.text| then ShiftedByDelete(d.folds, d.pos, StepRight(d, d.pos)) else d.folds
    ensures Backspace(d).folds ==
            if 0 < d.pos then ShiftedByDelete(d.folds, d.pos - StepLeft(d, d.pos), StepLeft(d, d.pos)) else d.folds
    ensures DeleteWord(d).folds == ShiftedByDelete(d.folds, WordStart(d), d.pos - WordStart(d))
    ensures KillEnd(d).folds == ShiftedByDelete(d.folds, d.pos, |d.text| - d.pos)
  {
    hide Document.Inv, IsText, ShiftedByDelete, Cut, StepLeft, StepRight, WordStart, Boundary;
  }

  lemma StayOperations(d: Doc)
    requires Document.Inv(d)
    ensures Transpose(d).folds == d.folds && MoveLeft(d).folds == d.folds && MoveRight(d).folds == d.folds
  {
    hide Document.Inv, IsText, StepLeft, StepRight, Boundary, Swapped, Overlaps;
  }

  lemma EditOperation(st: State, k: Key) returns (op: FoldOp)
    requires StateInv(st) && KeyOk(k) && Apply(st, k).1.More?
    requires !k.Type? && !k.PasteText? && !k.KeyUp? && !k.KeyDown?
    ensures Apply(st, k).0.doc.folds == FoldsAfter(st.doc.folds, op)
  {
    if k.KeyDelete? || k.KeyCtrlD? || k.KeyBackspace? {
      op := DeleteOperation(st, k);
    } else if k.KeyWord? || k.KeyKillEnd? || k.KeyKillLine? {
      op := KillOperation(st, k);
    } else {
      op := StayOperation(st, k);
    }
  }

  lemma StayOperation(st: State, k: Key) returns (op: FoldOp)
    requires StateInv(st) && KeyOk(k) && Apply(st, k).1.More?
    requires k.KeyLeft? || k.KeyRight? || k.KeyHome? || k.KeyEnd? || k.KeySwap? || k.KeyIgnored?
    ensures Apply(st, k).0.doc.folds == FoldsAfter(st.doc.folds, op)
  {
    hide StateInv, Document.Inv, Transpose, MoveLeft, MoveRight;
    DocInv(st);
    StayOperations(st.doc);
    op := Stay;
  }

  lemma DeleteOperation(st: State, k: Key) returns (op: FoldOp)
    requires StateInv(st) && KeyOk(k) && Apply(st, k).1.More? && (k.KeyDelete? || k.KeyCtrlD? || k.KeyBackspace?)
    ensures Apply(st, k).0.doc.folds == FoldsAfter(st.doc.folds, op)
  {
    hide StateInv, Document.Inv, Delete, Backspace, DeleteWord, KillEnd, WordStart, StepLeft, StepRight,
      ShiftedByDelete;
    InRange(st);
    DocInv(st);
    var d := st.doc;
    CutOperations(d);
    if k.KeyBackspace? {
      op := if 0 < d.pos then Deletion(d.pos - StepLeft(d, d.pos), StepLeft(d, d.pos)) else Stay;
    } else {
      op := if d.pos < |d.text| then Deletion(d.pos, StepRight(d, d.pos)) else Stay;
    }
  }

  lemma KillOperation(st: State, k: Key) returns (op: FoldOp)
    requires StateInv(st) && (k.KeyWord? || k.KeyKillEnd? || k.KeyKillLine?)
    ensures Apply(st, k).0.doc.folds == FoldsAfter(st.doc.folds, op)
  {
    hide StateInv, Document.Inv, DeleteWord, KillEnd, WordStart, ShiftedByDelete;
    InRange(st);
    DocInv(st);
    var d := st.doc;
    CutOperations(d);
    op := if k.KeyWord? then Deletion(WordStart(d), d.pos - WordStart(d))
          else if k.KeyKillEnd? then Deletion(d.pos, |d.text| - d.pos) else Clear;
  }

  lemma BrowseOperation(st: State, up: bool) returns (op: FoldOp)
    requires st.idx < |st.hist|
    ensures Navigated(st, up).doc.folds == FoldsAfter(st.doc.folds, op)
  {
    hide HistoryFold, ShouldFold, FoldAdded, CanGrow, Grown, CStr;
    var r := Navigated(st, up).doc;
    op := if r == st.doc then Stay
          else if ShouldFold(r.text) then Recall(HistoryFold(r.text).start, HistoryFold(r.text).end) else Clear;
  }
}
