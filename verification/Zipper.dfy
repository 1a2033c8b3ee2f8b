/** Properties of whole prompts that hold for every well-formed UTF-8 text: history
    navigation is a zipper, pastes are all or nothing, the pop at the end is safe. */
module Zipper {
  import opened Utf8
  import opened Capacity
  import opened Document
  import opened Paste
  import opened History
  import opened Session

  // ----- history navigation

  /** A step through the history, in range or not, changes no line: the view stays. */
  lemma NavigationKeepsView(st: State, up: bool)
    requires StateInv(st)
    ensures StateInv(Navigated(st, up)) && Navigated(st, up).View() == st.View()
    ensures |st.hist| <= 1 ==> Navigated(st, up) == st
  {
    hide Document.Inv, IsText, Shown;
    NavigatedInv(st, up);
    if 1 < |st.hist| {
      var h := st.View();
      var i := if up && st.idx + 1 < |h| then st.idx + 1 else if !up && 0 < st.idx then st.idx - 1 else st.idx;
      ViewEntriesFit(st);
      assert h[|h| - 1 - i] in h;
      ShownKeepsView(st.(hist := h, idx := i));
    }
  }

  /** Showing an entry that fits leaves the view as the history was. */
  lemma ShownKeepsView(st: State)
    requires CapOk(st.cap) && st.idx < |st.hist| && |st.hist[st.Slot()]| <= st.cap.Limit()
    ensures Shown(st).View() == st.hist
  {
    hide CanGrow, Grown, CStr;
    var src := st.hist[st.Slot()];
    GrownCapOk(st.cap, |src|);
    assert src == CStr(src);
  }

  lemma ViewEntriesFit(st: State)
    requires StateInv(st)
    ensures forall e :: e in st.View() ==> |e| <= st.cap.Limit()
  {
    forall e | e in st.View() ensures |e| <= st.cap.Limit() {
      assert e in st.hist || e == CStr(st.doc.text);
    }
  }

  /** The edited text, as a C string, is always the entry of its own slot. */
  lemma TextIsOwnEntry(st: State)
    requires StateInv(st)
    ensures CStr(st.doc.text) == st.View()[st.Slot()]
  {}

  function Steps(st: State, ups: seq<bool>): (r: State)
    requires st.idx < |st.hist|
    ensures r.idx < |r.hist| == |st.hist|
    decreases |ups|
  {
    if ups == [] then st else Steps(Navigated(st, ups[0]), ups[1..])
  }

  lemma {:induction false} StepsKeepView(st: State, ups: seq<bool>)
    requires StateInv(st)
    ensures StateInv(Steps(st, ups)) && Steps(st, ups).View() == st.View()
    ensures |Steps(st, ups).hist| == |st.hist|
    decreases |ups|
  {
    hide StateInv;
    if ups != [] {
      NavigationKeepsView(st, ups[0]);
      StepsKeepView(Navigated(st, ups[0]), ups[1..]);
    }
  }

  lemma {:induction false} StepsConcat(st: State, a: seq<bool>, b: seq<bool>)
    requires st.idx < |st.hist|
    ensures Steps(st, a + b) == Steps(Steps(st, a), b)
    decreases |a|
  {
    if a == [] {
      assert a + b == b;
    } else {
      assert (a + b)[1..] == a[1..] + b;
      StepsConcat(Navigated(st, a[0]), a[1..], b);
    }
  }

  function Repeat(up: bool, n: nat): (s: seq<bool>)
    ensures |s| == n && forall k :: 0 <= k < n ==> s[k] == up
  {
    seq(n, _ => up)
  }

  lemma {:induction false} IndexAfter(st: State, up: bool, n: nat)
    requires StateInv(st) && (if up then st.idx + n < |st.hist| else n <= st.idx)
    ensures StateInv(Steps(st, Repeat(up, n)))
    ensures Steps(st, Repeat(up, n)).idx == if up then st.idx + n else st.idx - n
    decreases n
  {
    hide StateInv, Navigated, Repeat;
    StepsKeepView(st, Repeat(up, n));
    if 0 < n {
      NavigationKeepsView(st, up);
      ShowsEntry(st, up);
      RepeatMore(up, n);
      IndexAfter(Navigated(st, up), up, n - 1);
    }
  }

  lemma RepeatMore(up: bool, n: nat)
    requires 0 < n
    ensures Repeat(up, n) != [] && Repeat(up, n)[0] == up
    ensures Repeat(up, n)[1..] == Repeat(up, n - 1)
    ensures Repeat(up, n) == Repeat(up, n - 1) + [up]
  {}

  /** k steps back and k steps forth bring back the line that was being edited, and every
      other line is as before. */
  lemma BackAndForth(st: State, k: nat)
    requires StateInv(st) && st.idx + k < |st.hist|
    ensures var r := Steps(st, Repeat(true, k) + Repeat(false, k));
            && StateInv(r) && r.idx == st.idx && r.View() == st.View()
            && CStr(r.doc.text) == CStr(st.doc.text)
            && (0 !in st.doc.text && 0 < k ==> r.doc.text == st.doc.text && r.doc.pos == |r.doc.text|)
  {
    hide StateInv, Navigated, Repeat;
    var a, b := Repeat(true, k), Repeat(false, k);
    StepsConcat(st, a, b);
    StepsKeepView(st, a + b);
    IndexAfter(st, true, k);
    var m := Steps(st, a);
    IndexAfter(m, false, k);
    var r := Steps(st, a + b);
    TextIsOwnEntry(st);
    TextIsOwnEntry(r);
    if 0 < k {
      LastStepShows(m, k);
      StepsKeepView(st, a);
    }
  }

  /** After k steps forth the line shown is the entry of its slot. */
  lemma LastStepShows(st: State, k: nat)
    requires StateInv(st) && 0 < k <= st.idx
    ensures var r := Steps(st, Repeat(false, k));
            r.idx == st.idx - k && r.doc.text == st.View()[r.Slot()] && r.doc.pos == |r.doc.text|
  {
    hide Document.Inv, IsText, Navigated, Repeat;
    RepeatMore(false, k);
    var s := Steps(st, Repeat(false, k - 1));
    StepsConcat(st, Repeat(false, k - 1), [false]);
    IndexAfter(st, false, k - 1);
    StepsKeepView(st, Repeat(false, k - 1));
    assert Steps(s, [false]) == Navigated(s, false) by { assert [false][1..] == []; }
    ShowsEntry(s, false);
  }

  /** A step that moves shows the whole entry, with the cursor at its end. */
  lemma ShowsEntry(st: State, up: bool)
    requires StateInv(st) && (if up then st.idx + 1 < |st.hist| else 0 < st.idx)
    ensures var r := Navigated(st, up);
            && r.idx == (if up then st.idx + 1 else st.idx - 1)
            && r.doc.text == st.View()[|st.hist| - 1 - r.idx] && r.doc.pos == |r.doc.text|
  {
    hide Document.Inv, IsText, HistoryFold, FoldAdded;
    ViewEntriesFit(st);
    var h, i := st.View(), if up then st.idx + 1 else st.idx - 1;
    assert h[|h| - 1 - i] in h;
    GrownCapOk(st.cap, |h[|h| - 1 - i]|);
  }

  /** Every other key that keeps the prompt open changes the view in the edited slot only. */
  lemma EditsOwnSlot(st: State, k: Key)
    requires StateInv(st) && KeyOk(k) && !k.KeyUp? && !k.KeyDown? && Apply(st, k).1.More?
    ensures var r := Apply(st, k).0;
            r.idx == st.idx && r.hist == st.hist &&
            r.View() == st.View()[st.Slot() := CStr(r.doc.text)]
  {
    hide StateInv, Document.Inv, IsText, Insert, InsertFolded, MoveLeft, MoveRight, Delete, Backspace,
      DeleteWord, Transpose, KillEnd, Home, PasteScan, ShouldFold;
  }

  // ----- pastes

  /** r has the text of d with x at the cursor, behind which the cursor stands. */
  predicate TextIn(d: Doc, x: seq<byte>, r: Doc) {
    d.pos <= |d.text| && r.text == d.text[..d.pos] + x + d.text[d.pos..] && r.pos == d.pos + |x|
  }

  /** gs has the folds of fs, and f once more. */
  predicate OneMore(fs: seq<Fold>, f: Fold, gs: seq<Fold>) { multiset(gs) == multiset(fs) + multiset{f} }

  /** r has the folds of d moved by x, and that of x when x has a newline or 200 bytes. */
  predicate FoldsIn(d: Doc, x: seq<byte>, r: Doc) {
    var fs := ShiftedByInsert(d.folds, d.pos, |x|);
    if 10 in x || |x| >= 200 then OneMore(fs, Fold(d.pos, d.pos + |x|), r.folds) else r.folds == fs
  }

  /** A paste is all or nothing.  A payload of at most one mebibyte that, with the text, stays
      within the maximum (the buffer when there is none) while fewer than sixteen folds are
      stored goes in whole; any other leaves the document as it was. */
  lemma PasteIsAllOrNothing(st: State, cs: seq<Scalar>)
    requires StateInv(st) && NoEnd(Encode(cs))
    ensures var d, r, n := st.doc, Apply(st, PasteText(cs)).0.doc, |Encode(cs)|;
            if && 0 < n <= 1048576 && |d.folds| < 16
               && |d.text| + n <= (if st.cap.max != 0 then st.cap.max else st.cap.buflen)
            then TextIn(d, Normalise(Encode(cs)), r) && FoldsIn(d, Normalise(Encode(cs)), r)
            else r == d
  {
    hide *;
    var n := |Encode(cs)|;
    if 0 < n {
      RoomInNumbers(st, n);
    }
    if 0 < n <= PasteLimit(st.cap, |st.doc.text|, |st.doc.folds|) {
      PastedWhole(st, cs);
    } else {
      PastedNothing(st, cs);
    }
  }

  lemma InsertedWhole(d: Doc, x: seq<byte>)
    requires Inv(d) && IsText(x) && x != [] && |d.folds| < 16
    ensures var r := if ShouldFold(x) then InsertFolded(d, x) else Insert(d, x);
            TextIn(d, x, r) && FoldsIn(d, x, r)
  {
    hide *;
    InsertedText(d, x);
    FoldsInNumbers(x);
    if ShouldFold(x) {
      FoldedFolds(d, x);
    } else {
      PlainFolds(d, x);
    }
  }

  lemma InsertedText(d: Doc, x: seq<byte>)
    requires Inv(d) && IsText(x)
    ensures TextIn(d, x, Insert(d, x)) && TextIn(d, x, InsertFolded(d, x))
  {
    hide Document.Inv, IsText, ShiftedByInsert, Insert, InsertFolded;
    InsertedAt(d, x);
  }

  lemma FoldedFolds(d: Doc, x: seq<byte>)
    requires Inv(d) && IsText(x) && x != [] && |d.folds| < 16 && (10 in x || |x| >= 200)
    ensures FoldsIn(d, x, InsertFolded(d, x))
  {
    assert MAX_FOLDS == 16;
    hide *;
    FoldStored(d, x);
    OneMoreIn(d, x, InsertFolded(d, x));
  }

  lemma OneMoreIn(d: Doc, x: seq<byte>, r: Doc)
    requires 10 in x || |x| >= 200
    requires OneMore(ShiftedByInsert(d.folds, d.pos, |x|), Fold(d.pos, d.pos + |x|), r.folds)
    ensures FoldsIn(d, x, r)
  {
    hide OneMore, ShiftedByInsert;
  }

  lemma PlainFolds(d: Doc, x: seq<byte>)
    requires Inv(d) && IsText(x) && !(10 in x || |x| >= 200)
    ensures FoldsIn(d, x, Insert(d, x))
  {
    hide Document.Inv, IsText, ShiftedByInsert, Insert;
    InsertedAt(d, x);
  }

  lemma InsertedAt(d: Doc, x: seq<byte>)
    requires Inv(d) && IsText(x)
    ensures d.pos <= |d.text|
    ensures Insert(d, x) ==
            Doc(d.text[..d.pos] + x + d.text[d.pos..], d.pos + |x|, ShiftedByInsert(d.folds, d.pos, |x|))
    ensures InsertFolded(d, x).text == Insert(d, x).text && InsertFolded(d, x).pos == Insert(d, x).pos
  {
    hide IsText, FoldsFrom, ShiftedByInsert, FoldAdded;
  }

  lemma RoomInNumbers(st: State, n: nat)
    requires StateInv(st) && 0 < n
    ensures n <= PasteLimit(st.cap, |st.doc.text|, |st.doc.folds|) <==>
              && n <= 1048576 && |st.doc.folds| < 16
              && |st.doc.text| + n <= (if st.cap.max != 0 then st.cap.max else st.cap.buflen)
  {
    hide IsText, FoldsFrom;
  }

  lemma FoldsInNumbers(x: seq<byte>)
    ensures ShouldFold(x) <==> 10 in x || |x| >= 200
  {}

  lemma {:induction false} InsertSortedIsAll(fs: seq<Fold>, f: Fold)
    ensures OneMore(fs, f, InsertSorted(fs, f))
  {
    if fs != [] && fs[|fs| - 1].start > f.start {
      var r, g := fs[..|fs| - 1], fs[|fs| - 1];
      assert fs == r + [g];
      InsertSortedIsAll(r, f);
    }
  }

  lemma FoldStored(d: Doc, x: seq<byte>)
    requires Inv(d) && IsText(x) && x != [] && |d.folds| < MAX_FOLDS
    ensures OneMore(ShiftedByInsert(d.folds, d.pos, |x|), Fold(d.pos, d.pos + |x|), InsertFolded(d, x).folds)
  {
    hide Document.Inv, IsText, ShiftedByInsert, InsertSorted, Spliced, OneMore;
    InsertSortedIsAll(ShiftedByInsert(d.folds, d.pos, |x|), Fold(d.pos, d.pos + |x|));
  }

  /** The document after a payload that fits. */
  lemma PastedWhole(st: State, cs: seq<Scalar>)
    requires StateInv(st) && NoEnd(Encode(cs))
    requires 0 < |Encode(cs)| <= PasteLimit(st.cap, |st.doc.text|, |st.doc.folds|)
    ensures var x, r := Normalise(Encode(cs)), Apply(st, PasteText(cs)).0.doc;
            TextIn(st.doc, x, r) && FoldsIn(st.doc, x, r)
  {
    hide Document.Inv, IsText, PasteScan, Grown, Insert, InsertFolded, NoEnd, Normalise, Encode, StateInv, PasteLimit,
      ShouldFold, TextIn, FoldsIn;
    PasteScanned(st, cs);
    DocInv(st);
    NormalisedIsText(Encode(cs));
    RoomInNumbers(st, |Encode(cs)|);
    InsertedWhole(st.doc, Normalise(Encode(cs)));
  }

  lemma PastedNothing(st: State, cs: seq<Scalar>)
    requires StateInv(st) && NoEnd(Encode(cs))
    requires |Encode(cs)| == 0 || |Encode(cs)| > PasteLimit(st.cap, |st.doc.text|, |st.doc.folds|)
    ensures Apply(st, PasteText(cs)).0.doc == st.doc
  {
    hide Document.Inv, IsText, PasteScan, Grown, NoEnd, Normalise, Encode, StateInv, PasteLimit, ShouldFold;
    PasteScanned(st, cs);
  }

  /** What typing may add: a character goes in at the cursor exactly when text and character
      stay within the maximum (the buffer when there is none). */
  lemma TypingHolds(st: State, c: Scalar)
    requires StateInv(st) && Typable(c)
    ensures var d, r, n := st.doc, Apply(st, Type(c)).0.doc, |Encode1(c)|;
            if |d.text| + n <= (if st.cap.max != 0 then st.cap.max else st.cap.buflen) then
              && r.text == d.text[..d.pos] + Encode1(c) + d.text[d.pos..] && r.pos == d.pos + n
              && r.folds == ShiftedByInsert(d.folds, d.pos, n)
            else r == d
  {
    hide Document.Inv, IsText, Encode1, StateInv, ShiftedByInsert, CanGrow, Grown;
    DocInv(st);
    StateCap(st);
    EncodeOne(c);
    CharText(c);
    GrownCapOk(st.cap, |st.doc.text| + |Encode1(c)|);
  }

  lemma StateCap(st: State)
    requires StateInv(st)
    ensures CapOk(st.cap) && st.doc.pos <= |st.doc.text|
  {}

  lemma CharText(c: Scalar)
    ensures IsText(Encode1(c))
  {
    EncodeOne(c);
  }

  // ----- prompt after prompt

  const INITIAL_BUFLEN: nat := 4096
  const SLASH: byte := 47
  const MAX_LINE: nat := 1024 * 1024

  /** linenoiseBlockingEdit before the first key: a fresh buffer, one byte of it kept for
      the NUL, and an empty line added to the history. */
  function Start(h: seq<Line>, max: nat): State {
    State(Doc([], 0, []), Cap(INITIAL_BUFLEN - 1, MAX_LINE), Added(h, max, []), 0)
  }

  ghost predicate ProgramInv(h: seq<Line>, max: nat) {
    0 < max && |h| <= max && HistOk(h, Cap(INITIAL_BUFLEN - 1, MAX_LINE))
  }

  lemma AddedOk(h: seq<Line>, max: nat, line: Line)
    requires ProgramInv(h, max) && EntryOk(line, Cap(INITIAL_BUFLEN - 1, MAX_LINE))
    ensures ProgramInv(Added(h, max, line), max) && Added(h, max, line) != []
  {}

  lemma StartInv(h: seq<Line>, max: nat)
    requires ProgramInv(h, max)
    ensures StateInv(Start(h, max)) && |Start(h, max).hist| <= max
  {
    EmptyIsText();
    AddedOk(h, max, []);
  }

  lemma {:induction false} RunKeepsCount(st: State, ks: seq<Key>)
    requires StateInv(st) && KeysOk(ks)
    ensures |Run(st, ks).0.hist| <= |st.hist| && Run(st, ks).0.cap.Limit() == st.cap.Limit()
    ensures Run(st, ks).1.Finished? && Run(st, ks).1.line != [ESC] ==> EntryOk(Run(st, ks).1.line, st.cap)
    decreases |ks|
  {
    hide KeysOk, Document.Inv, IsText;
    if ks != [] {
      KeysHeadTail(ks);
      var (s, o) := Apply(st, ks[0]);
      ApplyKeepsCount(st, ks[0]);
      if o.More? {
        RunKeepsCount(s, ks[1..]);
      }
    }
  }

  lemma KeysHeadTail(ks: seq<Key>)
    requires KeysOk(ks) && ks != []
    ensures KeyOk(ks[0]) && KeysOk(ks[1..])
  {}

  lemma ApplyKeepsCount(st: State, k: Key)
    requires StateInv(st) && KeyOk(k)
    ensures var (s, o) := Apply(st, k);
            && |s.hist| <= |st.hist| && s.cap.Limit() == st.cap.Limit()
            && (o.Finished? && o.line != [ESC] ==> EntryOk(o.line, st.cap))
  {
    hide Document.Inv, IsText, Insert, InsertFolded, MoveLeft, MoveRight, Delete, Backspace,
      DeleteWord, Transpose, KillEnd, Home, Recalled;
    match k
    case Type(c) => GrownCapOk(st.cap, |st.doc.text| + |Encode1(c)|);
    case PasteText(cs) => GrownCapOk(st.cap, |st.doc.text| + |PasteScan(st, cs).kept|);
    case KeyUp => NavigatedLimit(st, true);
    case KeyDown => NavigatedLimit(st, false);
    case KeyEnter => TextIsText(st); CStrIsText(st.doc.text);
    case _ =>
  }

  lemma NavigatedLimit(st: State, up: bool)
    requires StateInv(st)
    ensures Navigated(st, up).cap.Limit() == st.cap.Limit() && |Navigated(st, up).hist| == |st.hist|
  {
    hide Document.Inv, IsText, Recalled;
    forall n: nat ensures Grown(st.cap, n).Limit() == st.cap.Limit() {
      GrownCapOk(st.cap, n);
    }
  }

  /** One prompt of the REPL (cli/repl.c:812-850): start, keys, and an accepted line goes
      to the history unless it is a lone ESC, empty or a palette command. */
  function Prompt(h: seq<Line>, max: nat, ks: seq<Key>): (r: seq<Line>)
    requires ProgramInv(h, max) && KeysOk(ks)
    ensures ProgramInv(r, max)
  {
    StartInv(h, max);
    RunKeepsCount(Start(h, max), ks);
    var (s, o) := Run(Start(h, max), ks);
    assert HistOk(s.hist, Cap(INITIAL_BUFLEN - 1, MAX_LINE));
    if o.Finished? && o.line != [ESC] && o.line != [] && o.line[0] != SLASH then
      AddedOk(s.hist, max, o.line);
      Added(s.hist, max, o.line)
    else s.hist
  }

  function Prompts(h: seq<Line>, max: nat, sessions: seq<seq<Key>>): (r: seq<Line>)
    requires ProgramInv(h, max) && forall ks :: ks in sessions ==> KeysOk(ks)
    ensures ProgramInv(r, max)
    decreases |sessions|
  {
    if sessions == [] then h
    else
      assert sessions[0] in sessions && forall ks :: ks in sessions[1..] ==> ks in sessions;
      Prompts(Prompt(h, max, sessions[0]), max, sessions[1..])
  }

  /** In every state that any prompt of any run of the program reaches, the line being
      edited has a history slot: the index is in range and the pop has an entry to remove. */
  lemma PopNeverUnderflows(h: seq<Line>, max: nat, sessions: seq<seq<Key>>, ks: seq<Key>)
    requires ProgramInv(h, max) && (forall s :: s in sessions ==> KeysOk(s)) && KeysOk(ks)
    ensures ProgramInv(Prompts(h, max, sessions), max)
    ensures var st := Start(Prompts(h, max, sessions), max);
            StateInv(st) && (Run(st, ks).1.More? ==>
              0 <= Run(st, ks).0.idx < |Run(st, ks).0.hist| <= max)
  {
    var g := Prompts(h, max, sessions);
    StartInv(g, max);
    RunKeepsCount(Start(g, max), ks);
  }
}
