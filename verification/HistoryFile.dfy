/** The history file over whole runs of the program (cli/repl.c:801-850 with
    cli/linenoise.c:2564-2615): which part of the round trip can fail there. */
module HistoryFile {
  import opened Utf8
  import opened Capacity
  import opened Document
  import opened Paste
  import opened History
  import opened Session
  import opened Zipper

  ghost predicate NoCrs(h: seq<Line>) { forall e :: e in h ==> CR !in e }

  ghost predicate FreeOfCr(st: State) { CR !in st.doc.text && NoCrs(st.hist) }

  // ----- no key brings a CR into a line

  lemma SplicedHasNoCr(s: seq<byte>, p: nat, x: seq<byte>)
    requires p <= |s| && CR !in s && CR !in x
    ensures CR !in Spliced(s, p, x)
  {}

  lemma TypedHasNoCr(st: State, c: Scalar)
    requires StateInv(st) && Typable(c) && FreeOfCr(st) && IsText(Encode1(c))
    ensures FreeOfCr(Typed(st, Encode1(c)))
  {
    hide StateInv, Document.Inv, IsText, Encode1, Encode, ShiftedByInsert, Grown, CanGrow, Spliced;
    EncodeOne(c);
    AsciiInEncode([c], CR);
    SplicedHasNoCr(st.doc.text, st.doc.pos, Encode1(c)) by { CursorInText(st); }
  }

  lemma CursorInText(st: State)
    requires StateInv(st)
    ensures st.doc.pos <= |st.doc.text|
  {}

  lemma PastedHasNoCr(st: State, cs: seq<Scalar>)
    requires StateInv(st) && NoEnd(Encode(cs)) && FreeOfCr(st)
    ensures FreeOfCr(Apply(st, PasteText(cs)).0)
  {
    hide StateInv, Document.Inv, IsText, Encode, ShiftedByInsert, Grown, CanGrow, Spliced, NoEnd, PasteScan, PasteLimit,
      Normalise, ShouldFold, FoldAdded;
    PasteScanned(st, cs);
    var x := Normalise(PasteScan(st, cs).kept);
    NormalisedHasNoCr(PasteScan(st, cs).kept);
    SplicedHasNoCr(st.doc.text, st.doc.pos, x) by { CursorInText(st); }
  }

  lemma EditHasNoCr(st: State, k: Key)
    requires StateInv(st) && FreeOfCr(st)
    requires k.KeyLeft? || k.KeyRight? || k.KeyHome? || k.KeyEnd? || k.KeyDelete? || k.KeyBackspace? || k.KeyWord?
             || k.KeyKillLine? || k.KeyKillEnd? || k.KeyIgnored? || k.KeyCtrlD?
    ensures FreeOfCr(Apply(st, k).0)
  {
    hide StateInv, Document.Inv, IsText, ShiftedByDelete, StepLeft, StepRight, SkipLeft, Boundary;
  }

  lemma SwappedHasNoCr(s: seq<byte>, i: nat, p: nat, j: nat)
    requires i <= p <= j <= |s| && CR !in s
    ensures CR !in Swapped(s, i, p, j)
  {}

  lemma SwapHasNoCr(st: State)
    requires StateInv(st) && FreeOfCr(st)
    ensures FreeOfCr(Apply(st, KeySwap).0)
  {
    hide StateInv, Document.Inv, IsText, StepLeft, StepRight, Boundary, Swapped, Overlaps;
    var d := st.doc;
    CursorInText(st);
    if 0 < d.pos < |d.text| {
      DocInv(st);
      StepRightLands(d, d.pos) by { CursorAtBoundary(d); }
      SwappedHasNoCr(d.text, d.pos - StepLeft(d, d.pos), d.pos, d.pos + StepRight(d, d.pos));
    }
  }

  lemma CursorAtBoundary(d: Doc)
    requires Inv(d)
    ensures Boundary(d.text, d.pos)
  {}

  lemma BrowsedHasNoCr(st: State, up: bool)
    requires st.idx < |st.hist| && FreeOfCr(st)
    ensures FreeOfCr(Navigated(st, up))
  {
    hide ShouldFold, HistoryFold, FoldAdded, Grown, CanGrow, CStr;
    var h := st.View();
    var line := CStr(st.doc.text);
    assert line <= st.doc.text;
    assert forall b :: b in line ==> b in st.doc.text;
    forall e | e in h ensures CR !in e {
      assert e in st.hist || e == line;
    }
    var i := if up && st.idx + 1 < |h| then st.idx + 1 else if !up && 0 < st.idx then st.idx - 1 else st.idx;
    assert h[|h| - 1 - i] in h;
  }

  lemma KeyKeepsNoCr(st: State, k: Key)
    requires StateInv(st) && KeyOk(k) && FreeOfCr(st)
    ensures FreeOfCr(Apply(st, k).0)
    ensures Apply(st, k).1.Finished? ==> CR !in Apply(st, k).1.line
  {
    match k
    case Type(c) => {
      hide StateInv, Typed;
      EncodeOne(c);
      assert IsText(Encode1(c));
      TypedHasNoCr(st, c);
    }
    case PasteText(cs) => {
      hide StateInv, Apply;
      PasteEndsNothing(st, cs);
      PastedHasNoCr(st, cs);
    }
    case KeyUp => {
      hide StateInv, Navigated;
      InHistory(st);
      BrowsedHasNoCr(st, true);
    }
    case KeyDown => {
      hide StateInv, Navigated;
      InHistory(st);
      BrowsedHasNoCr(st, false);
    }
    case KeySwap => {
      hide StateInv, Transpose;
      SwapHasNoCr(st);
    }
    case KeyEnter => {
      hide StateInv;
      InHistory(st);
      assert forall b :: b in CStr(st.doc.text) ==> b in st.doc.text;
    }
    case KeyCtrlC =>
    case KeyEscape =>
    case _ => {
      hide StateInv, Home, End, MoveLeft, MoveRight, Delete, Backspace, DeleteWord, KillEnd, KillLine;
      EditHasNoCr(st, k);
    }
  }

  lemma PasteEndsNothing(st: State, cs: seq<Scalar>)
    requires StateInv(st) && NoEnd(Encode(cs))
    ensures Apply(st, PasteText(cs)).1.More?
  {
    hide StateInv, Pasted, PasteScan;
  }

  lemma InHistory(st: State)
    requires StateInv(st)
    ensures st.idx < |st.hist|
  {}

  lemma {:induction false} RunKeepsNoCr(st: State, ks: seq<Key>)
    requires StateInv(st) && KeysOk(ks) && FreeOfCr(st)
    ensures FreeOfCr(Run(st, ks).0)
    ensures Run(st, ks).1.Finished? ==> CR !in Run(st, ks).1.line
    decreases |ks|
  {
    hide KeysOk, StateInv, Apply, FreeOfCr;
    if ks != [] {
      KeysHeadTail(ks);
      KeyKeepsNoCr(st, ks[0]);
      if Apply(st, ks[0]).1.More? {
        RunKeepsNoCr(Apply(st, ks[0]).0, ks[1..]);
      }
    }
  }

  lemma PromptKeepsNoCr(h: seq<Line>, max: nat, ks: seq<Key>)
    requires ProgramInv(h, max) && KeysOk(ks) && NoCrs(h)
    ensures NoCrs(Prompt(h, max, ks))
  {
    hide Run, KeysOk, StateInv, HistOk;
    StartInv(h, max);
    RunKeepsNoCr(Start(h, max), ks);
  }

  /** Prompt after prompt, no line of the history has a CR. */
  lemma {:induction false} PromptsKeepNoCr(h: seq<Line>, max: nat, sessions: seq<seq<Key>>)
    requires ProgramInv(h, max) && NoCrs(h) && forall ks :: ks in sessions ==> KeysOk(ks)
    ensures NoCrs(Prompts(h, max, sessions))
    decreases |sessions|
  {
    hide ProgramInv, KeysOk, Prompt, NoCrs;
    if sessions != [] {
      assert sessions[0] in sessions && forall ks :: ks in sessions[1..] ==> ks in sessions;
      PromptKeepsNoCr(h, max, sessions[0]);
      PromptsKeepNoCr(Prompt(h, max, sessions[0]), max, sessions[1..]);
    }
  }

  /** Nor does a history loaded from any file have one. */
  lemma {:induction false} LoadedHasNoCr(h: seq<Line>, max: nat, lines: seq<Line>)
    requires NoCrs(h) && NoCrs(lines)
    ensures NoCrs(AddedAll(h, max, lines))
    decreases |lines|
  {
    if lines != [] {
      assert lines[0] in lines;
      LoadedHasNoCr(Added(h, max, lines[0]), max, lines[1..]);
    }
  }

  lemma {:induction false} CrToLfHasNoCr(s: Line)
    ensures CR !in CrToLf(s)
  {
    if s != [] {
      CrToLfHasNoCr(s[1..]);
    }
  }

  lemma {:induction false} RecordsHaveNoCr(file: seq<byte>)
    ensures NoCrs(Records(file))
    decreases |file|
  {
    hide CrToLf, CStr;
    if file != [] {
      var n := LineEnd(file, 0);
      CrToLfHasNoCr(CStr(file[..n]));
      RecordsHaveNoCr(if n < |file| then file[n + 1..] else []);
    }
  }

  /** From a history read from a file, after any prompts: saving and loading gives the
      history back exactly when no two neighbours are equal. */
  lemma ProgramFileRoundTrip(file: seq<byte>, max: nat, sessions: seq<seq<Key>>)
    requires 0 < max && ProgramInv(AddedAll([], max, Records(file)), max)
    requires forall ks :: ks in sessions ==> KeysOk(ks)
    ensures var h := Prompts(AddedAll([], max, Records(file)), max, sessions);
            AddedAll([], max, Records(Saved(h))) == h <==> AdjacentDistinct(h)
  {
    hide Prompts, KeysOk, AddedAll, Records, AdjacentDistinct, HistOk;
    RecordsHaveNoCr(file);
    LoadedHasNoCr([], max, Records(file));
    PromptsKeepNoCr(AddedAll([], max, Records(file)), max, sessions);
    var h := Prompts(AddedAll([], max, Records(file)), max, sessions);
    FileRoundTrip(h, max);
  }
}
