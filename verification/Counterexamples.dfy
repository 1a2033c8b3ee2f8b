/** Keys that reach the cases in which a law of the line editor does not hold. */
module Counterexamples {
  import opened Seqs
  import opened Utf8
  import opened Clusters
  import opened Capacity
  import opened Document
  import opened Paste
  import opened History
  import opened Atoms
  import opened Session
  import opened Refinement
  import opened Zipper
  import opened Program
  import opened Cursor

  // ----- Left does not undo Right at an extender

  /** COMBINING ACUTE ACCENT */
  const ACUTE: Scalar := 0x301

  function Marked(pos: nat): State {
    State(Doc([97, 0xCC, 0x81], pos, []), Cap(INITIAL_BUFLEN - 1, MAX_LINE), [[]], 0)
  }

  lemma TypeMark(st: State)
    requires StateInv(st) && st == State(Doc([], 0, []), Cap(INITIAL_BUFLEN - 1, MAX_LINE), [[]], 0)
    ensures KeyOk(Type(ACUTE)) && Apply(st, Type(ACUTE)) == (st.(doc := Doc([0xCC, 0x81], 2, [])), More)
  {
    hide StateInv;
    assert Encode1(ACUTE) == [0xCC, 0x81];
    EncodeOne(ACUTE);
    assert Spliced([], 0, [0xCC, 0x81]) == [0xCC, 0x81];
  }

  lemma TypeLetter(st: State)
    requires StateInv(st) && st == State(Doc([0xCC, 0x81], 0, []), Cap(INITIAL_BUFLEN - 1, MAX_LINE), [[]], 0)
    ensures KeyOk(Type(97)) && Apply(st, Type(97)) == (Marked(1), More)
  {
    hide StateInv;
    EncodeOne(97);
    assert Spliced([0xCC, 0x81], 0, [97]) == [97, 0xCC, 0x81];
  }

  /** An accent, Home and a letter put the cursor between the letter and its accent. */
  lemma AccentAfterCursor()
    ensures ProgramInv([], 100) && StateInv(Start([], 100))
    ensures var ks := [Type(ACUTE), KeyHome, Type(97)];
            KeysOk(ks) && Run(Start([], 100), ks) == (Marked(1), More)
  {
    StartInv([], 100);
    var s0 := Start([], 100);
    assert s0 == State(Doc([], 0, []), Cap(INITIAL_BUFLEN - 1, MAX_LINE), [[]], 0);
    hide StateInv, Run, Start;
    TypeMark(s0);
    var s1 := Apply(s0, Type(ACUTE)).0;
    var s2 := Apply(s1, KeyHome).0;
    TypeLetter(s2);
    RunNothing(Marked(1));
    RunOne(s2, Type(97), []);
    RunOne(s1, KeyHome, [Type(97)]);
    RunOne(s0, Type(ACUTE), [KeyHome, Type(97)]);
    assert [Type(ACUTE)] + ([KeyHome] + ([Type(97)] + [])) == [Type(ACUTE), KeyHome, Type(97)];
  }

  /** From there Right and then Left do not come back: Left goes past the letter. */
  lemma LeftGoesPastRight()
    ensures StateInv(Marked(1)) && StateInv(Apply(Marked(1), KeyRight).0)
    ensures Apply(Apply(Marked(1), KeyRight).0, KeyLeft).0 != Marked(1)
  {
    AccentAfterCursor();
    MarkedText();
    assert IsExtend(ACUTE) && NoJoin([97] + [ACUTE]);
    MoveKeys(Marked(1));
    hide *;
    RightThenLeft(Marked(1).doc, [97], [ACUTE]);
  }

  lemma MarkedText()
    ensures var d := Marked(1).doc;
            d.folds == [] && d.text == Encode([97]) + Encode([ACUTE]) && d.pos == |Encode([97])|
  {
    EncodeOne(97);
    EncodeOne(ACUTE);
  }

  lemma MoveKeys(st: State)
    requires StateInv(st)
    ensures Inv(st.doc) && StateInv(Apply(st, KeyRight).0)
    ensures Apply(Apply(st, KeyRight).0, KeyLeft).0 == st.(doc := MoveLeft(MoveRight(st.doc)))
  {
    hide MoveLeft, MoveRight;
  }

  // ----- a cluster across the edge of a fold

  lemma PasteMark(st: State)
    requires StateInv(st) && st == State(Doc([97], 1, []), Cap(INITIAL_BUFLEN - 1, MAX_LINE), [[]], 0)
    ensures KeyOk(PasteText([ACUTE, 10]))
    ensures Apply(st, PasteText([ACUTE, 10])) == (st.(doc := Doc([97, 0xCC, 0x81, 10], 4, [Fold(1, 4)])), More)
  {
    var x: seq<byte> := [0xCC, 0x81, 10];
    MarkEncoded();
    NormaliseKeeps(x);
    PasteScanned(st, [ACUTE, 10]);
    InsertMark(st.doc, x);
    hide StateInv, Normalise, ScanPaste, InsertFolded, Encode;
    assert !PasteScan(st, [ACUTE, 10]).over && PasteScan(st, [ACUTE, 10]).kept == x;
  }

  lemma MarkEncoded()
    ensures Encode([ACUTE, 10]) == [0xCC, 0x81, 10] && NoEnd([0xCC, 0x81, 10])
  {
    EncodeOne(10);
    EncodeCons(ACUTE, [10]);
    assert [ACUTE] + [10] == [ACUTE, 10];
    assert Encode1(ACUTE) + [10] == [0xCC, 0x81, 10];
  }

  lemma InsertMark(d: Doc, x: seq<byte>)
    requires Inv(d) && d == Doc([97], 1, []) && x == [0xCC, 0x81, 10] && IsText(x)
    ensures InsertFolded(d, x) == Doc([97, 0xCC, 0x81, 10], 4, [Fold(1, 4)])
  {
    hide IsText;
    assert Spliced([97], 1, x) == [97, 0xCC, 0x81, 10];
  }

  lemma ClusterOfTwo()
    ensures NextLen([97, 0xCC, 0x81, 10], 0) == 3
  {
    var s: seq<byte>, b := [97, 0xCC, 0x81, 10], [97, ACUTE, 10];
    LetterAndMark();
    CountOfTwo();
    hide Encode, NextLen, NextCount;
    NoneLeft(s);
    NextLenCounts(s, 0, b);
  }

  lemma LetterAndMark()
    ensures Encode([97, ACUTE, 10]) == [97, 0xCC, 0x81, 10]
    ensures |Encode([97, ACUTE, 10][..2])| == 3
  {
    MarkEncoded();
    EncodeOne(ACUTE);
    EncodeCons(97, [ACUTE, 10]);
    EncodeCons(97, [ACUTE]);
    hide Encode;
    assert [97] + [ACUTE, 10] == [97, ACUTE, 10] && [97] + [ACUTE] == [97, ACUTE, 10][..2];
    assert Encode1(97) + [0xCC, 0x81, 10] == [97, 0xCC, 0x81, 10];
  }

  lemma CountOfTwo()
    ensures NextCount([97, ACUTE, 10]) == 2
  {
    var b: seq<Scalar> := [97, ACUTE, 10];
    assert b[1..] == [ACUTE, 10] && [ACUTE, 10][1..] == [10];
    assert NextMore([10], false) == 0;
    assert NextMore([ACUTE, 10], false) == 1;
  }

  lemma RightIntoFold(st: State)
    requires StateInv(st) && st.doc == Doc([97, 0xCC, 0x81, 10], 0, [Fold(1, 4)])
    ensures Apply(st, KeyRight) == (st.(doc := st.doc.(pos := 3)), More)
  {
    ClusterOfTwo();
    hide StateInv, NextLen;
    assert [Fold(1, 4)][1..] == [];
    assert StartingAt(st.doc.folds, 4, 0) == 0;
  }

  /** A letter, a folded paste that begins with an accent, Home and Right: the letter and
      the accent are one cluster, and the cursor stands inside the fold. */
  lemma CursorEntersFold()
    ensures ProgramInv([], 100) && StateInv(Start([], 100))
    ensures var ks := [Type(97), PasteText([ACUTE, 10]), KeyHome, KeyRight];
            && KeysOk(ks)
            && var d := Run(Start([], 100), ks).0.doc;
               d == Doc([97, 0xCC, 0x81, 10], 3, [Fold(1, 4)]) && Inv(d) && !CursorOutside(d)
    ensures var d := Doc([97, 0xCC, 0x81, 10], 0, [Fold(1, 4)]); Inv(d) && EntersRight(d, Fold(1, 4))
  {
    hide *;
    var s0 := EmptyPrompt();
    TypeFirst(s0);
    var s1 := s0.(doc := Doc([97], 1, []));
    KeyKeeps(s0, Type(97));
    PasteMark(s1);
    var s2 := s0.(doc := Doc([97, 0xCC, 0x81, 10], 4, [Fold(1, 4)]));
    KeyKeeps(s1, PasteText([ACUTE, 10]));
    var s3 := s0.(doc := Doc([97, 0xCC, 0x81, 10], 0, [Fold(1, 4)]));
    HomeKey(s2);
    KeyKeeps(s2, KeyHome);
    RightIntoFold(s3);
    var s4 := s0.(doc := Doc([97, 0xCC, 0x81, 10], 3, [Fold(1, 4)]));
    KeyKeeps(s3, KeyRight);
    MovesOk();
    InsideFold(s4.doc);
    DocInv(s4);
    DocInv(s3);
    FoldIsEntered(s3.doc);
    RunNothing(s4);
    assert [Type(97)] + [PasteText([ACUTE, 10]), KeyHome, KeyRight] ==
           [Type(97), PasteText([ACUTE, 10]), KeyHome, KeyRight];
    assert [PasteText([ACUTE, 10])] + [KeyHome, KeyRight] == [PasteText([ACUTE, 10]), KeyHome, KeyRight];
    assert [KeyHome] + [KeyRight] == [KeyHome, KeyRight] && [KeyRight] + [] == [KeyRight];
    RunOne(s3, KeyRight, []);
    RunOne(s2, KeyHome, [KeyRight]);
    RunOne(s1, PasteText([ACUTE, 10]), [KeyHome, KeyRight]);
    RunOne(s0, Type(97), [PasteText([ACUTE, 10]), KeyHome, KeyRight]);
  }

  lemma RightMoves(d: Doc)
    requires Inv(d) && d == Doc([97, 0xCC, 0x81, 10], 0, [Fold(1, 4)])
    ensures MoveRight(d).pos == 3
  {
    ClusterOfTwo();
    hide NextLen, Inv;
    assert [Fold(1, 4)][1..] == [];
    assert StartingAt(d.folds, 4, 0) == 0;
  }

  lemma FoldIsEntered(d: Doc)
    requires Inv(d) && d == Doc([97, 0xCC, 0x81, 10], 0, [Fold(1, 4)])
    ensures EntersRight(d, Fold(1, 4))
  {
    RightMoves(d);
    MarkEncoded();
    LetterAndMark();
    var cs: seq<Scalar> := [97, ACUTE, 10];
    PointsOfEncode(cs);
    assert NoJoin(cs) && CursorOutside(d);
    assert [Fold(1, 4)][1..] == [];
    assert StartingAt(d.folds, |d.text|, 0) == 0 && Fold(1, 4) in d.folds;
    hide *;
    RightEntersIff(d, Fold(1, 4));
  }

  lemma EmptyPrompt() returns (st: State)
    ensures ProgramInv([], 100) && StateInv(st) && st == Start([], 100)
    ensures st == State(Doc([], 0, []), Cap(INITIAL_BUFLEN - 1, MAX_LINE), [[]], 0)
  {
    StartInv([], 100);
    st := Start([], 100);
  }

  lemma KeyKeeps(st: State, k: Key)
    requires StateInv(st) && KeyOk(k) && Apply(st, k).1.More?
    ensures StateInv(Apply(st, k).0)
  {}

  lemma HomeKey(st: State)
    requires StateInv(st)
    ensures Apply(st, KeyHome) == (st.(doc := st.doc.(pos := 0)), More)
  {
    hide StateInv;
  }

  lemma InsideFold(d: Doc)
    requires d.folds == [Fold(1, 4)] && d.pos == 3
    ensures !CursorOutside(d)
  {
    assert Fold(1, 4) in d.folds;
  }

  lemma MovesOk()
    ensures KeyOk(KeyHome) && KeyOk(KeyRight)
  {}

  lemma TypeFirst(st: State)
    requires StateInv(st) && st == State(Doc([], 0, []), Cap(INITIAL_BUFLEN - 1, MAX_LINE), [[]], 0)
    ensures KeyOk(Type(97)) && Apply(st, Type(97)) == (st.(doc := Doc([97], 1, [])), More)
  {
    hide StateInv;
    EncodeOne(97);
    assert Spliced([], 0, [97]) == [97];
  }

  // ----- a history that its file does not give back

  const A: Scalar := 97
  const B: Scalar := 98
  const C: Scalar := 99

  lemma SimOne(a: Sim, k: Key, ks: seq<Key>)
    requires SimOk(a) && PlainKey(k) && PlainKeys(ks)
    ensures PlainKeys([k] + ks)
    ensures var (b, o) := SimApply(a, k);
            if o.More? then SimOk(b) && SimRun(a, [k] + ks) == SimRun(b, ks) else SimRun(a, [k] + ks) == (b, o)
  {
    hide SimOk, PlainKey, SimApply, Apply;
    KeyRefines(a, k);
    assert ([k] + ks)[1..] == ks;
  }

  /** A prompt in its first 4095 bytes. */
  function At4095(xs: seq<Atom>, hist: seq<seq<Scalar>>, idx: nat): Sim {
    Sim(Editor(xs, []), Cap(INITIAL_BUFLEN - 1, MAX_LINE), hist, idx)
  }

  lemma OneLetter(c: Scalar)
    requires 97 <= c <= 99
    ensures PlainText([c]) && Encode([c]) == [c] && EntryOf([c]) == [c]
    ensures Size([Char(c)]) == 1 && Size([]) == 0 && Flat([Char(c)]) == [c] && Flat([]) == []
    ensures PlainKey(Type(c)) && Recall([c]) == Editor([Char(c)], []) && Recall([]) == Editor([], [])
  {
    EncodeOne(c);
    EncodeNil();
    FlatOne(Char(c));
    EmptyFlat();
    EntryIsBytes([c]);
    assert Chars([c]) == [Char(c)];
  }

  /** A letter typed into the empty line. */
  lemma TypeOne(c: Scalar, hist: seq<seq<Scalar>>, idx: nat)
    requires 97 <= c <= 99 && SimOk(At4095([], hist, idx))
    ensures SimApply(At4095([], hist, idx), Type(c)) == (At4095([Char(c)], hist, idx), More)
  {
    OneLetter(c);
    hide Encode, Flat, Encode1;
    assert Editor([], []).All() == [] && [] + [Char(c)] == [Char(c)];
  }

  lemma EnterOne(c: Scalar, hist: seq<seq<Scalar>>, idx: nat)
    requires 97 <= c <= 99 && SimOk(At4095([Char(c)], hist, idx))
    ensures SimApply(At4095([Char(c)], hist, idx), KeyEnter) ==
            (At4095([Char(c)], hist[..|hist| - 1], idx), Finished([c]))
  {
    OneLetter(c);
    hide Encode, Flat, Encode1;
    assert Editor([Char(c)], []).All() == [Char(c)];
  }

  /** A letter and Enter on the empty line. */
  lemma LetterRun(c: Scalar, hist: seq<seq<Scalar>>, idx: nat)
    requires 97 <= c <= 99 && SimOk(At4095([], hist, idx))
    ensures PlainKeys([Type(c), KeyEnter])
    ensures SimRun(At4095([], hist, idx), [Type(c), KeyEnter]) ==
            (At4095([Char(c)], hist[..|hist| - 1], idx), Finished([c]))
  {
    OneLetter(c);
    TypeOne(c, hist, idx);
    hide SimOk, SimRun, SimApply, Encode, Flat, Encode1;
    var a, b := At4095([], hist, idx), At4095([Char(c)], hist, idx);
    assert PlainKeys([]) && PlainKey(KeyEnter);
    KeyRefines(a, Type(c));
    EnterOne(c, hist, idx);
    SimOne(b, KeyEnter, []);
    SimOne(a, Type(c), [KeyEnter]);
    assert [Type(c)] + [KeyEnter] == [Type(c), KeyEnter] && [KeyEnter] + [] == [KeyEnter];
  }

  /** What a prompt that is left with Enter does to the history. */
  lemma PromptAdds(hs: seq<seq<Scalar>>, ks: seq<Key>, rest: seq<seq<Scalar>>, c: Scalar)
    requires 97 <= c <= 99 && PlainHistory(hs, 100) && PlainKeys(ks)
    requires SimOk(SimStart(hs, 100))
    requires SimRun(SimStart(hs, 100), ks) == (At4095([Char(c)], rest, 0), Finished([c]))
    ensures SimPrompt(hs, 100, ks) == SimAdded(rest, 100, [c])
  {
    OneLetter(c);
    hide SimRun, PlainKeys, PlainHistory, SimAdded, Encode, Flat, SimOk, SimStart;
    assert Editor([Char(c)], []).All() == [Char(c)];
  }

  lemma StartIs(hs: seq<seq<Scalar>>)
    requires |hs| < 100 && (hs == [] || hs[|hs| - 1] != [])
    ensures SimStart(hs, 100) == At4095([], hs + [[]], 0)
  {}

  lemma AddsOne(hs: seq<seq<Scalar>>, cs: seq<Scalar>)
    requires |hs| < 100 && (hs == [] || hs[|hs| - 1] != cs)
    ensures SimAdded(hs, 100, cs) == hs + [cs]
  {}

  /** Typing a letter and Enter adds it. */
  lemma LetterPrompt(hs: seq<seq<Scalar>>, c: Scalar)
    requires 97 <= c <= 99 && PlainHistory(hs, 100) && |hs| < 100
    requires hs == [] || (hs[|hs| - 1] != [] && hs[|hs| - 1] != [c])
    ensures PlainKeys([Type(c), KeyEnter]) && SimPrompt(hs, 100, [Type(c), KeyEnter]) == hs + [[c]]
  {
    hide *;
    FreshPrompt(hs, 100);
    StartIs(hs);
    LetterRun(c, hs + [[]], 0);
    Halves(hs, [[]]);
    PromptAdds(hs, [Type(c), KeyEnter], hs, c);
    AddsOne(hs, [c]);
  }

  const OVERWRITE: seq<Key> := [KeyUp, KeyBackspace, Type(A), KeyDown, Type(C), KeyEnter]

  lemma OverwriteKeys()
    ensures OVERWRITE == [KeyUp] + ([KeyBackspace] + ([Type(A)] + ([KeyDown] + [Type(C), KeyEnter])))
  {}

  /** Up, the letter overwritten, Down: the edited line is written back over the entry. */
  lemma OverwriteRun()
    ensures SimOk(At4095([], [[A], [B], []], 0)) && PlainKeys(OVERWRITE)
    ensures SimRun(At4095([], [[A], [B], []], 0), OVERWRITE) == (At4095([Char(C)], [[A], [A]], 0), Finished([C]))
  {
    assert PlainKey(KeyUp) && PlainKey(KeyBackspace) && PlainKey(KeyDown);
    hide *;
    StartsOk();
    OneLetter(A);
    UpShows();
    KeyRefines(At4095([], [[A], [B], []], 0), KeyUp);
    EraseOne(B, [[A], [B], []], 1);
    KeyRefines(At4095([Char(B)], [[A], [B], []], 1), KeyBackspace);
    TypeOne(A, [[A], [B], []], 1);
    KeyRefines(At4095([], [[A], [B], []], 1), Type(A));
    DownWrites();
    KeyRefines(At4095([Char(A)], [[A], [B], []], 1), KeyDown);
    LetterRun(C, [[A], [A], []], 0);
    LastIsCut();
    var rest := [Type(C), KeyEnter];
    SimOne(At4095([Char(A)], [[A], [B], []], 1), KeyDown, rest);
    SimOne(At4095([], [[A], [B], []], 1), Type(A), [KeyDown] + rest);
    SimOne(At4095([Char(B)], [[A], [B], []], 1), KeyBackspace, [Type(A)] + ([KeyDown] + rest));
    SimOne(At4095([], [[A], [B], []], 0), KeyUp, [KeyBackspace] + ([Type(A)] + ([KeyDown] + rest)));
    OverwriteKeys();
  }

  lemma LastIsCut()
    ensures var h: seq<seq<Scalar>> := [[A], [A], []]; h[..|h| - 1] == [[A], [A]]
  {}

  lemma StartsOk()
    ensures SimOk(At4095([], [[A], [B], []], 0))
  {
    OneLetter(A);
    OneLetter(B);
    hide Encode, Flat, Encode1;
    EmptyEditor();
    NothingIsPlain();
  }

  lemma UpShows()
    requires SimOk(At4095([], [[A], [B], []], 0))
    ensures SimApply(At4095([], [[A], [B], []], 0), KeyUp) == (At4095([Char(B)], [[A], [B], []], 1), More)
  {
    OneLetter(B);
    hide Encode, Flat, Encode1, Recall;
    assert Editor([], []).All() == [];
    var h: seq<seq<Scalar>> := [[A], [B], []];
    assert h[2 := []] == h;
  }

  lemma EraseOne(c: Scalar, hist: seq<seq<Scalar>>, idx: nat)
    requires 97 <= c <= 99 && SimOk(At4095([Char(c)], hist, idx))
    ensures SimApply(At4095([Char(c)], hist, idx), KeyBackspace) == (At4095([], hist, idx), More)
  {
    assert [Char(c)][..0] == [];
  }

  lemma DownWrites()
    requires SimOk(At4095([Char(A)], [[A], [B], []], 1))
    ensures SimApply(At4095([Char(A)], [[A], [B], []], 1), KeyDown) == (At4095([], [[A], [A], []], 0), More)
  {
    OneLetter(A);
    hide Encode, Flat, Encode1, Recall;
    assert Editor([Char(A)], []).All() == [Char(A)];
    var h: seq<seq<Scalar>> := [[A], [B], []];
    assert h[1 := [A]] == [[A], [A], []];
    EncodeNil();
  }

  lemma LettersPlain()
    ensures PlainHistory([[A]], 100) && PlainHistory([[A], [B]], 100) && PlainHistory([[A], [A], [C]], 100)
    ensures PlainHistory([], 100)
  {
    OneLetter(A);
    OneLetter(B);
    OneLetter(C);
    hide PlainText, Encode;
  }

  lemma LettersJoin()
    ensures var h: seq<seq<Scalar>> := [[A], [B]]; h + [[]] == [[A], [B], []] && h[|h| - 1] != []
    ensures var h: seq<seq<Scalar>> := [[A], [A]]; h + [[C]] == [[A], [A], [C]] && h[|h| - 1] != [C]
    ensures var h: seq<seq<Scalar>> := [[A]]; h + [[B]] == [[A], [B]] && h[|h| - 1] != [] && h[|h| - 1] != [B]
    ensures var h: seq<seq<Scalar>> := []; h + [[A]] == [[A]]
  {}

  lemma OverwritePrompt()
    ensures PlainHistory([[A], [B]], 100) && PlainKeys(OVERWRITE)
    ensures SimPrompt([[A], [B]], 100, OVERWRITE) == [[A], [A], [C]]
  {
    assert C == 99;
    hide *;
    LettersPlain();
    LettersJoin();
    StartIs([[A], [B]]);
    OverwriteRun();
    PromptAdds([[A], [B]], OVERWRITE, [[A], [A]], C);
    AddsOne([[A], [A]], [C]);
  }

  lemma ThreePrompts(sessions: seq<seq<Key>>)
    requires sessions == [[Type(A), KeyEnter], [Type(B), KeyEnter], OVERWRITE]
    ensures PlainHistory([], 100) && forall ks :: ks in sessions ==> PlainKeys(ks)
    ensures SimPrompts([], 100, sessions) == [[A], [A], [C]]
  {
    hide SimPrompt, SimRun, PlainHistory, PlainText, PlainKey, OVERWRITE;
    LettersPlain();
    LettersJoin();
    LetterPrompt([], A);
    LetterPrompt([[A]], B);
    OverwritePrompt();
    var two, one := [[Type(B), KeyEnter], OVERWRITE], [OVERWRITE];
    assert sessions[1..] == two && two[1..] == one && one[1..] == [];
    SessionsStep([[A], [B]], one);
    SessionsStep([[A]], two);
    SessionsStep([], sessions);
  }

  lemma SessionsStep(hs: seq<seq<Scalar>>, sessions: seq<seq<Key>>)
    requires PlainHistory(hs, 100) && sessions != [] && forall ks :: ks in sessions ==> PlainKeys(ks)
    ensures sessions[0] in sessions && forall ks :: ks in sessions[1..] ==> ks in sessions
    ensures var g := SimPrompt(hs, 100, sessions[0]);
            && PlainHistory(g, 100)
            && SimPrompts(hs, 100, sessions) == SimPrompts(g, 100, sessions[1..])
            && SimPrompts(g, 100, []) == g
  {
    hide SimPrompt, PlainHistory, PlainKeys;
    PromptRefines(hs, 100, sessions[0]);
  }

  /** Three prompts from an empty history, a, b, and then b overwritten by a and left with
      Down before c is accepted: the history is a, a, c and its file gives back a, c. */
  lemma NeighboursBecomeEqual(sessions: seq<seq<Key>>)
    requires sessions == [[Type(97), KeyEnter], [Type(98), KeyEnter],
                          [KeyUp, KeyBackspace, Type(97), KeyDown, Type(99), KeyEnter]]
    ensures ProgramInv([], 100) && forall ks :: ks in sessions ==> KeysOk(ks)
    ensures var h := Prompts([], 100, sessions);
            && h == [[97], [97], [99]]
            && AddedAll([], 100, Records(Saved(h))) != h
  {
    hide SimPrompts, Prompts, PlainText, PlainKey, KeyOk, Entries, ProgramInv;
    ThreePrompts(sessions);
    PromptsRefine([], 100, sessions);
    LetterEntries();
    NotGivenBack();
  }

  lemma LetterEntries()
    ensures Entries([]) == [] && Entries([[A], [A], [C]]) == [[97], [97], [99]]
  {
    OneLetter(A);
    OneLetter(C);
    hide EntryOf, PlainText, Encode;
  }

  lemma NotGivenBack()
    ensures var h: seq<Line> := [[97], [97], [99]]; AddedAll([], 100, Records(Saved(h))) != h
  {
    var h: seq<Line> := [[97], [97], [99]];
    assert h[0] == h[1];
    hide AddedAll, Records, Saved;
    FileRoundTrip(h, 100);
  }
}
