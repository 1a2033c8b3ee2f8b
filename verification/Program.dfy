/** Whole runs of the program: prompt after prompt from a history (cli/linenoise.c:2329-2352,
    cli/repl.c:801-850), for the simple editor and for the lines that reach the file. */
module Program {
  import opened Seqs
  import opened Utf8
  import opened Capacity
  import opened Document
  import opened History
  import opened Atoms
  import opened Session
  import opened Refinement
  import opened Zipper

  // ----- a prompt over atoms, from its start

  predicate PlainEntries(hs: seq<seq<Scalar>>) {
    forall cs :: cs in hs ==> PlainText(cs) && |Encode(cs)| <= MAX_LINE
  }

  predicate PlainHistory(hs: seq<seq<Scalar>>, max: nat) { 0 < max && |hs| <= max && PlainEntries(hs) }

  function SimAdded(hs: seq<seq<Scalar>>, max: nat, cs: seq<Scalar>): seq<seq<Scalar>> {
    if max == 0 || (hs != [] && hs[|hs| - 1] == cs) then hs
    else (if |hs| == max then hs[1..] else hs) + [cs]
  }

  function SimStart(hs: seq<seq<Scalar>>, max: nat): Sim {
    Sim(Editor([], []), Cap(INITIAL_BUFLEN - 1, MAX_LINE), SimAdded(hs, max, []), 0)
  }

  lemma SameEntry(a: seq<Scalar>, b: seq<Scalar>)
    requires PlainText(a) && PlainText(b)
    ensures EntryOf(a) == EntryOf(b) <==> a == b
  {
    hide Encode, CStr;
    EntryIsBytes(a);
    EntryIsBytes(b);
    if EntryOf(a) == EntryOf(b) {
      EncodeInjective(a, b);
    }
  }

  /** Adding to the history is adding to the plain entries. */
  lemma AddedIs(hs: seq<seq<Scalar>>, max: nat, cs: seq<Scalar>)
    requires PlainHistory(hs, max) && PlainText(cs) && |Encode(cs)| <= MAX_LINE
    ensures Added(Entries(hs), max, EntryOf(cs)) == Entries(SimAdded(hs, max, cs))
    ensures PlainHistory(SimAdded(hs, max, cs), max) && SimAdded(hs, max, cs) != []
  {
    hide Encode, EntryOf, PlainText, Entries, PlainEntries;
    AddedPlain(hs, max, cs);
    if hs != [] {
      LastEntry(hs);
      SameEntry(hs[|hs| - 1], cs);
      EntriesTail(hs);
    }
    EntriesSnoc(if |hs| == max then hs[1..] else hs, cs);
  }

  lemma AddedPlain(hs: seq<seq<Scalar>>, max: nat, cs: seq<Scalar>)
    requires PlainHistory(hs, max) && PlainText(cs) && |Encode(cs)| <= MAX_LINE
    ensures PlainHistory(SimAdded(hs, max, cs), max) && SimAdded(hs, max, cs) != []
  {
    hide Encode, PlainText;
  }

  lemma LastEntry(hs: seq<seq<Scalar>>)
    requires hs != [] && PlainEntries(hs)
    ensures PlainText(hs[|hs| - 1]) && |Entries(hs)| == |hs| && Entries(hs)[|hs| - 1] == EntryOf(hs[|hs| - 1])
  {
    assert hs[|hs| - 1] in hs;
  }

  lemma EntriesTail(hs: seq<seq<Scalar>>)
    requires hs != []
    ensures Entries(hs)[1..] == Entries(hs[1..])
  {
    hide EntryOf;
  }

  lemma EntriesSnoc(hs: seq<seq<Scalar>>, cs: seq<Scalar>)
    ensures Entries(hs + [cs]) == Entries(hs) + [EntryOf(cs)]
  {
    hide EntryOf;
  }

  lemma NothingIsPlain()
    ensures PlainText([]) && Encode([]) == [] && EntryOf([]) == []
  {
    EncodeNil();
  }

  /** linenoiseEditStart: a fresh prompt is the empty editor over atoms. */
  lemma FreshPrompt(hs: seq<seq<Scalar>>, max: nat)
    requires PlainHistory(hs, max)
    ensures SimOk(SimStart(hs, max)) && Start(Entries(hs), max) == Concretion(SimStart(hs, max))
    ensures ProgramInv(Entries(hs), max)
  {
    hide Encode, PlainText, EntryOf, Added;
    NothingIsPlain();
    AddedIs(hs, max, []);
    EmptyEditor();
    forall e | e in Entries(hs) ensures EntryOk(e, Cap(INITIAL_BUFLEN - 1, MAX_LINE)) {
      var i :| 0 <= i < |hs| && e == EntryOf(hs[i]);
      PlainEntryOk(hs[i]) by { assert hs[i] in hs; }
    }
  }

  lemma PlainEntryOk(cs: seq<Scalar>)
    requires PlainText(cs) && |Encode(cs)| <= MAX_LINE
    ensures EntryOk(EntryOf(cs), Cap(INITIAL_BUFLEN - 1, MAX_LINE))
  {
    hide Encode;
    EntryIsBytes(cs);
    TextOfPoints(cs);
  }

  lemma EmptyEditor()
    ensures Editor([], []).Ok() && Concrete(Editor([], [])) == Doc([], 0, [])
  {
    assert Editor([], []).All() == [];
    EmptyRanges(0);
    EmptyBytes();
  }

  /** However a run over atoms ends, what is left is plain, and an accepted line is the
      text of the editor. */
  lemma {:induction false} RunEnds(a: Sim, ks: seq<Key>)
    requires SimOk(a) && PlainKeys(ks)
    ensures var (b, o) := SimRun(a, ks);
            && b.e.Ok() && (forall cs :: cs in b.hist ==> PlainText(cs) && |Encode(cs)| <= b.cap.Limit())
            && (o.Finished? && o.line != [ESC] ==> o.line == EntryOf(Flat(b.e.All())))
    decreases |ks|
  {
    hide PlainKey, SimApply, Apply, Editor.Ok, PlainText, Encode, EntryOf, Flat, Bytes;
    if ks != [] {
      assert ks[0] in ks && forall k :: k in ks[1..] ==> k in ks;
      KeyRefines(a, ks[0]);
      var (b, o) := SimApply(a, ks[0]);
      if o.More? {
        RunEnds(b, ks[1..]);
      } else {
        KeyEnds(a, ks[0]);
      }
    }
  }

  lemma KeyEnds(a: Sim, k: Key)
    requires SimOk(a) && PlainKey(k) && !SimApply(a, k).1.More?
    ensures var (b, o) := SimApply(a, k);
            && b.e == a.e && b.cap == a.cap && (forall cs :: cs in b.hist ==> cs in a.hist)
            && (o.Finished? && o.line != [ESC] ==> o.line == EntryOf(Flat(b.e.All())))
  {}

  /** One prompt and the history it leaves, over atoms. */
  function SimPrompt(hs: seq<seq<Scalar>>, max: nat, ks: seq<Key>): seq<seq<Scalar>>
    requires PlainHistory(hs, max) && PlainKeys(ks)
  {
    FreshPrompt(hs, max);
    var (b, o) := SimRun(SimStart(hs, max), ks);
    if o.Finished? && o.line != [ESC] && o.line != [] && o.line[0] != SLASH
    then SimAdded(b.hist, max, Flat(b.e.All()))
    else b.hist
  }

  lemma PromptRefines(hs: seq<seq<Scalar>>, max: nat, ks: seq<Key>)
    requires PlainHistory(hs, max) && PlainKeys(ks)
    ensures PlainHistory(SimPrompt(hs, max, ks), max)
    ensures ProgramInv(Entries(hs), max) && KeysOk(ks)
    ensures Prompt(Entries(hs), max, ks) == Entries(SimPrompt(hs, max, ks))
  {
    hide SimRun, Run, Added, SimAdded, PlainText, Encode, EntryOf, Flat, Editor.Ok, Concrete, PlainKey, KeyOk, SimStart,
      Start, Bytes, CapOk, HistOk, SimOk, StateInv;
    FreshPrompt(hs, max);
    var a := SimStart(hs, max);
    RunRefines(a, ks);
    RunEnds(a, ks);
    StartCap(hs, max);
    StartInv(Entries(hs), max);
    RunKeepsCount(Concretion(a), ks);
    var (b, o) := SimRun(a, ks);
    assert PlainHistory(b.hist, max);
    if o.Finished? && o.line != [ESC] && o.line != [] && o.line[0] != SLASH {
      LineIsPlain(b.e, o.line);
      AddedIs(b.hist, max, Flat(b.e.All()));
    }
  }

  lemma StartCap(hs: seq<seq<Scalar>>, max: nat)
    ensures Concretion(SimStart(hs, max)).cap.Limit() == MAX_LINE
  {}

  lemma LineIsPlain(e: Editor, line: Line)
    requires e.Ok() && line == EntryOf(Flat(e.All())) && |line| <= MAX_LINE
    ensures PlainText(Flat(e.All())) && |Encode(Flat(e.All()))| <= MAX_LINE
  {
    EditorText(e);
    EntryIsBytes(Flat(e.All()));
  }

  function SimPrompts(hs: seq<seq<Scalar>>, max: nat, sessions: seq<seq<Key>>): seq<seq<Scalar>>
    requires PlainHistory(hs, max) && forall ks :: ks in sessions ==> PlainKeys(ks)
    decreases |sessions|
  {
    if sessions == [] then hs
    else
      assert sessions[0] in sessions && forall ks :: ks in sessions[1..] ==> ks in sessions;
      PromptRefines(hs, max, sessions[0]);
      SimPrompts(SimPrompt(hs, max, sessions[0]), max, sessions[1..])
  }

  /** Prompt after prompt, the histories correspond. */
  lemma {:induction false} PromptsRefine(hs: seq<seq<Scalar>>, max: nat, sessions: seq<seq<Key>>)
    requires PlainHistory(hs, max) && forall ks :: ks in sessions ==> PlainKeys(ks)
    ensures ProgramInv(Entries(hs), max) && forall ks :: ks in sessions ==> KeysOk(ks)
    ensures PlainHistory(SimPrompts(hs, max, sessions), max)
    ensures Prompts(Entries(hs), max, sessions) == Entries(SimPrompts(hs, max, sessions))
    decreases |sessions|
  {
    hide PlainHistory, ProgramInv, PlainKeys, KeysOk, Prompt, SimPrompt, Entries;
    FreshPrompt(hs, max);
    forall ks | ks in sessions ensures KeysOk(ks) {
      PlainKeysOk(ks);
    }
    if sessions != [] {
      assert sessions[0] in sessions && forall ks :: ks in sessions[1..] ==> ks in sessions;
      PromptRefines(hs, max, sessions[0]);
      PromptsRefine(SimPrompt(hs, max, sessions[0]), max, sessions[1..]);
    }
  }

  /** From linenoiseEditStart on: after any prompts, in every state the keys of the next one
      reach, folds are sorted, disjoint, non-empty, in range and at most sixteen, the cursor
      is outside them, and every newline is inside one. */
  lemma EveryDocument(hs: seq<seq<Scalar>>, max: nat, sessions: seq<seq<Key>>, ks: seq<Key>)
    requires PlainHistory(hs, max) && (forall s :: s in sessions ==> PlainKeys(s)) && PlainKeys(ks)
    ensures ProgramInv(Entries(hs), max) && (forall s :: s in sessions ==> KeysOk(s)) && KeysOk(ks)
    ensures var h := Prompts(Entries(hs), max, sessions);
            && StateInv(Start(h, max))
            && var (st, o) := Run(Start(h, max), ks);
               o.More? ==> Inv(st.doc) && CursorOutside(st.doc) && NewlinesFolded(st.doc)
  {
    hide PlainHistory, ProgramInv, PlainKeys, KeysOk, Prompts, SimPrompts, Run, Start, SimStart, Inv, SimOk, StateInv,
      CursorOutside, NewlinesFolded;
    PromptsRefine(hs, max, sessions);
    var gs := SimPrompts(hs, max, sessions);
    FreshPrompt(gs, max);
    ReachableDocument(SimStart(gs, max), ks);
  }

  // ----- newlines

  /** Where the folds of d are after an insertion at the cursor. */
  lemma {:induction false} ShiftedFolds(fs: seq<Fold>, p: nat, n: nat)
    ensures forall f :: f in fs && f.end <= p && f.start < p ==> f in ShiftedByInsert(fs, p, n)
    ensures forall f :: f in fs && p <= f.start ==> Fold(f.start + n, f.end + n) in ShiftedByInsert(fs, p, n)
    ensures forall g :: g in ShiftedByInsert(fs, p, n) ==> g.end <= p || p + n <= g.start
  {
    if fs != [] {
      ShiftedFolds(fs[1..], p, n);
      HeadTail(fs);
    }
  }

  /** Unfolded text keeps all newlines inside folds exactly when it has none. */
  lemma InsertKeepsNewlines(d: Doc, x: seq<byte>)
    requires Inv(d) && CursorOutside(d) && NewlinesFolded(d) && IsText(x)
    ensures NewlinesFolded(Insert(d, x)) <==> LF !in x
  {
    hide IsText, ShiftedByInsert, Inv, Boundary;
    var r, p, n := Insert(d, x), d.pos, |x|;
    CursorIn(d);
    ShiftedFolds(d.folds, p, n);
    if LF in x {
      var k :| 0 <= k < n && x[k] == LF;
      assert r.text[p + k] == LF;
    } else {
      assert forall i :: p <= i < p + n ==> r.text[i] == x[i - p] && x[i - p] in x;
      forall i | 0 <= i < |r.text| && r.text[i] == LF
        ensures exists f :: f in r.folds && f.start <= i < f.end
      {
        if i < p {
          assert d.text[i] == LF;
          var f :| f in d.folds && f.start <= i < f.end;
          assert f in r.folds;
        } else {
          assert p + n <= i;
          assert d.text[i - n] == LF;
          var f :| f in d.folds && f.start <= i - n < f.end;
          assert Fold(f.start + n, f.end + n) in r.folds;
        }
      }
    }
  }

  lemma CursorIn(d: Doc)
    requires Inv(d)
    ensures d.pos <= |d.text|
  {}

  /** A typed character that fits keeps every newline inside a fold exactly when it is not
      a newline. */
  lemma TypingKeepsNewlines(st: State, c: Scalar)
    requires StateInv(st) && KeyOk(Type(c)) && |st.doc.text| + |Encode1(c)| <= st.cap.Limit()
    requires CursorOutside(st.doc) && NewlinesFolded(st.doc)
    ensures NewlinesFolded(Apply(st, Type(c)).0.doc) <==> c != 10
  {
    hide StateInv, Inv, Insert, Encode1, CursorOutside, NewlinesFolded, IsText;
    DocInv(st);
    GrownCapOk(st.cap, |st.doc.text| + |Encode1(c)|) by { CapOfState(st); }
    EncodeOne(c);
    TextOfPoints([c]);
    AsciiInEncode([c], LF);
    InsertKeepsNewlines(st.doc, Encode1(c));
  }

  lemma CapOfState(st: State)
    requires StateInv(st)
    ensures CapOk(st.cap)
  {}

  /** So Ctrl-J at a fresh prompt puts a newline outside every fold. */
  lemma NewlineOutsideFold(h: seq<Line>, max: nat)
    requires ProgramInv(h, max)
    ensures StateInv(Start(h, max)) && KeyOk(Type(10))
    ensures CursorOutside(Start(h, max).doc) && NewlinesFolded(Start(h, max).doc)
    ensures !NewlinesFolded(Apply(Start(h, max), Type(10)).0.doc)
  {
    StartInv(h, max);
    EncodeOne(10);
    hide StateInv, Apply;
    TypingKeepsNewlines(Start(h, max), 10);
  }
}
