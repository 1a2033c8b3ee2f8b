/** What the bytes of a key do to the line, in the terms of a user: the characters and folds
    before the cursor and after it (cli/linenoise.c:499-525, 2085-2311). */
module KeyEffects {
  import opened Seqs
  import opened Utf8
  import opened Clusters
  import opened Capacity
  import opened Document
  import opened Paste
  import opened History
  import opened Atoms
  import opened Session
  import opened Zipper
  import opened Dispatch
  import opened Refinement

  /** The line after a key whose bytes are w is the one with x before the cursor and y after
      it, and the prompt goes on. */
  ghost predicate Leads(a: Sim, w: seq<byte>, x: seq<Atom>, y: seq<Atom>)
    requires StateInv(Concretion(a))
  {
    forall k :: KeyOk(k) && Spells(w, k) ==>
                  Apply(Concretion(a), k) == (Concretion(a.(e := Editor(x, y))), More)
  }

  lemma OneKey(w: seq<byte>, k: Key, j: Key)
    requires KeyOk(k) && KeyOk(j) && Spells(w, k) && Spells(w, j) && !k.Type? && !k.PasteText? && |w| <= 4
    ensures j == k
  {
    FirstByteTells(w, k);
    FirstByteTells(w, j);
    if |w| == 1 {
      if !j.Type? {
        ControlKey(w[0], k);
        ControlKey(w[0], j);
      }
    } else {
      EscapeShape(w, k);
      EscapeShape(w, j);
    }
  }

  /** A key of the simple editor that only changes the line. */
  lemma LeadsBy(a: Sim, w: seq<byte>, k: Key, x: seq<Atom>, y: seq<Atom>)
    requires SimOk(a) && PlainKey(k) && Spells(w, k) && !k.Type? && !k.PasteText? && |w| <= 4
    requires SimApply(a, k) == (a.(e := Editor(x, y)), More)
    ensures StateInv(Concretion(a)) && Leads(a, w, x, y)
  {
    hide SimOk, Spells, Apply, SimApply, StateInv, Concretion;
    KeyRefines(a, k);
    forall j | KeyOk(j) && Spells(w, j)
      ensures Apply(Concretion(a), j) == (Concretion(a.(e := Editor(x, y))), More)
    {
      OneKey(w, k, j);
    }
  }

  /** Ctrl-A, Ctrl-E and their sequences go to the ends of the line. */
  lemma ToTheEnds(a: Sim)
    requires SimOk(a)
    ensures StateInv(Concretion(a))
    ensures var all := a.e.before + a.e.after;
            && Leads(a, [1], [], all) && Leads(a, [27, 91, 72], [], all) && Leads(a, [27, 79, 72], [], all)
            && Leads(a, [5], all, []) && Leads(a, [27, 91, 70], all, []) && Leads(a, [27, 79, 70], all, [])
  {
    hide SimOk, Leads;
    var all := a.e.before + a.e.after;
    LeadsBy(a, [1], KeyHome, [], all);
    LeadsBy(a, [27, 91, 72], KeyHome, [], all);
    LeadsBy(a, [27, 79, 72], KeyHome, [], all);
    LeadsBy(a, [5], KeyEnd, all, []);
    LeadsBy(a, [27, 91, 70], KeyEnd, all, []);
    LeadsBy(a, [27, 79, 70], KeyEnd, all, []);
  }

  /** Ctrl-B, Ctrl-F and the arrows go over one character or one whole fold. */
  lemma OverOne(a: Sim, x: seq<Atom>, c: Atom, y: seq<Atom>)
    requires SimOk(a)
    ensures StateInv(Concretion(a))
    ensures a.e == Editor(x + [c], y) ==> Leads(a, [2], x, [c] + y) && Leads(a, [27, 91, 68], x, [c] + y)
    ensures a.e == Editor(x, [c] + y) ==> Leads(a, [6], x + [c], y) && Leads(a, [27, 91, 67], x + [c], y)
  {
    hide SimOk, Leads;
    SimStateInv(a);
    LastOfConcat(x, [c]);
    NoneLeft(x);
    ConsTail(c, y);
    if a.e == Editor(x + [c], y) {
      LeadsBy(a, [2], KeyLeft, x, [c] + y);
      LeadsBy(a, [27, 91, 68], KeyLeft, x, [c] + y);
    }
    if a.e == Editor(x, [c] + y) {
      LeadsBy(a, [6], KeyRight, x + [c], y);
      LeadsBy(a, [27, 91, 67], KeyRight, x + [c], y);
    }
  }

  /** Backspace and Ctrl-H remove the character or whole fold before the cursor. */
  lemma RemoveBefore(a: Sim, x: seq<Atom>, c: Atom, y: seq<Atom>)
    requires SimOk(a) && a.e == Editor(x + [c], y)
    ensures StateInv(Concretion(a)) && Leads(a, [127], x, y) && Leads(a, [8], x, y)
  {
    hide SimOk, Leads, Concretion, Ignored, PlainText, PasteIn, Browse, Write, Left, Right, Exchange, DeleteNext,
      ToHome, ToEnd, DeleteWordBack, Encode, Encode1;
    LastOfConcat(x, [c]);
    NoneLeft(x);
    LeadsBy(a, [127], KeyBackspace, x, y);
    LeadsBy(a, [8], KeyBackspace, x, y);
  }

  /** Delete and Ctrl-D remove the one after it. */
  lemma RemoveAfter(a: Sim, x: seq<Atom>, c: Atom, y: seq<Atom>)
    requires SimOk(a) && a.e == Editor(x, [c] + y)
    ensures StateInv(Concretion(a)) && Leads(a, [4], x, y) && Leads(a, [27, 91, 51, 126], x, y)
  {
    hide SimOk, Leads, Concretion, Ignored, PlainText, PasteIn, Browse, Write, Left, Right, Exchange, DeletePrevious,
      ToHome, ToEnd, DeleteWordBack, Encode, Encode1;
    ConsTail(c, y);
    assert (x + ([c] + y))[|x|] == c;
    LeadsBy(a, [4], KeyCtrlD, x, y);
    LeadsBy(a, [27, 91, 51, 126], KeyDelete, x, y);
  }

  /** Ctrl-U removes the line, and Ctrl-K its part after the cursor. */
  lemma RemoveMany(a: Sim)
    requires SimOk(a)
    ensures StateInv(Concretion(a)) && Leads(a, [21], [], []) && Leads(a, [11], a.e.before, [])
  {
    hide SimOk, Leads, Concretion, Ignored, PlainText, PasteIn, Browse, Write, Left, Right, Exchange, DeletePrevious,
      DeleteNext, ToHome, ToEnd, DeleteWordBack, Encode, Encode1;
    LeadsBy(a, [21], KeyKillLine, [], []);
    LeadsBy(a, [11], KeyKillEnd, a.e.before, []);
  }

  /** Ctrl-L changes nothing. */
  lemma RemoveNothing(a: Sim)
    requires SimOk(a)
    ensures StateInv(Concretion(a)) && Leads(a, [12], a.e.before, a.e.after)
  {
    hide SimOk, Leads, Concretion, PlainText, PasteIn, Browse, Write, Left, Right, Exchange, DeletePrevious,
      DeleteNext, ToHome, ToEnd, DeleteWordBack, Encode, Encode1, Numeric, FullParameter;
    LeadsBy(a, [12], KeyIgnored, a.e.before, a.e.after);
  }

  /** Ctrl-T exchanges the characters around the cursor and goes over both. */
  lemma ExchangeTwo(a: Sim, x: seq<Atom>, c: Scalar, d: Scalar, y: seq<Atom>)
    requires SimOk(a) && a.e == Editor(x + [Char(c)], [Char(d)] + y)
    ensures StateInv(Concretion(a)) && Leads(a, [20], x + [Char(d), Char(c)], y)
  {
    hide SimOk, Leads;
    LastOfConcat(x, [Char(c)]);
    NoneLeft(x);
    ConsTail(Char(d), y);
    LeadsBy(a, [20], KeySwap, x + [Char(d), Char(c)], y);
  }

  /** Ctrl-W removes the spaces before the cursor and the word before them. */
  lemma RemoveWord(a: Sim, x: seq<Atom>, word: seq<Atom>, spaces: seq<Atom>, y: seq<Atom>)
    requires SimOk(a) && a.e == Editor(x + word + spaces, y)
    requires forall c :: c in spaces ==> c == Char(32)
    requires forall c :: c in word ==> c.Char? && c.c != 32
    requires x == [] || x[|x| - 1] == Char(32)
    requires word == [] ==> x == []
    ensures StateInv(Concretion(a)) && Leads(a, [23], x, y)
  {
    hide SimOk, Leads, Editor.Ok, AllOk, DropEnd, Concretion, Ignored, PlainText, PasteIn, Browse, Write, Left, Right,
      Exchange, DeletePrevious, DeleteNext, ToHome, ToEnd, DeleteWordBack, Encode, Encode1;
    EditorOk(a);
    WordDropped(a.e, x, word, spaces, y);
    LeadsBy(a, [23], KeyWord, x, y);
  }

  lemma WordDropped(e: Editor, x: seq<Atom>, word: seq<Atom>, spaces: seq<Atom>, y: seq<Atom>)
    requires e.Ok() && e == Editor(x + word + spaces, y)
    requires forall c :: c in spaces ==> c == Char(32)
    requires forall c :: c in word ==> c.Char? && c.c != 32
    requires x == [] || x[|x| - 1] == Char(32)
    requires word == [] ==> x == []
    ensures DeleteWordBack(e) == Editor(x, y)
  {
    hide Atom.Ok, DropEnd, AllOk;
    OkParts(e.before, e.after);
    OkParts(x + word, spaces);
    OkParts(x, word);
    AllEnd(spaces, true);
    AllEnd(word, false);
    LastNotSpace(x, word);
    DropWhole(x + word, spaces, true);
    DropWhole(x, word, false);
  }

  lemma LastNotSpace(x: seq<Atom>, word: seq<Atom>)
    requires forall c :: c in word ==> c.Char? && c.c != 32
    requires word == [] ==> x == []
    ensures var z := x + word;
            z == [] || (z[|z| - 1].Points() != [] && !z[|z| - 1].EndsInSpace())
  {
    if word != [] {
      LastOfConcat(x, word);
      assert word[|word| - 1] in word;
    }
  }

  lemma EditorOk(a: Sim)
    requires SimOk(a)
    ensures a.e.Ok() && AllOk(a.e.before + a.e.after)
  {}

  lemma AllEnd(xs: seq<Atom>, spaces: bool)
    requires AllOk(xs)
    requires forall c :: c in xs ==> c.Char? && (c.c == 32) == spaces
    ensures forall c :: c in xs ==> c.Points() != [] && c.EndsInSpace() == spaces
  {}

  lemma {:induction false} DropWhole(x: seq<Atom>, m: seq<Atom>, spaces: bool)
    requires AllOk(x + m) && AllOk(x) && forall c :: c in m ==> c.Points() != [] && c.EndsInSpace() == spaces
    requires x == [] || (x[|x| - 1].Points() != [] && x[|x| - 1].EndsInSpace() != spaces)
    ensures DropEnd(x + m, spaces) == x
    decreases |m|
  {
    if m == [] {
      NoneLeft(x);
    } else {
      LastOfConcat(x, m);
      LastOf(m);
      OkParts(x, m);
      OkParts(m[..|m| - 1], [m[|m| - 1]]);
      assert AllOk(x + m[..|m| - 1]);
      DropWhole(x, m[..|m| - 1], spaces);
    }
  }

  // ----- keys that end the prompt, in any state

  /** Enter hands over the text and takes the line out of the history; Ctrl-C and a lone ESC
      leave everything; Ctrl-D on an empty line ends the input. */
  lemma EndingKeys(st: State, c: byte, k: Key)
    requires StateInv(st) && KeyOk(k) && Spells([c], k)
    requires c == 13 || c == 3 || c == 27 || (c == 4 && st.doc.text == [])
    ensures st.hist != []
    ensures var gone := st.(hist := st.hist[..|st.hist| - 1]);
            Apply(st, k) ==
            if c == 13 then (gone, Finished(CStr(st.doc.text)))
            else if c == 3 then (st, Interrupted)
            else if c == 27 then (st, Finished([27]))
            else (gone, EndOfFile)
  {
    hide StateInv, Spells, Apply;
    EnterIs(st);
    OneByteKey(c, k);
    if c != 13 {
      EndKey(st, k);
    }
  }

  lemma OneByteKey(c: byte, k: Key)
    requires KeyOk(k) && Spells([c], k) && (c == 13 || c == 3 || c == 27 || c == 4)
    ensures k == if c == 13 then KeyEnter else if c == 3 then KeyCtrlC else if c == 27 then KeyEscape else KeyCtrlD
  {
    FirstByteTells([c], k);
    ControlKey(c, k);
  }

  lemma EnterIs(st: State)
    requires StateInv(st)
    ensures st.hist != []
    ensures Apply(st, KeyEnter) == (st.(hist := st.hist[..|st.hist| - 1]), Finished(CStr(st.doc.text)))
  {
    HasEntry(st);
  }

  // ----- a line typed at a fresh prompt

  function Typing(cs: seq<Scalar>): (ks: seq<Key>)
    ensures |ks| == |cs| && forall i :: 0 <= i < |cs| ==> ks[i] == Type(cs[i])
  {
    seq(|cs|, i requires 0 <= i < |cs| => Type(cs[i]))
  }

  predicate AllTypable(cs: seq<Scalar>) { forall c :: c in cs ==> Typable(c) }

  /** The state with an unfolded text and the cursor at its end. */
  predicate AtEnd(st: State, text: seq<byte>) { st.doc == Doc(text, |text|, []) }

  /** Typed at the end of an unfolded line, one character. */
  lemma TypeOne(st: State, c: Scalar)
    requires StateInv(st) && Typable(c) && AtEnd(st, st.doc.text) && |st.doc.text| + |Encode1(c)| <= st.cap.Limit()
    ensures var r := Apply(st, Type(c));
            && r.1.More? && AtEnd(r.0, st.doc.text + Encode1(c)) && r.0.hist == st.hist && r.0.idx == st.idx
            && r.0.cap.Limit() == st.cap.Limit()
  {
    hide StateInv, Encode1, IsText, Document.Inv, CanGrow, Grown;
    StateCap(st);
    GrownCapOk(st.cap, |st.doc.text| + |Encode1(c)|);
    NoneLeft(st.doc.text + Encode1(c));
    NoneLeft(st.doc.text);
    assert st.doc.text[|st.doc.text|..] == [];
  }

  lemma {:induction false} TypeAll(st: State, cs: seq<Scalar>, last: seq<Key>)
    requires StateInv(st) && AllTypable(cs) && AtEnd(st, st.doc.text) && KeysOk(last)
    requires |st.doc.text| + |Encode(cs)| <= st.cap.Limit()
    ensures KeysOk(Typing(cs) + last)
    ensures exists r: State :: StateInv(r) && AtEnd(r, st.doc.text + Encode(cs)) && r.hist == st.hist
                               && r.cap.Limit() == st.cap.Limit() && Run(st, Typing(cs) + last) == Run(r, last)
    decreases |cs|
  {
    hide StateInv, Apply, Encode1, Typable;
    if cs == [] {
      NoneLeft(last);
      NoneLeft(st.doc.text);
      assert Typing(cs) + last == last;
    } else {
      var c, rest := cs[0], cs[1..];
      assert c in cs && forall d :: d in rest ==> d in cs;
      EncodeHead(cs);
      TypeOne(st, c);
      var m := Apply(st, Type(c)).0;
      TypeAll(m, rest, last);
      assert Typing(cs) + last == [Type(c)] + (Typing(rest) + last);
      RunOne(st, Type(c), Typing(rest) + last);
      Assoc(st.doc.text, Encode1(c), Encode(rest));
    }
  }

  /** The history with room for one more line: an empty last line makes it, or the oldest. */
  function WithRoom(h: seq<Line>, max: nat): seq<Line> {
    if h != [] && h[|h| - 1] == [] then h[..|h| - 1] else if |h| == max && h != [] then h[1..] else h
  }

  lemma StartOf(h: seq<Line>, max: nat)
    requires ProgramInv(h, max)
    ensures StateInv(Start(h, max)) && AtEnd(Start(h, max), []) && Start(h, max).cap == Cap(4095, 1048576)
    ensures Start(h, max).hist == WithRoom(h, max) + [[]] && Start(h, max).idx == 0
  {
    StartInv(h, max);
    if h != [] && h[|h| - 1] == [] {
      LastOf(h);
    }
  }

  /** What stands in the history after typing cs and Enter at a fresh prompt. */
  lemma TypedLine(h: seq<Line>, max: nat, cs: seq<Scalar>)
    requires ProgramInv(h, max)
    requires AllTypable(cs) && 0 !in cs && |Encode(cs)| <= 1048576
    ensures KeysOk(Typing(cs) + [KeyEnter])
    ensures var g, line := WithRoom(h, max), Encode(cs);
            Prompt(h, max, Typing(cs) + [KeyEnter]) ==
            if cs == [] || cs[0] == 47 || (g != [] && g[|g| - 1] == line) then g else g + [line]
  {
    hide StateInv, Apply, Encode, Start, ProgramInv, AllTypable, Run, WithRoom;
    StartOf(h, max);
    var st := Start(h, max);
    NoneLeft(Encode(cs));
    EnterOk();
    TypeAll(st, cs, [KeyEnter]);
    var r: State :| StateInv(r) && AtEnd(r, [] + Encode(cs)) && r.hist == st.hist
                    && r.cap.Limit() == st.cap.Limit() && Run(st, Typing(cs) + [KeyEnter]) == Run(r, [KeyEnter]);
    RunEnter(r);
    LineIs(cs);
    LastOfConcat(WithRoom(h, max), [[]]);
    NoneLeft(WithRoom(h, max));
    RoomLeft(h, max);
  }

  lemma EnterOk()
    ensures KeysOk([KeyEnter])
  {}

  lemma RunEnter(st: State)
    requires StateInv(st)
    ensures KeysOk([KeyEnter]) && st.hist != []
    ensures Run(st, [KeyEnter]) == (st.(hist := st.hist[..|st.hist| - 1]), Finished(CStr(st.doc.text)))
  {
    hide Apply;
    EnterOk();
    EnterIs(st);
  }

  lemma LineIs(cs: seq<Scalar>)
    requires AllTypable(cs) && 0 !in cs
    ensures CStr(Encode(cs)) == Encode(cs) && Encode(cs) != [27]
    ensures Encode(cs) == [] <==> cs == []
    ensures cs != [] ==> (Encode(cs)[0] == 47 <==> cs[0] == 47)
  {
    hide Encode1;
    AsciiInEncode(cs, 0);
    AsciiInEncode(cs, 27);
    assert 27 in [27];
    if cs != [] {
      EncodeHead(cs);
      AsciiBytes(cs[0]);
    }
  }

  lemma RoomLeft(h: seq<Line>, max: nat)
    requires ProgramInv(h, max)
    ensures 0 < max && |WithRoom(h, max)| < max
  {}

  // ----- a recalled line

  lemma {:induction false} AtMostFour(cs: seq<Scalar>)
    ensures |Encode(cs)| <= 4 * |cs|
  {
    hide Encode1;
    if cs != [] {
      AtMostFour(cs[1..]);
    }
  }

  /** A plain line without newline is recalled as it is when it is shorter than 200 bytes, and
      otherwise with its first and last eight characters around one fold. */
  lemma RecalledLine(cs: seq<Scalar>)
    requires PlainText(cs) && 10 !in cs
    ensures |Encode(cs)| < 200 ==> Recalled(Encode(cs)) == Concrete(Editor(Chars(cs), []))
    ensures |Encode(cs)| >= 200 ==>
              var n := |cs| - 8;
              8 < n && Recalled(Encode(cs)) ==
                         Concrete(Editor(Chars(cs[..8]) + [Folded(cs[8..n])] + Chars(cs[n..]), []))
  {
    hide Encode, Recalled, Concrete;
    RecalledIsRecall(cs);
    AtMostFour(cs);
    if |Encode(cs)| >= 200 {
      assert 10 !in cs[..8] && 10 !in cs[|cs| - 8..];
    }
  }

  /** One with newlines shows its first eight characters and its last eight around the fold,
      but not a side that has a newline; up to sixteen bytes, and when nothing would be
      left to hide, the fold hides it all. */
  lemma RecalledLines(cs: seq<Scalar>)
    requires PlainText(cs) && 10 in cs
    ensures var n, k := |cs|, if |cs| < 8 then |cs| else 8;
            var i, j := if 10 in cs[..k] then 0 else k, if 10 in cs[n - k..] then n else n - k;
            Recalled(Encode(cs)) ==
            Concrete(Editor(if |Encode(cs)| <= 16 || i >= j then [Folded(cs)]
                            else Chars(cs[..i]) + [Folded(cs[i..j])] + Chars(cs[j..]), []))
  {
    hide Encode, Recalled, Concrete;
    RecalledIsRecall(cs);
    NoneLeft(cs);
    assert Chars(cs[..0]) + [Folded(cs[0..|cs|])] + Chars(cs[|cs|..]) == [Folded(cs)];
  }
}
