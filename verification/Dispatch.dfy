/** From input bytes to keys: linenoiseEditFeed and the blocking loop around it
    (cli/linenoise.c:2085-2311 and 2329-2353). */
module Dispatch {
  import opened Seqs
  import opened Utf8
  import opened Capacity
  import opened Document
  import opened Paste
  import opened History
  import opened Session
  import opened LineEditor

  /** ESC [ 2 0 0 ~ */
  const BEGIN: seq<byte> := [27, 91, 50, 48, 48, 126]

  /** ESC [ with a decimal parameter and a final byte. */
  predicate Numeric(w: seq<byte>) {
    && 4 <= |w| <= 10 && w[0] == ESC && w[1] == BRACKET
    && (forall i :: 2 <= i < |w| - 1 ==> IsDigit(w[i]))
    && !IsDigit(w[|w| - 1])
  }

  /** ESC [ with a parameter of eight digits: the loop stops there with its buffer full, and
      what follows is read as further input. */
  predicate FullParameter(w: seq<byte>) {
    && |w| == 10 && w[0] == ESC && w[1] == BRACKET
    && (forall i :: 2 <= i < |w| ==> IsDigit(w[i]))
  }

  /** Sequences that are read and change nothing. */
  predicate Ignored(w: seq<byte>) {
    || w == [12]
    || (|w| == 3 && w[0] == ESC && w[1] != BRACKET && w[1] != 79)
    || (|w| == 3 && w[0] == ESC && w[1] == 79 && w[2] != 72 && w[2] != 70)
    || (|w| == 3 && w[0] == ESC && w[1] == BRACKET && !IsDigit(w[2]) && !(65 <= w[2] <= 68) && w[2] != 70 && w[2] != 72)
    || (Numeric(w) && w != [27, 91, 51, 126] && w != BEGIN)
    || FullParameter(w)
  }

  /** w is a way to type key k. */
  predicate Spells(w: seq<byte>, k: Key) {
    match k
    case Type(c) => w == Encode1(c)
    case PasteText(cs) => w == BEGIN + (Encode(cs) + END)
    case KeyLeft => w == [2] || w == [27, 91, 68]
    case KeyRight => w == [6] || w == [27, 91, 67]
    case KeyHome => w == [1] || w == [27, 91, 72] || w == [27, 79, 72]
    case KeyEnd => w == [5] || w == [27, 91, 70] || w == [27, 79, 70]
    case KeyDelete => w == [27, 91, 51, 126]
    case KeyBackspace => w == [127] || w == [8]
    case KeyWord => w == [23]
    case KeySwap => w == [20]
    case KeyKillLine => w == [21]
    case KeyKillEnd => w == [11]
    case KeyUp => w == [16] || w == [27, 91, 65]
    case KeyDown => w == [14] || w == [27, 91, 66]
    case KeyIgnored => Ignored(w)
    case KeyEnter => w == [13]
    case KeyCtrlC => w == [3]
    case KeyCtrlD => w == [4]
    case KeyEscape => w == [27]
  }

  /** The first byte of a key, when it is not ESC, tells the key. */
  lemma FirstByteTells(w: seq<byte>, k: Key)
    requires Spells(w, k) && KeyOk(k)
    ensures w != []
    ensures w[0] == 27 || k.Type? || |w| == 1
    ensures k.Type? ==> w[0] == 0 || w[0] == 7 || w[0] == 9 || w[0] == 10 || w[0] == 15 || 17 <= w[0] <= 19 ||
                        w[0] == 22 || 24 <= w[0] <= 26 || 28 <= w[0] <= 126 || 128 <= w[0]
    ensures k.Type? ==> ByteLen(w[0]) == |w|
  {
    match k
    case Type(c) =>
      DecodeBytes(w, 0, c);
      AsciiBytes(c);
    case PasteText(cs) => assert w[0] == BEGIN[0];
    case _ =>
  }

  /** How many of the bytes from i on, at most max, are digits. */
  function DigitRun(s: seq<byte>, i: nat, max: nat): (n: nat)
    requires i <= |s|
    ensures n <= max && i + n <= |s|
    ensures forall j :: i <= j < i + n ==> IsDigit(s[j])
    ensures n < max && i + n < |s| ==> !IsDigit(s[i + n])
    decreases max
  {
    if 0 < max && i < |s| && IsDigit(s[i]) then 1 + DigitRun(s, i + 1, max - 1) else 0
  }

  /** The loop that reads a decimal parameter whose first digit is read already. */
  method ReadParameter(input: seq<byte>, at: nat, first: byte)
    returns (param: seq<byte>, final: byte, next: nat)
    requires at <= |input|
    ensures var n := DigitRun(input, at, 7);
            && param == [first] + input[at..at + n]
            && (if n < 7 && at + n < |input| then final == input[at + n] && next == at + n + 1
                else final == 0 && next == at + n)
  {
    hide DigitRun;
    final, next := 0, at;
    param := [first];
    var plen: nat := 0;
    NoneLeft([first]);
    while plen < 7
      invariant plen <= 7 && next == at + plen <= |input| && final == 0
      invariant param == [first] + input[at..next]
      invariant DigitRun(input, at, 7) == plen + DigitRun(input, next, 7 - plen)
    {
      DigitStep(input, next, 7 - plen);
      if next == |input| {
        break;
      }
      var p := input[next];
      if !IsDigit(p) {
        final := p;
        next := next + 1;
        return;
      }
      SliceSnoc(input, at, next);
      Assoc([first], input[at..next], [p]);
      param := param + [p];
      next, plen := next + 1, plen + 1;
    }
    DigitStep(input, next, 7 - plen);
  }

  lemma DigitStep(s: seq<byte>, i: nat, max: nat)
    requires i <= |s|
    ensures DigitRun(s, i, max) == if 0 < max && i < |s| && IsDigit(s[i]) then 1 + DigitRun(s, i + 1, max - 1) else 0
  {}

  lemma {:induction false} DigitRunIs(s: seq<byte>, i: nat, max: nat, n: nat)
    requires i + n < |s| && n <= max && (forall j :: i <= j < i + n ==> IsDigit(s[j])) && !IsDigit(s[i + n])
    ensures DigitRun(s, i, max) == n
    decreases n
  {
    if 0 < n {
      DigitRunIs(s, i + 1, max - 1, n - 1);
    }
  }

  /** The key of a control byte (enum KEY_ACTION). */
  function ControlOf(c: byte): Key {
    if c == 13 then KeyEnter
    else if c == 3 then KeyCtrlC
    else if c == 127 || c == 8 then KeyBackspace
    else if c == 4 then KeyCtrlD
    else if c == 20 then KeySwap
    else if c == 2 then KeyLeft
    else if c == 6 then KeyRight
    else if c == 16 then KeyUp
    else if c == 14 then KeyDown
    else if c == 21 then KeyKillLine
    else if c == 11 then KeyKillEnd
    else if c == 1 then KeyHome
    else if c == 5 then KeyEnd
    else if c == 23 then KeyWord
    else if c == 27 then KeyEscape
    else KeyIgnored
  }

  lemma PasteIsLong(w: seq<byte>, k: Key)
    requires Spells(w, k)
    ensures k.PasteText? ==> 12 <= |w|
  {}

  lemma ControlKey(c: byte, k: Key)
    requires Spells([c], k) && !k.Type?
    ensures k == ControlOf(c) && (k.KeyIgnored? ==> c == 12)
  {
    PasteIsLong([c], k);
  }

  /** Control bytes that only move the cursor or change the line. */
  method FeedEdit(l: EditLine, c: byte, ghost k: Key)
    requires l.Ready() && KeyOk(k) && k == ControlOf(c)
    requires k.KeyBackspace? || k.KeySwap? || k.KeyLeft? || k.KeyRight? || k.KeyKillLine? || k.KeyKillEnd?
             || k.KeyHome? || k.KeyEnd? || k.KeyWord?
    modifies l, l.buf, l.foldStart, l.foldEnd
    ensures l.Ready() && l.buf == old(l.buf)
    ensures (l.Model(), More) == Apply(old(l.Model()), k)
  {
    hide StateInv, Document.Inv, Backspace, DeleteWord, Transpose, KillEnd, KillLine, Apply;
    if c == 2 || c == 6 || c == 1 || c == 5 {
      FeedMove(l, c, k);
      return;
    }
    CutKey(l.Model(), k);
    if c == 127 || c == 8 {
      l.EditBackspace();
    } else if c == 20 {
      l.EditTranspose();
    } else if c == 21 {
      l.KillWholeLine();
    } else if c == 11 {
      l.KillToEnd();
    } else {
      l.EditDeletePrevWord();
    }
  }

  method FeedMove(l: EditLine, c: byte, ghost k: Key)
    requires l.Ready() && KeyOk(k) && k == ControlOf(c) && (c == 2 || c == 6 || c == 1 || c == 5)
    modifies l`pos
    ensures l.Ready() && (l.Model(), More) == Apply(old(l.Model()), k)
  {
    hide StateInv, Document.Inv, MoveLeft, MoveRight, Home, End, Apply;
    MoveKey(l.Model(), k);
    if c == 2 {
      l.EditMoveLeft();
    } else if c == 6 {
      l.EditMoveRight();
    } else if c == 1 {
      l.EditMoveHome();
    } else {
      l.EditMoveEnd();
    }
  }

  lemma MoveKey(st: State, k: Key)
    requires StateInv(st) && (k.KeyLeft? || k.KeyRight? || k.KeyHome? || k.KeyEnd?)
    ensures Apply(st, k) == (st.(doc := if k.KeyLeft? then MoveLeft(st.doc) else if k.KeyRight? then MoveRight(st.doc)
                                        else if k.KeyHome? then Home(st.doc) else End(st.doc)), More)
  {
    hide StateInv, MoveLeft, MoveRight, Home, End;
  }

  lemma CutKey(st: State, k: Key)
    requires StateInv(st) && (k.KeyBackspace? || k.KeySwap? || k.KeyKillLine? || k.KeyKillEnd? || k.KeyWord?)
    ensures Apply(st, k) == (st.(doc := if k.KeyBackspace? then Backspace(st.doc)
                                        else if k.KeySwap? then Transpose(st.doc)
                                        else if k.KeyKillLine? then KillLine(st.doc)
                                        else if k.KeyKillEnd? then KillEnd(st.doc) else DeleteWord(st.doc)), More)
  {
    hide StateInv, Backspace, DeleteWord, Transpose, KillEnd, KillLine;
  }

  lemma EndKey(st: State, k: Key)
    requires StateInv(st) && (k.KeyCtrlC? || k.KeyEscape? || k.KeyCtrlD?)
    ensures st.hist != []
    ensures Apply(st, k) ==
            if k.KeyCtrlC? then (st, Interrupted) else if k.KeyEscape? then (st, Finished([ESC]))
            else if st.doc.text != [] then (st.(doc := Delete(st.doc)), More)
            else (st.(hist := st.hist[..|st.hist| - 1]), EndOfFile)
  {
    HasEntry(st);
    hide StateInv, Delete;
  }

  /** The pop that Enter and Ctrl-D do. */
  method PopEntry(l: EditLine)
    requires l.Ready()
    modifies l.history`len
    ensures l.Valid() && l.Model() == old(l.Model()).(hist := old(l.Model().hist[..|l.Model().hist| - 1]))
    ensures old(l.Model().hist) != []
  {
    hide StateInv;
    HasEntry(l.Model());
    l.history.Pop();
  }

  /** Enter. */
  method Accept(l: EditLine) returns (o: Outcome)
    requires l.Ready()
    modifies l.history`len
    ensures l.Valid() && (l.Model(), o) == Apply(old(l.Model()), KeyEnter)
  {
    hide StateInv;
    var line := l.Duplicate();
    PopEntry(l);
    o := Finished(line);
  }

  /** Enter, Ctrl-C, Ctrl-D and a lone ESC: keys that can end the prompt. */
  method FeedEnd(l: EditLine, c: byte, ghost k: Key) returns (o: Outcome)
    requires l.Ready() && KeyOk(k) && k == ControlOf(c) && (c == 13 || c == 3 || c == 4 || c == 27)
    modifies l, l.buf, l.foldStart, l.foldEnd, l.history`len
    ensures l.Valid() && l.buf == old(l.buf)
    ensures (l.Model(), o) == Apply(old(l.Model()), k) && (o.More? ==> l.Ready())
  {
    hide StateInv, Document.Inv, Delete, Apply;
    if c == 13 {
      o := Accept(l);
      return;
    }
    EndKey(l.Model(), k);
    if c == 3 {
      o := Interrupted;
    } else if c == 27 {
      o := Finished([ESC]);
    } else if 0 < l.len {
      o := More;
      l.EditDelete();
    } else {
      PopEntry(l);
      o := EndOfFile;
    }
  }

  /** Keys that are one byte. */
  method FeedControl(l: EditLine, c: byte, ghost k: Key) returns (o: Outcome)
    requires l.Ready() && KeyOk(k) && Spells([c], k) && !k.Type?
    modifies l, l.buf, l.foldStart, l.foldEnd, l.history, l.history.slots
    ensures l.Valid() && (l.buf == old(l.buf) || fresh(l.buf)) && l.history.slots == old(l.history.slots)
    ensures l.history.maxLen == old(l.history.maxLen)
    ensures (l.Model(), o) == Apply(old(l.Model()), k) && (o.More? ==> l.Ready())
  {
    ControlKey(c, k);
    hide StateInv, Spells, Apply;
    if c == 13 || c == 3 || c == 4 || c == 27 {
      o := FeedEnd(l, c, k);
    } else {
      o := More;
      FeedOn(l, c, k);
    }
  }

  /** The keys of one byte that go on. */
  method FeedOn(l: EditLine, c: byte, ghost k: Key)
    requires l.Ready() && KeyOk(k) && k == ControlOf(c) && (k.KeyIgnored? ==> c == 12)
    requires c != 13 && c != 3 && c != 4 && c != 27
    modifies l, l.buf, l.foldStart, l.foldEnd, l.history.slots
    ensures l.Ready() && (l.buf == old(l.buf) || fresh(l.buf)) && l.history.slots == old(l.history.slots)
    ensures l.history.maxLen == old(l.history.maxLen)
    ensures (l.Model(), More) == Apply(old(l.Model()), k)
  {
    hide StateInv, Apply;
    if c == 16 || c == 14 {
      FeedHistory(l, c, k);
    } else if c == 12 {
      NothingHappens(l.Model());
    } else {
      FeedEdit(l, c, k);
    }
  }

  lemma NothingHappens(st: State)
    requires StateInv(st)
    ensures (st, More) == Apply(st, KeyIgnored)
  {}

  method FeedHistory(l: EditLine, c: byte, ghost k: Key)
    requires l.Ready() && KeyOk(k) && k == ControlOf(c) && (c == 16 || c == 14)
    modifies l, l.buf, l.foldStart, l.foldEnd, l.history.slots
    ensures l.Ready() && (l.buf == old(l.buf) || fresh(l.buf)) && l.history.slots == old(l.history.slots)
    ensures l.history.maxLen == old(l.history.maxLen)
    ensures (l.Model(), More) == Apply(old(l.Model()), k)
  {
    hide StateInv, Document.Inv, Navigated, Apply;
    BrowseKey(l.Model(), c == 16);
    l.EditHistoryNext(c == 16);
  }

  lemma BrowseKey(st: State, up: bool)
    requires StateInv(st)
    ensures Apply(st, if up then KeyUp else KeyDown) == (Navigated(st, up), More)
  {
    hide StateInv, Navigated;
  }

  lemma HasEntry(st: State)
    requires StateInv(st)
    ensures st.hist != []
  {}

  // ----- escape sequences

  /** ESC [ and a letter. */
  function ArrowOf(c: byte): Key {
    if c == 65 then KeyUp
    else if c == 66 then KeyDown
    else if c == 67 then KeyRight
    else if c == 68 then KeyLeft
    else if c == 72 then KeyHome
    else if c == 70 then KeyEnd
    else KeyIgnored
  }

  /** ESC O and a letter. */
  function AppOf(c: byte): Key {
    if c == 72 then KeyHome else if c == 70 then KeyEnd else KeyIgnored
  }

  /** What an escape sequence of more than one byte can be. */
  lemma EscapeShape(w: seq<byte>, k: Key)
    requires Spells(w, k) && KeyOk(k) && 1 < |w| && w[0] == ESC
    ensures 3 <= |w|
    ensures w[1] != BRACKET || !IsDigit(w[2]) ==> |w| == 3
    ensures w[1] == BRACKET && !IsDigit(w[2]) ==> k == ArrowOf(w[2])
    ensures w[1] == 79 ==> k == AppOf(w[2])
    ensures w[1] != BRACKET && w[1] != 79 ==> k == KeyIgnored
    ensures w[1] == BRACKET && IsDigit(w[2]) ==>
              || (k == KeyDelete && w == [27, 91, 51, 126])
              || (k.PasteText? && w == BEGIN + (Encode(k.cs) + END))
              || (k == KeyIgnored && Numeric(w) && w != [27, 91, 51, 126] && w != BEGIN)
              || (k == KeyIgnored && FullParameter(w))
  {
    FirstByteTells(w, k);
    PasteHead(w, k);
  }

  lemma PasteHead(w: seq<byte>, k: Key)
    requires Spells(w, k)
    ensures k.PasteText? ==> 6 <= |w| && w[1] == BRACKET && w[2] == 50
  {}

  /** The parameter loop reads a numeric sequence to its end. */
  lemma NumericRead(input: seq<byte>, w: seq<byte>)
    requires Numeric(w) && w <= input
    ensures var n := DigitRun(input, 3, 7);
            n == |w| - 4 && 3 + n < |input| && n < 7
            && [input[2]] + input[3..3 + n] == w[2..|w| - 1] && input[3 + n] == w[|w| - 1]
  {
    hide DigitRun;
    var n := |w| - 1;
    assert w == input[..|w|];
    forall j | 0 <= j < |w| ensures input[j] == w[j] {
    }
    DigitRunIs(input, 3, 7, n - 3);
    SliceCons(input, 2, n);
    SliceOfTake(input, |w|, 2, n);
  }

  /** Bytes after the terminator do not change what a paste stores. */
  lemma {:induction false} ScanIgnoresRest(a: seq<byte>, b: seq<byte>, m: nat, kept: seq<byte>, over: bool, maxlen: nat)
    requires m < |END| && ScanFrom(a, m, kept, over, maxlen).ended
    ensures ScanFrom(a + b, m, kept, over, maxlen) ==
            ScanFrom(a, m, kept, over, maxlen).(rest := ScanFrom(a, m, kept, over, maxlen).rest + b)
    decreases |a|
  {
    hide Keep;
    assert a != [];
    var c, r := a[0], a[1..];
    assert (a + b)[0] == c && (a + b)[1..] == r + b;
    if c == END[m] {
      if m + 1 < |END| {
        ScanIgnoresRest(r, b, m + 1, kept, over, maxlen);
      }
    } else {
      var (k, o) := if 0 < m then Keep(kept, over, END[..m], maxlen) else (kept, over);
      if 0 < m && c == END[0] {
        ScanIgnoresRest(r, b, 1, k, o, maxlen);
      } else {
        var (k2, o2) := Keep(k, o, [c], maxlen);
        ScanIgnoresRest(r, b, 0, k2, o2, maxlen);
      }
    }
  }

  lemma PasteOfStream(st: State, cs: seq<Scalar>, rest: seq<byte>)
    requires StateInv(st) && NoEnd(Encode(cs))
    ensures var n := PasteLimit(st.cap, |st.doc.text|, |st.doc.folds|);
            var r, p := ScanPaste(Encode(cs) + END + rest, n), PasteScan(st, cs);
            r.over == p.over && r.kept == p.kept && r.rest == rest && (!r.over ==> IsText(r.kept))
            && |r.kept| <= n
  {
    hide StateInv, Encode, IsText, PasteLimit, NoEnd;
    var n := PasteLimit(st.cap, |st.doc.text|, |st.doc.folds|);
    PasteScanned(st, cs);
    PastePayload(Encode(cs), [], n);
    PastePayload(Encode(cs), rest, n);
    assert Encode(cs) + END + [] == Encode(cs) + END;
    ScanIgnoresRest(Encode(cs) + END, rest, 0, [], false, n);
  }

  lemma PastedSame(st: State, r: Scan, p: Scan)
    requires StateInv(st) && r.over == p.over && r.kept == p.kept
    requires |r.kept| <= PasteLimit(st.cap, |st.doc.text|, |st.doc.folds|) && (!r.over ==> IsText(r.kept))
    ensures Pasted(st, r) == Pasted(st, p)
  {
    hide StateInv, IsText, PasteLimit, ShouldFold, Normalise, InsertFolded, Insert, Grown, CanGrow;
  }

  /** The rest of the input after a bracketed paste was announced. */
  method FeedPaste(l: EditLine, input: seq<byte>, ghost cs: seq<Scalar>, ghost rest: seq<byte>)
    returns (left: seq<byte>)
    requires l.Ready() && NoEnd(Encode(cs)) && input == Encode(cs) + END + rest
    modifies l, l.buf, l.foldStart, l.foldEnd
    ensures l.Ready() && (l.buf == old(l.buf) || fresh(l.buf))
    ensures l.Model() == Apply(old(l.Model()), PasteText(cs)).0 && left == rest
  {
    hide StateInv, Encode, IsText, PasteLimit, NoEnd, Pasted, PasteScan;
    ghost var st := l.Model();
    PasteOfStream(st, cs, rest);
    left := l.EditPaste(input);
    PastedSame(st, ScanPaste(input, PasteLimit(st.cap, |st.doc.text|, |st.doc.folds|)), PasteScan(st, cs));
  }

  /** The ESC branch of linenoiseEditFeed, when more bytes are waiting. */
  method FeedEscape(l: EditLine, input: seq<byte>, ghost k: Key, ghost w: seq<byte>) returns (left: seq<byte>)
    requires l.Ready() && KeyOk(k) && Spells(w, k) && w <= input && 1 < |w| && w[0] == ESC
    modifies l, l.buf, l.foldStart, l.foldEnd, l.history.slots
    ensures l.Ready() && (l.buf == old(l.buf) || fresh(l.buf))
    ensures l.history.slots == old(l.history.slots) && l.history.maxLen == old(l.history.maxLen)
    ensures (l.Model(), More) == Apply(old(l.Model()), k) && left == input[|w|..]
  {
    EscapeShape(w, k);
    hide StateInv, Spells, Numeric, Document.Inv, MoveLeft, MoveRight, Home, End, Delete,
      Navigated, Pasted, Encode, NoEnd;
    assert input[1] == w[1] && input[2] == w[2];
    var s0, s1 := input[1], input[2];
    left := input[3..];
    if s0 == BRACKET {
      if IsDigit(s1) {
        left := FeedNumeric(l, input, k, w);
      } else if s1 == 65 {
        l.EditHistoryNext(true);
      } else if s1 == 66 {
        l.EditHistoryNext(false);
      } else if s1 == 67 {
        l.EditMoveRight();
      } else if s1 == 68 {
        l.EditMoveLeft();
      } else if s1 == 72 {
        l.EditMoveHome();
      } else if s1 == 70 {
        l.EditMoveEnd();
      }
    } else if s0 == 79 {
      if s1 == 72 {
        l.EditMoveHome();
      } else if s1 == 70 {
        l.EditMoveEnd();
      }
    }
  }

  lemma NumericWord(v: seq<byte>)
    requires Numeric(v)
    ensures v[|v| - 1] == 126 && v[2..|v| - 1] == [51] <==> v == [27, 91, 51, 126]
    ensures v[|v| - 1] == 126 && v[2..|v| - 1] == [50, 48, 48] <==> v == BEGIN
  {
    assert v == v[..2] + v[2..|v| - 1] + [v[|v| - 1]];
  }

  lemma FullRead(input: seq<byte>, w: seq<byte>)
    requires FullParameter(w) && w <= input
    ensures DigitRun(input, 3, 7) == 7
  {
    hide DigitRun;
    forall j | 0 <= j < |w| ensures input[j] == w[j] {
    }
    DigitsFill(input, 3, 7);
  }

  lemma {:induction false} DigitsFill(s: seq<byte>, i: nat, max: nat)
    requires i + max <= |s| && forall j :: i <= j < i + max ==> IsDigit(s[j])
    ensures DigitRun(s, i, max) == max
    decreases max
  {
    if 0 < max {
      DigitsFill(s, i + 1, max - 1);
    }
  }

  /** The numeric sequence a key starts with. */
  lemma NumericKey(k: Key, w: seq<byte>) returns (v: seq<byte>)
    requires KeyOk(k) && Spells(w, k) && 3 <= |w| && w[0] == ESC && w[1] == BRACKET && IsDigit(w[2])
    requires !FullParameter(w)
    ensures Numeric(v) && v <= w && (!k.PasteText? ==> v == w)
    ensures v == [27, 91, 51, 126] <==> k == KeyDelete
    ensures v == BEGIN <==> k.PasteText?
    ensures k == KeyDelete || k.PasteText? || k == KeyIgnored
    ensures k.PasteText? ==> w == BEGIN + (Encode(k.cs) + END)
  {
    EscapeShape(w, k);
    v := if k.PasteText? then BEGIN else w;
  }

  /** ESC [ followed by a digit. */
  method FeedNumeric(l: EditLine, input: seq<byte>, ghost k: Key, ghost w: seq<byte>) returns (left: seq<byte>)
    requires l.Ready() && KeyOk(k) && Spells(w, k) && w <= input && 3 <= |w|
    requires w[0] == ESC && w[1] == BRACKET && IsDigit(w[2])
    modifies l, l.buf, l.foldStart, l.foldEnd
    ensures l.Ready() && (l.buf == old(l.buf) || fresh(l.buf))
    ensures (l.Model(), More) == Apply(old(l.Model()), k) && left == input[|w|..]
  {
    hide StateInv, Document.Inv, Delete, Pasted, Encode, NoEnd, DigitRun, Numeric, FullParameter, Spells;
    ghost var v := w;
    if FullParameter(w) {
      FullRead(input, w);
      FullIsIgnored(k, w);
    } else {
      v := NumericKey(k, w);
      NumericRead(input, v);
      NumericWord(v);
    }
    var param, final, next := ReadParameter(input, 3, input[2]);
    assert !FullParameter(w) ==> param == v[2..|v| - 1];
    left := input[next..];
    if final == 126 {
      if param == [51] {
        l.EditDelete();
      } else if param == [50, 48, 48] {
        PasteRest(input, k, w);
        left := FeedPaste(l, input[next..], k.cs, input[|w|..]);
      }
    }
  }

  lemma FullIsIgnored(k: Key, w: seq<byte>)
    requires KeyOk(k) && Spells(w, k) && FullParameter(w)
    ensures k == KeyIgnored && |w| == 10
  {
    EscapeShape(w, k);
  }

  lemma PasteRest(input: seq<byte>, k: Key, w: seq<byte>)
    requires k.PasteText? && w == BEGIN + (Encode(k.cs) + END) && w <= input
    ensures input[6..] == Encode(k.cs) + END + input[|w|..]
  {
    hide Encode;
    assert input == w + input[|w|..];
  }

  // ----- one key, and the blocking loop

  /** The bytes the switch of linenoiseEditFeed names. */
  predicate IsControl(c: byte) { ControlOf(c) != KeyIgnored || c == 12 }

  /** The default branch: one character, whose length its first byte announces. */
  method FeedChar(l: EditLine, input: seq<byte>, ghost k: Key) returns (left: seq<byte>)
    requires l.Ready() && KeyOk(k) && k.Type? && Encode1(k.c) <= input
    modifies l, l.buf, l.foldStart, l.foldEnd
    ensures l.Ready() && (l.buf == old(l.buf) || fresh(l.buf))
    ensures (l.Model(), More) == Apply(old(l.Model()), k) && left == input[|Encode1(k.c)|..]
  {
    hide StateInv, Typed, Encode1, Encode;
    FirstByteTells(Encode1(k.c), k);
    EncodeOne(k.c);
    PointIsText(k.c);
    var n := ByteLen(input[0]);
    var utf8 := input[..n];
    assert utf8 == Encode1(k.c);
    var ok := l.EditInsert(utf8);
    left := input[n..];
  }

  lemma PointIsText(c: Scalar)
    ensures IsText(Encode1(c))
  {
    EncodeOne(c);
  }

  /** linenoiseEditFeed on an input that starts with a spelling w of key k. */
  method EditFeed(l: EditLine, input: seq<byte>, ghost k: Key, ghost w: seq<byte>)
    returns (o: Outcome, left: seq<byte>)
    requires l.Ready() && KeyOk(k) && Spells(w, k) && w <= input
    requires k == KeyEscape ==> w == input
    modifies l, l.buf, l.foldStart, l.foldEnd, l.history, l.history.slots
    ensures l.Valid() && (l.buf == old(l.buf) || fresh(l.buf))
    ensures l.history.slots == old(l.history.slots) && l.history.maxLen == old(l.history.maxLen)
    ensures (l.Model(), o) == Apply(old(l.Model()), k) && (o.More? ==> l.Ready())
    ensures left == input[|w|..]
  {
    FirstByteTells(w, k);
    OneByte(w, k);
    hide StateInv, Apply, NoEnd, Encode, Spells, KeyOk, IsControl;
    var c := input[0];
    o := More;
    if c == ESC && 1 < |input| {
      LoneEscape(w, k, input);
      left := FeedEscape(l, input, k, w);
    } else if c == ESC || IsControl(c) {
      o := FeedControl(l, c, k);
      left := input[1..];
    } else {
      NotControl(w, k);
      left := FeedChar(l, input, k);
    }
  }

  lemma LoneEscape(w: seq<byte>, k: Key, input: seq<byte>)
    requires Spells(w, k) && KeyOk(k) && w <= input && 1 < |input| && w[0] == ESC
    requires k == KeyEscape ==> w == input
    ensures 1 < |w|
  {
    FirstByteTells(w, k);
    if |w| == 1 {
      EscapeAlone(w, k);
    }
  }

  lemma EscapeAlone(w: seq<byte>, k: Key)
    requires Spells(w, k) && KeyOk(k) && |w| == 1 && w[0] == ESC
    ensures k == KeyEscape
  {
    FirstByteTells(w, k);
    assert w == [ESC];
    ControlKey(ESC, k);
  }

  lemma OneByte(w: seq<byte>, k: Key)
    requires Spells(w, k) && KeyOk(k)
    ensures w != [] && ((w[0] != ESC && IsControl(w[0])) || (|w| == 1 && w[0] == ESC) ==> w == [w[0]] && !k.Type?)
  {
    FirstByteTells(w, k);
  }

  lemma NotControl(w: seq<byte>, k: Key)
    requires Spells(w, k) && KeyOk(k) && w != [] && w[0] != ESC && !IsControl(w[0])
    ensures k.Type? && w == Encode1(k.c)
  {
    FirstByteTells(w, k);
    if !k.Type? {
      assert w == [w[0]];
      ControlKey(w[0], k);
    }
  }

  /** The input that spells the keys ks, word by word. */
  predicate SpellsAll(ws: seq<seq<byte>>, ks: seq<Key>) {
    && |ws| == |ks|
    && (forall i :: 0 <= i < |ks| ==> Spells(ws[i], ks[i]) && KeyOk(ks[i]))
    && (forall i :: 0 <= i < |ks| - 1 ==> ks[i] != KeyEscape)
  }

  function Joined(ws: seq<seq<byte>>): seq<byte> {
    if ws == [] then [] else ws[0] + Joined(ws[1..])
  }

  lemma SpellsTail(ws: seq<seq<byte>>, ks: seq<Key>)
    requires SpellsAll(ws, ks) && ks != []
    ensures Spells(ws[0], ks[0]) && KeyOk(ks[0]) && SpellsAll(ws[1..], ks[1..])
    ensures ks[0] == KeyEscape ==> ws[0] == Joined(ws)
    ensures ws[0] != []
  {
    FirstByteTells(ws[0], ks[0]);
    if ks[0] == KeyEscape {
      assert |ks| == 1;
      assert ws[1..] == [];
    }
  }

  lemma SpelledOk(ws: seq<seq<byte>>, ks: seq<Key>)
    requires SpellsAll(ws, ks)
    ensures KeysOk(ks)
  {}

  /** linenoiseBlockingEdit: feeds until a key ends the prompt or the input is used up.
      Whatever bytes spell them, the keys have exactly the effect of Run. */
  method BlockingEdit(l: EditLine, input: seq<byte>, ghost ks: seq<Key>, ghost ws: seq<seq<byte>>)
    returns (o: Outcome)
    requires l.Ready() && SpellsAll(ws, ks) && input == Joined(ws)
    modifies l, l.buf, l.foldStart, l.foldEnd, l.history, l.history.slots
    ensures l.Valid() && KeysOk(ks)
    ensures (l.Model(), o) == Run(old(l.Model()), ks)
  {
    hide StateInv, Apply, KeyOk, Spells;
    SpelledOk(ws, ks);
    var left := input;
    ghost var ks', ws' := ks, ws;
    ghost var st := l.Model();
    o := More;
    while |left| != 0
      invariant o.More? && l.Ready() && (l.buf == old(l.buf) || fresh(l.buf)) && l.history.slots == old(l.history.slots)
      invariant SpellsAll(ws', ks') && left == Joined(ws') && KeysOk(ks')
      invariant Run(l.Model(), ks') == Run(st, ks)
      decreases |ks'|
    {
      SpellsTail(ws', ks');
      SpelledOk(ws'[1..], ks'[1..]);
      o, left := EditFeed(l, left, ks'[0], ws'[0]);
      if !o.More? {
        return;
      }
      ks', ws' := ks'[1..], ws'[1..];
    }
    NoKeysLeft(ws', ks');
  }

  lemma NoKeysLeft(ws: seq<seq<byte>>, ks: seq<Key>)
    requires SpellsAll(ws, ks) && Joined(ws) == []
    ensures ks == []
  {
    if ks != [] {
      SpellsTail(ws, ks);
    }
  }

  /** Every well-formed text without ESC spells keys: each character is one. */
  lemma {:induction false} TextSpellsKeys(cs: seq<Scalar>) returns (ks: seq<Key>, ws: seq<seq<byte>>)
    requires 27 !in cs
    ensures SpellsAll(ws, ks) && Joined(ws) == Encode(cs) && |ks| == |cs|
    ensures KeyEscape !in ks
  {
    if cs == [] {
      ks, ws := [], [];
    } else {
      assert forall c :: c in cs[1..] ==> c in cs;
      assert cs[0] in cs;
      var k := CharacterKey(cs[0]);
      var ks1, ws1 := TextSpellsKeys(cs[1..]);
      ks, ws := [k] + ks1, [Encode1(cs[0])] + ws1;
      assert ks[1..] == ks1 && ws[1..] == ws1;
    }
  }

  lemma CharacterKey(c: Scalar) returns (k: Key)
    requires c != 27
    ensures Spells(Encode1(c), k) && KeyOk(k) && k != KeyEscape
  {
    k := if Typable(c) then Type(c) else ControlOf(c as byte);
  }
}
