/** One prompt: the edited document, its buffer and the history, driven by keys
    (cli/linenoise.c:1769-1814, 1887-1932, 1981-2059, 2085-2311). */
module Session {
  import opened Utf8
  import opened Capacity
  import opened Document
  import opened Paste
  import opened History

  datatype State = State(doc: Doc, cap: Cap, hist: seq<Line>, idx: nat)
  {
    /** The history slot that belongs to the edited line. */
    function Slot(): nat
      requires idx < |hist|
    {
      |hist| - 1 - idx
    }

    /** The history with the edited line in its slot. */
    function View(): seq<Line>
      requires idx < |hist|
    {
      hist[Slot() := CStr(doc.text)]
    }
  }

  /** linenoiseEditStart leaves a non-empty buffer; a growable one has not passed its maximum. */
  predicate CapOk(c: Cap) {
    0 < c.buflen < SIZE_MAX && c.max < SIZE_MAX && (c.max != 0 ==> c.buflen <= c.max)
  }

  ghost predicate EntryOk(e: Line, c: Cap) { IsText(e) && |e| <= c.Limit() }

  ghost predicate HistOk(h: seq<Line>, c: Cap) { forall e :: e in h ==> EntryOk(e, c) }

  ghost predicate StateInv(st: State) {
    && Inv(st.doc)
    && CapOk(st.cap) && |st.doc.text| <= st.cap.buflen
    && st.idx < |st.hist| && HistOk(st.hist, st.cap)
  }

  lemma DocInv(st: State)
    requires StateInv(st)
    ensures Inv(st.doc)
  {}

  datatype Key =
    | Type(c: Scalar)
    | PasteText(cs: seq<Scalar>)
    | KeyLeft | KeyRight | KeyHome | KeyEnd
    | KeyDelete | KeyBackspace | KeyWord | KeySwap | KeyKillLine | KeyKillEnd
    | KeyUp | KeyDown | KeyIgnored
    | KeyEnter | KeyCtrlC | KeyCtrlD | KeyEscape

  datatype Outcome = More | Finished(line: Line) | Interrupted | EndOfFile

  /** Characters that reach the default branch of linenoiseEditFeed. */
  predicate Typable(c: Scalar) {
    && c != 1 && c != 2 && c != 3 && c != 4 && c != 5 && c != 6 && c != 8
    && c != 11 && c != 12 && c != 13 && c != 14 && c != 16 && c != 20
    && c != 21 && c != 23 && c != 27 && c != 127
  }

  predicate KeyOk(k: Key) {
    && (k.Type? ==> Typable(k.c))
    && (k.PasteText? ==> NoEnd(Encode(k.cs)))
  }

  lemma GrownCapOk(c: Cap, needed: nat)
    requires CapOk(c)
    ensures CapOk(Grown(c, needed)) && Grown(c, needed).Limit() == c.Limit()
    ensures c.buflen <= Grown(c, needed).buflen
    ensures CanGrow(c, needed) <==> needed <= c.Limit()
    ensures CanGrow(c, needed) ==> needed <= Grown(c, needed).buflen
  {
    GrowsToLimit(c, needed);
    if c.buflen < needed && CanGrow(c, needed) {
      GrowthBounds(c, needed);
    }
  }

  // ----- typing and pasting

  /** linenoiseEditInsert: nothing happens when the buffer cannot hold the text. */
  function Typed(st: State, x: seq<byte>): (r: State)
    requires StateInv(st) && IsText(x)
    ensures StateInv(r)
  {
    var needed := |st.doc.text| + |x|;
    GrownCapOk(st.cap, needed);
    if CanGrow(st.cap, needed) then st.(doc := Insert(st.doc, x), cap := Grown(st.cap, needed)) else st
  }

  /** How many bytes a paste may store. */
  function PasteLimit(c: Cap, len: nat, folds: nat): (n: nat)
    ensures CapOk(c) && len <= c.buflen ==> len + n <= c.Limit()
  {
    var max := if c.max != 0 then c.max else c.buflen;
    var room := if max > len then max - len else 0;
    if folds == MAX_FOLDS then 0 else if room > PASTE_MAX_BYTES then PASTE_MAX_BYTES else room
  }

  /** linenoiseEditPaste after its reading loop left scan. */
  function Pasted(st: State, scan: Scan): (r: State)
    requires StateInv(st) && |scan.kept| <= PasteLimit(st.cap, |st.doc.text|, |st.doc.folds|)
    requires !scan.over ==> IsText(scan.kept)
    ensures StateInv(r)
  {
    var needed := |st.doc.text| + |scan.kept|;
    GrownCapOk(st.cap, needed);
    var cap := Grown(st.cap, needed);
    if scan.over || scan.kept == [] then st.(cap := cap)
    else
      var x := Normalise(scan.kept);
      NormalisedIsText(scan.kept);
      st.(doc := if ShouldFold(x) then InsertFolded(st.doc, x) else Insert(st.doc, x), cap := cap)
  }

  /** A whole bracketed paste: what the decoder reads from the payload and its terminator. */
  function PasteScan(st: State, cs: seq<Scalar>): Scan {
    ScanPaste(Encode(cs) + END, PasteLimit(st.cap, |st.doc.text|, |st.doc.folds|))
  }

  lemma PasteScanned(st: State, cs: seq<Scalar>)
    requires NoEnd(Encode(cs))
    ensures var r, n := PasteScan(st, cs), PasteLimit(st.cap, |st.doc.text|, |st.doc.folds|);
            && (r.over <==> |Encode(cs)| > n) && |r.kept| <= n
            && (!r.over ==> r.kept == Encode(cs) && IsText(r.kept))
  {
    assert Encode(cs) + END + [] == Encode(cs) + END;
    PastePayload(Encode(cs), [], PasteLimit(st.cap, |st.doc.text|, |st.doc.folds|));
  }

  // ----- the history

  lemma CStrIsText(s: seq<byte>)
    requires IsText(s)
    ensures IsText(CStr(s))
  {
    var n := |CStr(s)|;
    assert CStr(s) == s[..n];
    TextSplits(s, n);
  }

  /** Shows the entry of the current slot, cut when the buffer cannot hold it. */
  function Shown(st: State): (r: State)
    requires st.idx < |st.hist|
    ensures r.hist == st.hist && r.idx == st.idx
  {
    var src := st.hist[st.Slot()];
    if CanGrow(st.cap, |src|) || |src| <= st.cap.buflen
    then st.(doc := Recalled(src), cap := Grown(st.cap, |src|))
    else st.(doc := Recalled(src[..st.cap.buflen]))
  }

  /** linenoiseEditHistoryNext: one step to an older (up) or newer entry. */
  function Navigated(st: State, up: bool): (r: State)
    requires st.idx < |st.hist|
    ensures r.idx < |r.hist| == |st.hist|
  {
    if |st.hist| <= 1 then st
    else
      var s := st.(hist := st.View());
      if up && st.idx + 1 < |st.hist| then Shown(s.(idx := st.idx + 1))
      else if !up && 0 < st.idx then Shown(s.(idx := st.idx - 1))
      else s
  }

  lemma NavigatedInv(st: State, up: bool)
    requires StateInv(st)
    ensures StateInv(Navigated(st, up))
  {
    hide Document.Inv, IsText, HistoryFold, FoldAdded;
    TextIsText(st);
    CStrIsText(st.doc.text);
    var h := st.View();
    forall e | e in h ensures EntryOk(e, st.cap) {
      assert e in st.hist || e == CStr(st.doc.text);
      assert st.cap.buflen <= st.cap.Limit();
    }
    var i := if up && st.idx + 1 < |h| then st.idx + 1 else if !up && 0 < st.idx then st.idx - 1 else st.idx;
    var src := h[|h| - 1 - i];
    assert src in h && EntryOk(src, st.cap);
    RecalledInv(src);
    GrownCapOk(st.cap, |src|);
  }

  lemma TextIsText(st: State)
    requires StateInv(st)
    ensures IsText(st.doc.text)
  {}

  // ----- one key

  /** The state after a key, and whether the prompt goes on. */
  function Apply(st: State, k: Key): (r: (State, Outcome))
    requires StateInv(st) && KeyOk(k)
    ensures r.1.More? ==> StateInv(r.0)
    ensures !r.1.More? ==> r.0.cap == st.cap && HistOk(r.0.hist, st.cap)
  {
    match k
    case Type(c) => EncodeOne(c); (Typed(st, Encode1(c)), More)
    case PasteText(cs) => PasteScanned(st, cs); (Pasted(st, PasteScan(st, cs)), More)
    case KeyLeft => (st.(doc := MoveLeft(st.doc)), More)
    case KeyRight => (st.(doc := MoveRight(st.doc)), More)
    case KeyHome => (st.(doc := Home(st.doc)), More)
    case KeyEnd => (st.(doc := End(st.doc)), More)
    case KeyDelete => (st.(doc := Delete(st.doc)), More)
    case KeyBackspace => (st.(doc := Backspace(st.doc)), More)
    case KeyWord => (st.(doc := DeleteWord(st.doc)), More)
    case KeySwap => (st.(doc := Transpose(st.doc)), More)
    case KeyKillLine => (st.(doc := KillLine(st.doc)), More)
    case KeyKillEnd => (st.(doc := KillEnd(st.doc)), More)
    case KeyUp => NavigatedInv(st, true); (Navigated(st, true), More)
    case KeyDown => NavigatedInv(st, false); (Navigated(st, false), More)
    case KeyIgnored => (st, More)
    case KeyEnter => (st.(hist := st.hist[..|st.hist| - 1]), Finished(CStr(st.doc.text)))
    case KeyCtrlC => (st, Interrupted)
    case KeyEscape => (st, Finished([ESC]))
    case KeyCtrlD =>
      if st.doc.text != [] then (st.(doc := Delete(st.doc)), More)
      else (st.(hist := st.hist[..|st.hist| - 1]), EndOfFile)
  }

  predicate KeysOk(ks: seq<Key>) { forall k :: k in ks ==> KeyOk(k) }

  /** A run of keys; it stops with the key that ends the prompt. */
  function Run(st: State, ks: seq<Key>): (r: (State, Outcome))
    requires StateInv(st) && KeysOk(ks)
    ensures r.1.More? ==> StateInv(r.0)
    ensures HistOk(r.0.hist, r.0.cap) && CapOk(r.0.cap)
    decreases |ks|
  {
    if ks == [] then (st, More)
    else
      assert ks[0] in ks && forall k :: k in ks[1..] ==> k in ks;
      var (s, o) := Apply(st, ks[0]);
      if o.More? then Run(s, ks[1..]) else (s, o)
  }

  lemma RunOne(st: State, k: Key, ks: seq<Key>)
    requires StateInv(st) && KeyOk(k) && KeysOk(ks) && Apply(st, k).1.More?
    ensures KeysOk([k] + ks) && Run(st, [k] + ks) == Run(Apply(st, k).0, ks)
  {
    hide StateInv, KeyOk, Apply;
    assert ([k] + ks)[1..] == ks;
  }

  lemma RunNothing(st: State)
    requires StateInv(st)
    ensures KeysOk([]) && Run(st, []) == (st, More)
  {}
}
