/** Decoding of a bracketed paste (cli/linenoise.c:1965-2058). */
module Paste {
  import opened Seqs
  import opened Utf8
  import opened Clusters

  /** ESC [ 2 0 1 ~ */
  const END: seq<byte> := [27, 91, 50, 48, 49, 126]

  /** The terminator stands at i. */
  predicate EndAt(s: seq<byte>, i: nat) { i + |END| <= |s| && s[i..i + |END|] == END }

  /** The same byte by byte. */
  predicate OccursAt(s: seq<byte>, i: nat)
    ensures OccursAt(s, i) ==> i + 6 <= |s|
  {
    && i + 6 <= |s|
    && s[i] == 27 && s[i + 1] == 91 && s[i + 2] == 50
    && s[i + 3] == 48 && s[i + 4] == 49 && s[i + 5] == 126
  }

  lemma OccursMeans(s: seq<byte>, i: nat)
    ensures OccursAt(s, i) <==> EndAt(s, i)
  {
    if i + |END| <= |s| {
      var t := s[i..i + |END|];
      assert t[0] == s[i] && t[1] == s[i + 1] && t[2] == s[i + 2];
      assert t[3] == s[i + 3] && t[4] == s[i + 4] && t[5] == s[i + 5];
    }
  }

  predicate FirstAt(s: seq<byte>, i: nat) {
    OccursAt(s, i) && forall j: nat :: j < i ==> !OccursAt(s, j)
  }

  predicate NoEnd(s: seq<byte>) { forall j: nat :: j <= |s| ==> !OccursAt(s, j) }

  /** What the reading loop leaves: the bytes stored, whether storing was given up,
      the unread input, and whether the terminator was seen. */
  datatype Scan = Scan(kept: seq<byte>, over: bool, rest: seq<byte>, ended: bool)

  /** pasteBufferAppend under the limit maxlen; once given up, nothing is stored. */
  function Keep(kept: seq<byte>, over: bool, chunk: seq<byte>, maxlen: nat): (seq<byte>, bool) {
    if over || |kept| + |chunk| > maxlen then (kept, true) else (kept + chunk, false)
  }

  /** The reading loop of linenoiseEditPaste, with m bytes of the terminator matched. */
  function ScanFrom(input: seq<byte>, m: nat, kept: seq<byte>, over: bool, maxlen: nat): (r: Scan)
    requires m < |END|
    decreases |input|
  {
    if input == [] then Scan(kept, over, [], false)
    else
      var c, rest := input[0], input[1..];
      if c == END[m] then
        if m + 1 == |END| then Scan(kept, over, rest, true)
        else ScanFrom(rest, m + 1, kept, over, maxlen)
      else
        var (k, o) := if 0 < m then Keep(kept, over, END[..m], maxlen) else (kept, over);
        if 0 < m && c == END[0] then ScanFrom(rest, 1, k, o, maxlen)
        else
          var (k2, o2) := Keep(k, o, [c], maxlen);
          ScanFrom(rest, 0, k2, o2, maxlen)
  }

  function ScanPaste(input: seq<byte>, maxlen: nat): Scan { ScanFrom(input, 0, [], false, maxlen) }

  // ----- the matcher finds the first terminator

  lemma OccursInDrop(s: seq<byte>, k: nat, j: nat)
    requires k <= |s|
    ensures OccursAt(s[k..], j) <==> OccursAt(s, k + j)
  {}

  lemma FirstInDrop(s: seq<byte>, k: nat, i: nat)
    requires FirstAt(s, i) && k <= i
    ensures FirstAt(s[k..], i - k)
  {
    hide OccursAt;
    OccursInDrop(s, k, i - k);
    forall j: nat | j < i - k ensures !OccursAt(s[k..], j) {
      OccursInDrop(s, k, j);
    }
  }

  /** After a mismatch no terminator starts at one of the matched bytes. */
  lemma NoneAtMatched(s: seq<byte>, m: nat, j: nat)
    requires m < |END| && m < |s| && s[..m] == END[..m] && s[m] != END[m] && j < m
    ensures !OccursAt(s, j)
  {
    assert forall k :: 0 <= k < m ==> s[k] == s[..m][k] == END[k];
    assert END[1] != 27 && END[2] != 27 && END[3] != 27 && END[4] != 27 && END[5] != 27;
  }

  /** r is what the loop must leave when the pending bytes and the input together are q
      and the first terminator of q is at i. */
  predicate Finds(r: Scan, q: seq<byte>, i: nat, kept: seq<byte>, over: bool, maxlen: nat)
    requires i + |END| <= |q|
  {
    && r.ended && r.rest == q[i + |END|..]
    && r.over == (over || |kept| + i > maxlen)
    && kept <= r.kept <= kept + q[..i]
    && |r.kept| <= maxlen
    && (if over then r.kept == kept else !r.over ==> r.kept == kept + q[..i])
  }

  /** Storing the first n bytes of q and going on with the others. */
  lemma KeptPiece(r: Scan, q: seq<byte>, n: nat, i: nat, kept: seq<byte>, over: bool, maxlen: nat)
    requires n <= i && i + |END| <= |q| && |kept| <= maxlen
    requires var (k, o) := Keep(kept, over, q[..n], maxlen);
             Finds(r, q[n..], i - n, k, o, maxlen)
    ensures Finds(r, q, i, kept, over, maxlen)
  {
    hide OccursAt;
    assert q[n..][i - n + |END|..] == q[i + |END|..];
    assert q[..n] + q[n..][..i - n] == q[..i];
    var (k, o) := Keep(kept, over, q[..n], maxlen);
    Assoc(kept, q[..n], q[n..][..i - n]);
    if o {
      assert k == kept;
    } else {
      assert kept <= k <= r.kept;
    }
  }

  /** The loop reads up to the first terminator of the pending bytes and the input. */
  lemma {:induction false} ScanFinds(input: seq<byte>, m: nat, kept: seq<byte>, over: bool, maxlen: nat, i: nat)
    requires m < |END| && FirstAt(END[..m] + input, i) && |kept| <= maxlen
    ensures Finds(ScanFrom(input, m, kept, over, maxlen), END[..m] + input, i, kept, over, maxlen)
    decreases |input|
  {
    hide OccursAt, Finds, Keep;
    var q := END[..m] + input;
    TerminatorInside(input, m, i);
    var c, rest := input[0], input[1..];
    var r := ScanFrom(input, m, kept, over, maxlen);
    if c == END[m] {
      assert q == END[..m + 1] + rest;
      if m + 1 == |END| {
        assert END[..m + 1] == END;
        WholeTerminator(rest, kept, over, maxlen, i);
      } else {
        ScanFinds(rest, m + 1, kept, over, maxlen, i);
      }
    } else {
      assert q[m] == c && q[..m] == END[..m] && q[m..] == [c] + rest;
      forall j: nat | j < m ensures !OccursAt(q, j) {
        NoneAtMatched(q, m, j);
      }
      assert m <= i;
      FirstInDrop(q, m, i);
      var (k, o) := Keep(kept, over, END[..m], maxlen);
      KeepNothing(kept, over, maxlen);
      KeepBound(kept, over, END[..m], maxlen);
      if 0 < m && c == END[0] {
        assert q[m..] == END[..1] + rest;
        ScanFinds(rest, 1, k, o, maxlen, i - m);
      } else {
        var q2 := q[m..];
        NotAtOther(q2);
        FirstInDrop(q2, 1, i - m);
        assert q2[1..] == END[..0] + rest && q2[..1] == [c];
        var (k2, o2) := Keep(k, o, [c], maxlen);
        KeepBound(k, o, [c], maxlen);
        ScanFinds(rest, 0, k2, o2, maxlen, i - m - 1);
        KeptPiece(r, q2, 1, i - m, k, o, maxlen);
      }
      KeptPiece(r, q, m, i, kept, over, maxlen);
    }
  }

  lemma TerminatorInside(input: seq<byte>, m: nat, i: nat)
    requires m < |END| && FirstAt(END[..m] + input, i)
    ensures input != [] && i + |END| <= |END[..m] + input|
  {}

  lemma WholeTerminator(rest: seq<byte>, kept: seq<byte>, over: bool, maxlen: nat, i: nat)
    requires FirstAt(END + rest, i) && |kept| <= maxlen
    ensures Finds(Scan(kept, over, rest, true), END + rest, i, kept, over, maxlen)
  {
    assert OccursAt(END + rest, 0);
    assert (END + rest)[|END|..] == rest;
    assert kept + (END + rest)[..0] == kept;
  }

  lemma KeepNothing(kept: seq<byte>, over: bool, maxlen: nat)
    requires |kept| <= maxlen
    ensures Keep(kept, over, END[..0], maxlen) == (kept, over)
  {
    assert kept + END[..0] == kept;
  }

  lemma KeepBound(kept: seq<byte>, over: bool, chunk: seq<byte>, maxlen: nat)
    requires |kept| <= maxlen
    ensures |Keep(kept, over, chunk, maxlen).0| <= maxlen
  {}

  lemma NotAtOther(s: seq<byte>)
    requires s != [] && s[0] != END[0]
    ensures !OccursAt(s, 0)
  {}

  lemma StopsAtFirst(s: seq<byte>, i: nat, maxlen: nat)
    requires FirstAt(s, i)
    ensures var r := ScanPaste(s, maxlen);
            && r.ended && r.rest == s[i + |END|..]
            && (r.over <==> i > maxlen)
            && (!r.over ==> r.kept == s[..i])
            && |r.kept| <= maxlen && r.kept <= s[..i]
  {
    assert END[..0] + s == s;
    ScanFinds(s, 0, [], false, maxlen, i);
    assert [] + s[..i] == s[..i];
  }

  /** The paste decoder stops right after the first ESC [ 2 0 1 ~ of the stream and stores
      exactly the bytes before it, or gives up exactly when they exceed the limit. */
  lemma PasteStopsAtFirstEnd(s: seq<byte>, i: nat, maxlen: nat)
    requires EndAt(s, i) && forall j: nat :: j < i ==> !EndAt(s, j)
    ensures var r := ScanPaste(s, maxlen);
            && r.ended && r.rest == s[i + |END|..]
            && (r.over <==> i > maxlen)
            && (!r.over ==> r.kept == s[..i])
            && |r.kept| <= maxlen && r.kept <= s[..i]
  {
    hide OccursAt, ScanPaste;
    assert FirstAt(s, i) by {
      OccursMeans(s, i);
      forall j: nat | j < i ensures !OccursAt(s, j) {
        OccursMeans(s, j);
      }
    }
    StopsAtFirst(s, i, maxlen);
  }

  /** A payload without terminator, a terminator, anything: the payload comes back. */
  lemma PastePayload(p: seq<byte>, rest: seq<byte>, maxlen: nat)
    requires NoEnd(p)
    ensures var r := ScanPaste(p + END + rest, maxlen);
            && r.ended && r.rest == rest
            && (r.over <==> |p| > maxlen)
            && (!r.over ==> r.kept == p)
            && |r.kept| <= maxlen && r.kept <= p
  {
    var s := p + END + rest;
    assert OccursAt(s, |p|);
    forall j: nat | j < |p| ensures !OccursAt(s, j) {
      EndNotAcross(p, rest, j);
    }
    StopsAtFirst(s, |p|, maxlen);
    assert s[|p| + |END|..] == rest && s[..|p|] == p;
  }

  /** A terminator that starts in p and runs past it would have an ESC inside. */
  lemma EndNotAcross(p: seq<byte>, rest: seq<byte>, j: nat)
    requires j < |p| && !OccursAt(p, j)
    ensures !OccursAt(p + END + rest, j)
  {
    var s := p + END + rest;
    assert s[|p|] == 27;
    assert forall k :: 0 <= k < |p| ==> s[k] == p[k];
  }

  /** Without a terminator everything is read, and only a partial terminator at the very
      end is not stored. */
  lemma {:induction false} ScanToEnd(input: seq<byte>, m: nat, kept: seq<byte>, maxlen: nat)
    returns (t: nat)
    requires m < |END| && NoEnd(END[..m] + input) && |kept| + m + |input| <= maxlen
    ensures t < |END|
    ensures var r := ScanFrom(input, m, kept, false, maxlen);
            !r.ended && !r.over && r.rest == [] && r.kept + END[..t] == kept + (END[..m] + input)
    decreases |input|
  {
    hide OccursAt, NoEnd;
    if input == [] {
      t := m;
      NoneLeft(END[..m]);
    } else {
      var c, rest := input[0], input[1..];
      var q := END[..m] + input;
      HeadTail(input);
      Assoc(END[..m], [c], rest);
      if c == END[m] {
        SliceSnoc(END, 0, m);
        NotWholeEnd(rest, m, q);
        t := ScanToEnd(rest, m + 1, kept, maxlen);
      } else {
        t := ScanOtherToEnd(input, m, kept, maxlen);
      }
    }
  }

  /** The same after a mismatch. */
  lemma {:induction false} ScanOtherToEnd(input: seq<byte>, m: nat, kept: seq<byte>, maxlen: nat)
    returns (t: nat)
    requires m < |END| && NoEnd(END[..m] + input) && |kept| + m + |input| <= maxlen
    requires input != [] && input[0] != END[m]
    ensures t < |END|
    ensures var r := ScanFrom(input, m, kept, false, maxlen);
            !r.ended && !r.over && r.rest == [] && r.kept + END[..t] == kept + (END[..m] + input)
    decreases |input|, 0
  {
    hide OccursAt, NoEnd;
    var c, rest := input[0], input[1..];
    var q, k := END[..m] + input, kept + END[..m];
    NoneLeft(kept);
    HeadTail(input);
    Assoc(kept, END[..m], input);
    Halves(END[..m], input);
    if 0 < m && c == END[0] {
      NoEndInDrop(q, m);
      assert END[..1] == [c];
      t := ScanToEnd(rest, 1, k, maxlen);
    } else {
      NoEndInDrop(q, m);
      NoEndInDrop(input, 1);
      NoneLeft(rest);
      t := ScanToEnd(rest, 0, k + [c], maxlen);
      Assoc(k, [c], rest);
    }
  }

  lemma NotWholeEnd(rest: seq<byte>, m: nat, q: seq<byte>)
    requires m < |END| && q == END[..m + 1] + rest && NoEnd(q)
    ensures m + 1 < |END|
  {
    assert m + 1 == |END| ==> OccursAt(q, 0);
  }

  lemma NoEndInDrop(s: seq<byte>, k: nat)
    requires k <= |s| && NoEnd(s)
    ensures NoEnd(s[k..])
  {
    hide OccursAt;
    forall j: nat | j <= |s[k..]| ensures !OccursAt(s[k..], j) {
      OccursInDrop(s, k, j);
    }
  }

  // ----- what is kept of a payload that is too long

  /** How far s goes on like the terminator, from the m bytes that already do. */
  function Alike(s: seq<byte>, m: nat): (r: nat)
    requires m <= |s|
    ensures m <= r <= |s|
    decreases |s| - m
  {
    if m < |END| && m < |s| && s[m] == END[m] then Alike(s, m + 1) else m
  }

  /** A payload is stored piece by piece: an ESC with what follows it like the terminator,
      or one byte. */
  function Piece(s: seq<byte>): (n: nat)
    requires s != []
    ensures 1 <= n <= |s|
  {
    if s[0] == END[0] then Alike(s, 1) else 1
  }

  /** The pieces from the start on that fit into room. */
  function Fitting(s: seq<byte>, room: nat): (r: seq<byte>)
    ensures r <= s && |r| <= room
    decreases |s|
  {
    if s == [] || Piece(s) > room then []
    else
      var n := Piece(s);
      Rejoin(s, n);
      s[..n] + Fitting(s[n..], room - n)
  }

  lemma {:induction false} AlikeIs(s: seq<byte>, m: nat, n: nat)
    requires m <= n <= |s| && n <= |END| && s[..n] == END[..n]
    requires n == |s| || n == |END| || s[n] != END[n]
    ensures Alike(s, m) == n
    decreases n - m
  {
    if m < n {
      assert s[m] == s[..n][m] == END[..n][m] == END[m];
      AlikeIs(s, m + 1, n);
    }
  }

  /** The bytes held back at a mismatch are the first piece of the payload. */
  lemma HeldIsPiece(p: seq<byte>, rest: seq<byte>, m: nat)
    requires var q := p + END + rest;
             m < |END| && q[..m] == END[..m] && q[m] != END[m]
    ensures p != [] && m <= |p| && p[..m] == END[..m]
    ensures Piece(p) == if m == 0 then 1 else m
  {
    var q := p + END + rest;
    assert forall k :: 0 <= k < m ==> q[k] == q[..m][k] == END[k];
    assert forall k :: 0 <= k < |END| ==> q[|p| + k] == END[k];
    assert forall k :: 1 <= k < |END| ==> END[k] != END[0];
    assert |p| >= m ==> p[..m] == q[..m];
    if 0 < m {
      assert m < |p| ==> p[m] == q[m];
      AlikeIs(p, 1, m);
    }
  }

  lemma KeepsNothingMore(input: seq<byte>, m: nat, kept: seq<byte>, maxlen: nat)
    requires m < |END|
    ensures ScanFrom(input, m, kept, true, maxlen).kept == kept
    decreases |input|
  {
    if input != [] {
      var c, rest := input[0], input[1..];
      KeepsNothingMore(rest, 0, kept, maxlen);
      KeepsNothingMore(rest, 1, kept, maxlen);
      if m + 1 < |END| {
        KeepsNothingMore(rest, m + 1, kept, maxlen);
      }
    }
  }

  /** At a mismatch the held bytes are stored and the byte is looked at afresh. */
  lemma FlushThenScan(input: seq<byte>, m: nat, kept: seq<byte>, maxlen: nat)
    requires 0 < m < |END| && input != [] && input[0] != END[m]
    ensures var (k, o) := Keep(kept, false, END[..m], maxlen);
            ScanFrom(input, m, kept, false, maxlen) == ScanFrom(input, 0, k, o, maxlen)
  {
    hide Keep;
  }

  /** The loop keeps the pieces of the payload that fit, up to the first that does not. */
  lemma {:induction false} ScanKeeps(p: seq<byte>, rest: seq<byte>, input: seq<byte>, m: nat,
                                     kept: seq<byte>, maxlen: nat)
    requires m < |END| && NoEnd(p) && END[..m] + input == p + END + rest && |kept| <= maxlen
    ensures ScanFrom(input, m, kept, false, maxlen).kept == kept + Fitting(p, maxlen - |kept|)
    decreases |input|, m
  {
    hide OccursAt, NoEnd, Piece, Fitting, ScanFrom;
    if input == [] || input[0] == END[m] {
      MatchedKeeps(p, rest, input, m, kept, maxlen);
    } else if m == 0 {
      OtherKeeps(p, rest, input, kept, maxlen);
    } else {
      HeldKeeps(p, rest, input, m, kept, maxlen);
    }
  }

  /** A byte that is not an ESC. */
  lemma {:induction false} OtherKeeps(p: seq<byte>, rest: seq<byte>, input: seq<byte>, kept: seq<byte>, maxlen: nat)
    requires NoEnd(p) && END[..0] + input == p + END + rest && |kept| <= maxlen
    requires input != [] && input[0] != END[0]
    ensures ScanFrom(input, 0, kept, false, maxlen).kept == kept + Fitting(p, maxlen - |kept|)
    decreases |input|, 0, 0
  {
    hide OccursAt, NoEnd, Piece;
    NoneLeft(input);
    HeldIsPiece(p, rest, 0);
    PieceInFront(p, rest, 1);
    NoEndInDrop(p, 1);
    assert p[..1] == [input[0]];
    if 1 > maxlen - |kept| {
      KeepsNothingMore(input[1..], 0, kept, maxlen);
      NoneLeft(kept);
    } else {
      Assoc(kept, p[..1], Fitting(p[1..], maxlen - |kept| - 1));
      NoneLeft(input[1..]);
      ScanKeeps(p[1..], rest, input[1..], 0, kept + p[..1], maxlen);
    }
  }

  /** Held bytes that turn out to be payload. */
  lemma {:induction false} HeldKeeps(p: seq<byte>, rest: seq<byte>, input: seq<byte>, m: nat,
                                     kept: seq<byte>, maxlen: nat)
    requires 0 < m < |END| && NoEnd(p) && END[..m] + input == p + END + rest && |kept| <= maxlen
    requires input != [] && input[0] != END[m]
    ensures ScanFrom(input, m, kept, false, maxlen).kept == kept + Fitting(p, maxlen - |kept|)
    decreases |input|, m, 0
  {
    hide OccursAt, NoEnd, Piece, ScanFrom;
    Halves(END[..m], input);
    assert (END[..m] + input)[m] == input[0];
    HeldIsPiece(p, rest, m);
    PieceInFront(p, rest, m);
    NoEndInDrop(p, m);
    FlushThenScan(input, m, kept, maxlen);
    if m > maxlen - |kept| {
      KeepsNothingMore(input, 0, kept, maxlen);
      NoneLeft(kept);
    } else {
      Assoc(kept, p[..m], Fitting(p[m..], maxlen - |kept| - m));
      NoneLeft(input);
      ScanKeeps(p[m..], rest, input, 0, kept + p[..m], maxlen);
    }
  }

  lemma PieceInFront(p: seq<byte>, rest: seq<byte>, n: nat)
    requires n <= |p|
    ensures (p + END + rest)[n..] == p[n..] + END + rest
  {}

  /** One more byte of the terminator. */
  lemma {:induction false} MatchedKeeps(p: seq<byte>, rest: seq<byte>, input: seq<byte>, m: nat,
                                        kept: seq<byte>, maxlen: nat)
    requires m < |END| && NoEnd(p) && END[..m] + input == p + END + rest && |kept| <= maxlen
    requires input == [] || input[0] == END[m]
    ensures ScanFrom(input, m, kept, false, maxlen).kept == kept + Fitting(p, maxlen - |kept|)
    decreases |input|, m, 0
  {
    hide OccursAt, NoEnd, Piece;
    assert |END[..m] + input| == |p| + |END| + |rest|;
    HeadTail(input);
    Assoc(END[..m], [input[0]], input[1..]);
    SliceSnoc(END, 0, m);
    if m + 1 == |END| {
      PayloadIsOver(p, rest, input[1..]);
      NoneLeft(kept);
    } else {
      ScanKeeps(p, rest, input[1..], m + 1, kept, maxlen);
    }
  }

  /** When the whole terminator is matched no payload is left. */
  lemma PayloadIsOver(p: seq<byte>, rest: seq<byte>, after: seq<byte>)
    requires NoEnd(p) && END + after == p + END + rest
    ensures p == []
  {
    assert OccursAt(END + after, 0);
    if p != [] {
      EndNotAcross(p, rest, 0);
    }
  }

  /** What a paste keeps of its payload, too long or not, is told by the payload and the
      limit: the pieces that fit, up to the first that does not. */
  lemma PasteKeeps(p: seq<byte>, rest: seq<byte>, maxlen: nat)
    requires NoEnd(p)
    ensures ScanPaste(p + END + rest, maxlen).kept == Fitting(p, maxlen)
  {
    hide NoEnd, Fitting;
    NoneLeft(p + END + rest);
    assert END[..0] == [];
    ScanKeeps(p, rest, p + END + rest, 0, [], maxlen);
    NoneLeft(Fitting(p, maxlen));
  }

  // ----- newline normalisation

  /** Pasted CR and CRLF become LF. */
  function Normalise(s: seq<byte>): (r: seq<byte>)
    ensures |r| <= |s| && (s != [] ==> r != [])
  {
    if s == [] then []
    else if s[0] == CR then [LF] + Normalise(if 1 < |s| && s[1] == LF then s[2..] else s[1..])
    else [s[0]] + Normalise(s[1..])
  }

  /** The normalising loop, in place. */
  method NormaliseInPlace(buf: array<byte>, len: nat) returns (w: nat)
    requires len <= buf.Length
    modifies buf
    ensures w <= len && buf[..w] == Normalise(old(buf[..len]))
  {
    hide Normalise;
    ghost var s := buf[..len];
    var r := 0;
    w := 0;
    NoneLeft(s);
    NoneLeft(Normalise(s));
    while r < len
      invariant 0 <= w <= r <= len
      invariant forall k :: r <= k < len ==> buf[k] == s[k]
      invariant buf[..w] + Normalise(s[r..]) == Normalise(s)
      decreases len - r
    {
      ghost var step := NormaliseStep(s, r);
      Assoc(buf[..w], [step.0], Normalise(s[r + step.1..]));
      w, r := NormaliseOne(buf, w, r, len);
    }
    NormaliseNothing();
    NoneLeft(buf[..w]);
  }

  lemma NormaliseNothing()
    ensures Normalise([]) == []
  {}

  /** One round of the normalising loop. */
  method NormaliseOne(buf: array<byte>, w: nat, r: nat, len: nat) returns (w': nat, r': nat)
    requires w <= r < len <= buf.Length
    modifies buf
    ensures var crlf := old(buf[r]) == CR && r + 1 < len && old(buf[r + 1]) == LF;
            w' == w + 1 && r' == r + (if crlf then 2 else 1)
    ensures buf[..w'] == old(buf[..w]) + [if old(buf[r]) == CR then LF else old(buf[r])]
    ensures forall k :: r < k < len ==> buf[k] == old(buf[k])
  {
    r' := r + 1;
    if buf[r] == CR {
      if r + 1 < len && buf[r + 1] == LF {
        r' := r + 2;
      }
      buf[w] := LF;
    } else {
      buf[w] := buf[r];
    }
    w' := w + 1;
  }

  /** What one round of the loop writes and how far it reads. */
  lemma NormaliseStep(s: seq<byte>, r: nat) returns (step: (byte, nat))
    requires r < |s|
    ensures step == (if s[r] == CR then (LF, if r + 1 < |s| && s[r + 1] == LF then 2 else 1) else (s[r], 1))
    ensures Normalise(s[r..]) == [step.0] + Normalise(s[r + step.1..])
  {
    step := if s[r] == CR then (LF, if r + 1 < |s| && s[r + 1] == LF then 2 else 1) else (s[r], 1);
    assert s[r..][1..] == s[r + 1..];
    assert r + 1 < |s| ==> s[r..][2..] == s[r + 2..];
  }

  lemma {:induction false} NormalisedHasNoCr(s: seq<byte>)
    ensures CR !in Normalise(s)
    decreases |s|
  {
    if s != [] {
      NormalisedHasNoCr(s[1..]);
      if 1 < |s| {
        NormalisedHasNoCr(s[2..]);
      }
    }
  }

  /** Text that has no CR is not changed; so normalising twice is normalising once. */
  lemma {:induction false} NormaliseKeeps(s: seq<byte>)
    requires CR !in s
    ensures Normalise(s) == s
  {
    if s != [] {
      assert s[0] in s;
      assert forall b :: b in s[1..] ==> b in s;
      NormaliseKeeps(s[1..]);
    }
  }

  /** A line of a pasted text and how it ends. */
  datatype Ended = Ended(line: seq<byte>, end: seq<byte>)
  {
    predicate Ok() { 10 !in line && 13 !in line && (end == [10] || end == [13] || end == [13, 10]) }
  }

  function Lines(ps: seq<Ended>, last: seq<byte>): seq<byte> {
    if ps == [] then last else ps[0].line + (ps[0].end + Lines(ps[1..], last))
  }

  /** The same lines, all ended by LF. */
  function UnixLines(ps: seq<Ended>): (us: seq<Ended>)
    ensures |us| == |ps| && forall k :: 0 <= k < |ps| ==> us[k] == Ended(ps[k].line, [10])
  {
    seq(|ps|, k requires 0 <= k < |ps| => Ended(ps[k].line, [10]))
  }

  /** An end that is a CR is not followed by the LF that would make it one end with it. */
  predicate Separate(ps: seq<Ended>) {
    forall k :: 0 < k < |ps| ==> ps[k - 1].end == [13] ==> ps[k].line != [] || ps[k].end != [10]
  }

  lemma StartOfRest(ps: seq<Ended>, last: seq<byte>)
    requires ps != [] && Separate(ps) && (forall p :: p in ps ==> p.Ok()) && 10 !in last
    ensures var r := Lines(ps[1..], last); ps[0].end == [13] ==> r == [] || r[0] != 10
  {
    if |ps| == 1 {
      assert last != [] ==> last[0] in last;
    } else {
      var p := ps[1];
      assert p in ps && ps[1..][0] == p;
      assert p.line != [] ==> p.line[0] in p.line;
      assert ps[0].end == [13] ==> p.line != [] || p.end != [10];
    }
  }

  lemma OneEnd(end: seq<byte>, rest: seq<byte>)
    requires end == [10] || end == [13] || end == [13, 10]
    requires end == [13] ==> rest == [] || rest[0] != 10
    ensures Normalise(end + rest) == [10] + Normalise(rest)
  {
    var s := end + rest;
    assert s[|end|..] == rest;
    assert end == [13] && rest != [] ==> s[1] == rest[0];
  }

  /** Lines that end in CR, LF or CRLF, in any mixture, come out as the same lines ended by LF. */
  lemma {:induction false} NormaliseLines(ps: seq<Ended>, last: seq<byte>)
    requires Separate(ps) && (forall p :: p in ps ==> p.Ok()) && 10 !in last && 13 !in last
    ensures Normalise(Lines(ps, last)) == Lines(UnixLines(ps), last)
    decreases |ps|
  {
    hide Normalise;
    if ps == [] {
      NormaliseKeeps(last);
    } else {
      var p, r := ps[0], Lines(ps[1..], last);
      assert p in ps && forall q :: q in ps[1..] ==> q in ps;
      assert forall k :: 0 < k < |ps[1..]| ==> ps[1..][k] == ps[k + 1] && ps[1..][k - 1] == ps[k];
      NormaliseLines(ps[1..], last);
      NormaliseRun(p.line, p.end + r);
      StartOfRest(ps, last);
      OneEnd(p.end, r);
      assert UnixLines(ps)[1..] == UnixLines(ps[1..]);
    }
  }

  function NormalisePoints(cs: seq<Scalar>): (r: seq<Scalar>)
    ensures cs != [] ==> r != []
  {
    if cs == [] then []
    else if cs[0] == 13 then [10] + NormalisePoints(if 1 < |cs| && cs[1] == 10 then cs[2..] else cs[1..])
    else [cs[0]] + NormalisePoints(cs[1..])
  }

  lemma AsciiBytes(c: Scalar)
    ensures c < 0x80 ==> Encode1(c) == [c]
    ensures 0x80 <= c ==> Encode1(c)[0] >= 0x80 && forall k :: 1 <= k < |Encode1(c)| ==> Encode1(c)[k] >= 0x80
  {
    forall k | 1 <= k < |Encode1(c)| ensures 0x80 <= c ==> Encode1(c)[k] >= 0x80 {
      EncodeTail(c, k);
    }
  }

  lemma {:induction false} NormaliseRun(e: seq<byte>, s: seq<byte>)
    requires forall k :: 0 <= k < |e| ==> e[k] != CR
    ensures Normalise(e + s) == e + Normalise(s)
  {
    if e == [] {
      assert e + s == s;
    } else {
      assert (e + s)[1..] == e[1..] + s;
      NormaliseRun(e[1..], s);
    }
  }

  /** On text, normalising the bytes is normalising the characters. */
  lemma {:induction false} NormaliseEncoded(cs: seq<Scalar>)
    ensures Normalise(Encode(cs)) == Encode(NormalisePoints(cs))
    decreases |cs|
  {
    hide Encode1;
    if cs != [] {
      var c, r := cs[0], cs[1..];
      AsciiBytes(c);
      AsciiBytes(10);
      if c == 13 {
        var s := Encode(cs);
        assert s == [CR] + Encode(r);
        assert s[1..] == Encode(r);
        if r != [] && r[0] == 10 {
          assert Encode(r) == [LF] + Encode(r[1..]);
          assert s[2..] == Encode(r[1..]);
          assert r[1..] == cs[2..];
          NormaliseEncoded(cs[2..]);
          EncodeCons(10, NormalisePoints(cs[2..]));
        } else {
          if r != [] {
            AsciiBytes(r[0]);
            assert Encode(r)[0] == Encode1(r[0])[0];
          }
          NormaliseEncoded(r);
          EncodeCons(10, NormalisePoints(r));
        }
      } else {
        NormaliseRun(Encode1(c), Encode(r));
        NormaliseEncoded(r);
        EncodeCons(c, NormalisePoints(r));
      }
    }
  }

  lemma {:induction false} NormalisePointsPlain(cs: seq<Scalar>)
    requires AllPlain(cs) && 0 !in cs
    ensures AllPlain(NormalisePoints(cs)) && 0 !in NormalisePoints(cs)
    decreases |cs|
  {
    if cs != [] {
      assert cs[0] in cs;
      assert forall c :: c in cs[1..] ==> c in cs;
      NormalisePointsPlain(cs[1..]);
      if 1 < |cs| {
        assert forall c :: c in cs[2..] ==> c in cs;
        NormalisePointsPlain(cs[2..]);
      }
    }
  }

  lemma NormalisedIsText(s: seq<byte>)
    requires IsText(s)
    ensures IsText(Normalise(s))
  {
    var cs: seq<Scalar> :| Encode(cs) == s;
    NormaliseEncoded(cs);
  }
}
