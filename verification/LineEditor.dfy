/** The line editor itself: linenoiseState with its buffer, fold arrays and history,
    changed in place (cli/linenoise.h:55-76; cli/linenoise.c:952-1003, 1009-1203,
    1652-1863, 1965-2059).  Every operation is proved to be the operation of the same
    meaning on the value `Model()`. */
module LineEditor {
  import opened Seqs
  import opened Utf8
  import opened Clusters
  import opened Capacity
  import opened Document
  import opened Paste
  import opened History
  import opened Session
  import opened Render

  /** The ranges held by the two fold arrays. */
  function Zip(starts: seq<nat>, ends: seq<nat>): (fs: seq<Fold>)
    requires |starts| == |ends|
    ensures |fs| == |starts| && forall i :: 0 <= i < |fs| ==> fs[i] == Fold(starts[i], ends[i])
  {
    seq(|starts|, i requires 0 <= i < |starts| => Fold(starts[i], ends[i]))
  }

  class EditLine {
    var buf: array<byte>
    var buflen: nat
    var buflenMax: nat
    var pos: nat
    var len: nat
    var historyIndex: nat
    var foldCount: nat
    const foldStart: array<nat>
    const foldEnd: array<nat>
    const history: Store

    ghost predicate FoldsValid()
      reads this
    {
      && foldStart.Length == MAX_FOLDS == foldEnd.Length && foldStart != foldEnd
      && foldCount <= MAX_FOLDS
    }

    ghost predicate Valid()
      reads this, buf, foldStart, foldEnd, history, history.slots
    {
      && history.Valid()
      && FoldsValid()
      && buf.Length == buflen + 1
      && pos <= len <= buflen && buf[len] == 0
    }

    ghost function Folds(): seq<Fold>
      requires FoldsValid()
      reads this, foldStart, foldEnd
    {
      Zip(foldStart[..foldCount], foldEnd[..foldCount])
    }

    ghost function Text(): seq<byte>
      requires len <= buf.Length
      reads this, buf
    {
      buf[..len]
    }

    ghost function Edited(): Doc
      requires Valid()
      reads this, buf, foldStart, foldEnd, history, history.slots
    {
      Doc(Text(), pos, Folds())
    }

    ghost function Model(): State
      requires Valid()
      reads this, buf, foldStart, foldEnd, history, history.slots
    {
      State(Edited(), Cap(buflen, buflenMax), history.Contents(), historyIndex)
    }

    ghost predicate Ready()
      reads this, buf, foldStart, foldEnd, history, history.slots
    {
      Valid() && StateInv(Model())
    }

    /** linenoiseEditStart: an empty line in a fresh buffer of `size` bytes, one of them
        for the NUL, and an empty entry at the end of the history. */
    constructor (size: nat, max: nat, store: Store)
      requires 1 < size && CapOk(Cap(size - 1, max))
      requires store.Valid() && 0 < store.maxLen && HistOk(store.Contents(), Cap(size - 1, max))
      modifies store, store.slots
      ensures Ready() && fresh(buf) && fresh(foldStart) && fresh(foldEnd) && history == store
      ensures store.slots == old(store.slots) || fresh(store.slots)
      ensures store.maxLen == old(store.maxLen)
      ensures Model() == State(Doc([], 0, []), Cap(size - 1, max),
                               Added(old(store.Contents()), store.maxLen, []), 0)
    {
      buf := new byte[size](_ => 0);
      buflen, buflenMax := size - 1, max;
      pos, len, historyIndex := 0, 0, 0;
      foldCount := 0;
      foldStart := new nat[MAX_FOLDS];
      foldEnd := new nat[MAX_FOLDS];
      history := store;
      new;
      EmptyIsText();
      var _ := history.Add([]);
    }

    // ----- folds

    /** linenoiseFoldRemove. */
    method FoldRemove(j: nat)
      requires FoldsValid() && j < foldCount
      modifies this`foldCount, foldStart, foldEnd
      ensures FoldsValid() && foldCount == old(foldCount) - 1
      ensures Folds() == old(Folds())[..j] + old(Folds())[j + 1..]
    {
      ghost var fs := Folds();
      forall i | j <= i < foldCount - 1 {
        foldStart[i] := foldStart[i + 1];
      }
      forall i | j <= i < foldCount - 1 {
        foldEnd[i] := foldEnd[i + 1];
      }
      foldCount := foldCount - 1;
      assert Folds() == fs[..j] + fs[j + 1..];
    }

    method SetFold(j: nat, start: nat, end: nat)
      requires FoldsValid() && j < foldCount
      modifies foldStart, foldEnd
      ensures FoldsValid() && Folds() == old(Folds())[j := Fold(start, end)]
    {
      foldStart[j] := start;
      foldEnd[j] := end;
    }

    /** linenoiseAdjustFoldsAfterInsert. */
    method AdjustFoldsAfterInsert(p: nat, n: nat)
      requires FoldsValid()
      modifies this`foldCount, foldStart, foldEnd
      ensures FoldsValid() && Folds() == ShiftedByInsert(old(Folds()), p, n)
    {
      hide ShiftedByInsert, Zip;
      ghost var fs := Folds();
      var j := 0;
      assert fs[0..] == fs && fs[..0] == [];
      while j < foldCount
        invariant FoldsValid() && 0 <= j <= foldCount
        invariant Folds()[..j] + ShiftedByInsert(Folds()[j..], p, n) == ShiftedByInsert(fs, p, n)
        decreases foldCount - j
      {
        InsertRound(Folds(), j, p, n);
        if p <= foldStart[j] {
          SetFold(j, foldStart[j] + n, foldEnd[j] + n);
          j := j + 1;
        } else if p < foldEnd[j] {
          Removed(Folds(), j);
          FoldRemove(j);
        } else {
          j := j + 1;
        }
      }
      NothingLeft(Folds(), p, n);
    }

    /** linenoiseAdjustFoldsAfterDelete. */
    method AdjustFoldsAfterDelete(p: nat, n: nat)
      requires FoldsValid() && Ordered(Folds())
      modifies this`foldCount, foldStart, foldEnd
      ensures FoldsValid() && Folds() == ShiftedByDelete(old(Folds()), p, n)
    {
      hide ShiftedByDelete, Zip, Ordered;
      ghost var fs := Folds();
      var j := 0;
      assert fs[0..] == fs && fs[..0] == [];
      while j < foldCount
        invariant FoldsValid() && 0 <= j <= foldCount
        invariant Ordered(Folds()[j..])
        invariant Folds()[..j] + ShiftedByDelete(Folds()[j..], p, n) == ShiftedByDelete(fs, p, n)
        decreases foldCount - j
      {
        DeleteRound(Folds(), j, p, n);
        assert Folds()[j] == Fold(foldStart[j], foldEnd[j]);
        if p + n <= foldStart[j] {
          SetFold(j, foldStart[j] - n, foldEnd[j] - n);
          j := j + 1;
        } else if p >= foldEnd[j] {
          j := j + 1;
        } else {
          Removed(Folds(), j);
          FoldRemove(j);
        }
      }
      NothingLeft(Folds(), p, n);
    }

    static predicate Ordered(fs: seq<Fold>) { forall f :: f in fs ==> f.start <= f.end }

    static lemma Removed(fs: seq<Fold>, j: nat)
      requires j < |fs|
      ensures var r := fs[..j] + fs[j + 1..]; r[..j] == fs[..j] && r[j..] == fs[j + 1..]
    {}

    static lemma NothingLeft(fs: seq<Fold>, p: nat, n: nat)
      ensures fs[..|fs|] + ShiftedByInsert(fs[|fs|..], p, n) == fs
      ensures fs[..|fs|] + ShiftedByDelete(fs[|fs|..], p, n) == fs
    {}

    /** What one round of either loop does to finished and unfinished folds together. */
    static lemma InsertRound(fs: seq<Fold>, j: nat, p: nat, n: nat)
      requires j < |fs|
      ensures var f, all := fs[j], fs[..j] + ShiftedByInsert(fs[j..], p, n);
              if p <= f.start then
                var now := fs[j := Fold(f.start + n, f.end + n)];
                now[..j + 1] + ShiftedByInsert(now[j + 1..], p, n) == all
              else if p < f.end then fs[..j] + ShiftedByInsert(fs[j + 1..], p, n) == all
              else fs[..j + 1] + ShiftedByInsert(fs[j + 1..], p, n) == all
    {
      var f, rest := fs[j], ShiftedByInsert(fs[j + 1..], p, n);
      assert fs[j..][1..] == fs[j + 1..];
      var g := Fold(f.start + n, f.end + n);
      var now := fs[j := g];
      assert now[j + 1..] == fs[j + 1..] && now[..j + 1] == fs[..j] + [g] && fs[..j + 1] == fs[..j] + [f];
      Assoc(fs[..j], [g], rest);
      Assoc(fs[..j], [f], rest);
    }

    static lemma DeleteRound(fs: seq<Fold>, j: nat, p: nat, n: nat)
      requires j < |fs| && Ordered(fs[j..])
      ensures fs[j].start <= fs[j].end && Ordered(fs[j + 1..])
      ensures p + n <= fs[j].start ==> Ordered(fs[j := Fold(fs[j].start - n, fs[j].end - n)][j + 1..])
      ensures var f, all := fs[j], fs[..j] + ShiftedByDelete(fs[j..], p, n);
              if p + n <= f.start then
                var now := fs[j := Fold(f.start - n, f.end - n)];
                now[..j + 1] + ShiftedByDelete(now[j + 1..], p, n) == all
              else if p >= f.end then fs[..j + 1] + ShiftedByDelete(fs[j + 1..], p, n) == all
              else fs[..j] + ShiftedByDelete(fs[j + 1..], p, n) == all
    {
      var f, rest := fs[j], ShiftedByDelete(fs[j + 1..], p, n);
      HeadTail(fs[j..]);
      assert fs[j..][1..] == fs[j + 1..] && f in fs[j..];
      assert fs[..j + 1] == fs[..j] + [f];
      Assoc(fs[..j], [f], rest);
      if p + n <= f.start {
        var g := Fold(f.start - n, f.end - n);
        var now := fs[j := g];
        assert now[j + 1..] == fs[j + 1..] && now[..j + 1] == fs[..j] + [g];
        Assoc(fs[..j], [g], rest);
      }
    }

    /** linenoiseFoldAdd: shifts the later folds up and puts the new one in place. */
    method FoldAdd(start: nat, end: nat)
      requires FoldsValid()
      modifies this`foldCount, foldStart, foldEnd
      ensures FoldsValid() && Folds() == FoldAdded(old(Folds()), start, end)
    {
      hide InsertSorted, ShiftedUp, Zip;
      if start >= end || foldCount == MAX_FOLDS {
        return;
      }
      ghost var fs, f := Folds(), Fold(start, end);
      var j := foldCount;
      InsertSortedStarts(fs, f);
      NotShifted(fs, foldStart[..], foldEnd[..]);
      while 0 < j && start < foldStart[j - 1]
        invariant 0 <= j <= foldCount == |fs| < MAX_FOLDS && FoldsValid()
        invariant ShiftedUp(fs, j, foldStart[..], foldEnd[..])
        invariant InsertSorted(fs, f) == InsertSorted(fs[..j], f) + fs[j..]
      {
        Untouched(fs, j, foldStart[..], foldEnd[..]);
        InsertSortedRound(fs, j, f);
        MoveUp(j, fs);
        j := j - 1;
      }
      Untouched(fs, j, foldStart[..], foldEnd[..]);
      InsertSortedStops(fs, j, f);
      PlaceFold(j, Fold(start, end), fs);
    }

    method MoveUp(j: nat, ghost fs: seq<Fold>)
      requires FoldsValid() && 0 < j <= |fs| == foldCount < MAX_FOLDS
      requires ShiftedUp(fs, j, foldStart[..], foldEnd[..])
      modifies foldStart, foldEnd
      ensures ShiftedUp(fs, j - 1, foldStart[..], foldEnd[..])
    {
      foldStart[j] := foldStart[j - 1];
      foldEnd[j] := foldEnd[j - 1];
    }

    /** The new fold goes into the place the loop has made free. */
    method PlaceFold(j: nat, f: Fold, ghost fs: seq<Fold>)
      requires FoldsValid() && j <= foldCount == |fs| < MAX_FOLDS
      requires ShiftedUp(fs, j, foldStart[..], foldEnd[..])
      modifies this`foldCount, foldStart, foldEnd
      ensures FoldsValid() && Folds() == fs[..j] + [f] + fs[j..]
    {
      foldStart[j] := f.start;
      foldEnd[j] := f.end;
      foldCount := foldCount + 1;
      ghost var r := fs[..j] + [f] + fs[j..];
      forall i | 0 <= i < foldCount
        ensures foldStart[i] == r[i].start && foldEnd[i] == r[i].end
      {
      }
    }

    /** The first j folds stand where they were, the others one place up. */
    static predicate ShiftedUp(fs: seq<Fold>, j: nat, starts: seq<nat>, ends: seq<nat>)
      requires j <= |fs| < |starts| == |ends|
    {
      && (forall i :: 0 <= i < j ==> starts[i] == fs[i].start && ends[i] == fs[i].end)
      && (forall i :: j < i <= |fs| ==> starts[i] == fs[i - 1].start && ends[i] == fs[i - 1].end)
    }

    static lemma NotShifted(fs: seq<Fold>, starts: seq<nat>, ends: seq<nat>)
      requires |fs| < |starts| == |ends| && fs == Zip(starts[..|fs|], ends[..|fs|])
      ensures ShiftedUp(fs, |fs|, starts, ends)
    {}

    static lemma Untouched(fs: seq<Fold>, j: nat, starts: seq<nat>, ends: seq<nat>)
      requires j <= |fs| < |starts| == |ends| && ShiftedUp(fs, j, starts, ends)
      ensures 0 < j ==> starts[j - 1] == fs[j - 1].start
    {}

    static lemma InsertSortedStarts(fs: seq<Fold>, f: Fold)
      ensures InsertSorted(fs, f) == InsertSorted(fs[..|fs|], f) + fs[|fs|..]
    {
      hide InsertSorted;
      NoneLeft(fs);
      NoneLeft(InsertSorted(fs, f));
    }

    static lemma InsertSortedStops(fs: seq<Fold>, j: nat, f: Fold)
      requires j <= |fs| && (j == 0 || fs[j - 1].start <= f.start)
      ensures InsertSorted(fs[..j], f) == fs[..j] + [f]
    {}

    static lemma InsertSortedRound(fs: seq<Fold>, j: nat, f: Fold)
      requires 0 < j <= |fs| && f.start < fs[j - 1].start
      requires InsertSorted(fs, f) == InsertSorted(fs[..j], f) + fs[j..]
      ensures InsertSorted(fs, f) == InsertSorted(fs[..j - 1], f) + fs[j - 1..]
    {
      var head := fs[..j];
      assert head[..j - 1] == fs[..j - 1] && head[j - 1] == fs[j - 1];
      assert [fs[j - 1]] + fs[j..] == fs[j - 1..];
      Assoc(InsertSorted(fs[..j - 1], f), [fs[j - 1]], fs[j..]);
    }

    /** linenoiseGetRenderFolds. */
    method GetRenderFolds() returns (fs: seq<Fold>)
      requires Valid()
      ensures fs == LiveFolds(Folds(), len)
    {
      fs := [];
      if len == 0 {
        NoneLive(Folds());
        return;
      }
      assert Folds()[0..] == Folds();
      for j := 0 to foldCount
        invariant fs + LiveFolds(Folds()[j..], len) == LiveFolds(Folds(), len)
      {
        assert Folds()[j..][1..] == Folds()[j + 1..];
        var start, end := foldStart[j], foldEnd[j];
        if start >= end || end > len {
          assert [] + LiveFolds(Folds()[j + 1..], len) == LiveFolds(Folds()[j + 1..], len);
        } else {
          Assoc(fs, [Fold(start, end)], LiveFolds(Folds()[j + 1..], len));
          fs := fs + [Fold(start, end)];
        }
      }
      assert fs + [] == fs;
    }

    static lemma {:induction false} NoneLive(fs: seq<Fold>)
      ensures LiveFolds(fs, 0) == []
    {
      if fs != [] {
        NoneLive(fs[1..]);
      }
    }

    static lemma {:induction false} StepsOverLive(fs: seq<Fold>, len: nat, p: nat)
      ensures StartingAt(LiveFolds(fs, len), len, p) == StartingAt(fs, len, p)
      ensures EndingAt(LiveFolds(fs, len), len, p) == EndingAt(fs, len, p)
      ensures forall f :: f in LiveFolds(fs, len) ==> Live(f, len)
    {
      if fs != [] {
        StepsOverLive(fs[1..], len, p);
        if Live(fs[0], len) {
          assert LiveFolds(fs, len)[1..] == LiveFolds(fs[1..], len);
        } else {
          assert LiveFolds(fs, len) == LiveFolds(fs[1..], len);
        }
      }
    }

    /** linenoiseEditNextLen. */
    method EditNextLen(p: nat) returns (n: nat)
      requires Valid()
      ensures n == StepRight(Edited(), p)
    {
      var fs := GetRenderFolds();
      StepsOverLive(Folds(), len, p);
      assert fs[0..] == fs;
      for j := 0 to |fs|
        invariant StartingAt(fs[j..], len, p) == StartingAt(fs, len, p)
      {
        assert fs[j..][1..] == fs[j + 1..] && fs[j] in fs;
        if p == fs[j].start {
          return fs[j].end - fs[j].start;
        }
      }
      n := Utf8NextCharLen(buf[..len], p);
    }

    /** linenoiseEditPrevLen. */
    method EditPrevLen(p: nat) returns (n: nat)
      requires Valid() && p <= len
      ensures n == StepLeft(Edited(), p)
    {
      var fs := GetRenderFolds();
      StepsOverLive(Folds(), len, p);
      assert fs[0..] == fs;
      for j := 0 to |fs|
        invariant EndingAt(fs[j..], len, p) == EndingAt(fs, len, p)
      {
        assert fs[j..][1..] == fs[j + 1..] && fs[j] in fs;
        if p == fs[j].end {
          return fs[j].end - fs[j].start;
        }
      }
      n := Utf8PrevCharLen(buf[..len], p);
    }

    /** linenoiseRangeOverlapsFold. */
    method RangeOverlapsFold(p: nat, n: nat) returns (b: bool)
      requires Valid()
      ensures b == Overlaps(Folds(), p, n)
    {
      for j := 0 to foldCount
        invariant forall i :: 0 <= i < j ==> !(p + n > Folds()[i].start && p < Folds()[i].end)
      {
        if p + n > foldStart[j] && p < foldEnd[j] {
          assert p + n > Folds()[j].start && p < Folds()[j].end;
          return true;
        }
      }
      return false;
    }

    // ----- the buffer

    ghost function Room(): Cap
      reads this
    {
      Cap(buflen, buflenMax)
    }

    /** linenoiseEditGrow. */
    method Grow(needed: nat) returns (ok: bool)
      requires Valid()
      modifies this`buf, this`buflen
      ensures Valid() && Text() == old(Text()) && (buf == old(buf) || fresh(buf))
      ensures ok == CanGrow(old(Room()), needed) && Room() == Grown(old(Room()), needed)
    {
      if needed <= buflen {
        return true;
      }
      if buflenMax == 0 || needed > buflenMax {
        return false;
      }
      var newlen := GrowthLoop(if buflen == 0 then 16 else buflen, needed, buflenMax);
      TargetIsEnough(Room(), needed);
      if newlen < needed || newlen == SIZE_MAX {
        return false;
      }
      var newbuf := new byte[newlen + 1](_ => 0);
      forall i | 0 <= i < buf.Length {
        newbuf[i] := buf[i];
      }
      assert newbuf[..len] == buf[..len];
      buf := newbuf;
      buflen := newlen;
      return true;
    }

    static lemma TargetIsEnough(c: Cap, needed: nat)
      requires c.buflen < needed <= c.max
      ensures needed <= Target(c, needed)
    {
      var n := if c.buflen == 0 then 16 else c.buflen;
      if n < needed {
        DoubledBounds(n, needed, c.max);
      }
    }

    /** memmove inside the buffer. */
    method MemMove(dst: nat, src: nat, n: nat)
      requires dst + n <= buf.Length && src + n <= buf.Length
      modifies buf
      ensures buf[..dst] == old(buf[..dst]) && buf[dst + n..] == old(buf[dst + n..])
      ensures buf[dst..dst + n] == old(buf[src..src + n])
    {
      ghost var t := buf[..];
      forall i | 0 <= i < n {
        buf[dst + i] := buf[src + i];
      }
      forall k | dst <= k < dst + n ensures buf[k] == t[src + (k - dst)] {
        assert buf[dst + (k - dst)] == t[src + (k - dst)];
      }
    }

    /** memcpy into the buffer. */
    method MemCpy(dst: nat, c: seq<byte>)
      requires dst + |c| <= buf.Length
      modifies buf
      ensures buf[..dst] == old(buf[..dst]) && buf[dst + |c|..] == old(buf[dst + |c|..])
      ensures buf[dst..dst + |c|] == c
    {
      forall i | 0 <= i < |c| {
        buf[dst + i] := c[i];
      }
    }

    /** Opens a gap of |c| bytes at the cursor and fills it. */
    method SpliceBytes(c: seq<byte>)
      requires Valid() && len + |c| <= buflen
      modifies this`pos, this`len, buf
      ensures Valid() && Text() == Spliced(old(Text()), old(pos), c)
      ensures pos == old(pos) + |c|
    {
      var p, q, r := pos, pos + |c|, len + |c|;
      hide Spliced;
      ghost var t := buf[..];
      OpenGap(q);
      ghost var u := buf[..];
      MemCpy(p, c);
      TwoCopies(t, u, buf[..], p, c, len);
      pos := q;
      Terminate(r);
    }

    /** Moves what stands after the cursor up to q; nothing when the cursor is at the end. */
    method OpenGap(q: nat)
      requires pos <= q && pos <= len && q + (len - pos) <= buf.Length
      modifies buf
      ensures buf[..q] == old(buf[..q]) && buf[q..q + (len - pos)] == old(buf[pos..len])
    {
      if len != pos {
        MemMove(q, pos, len - pos);
      }
    }

    /** The NUL after the new end of the line. */
    method Terminate(n: nat)
      requires n < buf.Length
      modifies this`len, buf
      ensures len == n && buf[..n] == old(buf[..n]) && buf[n] == 0
    {
      len := n;
      buf[len] := 0;
    }

    /** The bytes after moving t[p..n] up by |c| (giving u) and writing c at p (giving v). */
    static lemma TwoCopies(t: seq<byte>, u: seq<byte>, v: seq<byte>, p: nat, c: seq<byte>, n: nat)
      requires p <= n && n + |c| <= |t| == |u| == |v|
      requires u[..p + |c|] == t[..p + |c|] && u[p + |c|..n + |c|] == t[p..n]
      requires v[..p] == u[..p] && v[p..p + |c|] == c && v[p + |c|..] == u[p + |c|..]
      ensures v[..n + |c|] == Spliced(t[..n], p, c)
    {
      CutOfTake(t, n, p);
      assert v[..p] == t[..p] by {
        assert u[..p] == u[..p + |c|][..p] && t[..p] == t[..p + |c|][..p];
      }
      assert v[p + |c|..n + |c|] == v[p + |c|..][..n - p] && u[p + |c|..n + |c|] == u[p + |c|..][..n - p];
      assert v[..n + |c|] == v[..p] + v[p..p + |c|] + v[p + |c|..n + |c|];
    }

    /** Closes the gap of n bytes at p. */
    method CutBytes(p: nat, n: nat)
      requires Valid() && p + n <= len && pos <= len - n
      modifies this`len, buf
      ensures Valid() && Text() == Cut(old(Text()), p, n)
    {
      MemMove(p, p + n, len - p - n);
      assert buf[..len - n] == buf[..p] + buf[p..len - n];
      len := len - n;
      buf[len] := 0;
    }

    // ----- editing

    /** linenoiseEditInsertNoRefresh, which linenoiseEditInsert only repaints after. */
    method EditInsert(c: seq<byte>) returns (ok: bool)
      requires Ready() && IsText(c)
      modifies this`buf, this`buflen, this`pos, this`len, this`foldCount, buf, foldStart, foldEnd
      ensures Ready() && (buf == old(buf) || fresh(buf))
      ensures ok == CanGrow(old(Room()), |old(Text())| + |c|)
      ensures Model() == Typed(old(Model()), c)
    {
      hide Document.Inv, IsText, ShiftedByInsert, Spliced;
      ghost var st := Model();
      GrownCapOk(Room(), len + |c|);
      if |c| > SIZE_MAX - len {
        return false;
      }
      ok := Grow(len + |c|);
      if !ok {
        return;
      }
      InsertBytes(c);
      assert Model() == Typed(st, c);
    }

    /** The bytes, the cursor and the folds of an insertion that fits. */
    method InsertBytes(c: seq<byte>)
      requires Valid() && len + |c| <= buflen
      modifies this`pos, this`len, this`foldCount, buf, foldStart, foldEnd
      ensures Valid() && history.Contents() == old(history.Contents())
      ensures Edited() == Doc(Spliced(old(Text()), old(pos), c), old(pos) + |c|,
                              ShiftedByInsert(old(Folds()), old(pos), |c|))
    {
      hide ShiftedByInsert, Spliced;
      var insertPos := pos;
      SpliceBytes(c);
      AdjustFoldsAfterInsert(insertPos, |c|);
    }

    /** linenoiseEditMoveLeft. */
    method EditMoveLeft()
      requires Ready()
      modifies this`pos
      ensures Ready() && Model() == old(Model()).(doc := MoveLeft(old(Edited())))
    {
      ghost var st := Model().(doc := MoveLeft(Edited()));
      if 0 < pos {
        var n := EditPrevLen(pos);
        pos := pos - n;
      }
      assert Model() == st;
    }

    /** linenoiseEditMoveRight. */
    method EditMoveRight()
      requires Ready()
      modifies this`pos
      ensures Ready() && Model() == old(Model()).(doc := MoveRight(old(Edited())))
    {
      if pos != len {
        StepRightLands(Edited(), pos);
        var n := EditNextLen(pos);
        pos := pos + n;
      }
    }

    /** linenoiseEditMoveHome. */
    method EditMoveHome()
      requires Ready()
      modifies this`pos
      ensures Ready() && Model() == old(Model()).(doc := Home(old(Edited())))
    {
      ghost var d := Home(Edited());
      if pos != 0 {
        pos := 0;
      }
    }

    /** linenoiseEditMoveEnd. */
    method EditMoveEnd()
      requires Ready()
      modifies this`pos
      ensures Ready() && Model() == old(Model()).(doc := End(old(Edited())))
    {
      ghost var d := End(Edited());
      if pos != len {
        pos := len;
      }
    }

    /** The removal inside the delete operations: the folds, then the bytes. */
    method Remove(p: nat, n: nat)
      requires Ready() && Boundary(Text(), p) && Boundary(Text(), p + n) && pos <= len - n
      modifies this`len, this`foldCount, buf, foldStart, foldEnd
      ensures Valid() && pos == old(pos)
      ensures Text() == Cut(old(Text()), p, n) && Folds() == ShiftedByDelete(old(Folds()), p, n)
      ensures history.Contents() == old(history.Contents())
    {
      FoldsOrdered(Folds(), 0, Text());
      AdjustFoldsAfterDelete(p, n);
      CutBytes(p, n);
    }

    /** linenoiseEditDelete. */
    method EditDelete()
      requires Ready()
      modifies this`len, this`foldCount, buf, foldStart, foldEnd
      ensures Ready() && Model() == old(Model()).(doc := Delete(old(Edited())))
    {
      hide Document.Inv, ShiftedByDelete, Cut, Boundary, StepRight;
      ghost var st := Model().(doc := Delete(Edited()));
      if 0 < len && pos < len {
        InvIsBoundary(Edited());
        StepRightLands(Edited(), pos);
        var clen := EditNextLen(pos);
        Remove(pos, clen);
      }
      assert Model() == st;
    }

    static lemma InvIsBoundary(d: Doc)
      requires Inv(d)
      ensures Boundary(d.text, d.pos) && Boundary(d.text, |d.text|)
    {}

    /** linenoiseEditBackspace. */
    method EditBackspace()
      requires Ready()
      modifies this`len, this`pos, this`foldCount, buf, foldStart, foldEnd
      ensures Ready() && Model() == old(Model()).(doc := Backspace(old(Edited())))
    {
      hide Document.Inv, ShiftedByDelete, Cut, Boundary, StepLeft;
      ghost var st := Model().(doc := Backspace(Edited()));
      if 0 < pos && 0 < len {
        InvIsBoundary(Edited());
        StepLeftLands(Edited(), pos);
        var clen := EditPrevLen(pos);
        RemoveBefore(pos - clen);
      }
      assert Model() == st;
    }

    /** Removes what stands between p and the cursor, and moves the cursor to p. */
    method RemoveBefore(p: nat)
      requires Ready() && p <= pos && Boundary(Text(), p)
      modifies this`len, this`pos, this`foldCount, buf, foldStart, foldEnd
      ensures Valid() && pos == p
      ensures Text() == Cut(old(Text()), p, old(pos) - p)
      ensures Folds() == ShiftedByDelete(old(Folds()), p, old(pos) - p)
      ensures history.Contents() == old(history.Contents())
    {
      hide ShiftedByDelete;
      ghost var t := Text();
      var n := pos - p;
      FoldsOrdered(Folds(), 0, Text());
      AdjustFoldsAfterDelete(p, n);
      pos := p;
      CutBytes(p, n);
    }

    /** linenoiseEditDeletePrevWord: the two loops that move the cursor left. */
    method SkipBack(from: nat, spaces: bool) returns (p: nat)
      requires Valid() && from <= len
      ensures p == SkipLeft(Edited(), from, spaces)
    {
      hide StepLeft;
      p := from;
      while 0 < p && (buf[p - 1] == SPACE) == spaces
        invariant 0 <= p <= from
        invariant SkipLeft(Edited(), p, spaces) == SkipLeft(Edited(), from, spaces)
        decreases p
      {
        assert Text()[p - 1] == buf[p - 1];
        var n := EditPrevLen(p);
        p := p - n;
      }
      assert 0 < p ==> Text()[p - 1] == buf[p - 1];
    }

    /** linenoiseEditDeletePrevWord. */
    method EditDeletePrevWord()
      requires Ready()
      modifies this`len, this`pos, this`foldCount, buf, foldStart, foldEnd
      ensures Ready() && Model() == old(Model()).(doc := DeleteWord(old(Edited())))
    {
      hide Document.Inv, ShiftedByDelete, Cut, Boundary, SkipLeft;
      ghost var st := Model().(doc := DeleteWord(Edited()));
      InvIsBoundary(Edited());
      SkipLeftLands(Edited(), pos, true);
      SkipLeftLands(Edited(), SkipLeft(Edited(), pos, true), false);
      var p := SkipBack(pos, true);
      p := SkipBack(p, false);
      RemoveBefore(p);
      assert Model() == st;
    }

    /** Ctrl-K. */
    method KillToEnd()
      requires Ready()
      modifies this`len, this`foldCount, buf, foldStart, foldEnd
      ensures Ready() && Model() == old(Model()).(doc := KillEnd(old(Edited())))
    {
      hide Document.Inv, ShiftedByDelete, Boundary;
      ghost var st := Model().(doc := KillEnd(Edited()));
      ghost var t := Text();
      InvIsOrdered(Edited());
      AdjustFoldsAfterDelete(pos, len - pos);
      buf[pos] := 0;
      len := pos;
      assert Cut(t, pos, |t| - pos) == t[..pos];
      assert Model() == st;
    }

    static lemma InvIsOrdered(d: Doc)
      requires Inv(d)
      ensures Ordered(d.folds)
    {
      FoldsOrdered(d.folds, 0, d.text);
    }

    /** Ctrl-U. */
    method KillWholeLine()
      requires Ready()
      modifies this`len, this`pos, this`foldCount, buf
      ensures Ready() && Model() == old(Model()).(doc := KillLine(old(Edited())))
    {
      ghost var st := Model().(doc := KillLine(Edited()));
      buf[0] := 0;
      pos, len := 0, 0;
      foldCount := 0;
      assert Model() == st;
    }

    /** Ctrl-T. */
    method EditTranspose()
      requires Ready()
      modifies this`pos, buf
      ensures Ready() && Model() == old(Model()).(doc := Transpose(old(Edited())))
    {
      hide Document.Inv, Overlaps, StepLeft, StepRight, Boundary, Swapped;
      ghost var d := Edited();
      ghost var st := Model().(doc := Transpose(Edited()));
      if 0 < pos < len {
        InvIsBoundary(d);
        StepLeftLands(d, pos);
        StepRightLands(d, pos);
        var prevLen := EditPrevLen(pos);
        var currLen := EditNextLen(pos);
        var prevStart := pos - prevLen;
        if prevLen > TRANSPOSE_MAX || currLen > TRANSPOSE_MAX {
          return;
        }
        var overlaps := RangeOverlapsFold(prevStart, prevLen + currLen);
        if overlaps {
          return;
        }
        SwapBytes(prevStart, pos, pos + currLen);
        if pos + currLen <= len {
          pos := pos + currLen;
        }
      }
      assert Model() == st;
    }

    /** The three copies of Ctrl-T through its temporary. */
    method SwapBytes(i: nat, p: nat, j: nat)
      requires Valid() && i <= p <= j <= len
      modifies buf
      ensures Valid() && Text() == Swapped(old(Text()), i, p, j)
    {
      var tmp := buf[p..j];
      ghost var t := buf[..];
      MemMove(i + (j - p), i, p - i);
      ghost var u := buf[..];
      MemCpy(i, tmp);
      SwapCopies(t, u, buf[..], i, p, j, len);
    }

    static lemma SwapCopies(t: seq<byte>, u: seq<byte>, v: seq<byte>, i: nat, p: nat, j: nat, n: nat)
      requires i <= p <= j <= n < |t| == |u| == |v|
      requires var m := i + (j - p); u[..m] == t[..m] && u[m..j] == t[i..p] && u[j..] == t[j..]
      requires var m := i + (j - p); v[..i] == u[..i] && v[i..m] == t[p..j] && v[m..] == u[m..]
      ensures v[..n] == Swapped(t[..n], i, p, j) && v[n..] == t[n..]
    {
      var m := i + (j - p);
      TakeTake(u, m, i);
      TakeTake(t, m, i);
      CutOfDrop(v, m, j - m);
      CutOfDrop(u, m, j - m);
      CutOfDrop(v, j, n - j);
      CutOfDrop(t, j, n - j);
      SliceJoin(v, 0, i, m);
      SliceJoin(v, 0, m, j);
      SliceJoin(v, 0, j, n);
      CutOfTake(t, n, i);
      SliceOfTake(t, n, p, j);
      SliceOfTake(t, n, i, p);
      CutOfTake(t, n, j);
    }

    // ----- history

    /** The bytes strdup copies. */
    method Duplicate() returns (line: History.Line)
      requires Valid()
      ensures line == CStr(Text())
    {
      line := CStr(buf[..len]);
    }

    /** linenoiseBuildHistoryFold: the first loop. */
    method LeaveContextRight() returns (c: Context)
      requires Valid()
      ensures c == ContextRight(Text(), 0, PASTE_FOLD_CONTEXT, false)
    {
      hide NextLen;
      var p: nat, chars: nat, nl := 0, 0, false;
      while p < len && chars < PASTE_FOLD_CONTEXT
        invariant p <= len && chars <= PASTE_FOLD_CONTEXT
        invariant ContextRight(Text(), p, PASTE_FOLD_CONTEXT - chars, nl) ==
                  ContextRight(Text(), 0, PASTE_FOLD_CONTEXT, false)
        decreases PASTE_FOLD_CONTEXT - chars
      {
        var step := Utf8NextCharLen(buf[..len], p);
        if step == 0 || p + step > len {
          break;
        }
        assert Text()[p] == buf[p];
        if buf[p] == LF {
          nl := true;
        }
        p := p + step;
        chars := chars + 1;
      }
      return Context(p, nl);
    }

    /** linenoiseBuildHistoryFold: the second loop. */
    method LeaveContextLeft() returns (c: Context)
      requires Valid()
      ensures c == ContextLeft(Text(), len, PASTE_FOLD_CONTEXT, false)
    {
      hide PrevLen;
      var p: nat, chars: nat, nl := len, 0, false;
      while 0 < p && chars < PASTE_FOLD_CONTEXT
        invariant 0 <= p <= len && chars <= PASTE_FOLD_CONTEXT
        invariant ContextLeft(Text(), p, PASTE_FOLD_CONTEXT - chars, nl) ==
                  ContextLeft(Text(), len, PASTE_FOLD_CONTEXT, false)
        decreases PASTE_FOLD_CONTEXT - chars
      {
        var step := Utf8PrevCharLen(buf[..len], p);
        if step == 0 || step > p {
          break;
        }
        p := p - step;
        assert Text()[p] == buf[p];
        if buf[p] == LF {
          nl := true;
        }
        chars := chars + 1;
      }
      return Context(p, nl);
    }

    /** linenoiseBuildHistoryFold. */
    method BuildHistoryFold() returns (found: bool, f: Fold)
      requires Valid()
      ensures found == ShouldFold(Text())
      ensures found ==> f == HistoryFold(Text())
    {
      f := Fold(0, 0);
      if len == 0 {
        return false, f;
      }
      if !(LF in buf[..len] || len >= PASTE_FOLD_THRESHOLD) {
        return false, f;
      }
      f := Fold(0, len);
      if len > PASTE_FOLD_CONTEXT * 2 {
        var right := LeaveContextRight();
        f := f.(start := if right.sawNewline then 0 else right.pos);
        var left := LeaveContextLeft();
        f := f.(end := if left.sawNewline then len else left.pos);
        if f.start >= f.end {
          f := Fold(0, len);
        }
      }
      return true, f;
    }

    /** Copies a history entry into the edit buffer and folds it. */
    method Show(src: seq<byte>)
      requires Valid()
      modifies this`buf, this`buflen, this`pos, this`len, this`foldCount, buf, foldStart, foldEnd
      ensures Valid() && (buf == old(buf) || fresh(buf))
      ensures var fits := CanGrow(old(Room()), |src|) || |src| <= old(buflen);
              && Edited() == Recalled(if fits then src else src[..old(buflen)])
              && Room() == if fits then Grown(old(Room()), |src|) else old(Room())
      ensures history.Contents() == old(history.Contents())
    {
      hide Recalled, CanGrow, Grown;
      GrownHolds(Room(), |src|);
      var n := |src|;
      var ok := Grow(n);
      if !ok && n > buflen {
        n := buflen;
      }
      Replace(src[..n]);
      FoldRecalled();
      assert n == |src| ==> src[..n] == src;
    }

    /** Puts c in place of the line, unfolded, with the cursor at its end. */
    method Replace(c: seq<byte>)
      requires Valid() && |c| <= buflen
      modifies this`pos, this`len, this`foldCount, buf
      ensures Valid() && Edited() == Doc(c, |c|, [])
      ensures history.Contents() == old(history.Contents())
    {
      MemCpy(0, c);
      assert buf[..|c|] == c;
      pos := |c|;
      foldCount := 0;
      Terminate(|c|);
    }

    method FoldRecalled()
      requires Valid() && Folds() == [] && pos == len
      modifies this`foldCount, foldStart, foldEnd
      ensures Valid() && Edited() == Recalled(old(Text()))
      ensures history.Contents() == old(history.Contents())
    {
      hide ShouldFold, HistoryFold, FoldAdded, ContextLeft, ContextRight;
      var found, f := BuildHistoryFold();
      if found {
        FoldAdd(f.start, f.end);
      }
    }

    static lemma GrownHolds(c: Cap, needed: nat)
      ensures needed <= c.buflen ==> CanGrow(c, needed)
      ensures CanGrow(c, needed) ==> needed <= Grown(c, needed).buflen
      ensures !CanGrow(c, needed) ==> Grown(c, needed) == c
    {
      if c.buflen < needed && CanGrow(c, needed) {
        TargetIsEnough(c, needed);
      }
    }

    /** linenoiseEditHistoryNext. */
    method EditHistoryNext(up: bool)
      requires Ready()
      modifies this, history.slots, buf, foldStart, foldEnd
      ensures Ready() && (buf == old(buf) || fresh(buf)) && history.slots == old(history.slots)
      ensures Model() == Navigated(old(Model()), up)
      ensures history.maxLen == old(history.maxLen)
    {
      hide Document.Inv, IsText, Shown;
      ghost var st := Model();
      NavigatedInv(st, up);
      if history.len > 1 {
        SaveLine();
        var index: int := historyIndex + (if up then 1 else -1);
        if index < 0 {
          historyIndex := 0;
          assert Model() == Navigated(st, up);
          return;
        } else if index >= history.len {
          historyIndex := history.len - 1;
          assert Model() == Navigated(st, up);
          return;
        }
        ShowEntry(index);
      }
      assert Model() == Navigated(st, up);
    }

    /** Writes the line back into its history slot. */
    method SaveLine()
      requires Valid() && historyIndex < history.len
      modifies history.slots
      ensures Valid() && Model() == old(Model()).(hist := old(Model().View()))
    {
      var line := Duplicate();
      history.Set(history.len - 1 - historyIndex, line);
    }

    method ShowEntry(index: nat)
      requires Valid() && index < history.len
      modifies this`buf, this`buflen, this`pos, this`len, this`foldCount, this`historyIndex, buf, foldStart, foldEnd
      ensures Valid() && (buf == old(buf) || fresh(buf))
      ensures Model() == Shown(old(Model()).(idx := index))
    {
      hide Recalled, CanGrow, Grown;
      historyIndex := index;
      var src := history.slots[history.len - 1 - historyIndex];
      Show(src);
    }

    // ----- pastes

    /** pasteBufferAppend: grows the edit buffer for the text to come and stores the chunk. */
    method PasteBufferAppend(kept: seq<byte>, cap: nat, chunk: seq<byte>, maxlen: nat)
      returns (ok: bool, stored: seq<byte>, newCap: nat)
      requires Valid() && CapOk(Room()) && len + maxlen <= Room().Limit() && maxlen <= PASTE_MAX_BYTES
      requires |kept| <= cap <= PASTE_MAX_BYTES && |kept| <= maxlen
      modifies this`buf, this`buflen
      ensures Valid() && CapOk(Room()) && Text() == old(Text()) && (buf == old(buf) || fresh(buf))
      ensures Keep(kept, false, chunk, maxlen) == (stored, !ok)
      ensures |stored| <= newCap <= PASTE_MAX_BYTES
      ensures Room() == if ok then Grown(old(Room()), len + |stored|) else old(Room())
    {
      hide Grown, CanGrow;
      if |chunk| > maxlen - |kept| {
        return false, kept, cap;
      }
      var needed := |kept| + |chunk|;
      GrownCapOk(Room(), len + needed);
      ok := Grow(len + needed);
      var reserved, c := PasteBufferReserve(cap, |kept|, |chunk|);
      // The limit on the paste leaves neither call a reason to refuse.
      assert ok && reserved;
      return true, kept + chunk, c;
    }

    /** The reading loop of linenoiseEditPaste. */
    method ReadPaste(input: seq<byte>, maxlen: nat) returns (kept: seq<byte>, over: bool, rest: seq<byte>)
      requires Valid() && CapOk(Room()) && len + maxlen <= Room().Limit() && maxlen <= PASTE_MAX_BYTES
      modifies this`buf, this`buflen
      ensures Valid() && Text() == old(Text()) && (buf == old(buf) || fresh(buf))
      ensures var r := ScanPaste(input, maxlen); kept == r.kept && over == r.over && rest == r.rest
      ensures |kept| <= maxlen && Room() == Grown(old(Room()), len + |kept|)
    {
      hide Grown, CanGrow, Keep;
      var cap, m, i := 0, 0, 0;
      kept, over := [], false;
      assert input[0..] == input;
      ghost var room := Room();
      GrownCapOk(room, len);
      NoGrowth(room, len);
      while i < |input|
        invariant 0 <= i <= |input| && 0 <= m < |END|
        invariant Valid() && CapOk(Room()) && Text() == old(Text()) && (buf == old(buf) || fresh(buf))
        invariant |kept| <= cap <= PASTE_MAX_BYTES && |kept| <= maxlen
        invariant Room() == Grown(room, len + |kept|) && Room().Limit() == room.Limit()
        invariant ScanFrom(input[i..], m, kept, over, maxlen) == ScanPaste(input, maxlen)
      {
        var c := input[i];
        assert input[i..][0] == c && input[i..][1..] == input[i + 1..];
        i := i + 1;
        if c == END[m] {
          m := m + 1;
          if m == |END| {
            return kept, over, input[i..];
          }
          continue;
        }
        if 0 < m {
          kept, over, cap := KeepChunk(kept, over, cap, END[..m], maxlen, room);
          m := 0;
          if c == END[0] {
            m := 1;
            continue;
          }
        }
        kept, over, cap := KeepChunk(kept, over, cap, [c], maxlen, room);
      }
      return kept, over, [];
    }

    /** One guarded call of pasteBufferAppend in the reading loop. */
    method KeepChunk(kept: seq<byte>, over: bool, cap: nat, chunk: seq<byte>, maxlen: nat, ghost room: Cap)
      returns (k: seq<byte>, o: bool, newCap: nat)
      requires Valid() && CapOk(room) && len + maxlen <= room.Limit() && maxlen <= PASTE_MAX_BYTES
      requires CapOk(Room()) && Room() == Grown(room, len + |kept|) && Room().Limit() == room.Limit()
      requires |kept| <= cap <= PASTE_MAX_BYTES && |kept| <= maxlen
      modifies this`buf, this`buflen
      ensures Valid() && CapOk(Room()) && Text() == old(Text()) && (buf == old(buf) || fresh(buf))
      ensures (k, o) == Keep(kept, over, chunk, maxlen)
      ensures |k| <= newCap <= PASTE_MAX_BYTES && |k| <= maxlen
      ensures Room() == Grown(room, len + |k|) && Room().Limit() == room.Limit()
    {
      hide Grown, CanGrow;
      k, o, newCap := kept, over, cap;
      if !over {
        var ok;
        ok, k, newCap := PasteBufferAppend(kept, cap, chunk, maxlen);
        o := !ok;
        if ok {
          GrownTwice(room, len + |kept|, len + |k|);
          GrownCapOk(room, len + |k|);
        }
      }
    }

    static lemma NoGrowth(c: Cap, needed: nat)
      requires needed <= c.buflen
      ensures Grown(c, needed) == c
    {}

    /** linenoiseEditPaste: reads up to the terminator, then inserts all or nothing. */
    method EditPaste(input: seq<byte>) returns (rest: seq<byte>)
      requires Ready()
      requires var r := ScanPaste(input, PasteLimit(Room(), len, foldCount)); !r.over ==> IsText(r.kept)
      modifies this`buf, this`buflen, this`pos, this`len, this`foldCount, buf, foldStart, foldEnd
      ensures Ready() && (buf == old(buf) || fresh(buf))
      ensures var r := ScanPaste(input, PasteLimit(old(Room()), old(len), old(foldCount)));
              rest == r.rest && |r.kept| <= PasteLimit(old(Room()), old(len), old(foldCount)) &&
              Model() == Pasted(old(Model()), r)
    {
      hide Document.Inv, IsText, Grown, CanGrow, ShiftedByInsert, Spliced, InsertSorted, ScanPaste, ShouldFold,
        Normalise;
      ghost var st := Model();
      var maxlen := if buflenMax != 0 then buflenMax else buflen;
      maxlen := if maxlen > len then maxlen - len else 0;
      if maxlen > PASTE_MAX_BYTES {
        maxlen := PASTE_MAX_BYTES;
      }
      if foldCount == MAX_FOLDS {
        maxlen := 0;
      }
      assert maxlen == PasteLimit(Room(), len, foldCount);
      var kept, over;
      kept, over, rest := ReadPaste(input, maxlen);
      ghost var scan := ScanPaste(input, maxlen);
      GrownCapOk(st.cap, len + |kept|);
      assert Model() == st.(cap := Grown(st.cap, len + |kept|));
      if over || |kept| == 0 {
        assert Model() == Pasted(st, scan);
        return;
      }
      StillReady(st, Model());
      var x := NormaliseBuffer(kept);
      NormalisedIsText(kept);
      InsertNormalised(x, st);
      assert Model() == Pasted(st, scan);
    }

    static lemma StillReady(st: State, grown: State)
      requires StateInv(st) && grown == st.(cap := grown.cap)
      requires CapOk(grown.cap) && st.cap.buflen <= grown.cap.buflen && st.cap.Limit() == grown.cap.Limit()
      ensures StateInv(grown)
    {}

    /** Normalises the paste buffer. */
    method NormaliseBuffer(kept: seq<byte>) returns (x: seq<byte>)
      ensures x == Normalise(kept)
    {
      var buffer := new byte[|kept|](i requires 0 <= i < |kept| => kept[i]);
      assert buffer[..|kept|] == kept;
      var w := NormaliseInPlace(buffer, |kept|);
      x := buffer[..w];
    }

    /** The insertion at the end of linenoiseEditPaste. */
    method InsertNormalised(x: seq<byte>, ghost st: State)
      requires Ready() && IsText(x) && StateInv(st)
      requires Model() == st.(cap := Room()) && len + |x| <= buflen
      modifies this`buf, this`buflen, this`pos, this`len, this`foldCount, buf, foldStart, foldEnd
      ensures Ready() && (buf == old(buf) || fresh(buf))
      ensures Model() == st.(doc := if ShouldFold(x) then InsertFolded(st.doc, x) else Insert(st.doc, x),
                             cap := old(Room()))
    {
      hide Document.Inv, IsText, Insert, InsertSorted;
      if LF in x || |x| >= PASTE_FOLD_THRESHOLD {
        var start := pos;
        InsertWhole(x);
        ghost var r := Model();
        FoldAdd(start, start + |x|);
        FoldedReady(r, InsertFolded(st.doc, x), Model());
      } else {
        InsertWhole(x);
      }
    }

    /** linenoiseEditInsert with the room there already. */
    method InsertWhole(x: seq<byte>)
      requires Ready() && IsText(x) && len + |x| <= buflen
      modifies this`buf, this`buflen, this`pos, this`len, this`foldCount, buf, foldStart, foldEnd
      ensures Ready() && (buf == old(buf) || fresh(buf))
      ensures Model() == old(Model()).(doc := Insert(old(Edited()), x)) && pos == old(pos) + |x|
    {
      hide Document.Inv, IsText, Grown, ShiftedByInsert, Spliced;
      NoGrowth(Room(), len + |x|);
      var _ := EditInsert(x);
    }

    static lemma FoldedReady(st: State, d: Doc, r: State)
      requires StateInv(st) && r == st.(doc := d) && Inv(d) && |d.text| <= st.cap.buflen
      ensures StateInv(r)
    {}

    // ----- rendering

    /** foldSetRenderedText: the marker shown for a range of the text. */
    method FoldMarker(f: Fold) returns (m: seq<byte>)
      requires Valid() && f.start <= f.end <= len
      ensures m == Face(Text(), f)
    {
      SliceOfTake(buf[..], len, f.start, f.end);
      var lines := FoldCountLines(buf[f.start..f.end]);
      m := if lines > 1 then OPENING + Digits(lines) + PASTED_LINES
           else OPENING + Digits(f.end - f.start) + PASTED_CHARS;
    }

    /** The length linenoiseRenderBuffer computes first.  Both updates are done on
        non-negative numbers: the hidden bytes never exceed what is left. */
    method RenderedSize(fs: seq<Fold>) returns (n: nat)
      requires Valid() && Fits(fs, 0, len)
      ensures n == |Rendered(Text(), fs, 0)|
    {
      hide Rendered, Marker, Digits;
      RenderedLength(Text(), fs, 0);
      n := len;
      ghost var s := Text();
      assert fs[0..] == fs;
      for j := 0 to |fs|
        invariant forall f :: f in fs ==> f.start <= f.end <= len
        invariant forall f :: f in fs[j..] ==> f.start <= f.end <= |s|
        invariant Hidden(fs[j..]) <= n
        invariant n - Hidden(fs[j..]) + Faces(s, fs[j..]) == len - Hidden(fs) + Faces(s, fs)
      {
        var f := fs[j];
        assert f in fs && fs[j..][1..] == fs[j + 1..] && fs[j..][0] == f;
        assert forall g :: g in fs[j + 1..] ==> g in fs[j..];
        var display := FoldMarker(f);
        n := n - (f.end - f.start);
        n := n + |display|;
      }
    }

    /** One round of the copying loop: the gap before a fold, then its marker; the cursor is
        translated when it is met. */
    method CopyFold(out: array<byte>, f: Fold, src: nat, dst: nat, outpos: nat, posSet: bool)
      returns (dst': nat, outpos': nat, posSet': bool)
      requires Valid() && src <= f.start <= f.end <= len && (posSet || src <= pos) && out != buf
      requires dst + (f.start - src) + |Face(Text(), f)| <= out.Length
      modifies out
      ensures Valid() && Text() == old(Text())
      ensures dst' == dst + (f.start - src) + |Face(Text(), f)|
      ensures out[..dst'] == old(out[..dst]) + Text()[src..f.start] + Face(Text(), f)
      ensures posSet ==> posSet' && outpos' == outpos
      ensures !posSet ==> (posSet' <==> pos <= f.end)
      ensures !posSet && pos <= f.start ==> outpos' == dst + (pos - src)
      ensures !posSet && f.start < pos <= f.end ==> outpos' == dst'
    {
      hide Face, Marker;
      var display := FoldMarker(f);
      var gap := f.start - src;
      dst', outpos', posSet' := dst, outpos, posSet;
      if !posSet' && pos <= f.start {
        outpos' := dst' + (pos - src);
        posSet' := true;
      }
      SliceOfTake(buf[..], len, src, f.start);
      Fill(out, dst', buf[src..f.start]);
      dst' := dst' + gap;
      if !posSet' && pos < f.end {
        outpos' := dst' + |display|;
        posSet' := true;
      }
      Fill(out, dst', display);
      dst' := dst' + |display|;
      if !posSet' && pos == f.end {
        outpos' := dst';
        posSet' := true;
      }
    }

    /** linenoiseRenderBuffer: the shown text, NUL-terminated, and the cursor in it. */
    method RenderBuffer() returns (out: array<byte>, outlen: nat, outpos: nat)
      requires Valid() && Sorted(Folds(), 0)
      ensures var fs := LiveFolds(Folds(), len);
              && Fits(fs, 0, len) && fresh(out)
              && outlen < out.Length && out[..outlen] == Rendered(Text(), fs, 0) && out[outlen] == 0
              && outpos == RenderedPos(Text(), fs, 0, pos) && outpos <= outlen
    {
      hide Marker, Rendered, RenderedPos, Face, LiveFolds, Fits, Sorted;
      var fs := GetRenderFolds();
      LiveFoldsFit(Folds(), 0, len);
      ghost var s := Text();
      RenderedPosMonotone(s, fs, 0, pos, pos);
      if |fs| == 0 {
        AsIs(s, pos);
        out := new byte[len + 1](_ => 0);
        Fill(out, 0, buf[..len]);
        return out, len, pos;
      }
      outlen := RenderedSize(fs);
      out := new byte[outlen + 1](_ => 0);
      outpos := CopyAll(out, fs, outlen);
      out[outlen] := 0;
    }

    /** The copying loop and the last gap. */
    method CopyAll(out: array<byte>, fs: seq<Fold>, outlen: nat) returns (outpos: nat)
      requires Valid() && Fits(fs, 0, len) && out != buf
      requires outlen == |Rendered(Text(), fs, 0)| < out.Length
      modifies out
      ensures Valid() && Text() == old(Text())
      ensures out[..outlen] == Rendered(Text(), fs, 0) && outpos == RenderedPos(Text(), fs, 0, pos)
    {
      hide Marker, Rendered, RenderedPos, Face, Fits;
      ghost var s := Text();
      var src: nat, dst: nat, posSet := 0, 0, false;
      outpos := 0;
      assert fs[0..] == fs;
      ghost var whole := Rendered(s, fs, 0);
      assert [] + whole == whole;
      for j := 0 to |fs|
        invariant Valid() && Text() == s && src <= len && dst <= outlen && Fits(fs[j..], src, len)
        invariant out[..dst] + Rendered(s, fs[j..], src) == whole
        invariant posSet ==> outpos == RenderedPos(s, fs, 0, pos)
        invariant !posSet ==> src <= pos && dst + RenderedPos(s, fs[j..], src, pos) == RenderedPos(s, fs, 0, pos)
      {
        var f := fs[j];
        ghost var left, rest := fs[j..], fs[j + 1..];
        assert left[0] == f && left[1..] == rest;
        RenderRound(s, left, src);
        if !posSet {
          PosRound(s, left, src, pos);
        }
        Regroup(out[..dst], s[src..f.start], Face(s, f), Rendered(s, rest, f.end));
        dst, outpos, posSet := CopyFold(out, f, src, dst, outpos, posSet);
        src := f.end;
      }
      assert fs[|fs|..] == [];
      LastGap(s, src, pos);
      if !posSet {
        outpos := dst + (pos - src);
      }
      CutOfTake(buf[..], len, src);
      Fill(out, dst, buf[src..len]);
    }

    static lemma Regroup(a: seq<byte>, b: seq<byte>, c: seq<byte>, d: seq<byte>)
      ensures a + (b + c + d) == a + b + c + d
      ensures |a + b + c| <= |a + (b + c + d)|
    {}

    static lemma AsIs(s: seq<byte>, p: nat)
      requires p <= |s|
      ensures Fits([], 0, |s|) && Rendered(s, [], 0) == s && RenderedPos(s, [], 0, p) == p
    {}

    static lemma LastGap(s: seq<byte>, src: nat, p: nat)
      requires src <= |s|
      ensures Fits([], src, |s|) && Rendered(s, [], src) == s[src..]
      ensures src <= p ==> RenderedPos(s, [], src, p) == p - src
    {}

    static lemma RenderRound(s: seq<byte>, fs: seq<Fold>, src: nat)
      requires Fits(fs, src, |s|) && fs != []
      ensures src <= fs[0].start < fs[0].end <= |s| && Fits(fs[1..], fs[0].end, |s|)
      ensures Rendered(s, fs, src) == s[src..fs[0].start] + Face(s, fs[0]) + Rendered(s, fs[1..], fs[0].end)
    {
      hide Face;
      FitsTail(fs, src, |s|);
    }

    static lemma PosRound(s: seq<byte>, fs: seq<Fold>, src: nat, p: nat)
      requires Fits(fs, src, |s|) && fs != [] && src <= p
      ensures src <= fs[0].start < fs[0].end <= |s| && Fits(fs[1..], fs[0].end, |s|)
      ensures RenderedPos(s, fs, src, p) ==
              if p <= fs[0].start then p - src
              else fs[0].start - src + |Face(s, fs[0])| +
                   (if p <= fs[0].end then 0 else RenderedPos(s, fs[1..], fs[0].end, p))
    {
      hide Face;
      FitsTail(fs, src, |s|);
    }

    /** memcpy into the rendered text. */
    static method Fill(a: array<byte>, at: nat, c: seq<byte>)
      requires at + |c| <= a.Length
      modifies a
      ensures a[..at + |c|] == old(a[..at]) + c && a[at + |c|..] == old(a[at + |c|..])
    {
      forall i | 0 <= i < |c| {
        a[at + i] := c[i];
      }
    }
  }
}
