/** The bounded history and its file (cli/linenoise.c:2385-2423 and 2501-2615). */
module History {
  import opened Seqs
  import opened Utf8

  const DEFAULT_MAX_LEN: nat := 100

  /** A C string: bytes without NUL. */
  type Line = s: seq<byte> | 0 !in s

  datatype Option<T> = None | Some(value: T)

  /** strdup of a buffer: the bytes before the first NUL. */
  function CStr(s: seq<byte>): (t: Line)
    ensures t <= s && (0 !in s ==> t == s)
    ensures |t| < |s| ==> s[|t|] == 0
  {
    if s == [] || s[0] == 0 then []
    else [s[0]] + CStr(s[1..])
  }

  // ----- what the operations do to the list of entries

  function Last<T>(s: seq<T>, n: nat): seq<T> { if |s| <= n then s else s[|s| - n..] }

  /** linenoiseHistoryAdd. */
  function Added(h: seq<Line>, max: nat, line: Line): (r: seq<Line>)
  {
    if max == 0 || (h != [] && h[|h| - 1] == line) then h
    else (if |h| == max then h[1..] else h) + [line]
  }

  function AddedAll(h: seq<Line>, max: nat, lines: seq<Line>): seq<Line>
    decreases |lines|
  {
    if lines == [] then h else AddedAll(Added(h, max, lines[0]), max, lines[1..])
  }

  /** linenoiseHistorySetMaxLen. */
  function Resized(h: seq<Line>, n: int): seq<Line> { if n < 1 then h else Last(h, n) }

  class Store {
    var slots: array?<Line>
    var len: nat
    var maxLen: nat

    ghost predicate Valid()
      reads this
    {
      if slots == null then len == 0 else len <= slots.Length == maxLen
    }

    ghost function Contents(): seq<Line>
      requires Valid()
      reads this, slots
    {
      if slots == null then [] else slots[..len]
    }

    constructor ()
      ensures Valid() && Contents() == [] && maxLen == DEFAULT_MAX_LEN
    {
      slots, len, maxLen := null, 0, DEFAULT_MAX_LEN;
    }

    method Add(line: Line) returns (added: bool)
      requires Valid()
      modifies this, slots
      ensures Valid() && maxLen == old(maxLen)
      ensures slots == old(slots) || fresh(slots)
      ensures Contents() == Added(old(Contents()), maxLen, line)
      ensures added <==> maxLen != 0 && !(old(Contents()) != [] && old(Contents()[|Contents()| - 1]) == line)
    {
      if maxLen == 0 {
        return false;
      }
      if slots == null {
        slots := new Line[maxLen](_ => []);
      }
      if len != 0 && slots[len - 1] == line {
        return false;
      }
      ghost var h := slots[..len];
      if len == maxLen {
        forall i | 0 <= i < maxLen - 1 {
          slots[i] := slots[i + 1];
        }
        len := len - 1;
        assert slots[..len] == h[1..];
      }
      slots[len] := line;
      len := len + 1;
      assert slots[..len] == (if |h| == maxLen then h[1..] else h) + [line];
      return true;
    }

    method SetMaxLen(n: int) returns (ok: bool)
      requires Valid()
      modifies this
      ensures Valid() && (ok <==> 1 <= n)
      ensures maxLen == if ok then n else old(maxLen)
      ensures slots == old(slots) || fresh(slots)
      ensures Contents() == Resized(old(Contents()), n)
    {
      if n < 1 {
        return false;
      }
      if slots != null {
        var copied := if n < len then n else len;
        var resized := new Line[n](_ => []);
        forall i | 0 <= i < copied {
          resized[i] := slots[len - copied + i];
        }
        assert resized[..copied] == Last(slots[..len], n);
        slots := resized;
      }
      maxLen := n;
      if len > maxLen {
        len := maxLen;
      }
      return true;
    }

    /** The pop on Enter and on Ctrl-D. */
    method Pop()
      requires Valid() && Contents() != []
      modifies this`len
      ensures Valid() && Contents() == old(Contents()[..|Contents()| - 1])
    {
      len := len - 1;
    }

    method Set(i: nat, line: Line)
      requires Valid() && i < |Contents()|
      modifies slots
      ensures Valid() && Contents() == old(Contents())[i := line]
    {
      slots[i] := line;
    }

    /** linenoiseHistorySave: the bytes written. */
    method Save() returns (file: seq<byte>)
      requires Valid()
      ensures file == Saved(Contents())
    {
      file := [];
      var j := 0;
      if slots != null {
        while j < len
          invariant 0 <= j <= len
          invariant file == Saved(slots[..j])
        {
          ghost var start := file;
          var line, p := slots[j], 0;
          while p < |line|
            invariant 0 <= p <= |line|
            invariant file == start + LfToCr(line[..p])
          {
            LfToCrSnoc(line[..p], line[p]);
            assert line[..p + 1] == line[..p] + [line[p]];
            file := file + [if line[p] == LF then CR else line[p]];
            p := p + 1;
          }
          file := file + [LF];
          assert line[..|line|] == line;
          SavedSnoc(slots[..j], line);
          assert slots[..j + 1] == slots[..j] + [line];
          Assoc(start, LfToCr(line), [LF]);
          j := j + 1;
        }
      }
    }

    /** linenoiseHistoryLoad of a file with the given bytes. */
    method Load(file: seq<byte>)
      requires Valid()
      modifies this, slots
      ensures Valid() && maxLen == old(maxLen)
      ensures slots == old(slots) || fresh(slots)
      ensures Contents() == AddedAll(old(Contents()), maxLen, Records(file))
    {
      var at := 0;
      assert file[0..] == file;
      while true
        invariant 0 <= at <= |file|
        invariant Valid() && maxLen == old(maxLen)
        invariant slots == old(slots) || fresh(slots)
        invariant AddedAll(Contents(), maxLen, Records(file[at..])) ==
                  AddedAll(old(Contents()), maxLen, Records(file))
        decreases |file| - at
      {
        var record, next := ReadLine(file, at);
        if record.None? {
          break;
        }
        var line := RestoreNewlines(CStr(record.value));
        RecordsCons(file, at);
        var _ := Add(line);
        at := next;
      }
    }
  }

  // ----- the file format

  /** The loop of linenoiseHistoryLoad that turns CR back into LF. */
  method RestoreNewlines(line: Line) returns (buf: Line)
    ensures buf == CrToLf(line)
  {
    buf := [];
    var j := 0;
    while j < |line|
      invariant 0 <= j <= |line| && 0 !in buf
      invariant buf == CrToLf(line[..j])
    {
      CrToLfSnoc(line[..j], line[j]);
      assert line[..j + 1] == line[..j] + [line[j]];
      buf := buf + [if line[j] == CR then LF else line[j]];
      j := j + 1;
    }
    assert line[..|line|] == line;
  }

  function LfToCr(s: Line): (r: Line)
    ensures |r| == |s|
  {
    if s == [] then [] else [if s[0] == LF then CR else s[0]] + LfToCr(s[1..])
  }

  function CrToLf(s: Line): (r: Line)
    ensures |r| == |s|
  {
    if s == [] then [] else [if s[0] == CR then LF else s[0]] + CrToLf(s[1..])
  }

  function Saved(h: seq<Line>): seq<byte> {
    if h == [] then [] else LfToCr(h[0]) + [LF] + Saved(h[1..])
  }

  /** Index of the first LF at or after i, or the length. */
  function LineEnd(file: seq<byte>, i: nat): (j: nat)
    requires i <= |file|
    ensures i <= j <= |file| && LF !in file[i..j] && (j < |file| ==> file[j] == LF)
    decreases |file| - i
  {
    if i == |file| || file[i] == LF then i
    else
      var j := LineEnd(file, i + 1);
      assert file[i..j] == [file[i]] + file[i + 1..j];
      j
  }

  /** linenoiseReadLine: one record, and where the next one starts. */
  method ReadLine(file: seq<byte>, at: nat) returns (line: Option<seq<byte>>, next: nat)
    requires at <= |file|
    ensures line.None? <==> at == |file|
    ensures line.None? ==> next == at
    ensures line.Some? ==> line.value == file[at..LineEnd(file, at)]
    ensures line.Some? ==> next == if LineEnd(file, at) < |file| then LineEnd(file, at) + 1 else |file|
  {
    var text := [];
    next := at;
    while true
      invariant at <= next <= |file| && text == file[at..next]
      invariant LineEnd(file, next) == LineEnd(file, at)
      decreases |file| - next
    {
      if next == |file| || file[next] == LF {
        if next == |file| && |text| == 0 {
          return None, next;
        }
        next := if next < |file| then next + 1 else next;
        return Some(text), next;
      }
      text := text + [file[next]];
      next := next + 1;
    }
  }

  /** The entries linenoiseHistoryLoad adds, in order. */
  function Records(file: seq<byte>): seq<Line>
    decreases |file|
  {
    if file == [] then []
    else
      var j := LineEnd(file, 0);
      [CrToLf(CStr(file[..j]))] + Records(file[if j < |file| then j + 1 else j..])
  }

  lemma {:induction false} LfToCrSnoc(s: Line, b: byte)
    requires b != 0
    ensures LfToCr(s + [b]) == LfToCr(s) + [if b == LF then CR else b]
  {
    if s != [] {
      assert (s + [b])[1..] == s[1..] + [b];
      LfToCrSnoc(s[1..], b);
    }
  }

  lemma {:induction false} CrToLfSnoc(s: Line, b: byte)
    requires b != 0
    ensures CrToLf(s + [b]) == CrToLf(s) + [if b == CR then LF else b]
  {
    if s != [] {
      assert (s + [b])[1..] == s[1..] + [b];
      CrToLfSnoc(s[1..], b);
    }
  }

  lemma {:induction false} SavedSnoc(h: seq<Line>, line: Line)
    ensures Saved(h + [line]) == Saved(h) + (LfToCr(line) + [LF])
  {
    if h == [] {
      assert [line][1..] == [];
      assert LfToCr(line) + [LF] + [] == LfToCr(line) + [LF];
    } else {
      assert (h + [line])[1..] == h[1..] + [line];
      SavedSnoc(h[1..], line);
      Assoc(LfToCr(h[0]) + [LF], Saved(h[1..]), LfToCr(line) + [LF]);
    }
  }

  lemma {:induction false} LineEndShift(file: seq<byte>, at: nat, i: nat)
    requires at <= i <= |file|
    ensures LineEnd(file[at..], i - at) + at == LineEnd(file, i)
    decreases |file| - i
  {
    if i < |file| && file[i] != LF {
      LineEndShift(file, at, i + 1);
    }
  }

  lemma RecordsCons(file: seq<byte>, at: nat)
    requires at < |file|
    ensures var j := LineEnd(file, at);
            Records(file[at..]) ==
              [CrToLf(CStr(file[at..j]))] + Records(file[if j < |file| then j + 1 else |file|..])
  {
    hide *;
    var t := file[at..];
    RecordsStep(t);
    LineEndShift(file, at, at);
    var j := LineEnd(file, at);
    CutOfDrop(file, at, j - at);
    DropDrop(file, at, if j < |file| then j - at + 1 else j - at);
  }

  lemma RecordsStep(t: seq<byte>)
    requires t != []
    ensures var j := LineEnd(t, 0);
            Records(t) == [CrToLf(CStr(t[..j]))] + Records(t[if j < |t| then j + 1 else j..])
  {
    hide LineEnd, CStr, CrToLf;
  }

  lemma {:induction false} LineEndFound(s: seq<byte>, i: nat, j: nat)
    requires i <= j < |s| && s[j] == LF && forall k :: i <= k < j ==> s[k] != LF
    ensures LineEnd(s, i) == j
    decreases j - i
  {
    if i < j {
      LineEndFound(s, i + 1, j);
    }
  }

  lemma {:induction false} LfToCrHasNoLf(s: Line)
    ensures LF !in LfToCr(s)
  {
    if s != [] {
      LfToCrHasNoLf(s[1..]);
    }
  }

  lemma {:induction false} CrLfCr(s: Line)
    ensures CrToLf(LfToCr(s)) == CrToLf(s)
  {
    if s != [] {
      CrLfCr(s[1..]);
      assert LfToCr(s)[1..] == LfToCr(s[1..]);
    }
  }

  function AllCrToLf(h: seq<Line>): (r: seq<Line>)
    ensures |r| == |h|
  {
    if h == [] then [] else [CrToLf(h[0])] + AllCrToLf(h[1..])
  }

  /** Reading back a saved list gives one record per entry, multi-line and empty ones
      included, with every CR turned into LF. */
  lemma {:induction false} RecordsOfSaved(h: seq<Line>)
    ensures Records(Saved(h)) == AllCrToLf(h)
  {
    if h != [] {
      var e, rest := LfToCr(h[0]), Saved(h[1..]);
      var file := e + [LF] + rest;
      assert file == Saved(h);
      LfToCrHasNoLf(h[0]);
      forall k | 0 <= k < |e| ensures file[k] != LF {
        assert file[k] == e[k] && e[k] in e;
      }
      LineEndFound(file, 0, |e|);
      assert file[..|e|] == e && file[|e| + 1..] == rest;
      CrLfCr(h[0]);
      RecordsOfSaved(h[1..]);
    }
  }

  // ----- the history is the end of a log

  /** The log: lines in the order added, a line equal to its predecessor left out. */
  function Logged(log: seq<Line>, line: Line): seq<Line> {
    if log != [] && log[|log| - 1] == line then log else log + [line]
  }

  function Log(lines: seq<Line>): seq<Line> {
    if lines == [] then [] else Logged(Log(lines[..|lines| - 1]), lines[|lines| - 1])
  }

  lemma {:induction false} AddedAllSnoc(h: seq<Line>, max: nat, lines: seq<Line>, line: Line)
    ensures AddedAll(h, max, lines + [line]) == Added(AddedAll(h, max, lines), max, line)
    decreases |lines|
  {
    if lines == [] {
      assert [line][1..] == [] && lines + [line] == [line];
    } else {
      assert (lines + [line])[1..] == lines[1..] + [line];
      AddedAllSnoc(Added(h, max, lines[0]), max, lines[1..], line);
    }
  }

  lemma AddedToSuffix(log: seq<Line>, max: nat, line: Line)
    requires 0 < max
    ensures Added(Last(log, max), max, line) == Last(Logged(log, line), max)
  {
    var h := Last(log, max);
    assert log != [] ==> h[|h| - 1] == log[|log| - 1];
  }

  /** After any adds at a fixed maximum the history is the end of the log, as long as fits. */
  lemma {:induction false} HistoryIsEndOfLog(lines: seq<Line>, max: nat)
    requires 0 < max
    ensures AddedAll([], max, lines) == Last(Log(lines), max)
  {
    if lines != [] {
      var r, line := lines[..|lines| - 1], lines[|lines| - 1];
      hide Log, AddedAll, Last;
      HistoryIsEndOfLog(r, max);
      LastOf(lines);
      AddedAllSnoc([], max, r, line);
      AddedToSuffix(Log(r), max, line);
    }
  }

  datatype Op = Add(line: Line) | SetMax(n: int)

  /** Entries and maximum after a list of operations. */
  function Ops(h: seq<Line>, max: nat, ops: seq<Op>): (seq<Line>, nat)
    decreases |ops|
  {
    if ops == [] then (h, max)
    else
      match ops[0]
      case Add(line) => Ops(Added(h, max, line), max, ops[1..])
      case SetMax(n) => Ops(Resized(h, n), if n < 1 then max else n, ops[1..])
  }

  function Extended(log: seq<Line>, ops: seq<Op>): seq<Line>
    decreases |ops|
  {
    if ops == [] then log
    else
      match ops[0]
      case Add(line) => Extended(Logged(log, line), ops[1..])
      case SetMax(_) => Extended(log, ops[1..])
  }

  predicate EndOfLog(h: seq<Line>, max: nat, log: seq<Line>) {
    && 0 < max && |h| <= max && |h| <= |log|
    && h == log[|log| - |h|..]
    && (log != [] ==> h != [])
  }

  /** However adds and changes of the maximum interleave, the history stays within the
      maximum and stays the end of the log, never empty once something was added. */
  lemma {:induction false} InterleavedIsEndOfLog(h: seq<Line>, max: nat, log: seq<Line>, ops: seq<Op>)
    requires EndOfLog(h, max, log)
    ensures var (h', max') := Ops(h, max, ops);
            EndOfLog(h', max', Extended(log, ops))
    decreases |ops|
  {
    if ops != [] {
      match ops[0]
      case Add(line) =>
        assert h != [] ==> h[|h| - 1] == log[|log| - 1];
        InterleavedIsEndOfLog(Added(h, max, line), max, Logged(log, line), ops[1..]);
      case SetMax(n) =>
        InterleavedIsEndOfLog(Resized(h, n), if n < 1 then max else n, log, ops[1..]);
    }
  }

  // ----- the file round trip

  /** Loading a saved history into an empty one of maximum m. */
  lemma LoadOfSaved(h: seq<Line>, m: nat)
    requires 0 < m
    ensures AddedAll([], m, Records(Saved(h))) == Last(Log(AllCrToLf(h)), m)
  {
    RecordsOfSaved(h);
    HistoryIsEndOfLog(AllCrToLf(h), m);
  }

  predicate AdjacentDistinct(h: seq<Line>) { forall i :: 0 < i < |h| ==> h[i - 1] != h[i] }

  lemma {:induction false} LogOfDistinct(h: seq<Line>)
    requires AdjacentDistinct(h)
    ensures Log(h) == h
  {
    if h != [] {
      LogOfDistinct(h[..|h| - 1]);
    }
  }

  lemma {:induction false} AllCrToLfAt(h: seq<Line>, i: nat)
    requires i < |h|
    ensures AllCrToLf(h)[i] == CrToLf(h[i])
  {
    if 0 < i {
      AllCrToLfAt(h[1..], i - 1);
    }
  }

  lemma {:induction false} LogKeepsAll(lines: seq<Line>)
    ensures |Log(lines)| <= |lines|
    ensures |Log(lines)| == |lines| ==> Log(lines) == lines && AdjacentDistinct(lines)
  {
    if lines != [] {
      var r := lines[..|lines| - 1];
      LogKeepsAll(r);
      if |Log(lines)| == |lines| {
        assert lines == r + [lines[|lines| - 1]];
        assert forall i :: 0 <= i < |r| ==> lines[i] == r[i];
      }
    }
  }

  lemma {:induction false} CrToLfFixed(s: Line)
    ensures CrToLf(s) == s <==> CR !in s
  {
    if s != [] {
      CrToLfFixed(s[1..]);
      assert s == [s[0]] + s[1..];
    }
  }

  /** The round trip restores the history exactly when no entry holds a CR, no two
      neighbours are equal and everything fits. */
  lemma FileRoundTrip(h: seq<Line>, m: nat)
    requires 0 < m
    ensures AddedAll([], m, Records(Saved(h))) == h <==>
            (forall e :: e in h ==> CR !in e) && AdjacentDistinct(h) && |h| <= m
  {
    LoadOfSaved(h, m);
    var g := AllCrToLf(h);
    LogKeepsAll(g);
    forall i | 0 <= i < |h| ensures g[i] == CrToLf(h[i]) && (g[i] == h[i] <==> CR !in h[i]) {
      AllCrToLfAt(h, i);
      CrToLfFixed(h[i]);
    }
    if (forall e :: e in h ==> CR !in e) && AdjacentDistinct(h) && |h| <= m {
      assert forall i :: 0 <= i < |h| ==> h[i] in h;
      assert g == h;
      LogOfDistinct(h);
    } else if |Log(g)| == |h| {
      assert Log(g) == g && AdjacentDistinct(g);
    }
  }
}
