/** What parse_proc_stat extracts from /proc/<pid>/stat (modules/process/process_mgr.c:534-595). */
module ProcStat {
  import opened Seqs
  import opened Utf8
  import opened History
  import opened Render
  import opened Tokenizer

  const OPENING_PARENTHESIS: byte := 40
  const CLOSING_PARENTHESIS: byte := 41
  const PLUS: byte := 43
  const MINUS: byte := 45
  /** sizeof(buf) and sizeof(info->name) */
  const STAT_SIZE: nat := 1024
  const NAME_SIZE: nat := 256

  datatype Info = Info(name: seq<byte>, state: byte, ppid: int, priority: int)

  /** strchr */
  function FirstAt(s: seq<byte>, b: byte): (r: Option<nat>)
    ensures r.None? ==> b !in s
    ensures r.Some? ==> r.value < |s| && s[r.value] == b && b !in s[..r.value]
  {
    if s == [] then None
    else if s[0] == b then Some(0)
    else
      var r := FirstAt(s[1..], b);
      if r.Some? then
        HeadTail(s[..r.value + 1]);
        CutOfTake(s, r.value + 1, 1);
        CutOfDrop(s, 1, r.value);
        Some(r.value + 1)
      else HeadTail(s); None
  }

  /** strrchr */
  function LastAt(s: seq<byte>, b: byte): (r: Option<nat>)
    ensures r.None? ==> b !in s
    ensures r.Some? ==> r.value < |s| && s[r.value] == b && b !in s[r.value + 1..]
  {
    if s == [] then None
    else if s[|s| - 1] == b then Some(|s| - 1)
    else
      LastOf(s);
      var r := LastAt(s[..|s| - 1], b);
      if r.Some? then
        LastOf(s[r.value + 1..]);
        CutOfTake(s, |s| - 1, r.value + 1);
        CutOfDrop(s, r.value + 1, |s| - 2 - r.value);
        r
      else r
  }

  // ----- sscanf: white space, a sign, decimal digits

  function DropSpaces(s: seq<byte>): seq<byte> {
    if s != [] && IsSpace(s[0]) then DropSpaces(s[1..]) else s
  }

  function TakeDigits(s: seq<byte>, acc: nat): (nat, seq<byte>) {
    if s != [] && IsDigit(s[0]) then TakeDigits(s[1..], acc * 10 + (s[0] - 48)) else (acc, s)
  }

  /** %ld, %d and %u: the value and what is left, or a failed match. */
  function ScanLong(s: seq<byte>): Option<(int, seq<byte>)> {
    var t := DropSpaces(s);
    var u := if t != [] && (t[0] == MINUS || t[0] == PLUS) then t[1..] else t;
    if u == [] || !IsDigit(u[0]) then None
    else
      var (v, rest) := TakeDigits(u, 0);
      var signed: int := v;
      Some((if t[0] == MINUS then -signed else signed, rest))
  }

  /** n conversions whose values are thrown away. */
  function SkipLongs(s: seq<byte>, n: nat): Option<seq<byte>>
    decreases n
  {
    if n == 0 then Some(s)
    else
      var x := ScanLong(s);
      if x.None? then None else SkipLongs(x.value.1, n - 1)
  }

  /** The whole format: one value, thirteen skipped, one value; a value that is not reached
      stays 0. */
  function ScanParentAndPriority(s: seq<byte>): (int, int) {
    var parent := ScanLong(s);
    if parent.None? then (0, 0)
    else
      var skipped := SkipLongs(parent.value.1, 13);
      var priority := if skipped.None? then None else ScanLong(skipped.value);
      (parent.value.0, if priority.None? then 0 else priority.value.0)
  }

  /** What one read into buf gets. */
  function Buffered(file: Line): Line { if |file| < STAT_SIZE then file else file[..STAT_SIZE - 1] }

  /** parse_proc_stat, given the bytes of the file; None is its -1. */
  function ParseProcStat(file: Line): Option<Info> {
    var buf := Buffered(file);
    var p, start := LastAt(buf, CLOSING_PARENTHESIS), FirstAt(buf, OPENING_PARENTHESIS);
    if p.None? || start.None? || start.value >= p.value then None
    else
      var nameLen := p.value - (start.value + 1);
      var kept := if nameLen >= NAME_SIZE then NAME_SIZE - 1 else nameLen;
      if At(buf, p.value + 1) == SPACE && At(buf, p.value + 2) != 0 then
        var (parent, priority) := ScanParentAndPriority(buf[p.value + 3..]);
        Some(Info(buf[start.value + 1..start.value + 1 + kept], buf[p.value + 2], parent, priority))
      else None
  }

  // ----- the file as proc(5) writes it

  function Number(n: int): seq<byte> { if n < 0 then [45] + Digits(-n) else Digits(n) }

  function Fields(ns: seq<int>): seq<byte> {
    if ns == [] then [] else [32] + Number(ns[0]) + Fields(ns[1..])
  }

  /** pid (comm) state and the numbers from ppid on. */
  function Stat(pid: nat, comm: seq<byte>, state: byte, ns: seq<int>): seq<byte> {
    (Digits(pid) + [SPACE, OPENING_PARENTHESIS]) + comm + ([CLOSING_PARENTHESIS, SPACE, state] + Fields(ns))
  }

  predicate EndsNumber(s: seq<byte>) { s == [] || !IsDigit(s[0]) }

  lemma {:induction false} DigitsTaken(n: nat, rest: seq<byte>)
    ensures TakeDigits(Digits(n) + rest, 0) == TakeDigits(rest, n)
    decreases n
  {
    if n < 10 {
      ConsTail(48 + n, rest);
    } else {
      var d: byte := 48 + n % 10;
      Assoc(Digits(n / 10), [d], rest);
      DigitsTaken(n / 10, [d] + rest);
      ConsTail(d, rest);
    }
  }

  lemma NumberScanned(n: int, rest: seq<byte>)
    requires EndsNumber(rest)
    ensures ScanLong([SPACE] + Number(n) + rest) == Some((n, rest))
  {
    hide Digits, TakeDigits;
    var t := Number(n) + rest;
    Assoc([SPACE], Number(n), rest);
    ConsTail(SPACE, t);
    var m := if n < 0 then -n else n;
    var u := Digits(m) + rest;
    assert u[0] == Digits(m)[0] && Digits(m)[0] in Digits(m);
    if n < 0 {
      Assoc([MINUS], Digits(m), rest);
      ConsTail(MINUS, u);
    }
    assert DropSpaces([SPACE] + t) == DropSpaces(t) == t;
    DigitsTaken(m, rest);
    assert TakeDigits(rest, m) == (m, rest) by {
      NothingTaken(rest, m);
    }
  }

  lemma NothingTaken(rest: seq<byte>, m: nat)
    requires EndsNumber(rest)
    ensures TakeDigits(rest, m) == (m, rest)
  {}

  lemma FieldsEndNumber(ns: seq<int>, rest: seq<byte>)
    requires EndsNumber(rest)
    ensures EndsNumber(Fields(ns) + rest)
  {}

  lemma FieldScanned(ns: seq<int>, rest: seq<byte>)
    requires EndsNumber(rest) && ns != []
    ensures ScanLong(Fields(ns) + rest) == Some((ns[0], Fields(ns[1..]) + rest))
  {
    hide ScanLong, Number;
    FieldsEndNumber(ns[1..], rest);
    Assoc([SPACE] + Number(ns[0]), Fields(ns[1..]), rest);
    NumberScanned(ns[0], Fields(ns[1..]) + rest);
  }

  lemma {:induction false} FieldsSkipped(ns: seq<int>, k: nat, rest: seq<byte>)
    requires EndsNumber(rest) && k <= |ns|
    ensures SkipLongs(Fields(ns) + rest, k) == Some(Fields(ns[k..]) + rest)
    decreases k
  {
    hide ScanLong, Fields;
    if k == 0 {
      NoneLeft(ns);
    } else {
      FieldScanned(ns, rest);
      FieldsSkipped(ns[1..], k - 1, rest);
      DropDrop(ns, 1, k - 1);
    }
  }

  lemma FieldsScanned(ns: seq<int>, rest: seq<byte>)
    requires EndsNumber(rest) && |ns| == 15
    ensures ScanParentAndPriority(Fields(ns) + rest) == (ns[0], ns[14])
  {
    hide ScanLong, SkipLongs, Fields;
    FieldScanned(ns, rest);
    FieldsSkipped(ns[1..], 13, rest);
    DropDrop(ns, 1, 13);
    FieldScanned(ns[14..], rest);
  }

  lemma {:induction false} NoParenthesisInFields(ns: seq<int>)
    ensures CLOSING_PARENTHESIS !in Fields(ns)
  {
    hide Digits;
    if ns != [] {
      NoParenthesisInFields(ns[1..]);
    }
  }

  lemma {:induction false} FirstIs(s: seq<byte>, b: byte, i: nat)
    requires i < |s| && s[i] == b && forall k :: 0 <= k < i ==> s[k] != b
    ensures FirstAt(s, b) == Some(i)
  {
    if 0 < i {
      FirstIs(s[1..], b, i - 1);
    }
  }

  lemma {:induction false} LastIs(s: seq<byte>, b: byte, i: nat)
    requires i < |s| && s[i] == b && forall k :: i < k < |s| ==> s[k] != b
    ensures LastAt(s, b) == Some(i)
  {
    if i < |s| - 1 {
      LastIs(s[..|s| - 1], b, i);
    }
  }

  /** The two parentheses found are the ones around comm, whatever comm contains. */
  lemma CommFound(a: seq<byte>, comm: seq<byte>, b: seq<byte>)
    requires OPENING_PARENTHESIS !in a && CLOSING_PARENTHESIS !in b
    ensures var s := (a + [OPENING_PARENTHESIS]) + comm + ([CLOSING_PARENTHESIS] + b);
            && FirstAt(s, OPENING_PARENTHESIS) == Some(|a|)
            && LastAt(s, CLOSING_PARENTHESIS) == Some(|a| + 1 + |comm|)
  {
    hide FirstAt, LastAt;
    var s := (a + [OPENING_PARENTHESIS]) + comm + ([CLOSING_PARENTHESIS] + b);
    var p := |a| + 1 + |comm|;
    forall k | 0 <= k < |a| ensures s[k] != OPENING_PARENTHESIS {
      assert s[k] == a[k];
    }
    forall k | p < k < |s| ensures s[k] != CLOSING_PARENTHESIS {
      assert s[k] == b[k - p - 1];
    }
    FirstIs(s, OPENING_PARENTHESIS, |a|);
    LastIs(s, CLOSING_PARENTHESIS, p);
  }

  lemma StatParsed(pid: nat, comm: seq<byte>, state: byte, ns: seq<int>, rest: seq<byte>)
    requires |ns| == 15 && state != 0 && state != CLOSING_PARENTHESIS
    requires EndsNumber(rest) && CLOSING_PARENTHESIS !in rest
    requires 0 !in Stat(pid, comm, state, ns) + rest
    requires |Stat(pid, comm, state, ns)| < STAT_SIZE
    ensures ParseProcStat(Stat(pid, comm, state, ns) + rest) ==
            Some(Info(if |comm| < NAME_SIZE then comm else comm[..NAME_SIZE - 1], state, ns[0], ns[14]))
  {
    hide Digits, Fields, FirstAt, LastAt, ScanParentAndPriority, Buffered, ParseProcStat;
    var kept := CutInRest(Stat(pid, comm, state, ns), rest);
    var a, numbers := Digits(pid) + [SPACE], Fields(ns) + kept;
    Regrouped(Digits(pid), comm, state, Fields(ns), kept);
    NoParenthesisInFields(ns);
    CommFound(a, comm, [SPACE, state] + numbers);
    FieldsScanned(ns, kept);
    CommCut(a + [OPENING_PARENTHESIS], comm, CLOSING_PARENTHESIS, state, numbers);
    Parsed(Stat(pid, comm, state, ns) + rest, |a|, comm, state, numbers);
  }

  /** For any process name, spaces and parentheses included, the parser gets back the name
      cut to 255 bytes, the state, the parent and the priority from "pid (name) state
      numbers", if these stand in the first 1023 bytes of the file. */
  lemma ProcStatRoundTrip(pid: nat, comm: seq<byte>, state: byte, ns: seq<int>, rest: seq<byte>)
    requires |ns| == 15 && state != 0 && state != 41 && EndsNumber(rest) && 41 !in rest
    requires var file := Digits(pid) + [32, 40] + comm + [41, 32, state] + Fields(ns);
             |file| < 1024 && 0 !in file + rest
    ensures ParseProcStat(Digits(pid) + [32, 40] + comm + [41, 32, state] + Fields(ns) + rest) ==
            Some(Info(if |comm| < 256 then comm else comm[..255], state, ns[0], ns[14]))
  {
    hide Digits, Fields, ParseProcStat, EndsNumber;
    Assoc(Digits(pid) + [32, 40] + comm, [41, 32, state], Fields(ns));
    assert STAT_SIZE == 1024 && NAME_SIZE == 256;
    StatParsed(pid, comm, state, ns, rest);
  }

  lemma Parsed(file: Line, i: nat, comm: seq<byte>, state: byte, numbers: seq<byte>)
    requires state != 0
    requires var buf, p := Buffered(file), i + 1 + |comm|;
             && FirstAt(buf, OPENING_PARENTHESIS) == Some(i) && LastAt(buf, CLOSING_PARENTHESIS) == Some(p)
             && p + 2 < |buf| && buf[p + 1] == SPACE && buf[p + 2] == state && buf[p + 3..] == numbers
             && buf[i + 1..p] == comm
    ensures var (parent, priority) := ScanParentAndPriority(numbers);
            ParseProcStat(file) ==
            Some(Info(if |comm| < NAME_SIZE then comm else comm[..NAME_SIZE - 1], state, parent, priority))
  {
    hide FirstAt, LastAt, ScanParentAndPriority, Buffered;
    var buf := Buffered(file);
    if |comm| >= NAME_SIZE {
      CutOfTake(buf[i + 1..i + 1 + |comm|], |comm|, NAME_SIZE - 1);
      SliceSlice(buf, i + 1, i + 1 + |comm|, 0, NAME_SIZE - 1);
    }
  }

  /** The buffer ends inside or at the end of the rest, never inside a number. */
  lemma CutInRest(whole: seq<byte>, rest: seq<byte>) returns (kept: seq<byte>)
    requires |whole| < STAT_SIZE && EndsNumber(rest) && CLOSING_PARENTHESIS !in rest && 0 !in whole + rest
    ensures Buffered(whole + rest) == whole + kept && EndsNumber(kept) && CLOSING_PARENTHESIS !in kept
  {
    var room := STAT_SIZE - 1 - |whole|;
    if |rest| <= room {
      kept := rest;
    } else {
      kept := rest[..room];
      CutOfConcat(whole, rest, STAT_SIZE - 1);
    }
  }

  lemma Regrouped(d: seq<byte>, comm: seq<byte>, state: byte, fields: seq<byte>, rest: seq<byte>)
    ensures (d + [SPACE, OPENING_PARENTHESIS]) + comm + ([CLOSING_PARENTHESIS, SPACE, state] + fields) + rest ==
            (d + [SPACE] + [OPENING_PARENTHESIS]) + comm + ([CLOSING_PARENTHESIS] + ([SPACE, state] + (fields + rest)))
  {}

  lemma CommCut(a: seq<byte>, comm: seq<byte>, close: byte, state: byte, numbers: seq<byte>)
    ensures var s, p := a + comm + ([close] + ([SPACE, state] + numbers)), |a| + |comm|;
            && |s| == p + 3 + |numbers| && s[p + 1] == SPACE && s[p + 2] == state && s[p + 3..] == numbers
            && s[|a|..p] == comm
  {
    MiddleOf(a, comm, [close] + ([SPACE, state] + numbers));
  }
}
