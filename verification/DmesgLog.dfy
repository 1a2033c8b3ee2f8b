/** The filtered kernel log (modules/kernel/kernel_mgr.c:55-72, 307-371 and 373-411). */
module DmesgLog {
  import opened Seqs
  import opened Utf8
  import opened History

  const MAX_LOG_LINES: nat := 20
  const MAX_LINE_LEN: nat := 512

  /** "system_monitor" */
  const SYSTEM_MONITOR: Line := [115, 121, 115, 116, 101, 109, 95, 109, 111, 110, 105, 116, 111, 114]
  /** "sysmgr" */
  const SYSMGR: Line := [115, 121, 115, 109, 103, 114]
  /** "permission denied" */
  const PERMISSION_DENIED: Line := [112, 101, 114, 109, 105, 115, 115, 105, 111, 110, 32, 100, 101, 110, 105, 101, 100]
  /** "not permitted" */
  const NOT_PERMITTED: Line := [110, 111, 116, 32, 112, 101, 114, 109, 105, 116, 116, 101, 100]

  function Lower(b: byte): byte { if 65 <= b <= 90 then b + 32 else b }

  function Lowered(s: seq<byte>): (r: seq<byte>)
    ensures |r| == |s| && forall i :: 0 <= i < |s| ==> r[i] == Lower(s[i])
  {
    seq(|s|, i requires 0 <= i < |s| => Lower(s[i]))
  }

  predicate HasAt(s: seq<byte>, t: seq<byte>, i: nat) { i + |t| <= |s| && s[i..i + |t|] == t }

  ghost predicate Contains(s: seq<byte>, t: seq<byte>) { exists i: nat :: HasAt(s, t, i) }

  lemma HasAtMeans(s: seq<byte>, t: seq<byte>, i: nat)
    requires i + |t| <= |s|
    ensures HasAt(Lowered(s), Lowered(t), i) <==> forall j :: 0 <= j < |t| ==> Lower(s[i + j]) == Lower(t[j])
  {
    var x, y := Lowered(s)[i..i + |t|], Lowered(t);
    assert forall j :: 0 <= j < |t| ==> x[j] == Lower(s[i + j]);
    if forall j :: 0 <= j < |t| ==> Lower(s[i + j]) == Lower(t[j]) {
      assert x == y;
    }
  }

  /** contains_keyword: the lowered keyword is a substring of the lowered line. */
  method ContainsKeyword(s: Line, keyword: Line) returns (found: bool)
    ensures found <==> Contains(Lowered(s), Lowered(keyword))
  {
    if |keyword| > |s| {
      return false;
    }
    var i := 0;
    while i <= |s| - |keyword|
      invariant 0 <= i <= |s| - |keyword| + 1
      invariant forall k: nat :: k < i ==> !HasAt(Lowered(s), Lowered(keyword), k)
    {
      var j := 0;
      while j < |keyword|
        invariant 0 <= j <= |keyword|
        invariant forall k :: 0 <= k < j ==> Lower(s[i + k]) == Lower(keyword[k])
      {
        if Lower(s[i + j]) != Lower(keyword[j]) {
          break;
        }
        j := j + 1;
      }
      HasAtMeans(s, keyword, i);
      if j == |keyword| {
        return true;
      }
      i := i + 1;
    }
    return false;
  }

  /** The same byte, or the same letter in the other case. */
  predicate SameLetter(a: byte, b: byte) {
    || a == b
    || (65 <= a <= 90 && b == a + 32)
    || (97 <= a <= 122 && b == a - 32)
  }

  lemma LowerMeans(a: byte, b: byte)
    ensures Lower(a) == Lower(b) <==> SameLetter(a, b)
  {}

  /** line has the letters of word from index i on, in either case. */
  predicate Says(line: seq<byte>, word: string, i: nat) {
    && i + |word| <= |line|
    && forall j :: 0 <= j < |word| ==> word[j] < '\U{80}' && SameLetter(line[i + j], word[j] as int)
  }

  /** The bytes of a word. */
  predicate Spells(t: seq<byte>, word: string) {
    |t| == |word| && forall j :: 0 <= j < |t| ==> word[j] < '\U{80}' && t[j] == word[j] as int
  }

  lemma ContainsMeans(line: seq<byte>, t: seq<byte>, word: string)
    requires Spells(t, word)
    ensures Contains(Lowered(line), Lowered(t)) <==> exists i: nat :: Says(line, word, i)
  {
    forall i: nat ensures HasAt(Lowered(line), Lowered(t), i) <==> Says(line, word, i) {
      if i + |t| <= |line| {
        HasAtMeans(line, t, i);
        forall j | 0 <= j < |t| ensures Lower(line[i + j]) == Lower(t[j]) <==> SameLetter(line[i + j], t[j]) {
          LowerMeans(line[i + j], t[j]);
        }
      }
    }
  }

  // ----- which lines are kept, and how they are cut

  ghost predicate Relevant(line: Line) {
    Contains(Lowered(line), Lowered(SYSTEM_MONITOR)) || Contains(Lowered(line), Lowered(SYSMGR))
  }

  ghost predicate SaysDenied(line: Line) {
    Contains(Lowered(line), Lowered(PERMISSION_DENIED)) || Contains(Lowered(line), Lowered(NOT_PERMITTED))
  }

  /** A line is kept when it names the program, in either case. */
  lemma RelevantMeans(line: Line)
    ensures Relevant(line) <==>
              (exists i: nat :: Says(line, "system_monitor", i)) || (exists i: nat :: Says(line, "sysmgr", i))
  {
    ContainsMeans(line, SYSTEM_MONITOR, "system_monitor");
    ContainsMeans(line, SYSMGR, "sysmgr");
  }

  /** strcspn to the newline, then strncpy into a row of MAX_LINE_LEN bytes. */
  function Row(line: Line): (r: seq<byte>)
    ensures r <= line && |r| < MAX_LINE_LEN
  {
    var cut := line[..LineEnd(line, 0)];
    if |cut| < MAX_LINE_LEN then cut else cut[..MAX_LINE_LEN - 1]
  }

  /** A row is the line up to its newline, and the first 511 bytes of that when it is longer. */
  lemma RowIs(line: Line, rest: Line)
    requires 10 !in line
    ensures Row(line) == (if |line| < 512 then line else line[..511])
    ensures Row(line + [10] + rest) == Row(line)
  {
    var whole := line + [10] + rest;
    assert LineEnd(line, 0) == |line|;
    LineEndFound(whole, 0, |line|);
    assert whole[..|line|] == line && line[..|line|] == line;
  }

  /** The rows of the relevant lines, in order. */
  ghost function Rows(lines: seq<Line>): seq<seq<byte>> {
    if lines == [] then []
    else Rows(lines[..|lines| - 1]) + (if Relevant(lines[|lines| - 1]) then [Row(lines[|lines| - 1])] else [])
  }

  /** Output in two parts has the rows of the first and then those of the second. */
  lemma {:induction false} RowsConcat(a: seq<Line>, b: seq<Line>)
    ensures Rows(a + b) == Rows(a) + Rows(b)
    decreases |b|
  {
    if b == [] {
      assert a + b == a;
    } else {
      var c, l := b[..|b| - 1], b[|b| - 1];
      LastOfConcat(a, b);
      RowsConcat(a, c);
      Assoc(Rows(a), Rows(c), if Relevant(l) then [Row(l)] else []);
    }
  }

  lemma RowsOfOne(line: Line)
    ensures Rows([line]) == if Relevant(line) then [Row(line)] else []
  {
    assert [line][..0] == [];
  }

  /** The ring holds the last rows of all: row k of them is in slot k modulo its size. */
  ghost predicate Holds(ring: seq<seq<byte>>, all: seq<seq<byte>>)
    requires |ring| == MAX_LOG_LINES
  {
    forall k: nat :: k < |all| <= k + MAX_LOG_LINES ==> ring[k % MAX_LOG_LINES] == all[k]
  }

  lemma RingStep(ring: seq<seq<byte>>, all: seq<seq<byte>>, row: seq<byte>)
    requires |ring| == MAX_LOG_LINES && Holds(ring, all)
    ensures Holds(ring[|all| % MAX_LOG_LINES := row], all + [row])
  {
    var next := all + [row];
    forall k: nat | k < |next| <= k + MAX_LOG_LINES
      ensures ring[|all| % MAX_LOG_LINES := row][k % MAX_LOG_LINES] == next[k]
    {
      if k < |all| {
        assert ring[k % MAX_LOG_LINES] == all[k];
        SlotsDiffer(k, |all|);
      }
    }
  }

  lemma SlotsDiffer(k: nat, n: nat)
    requires k < n < k + MAX_LOG_LINES
    ensures k % MAX_LOG_LINES != n % MAX_LOG_LINES
  {
    assert n == n / MAX_LOG_LINES * MAX_LOG_LINES + n % MAX_LOG_LINES;
    assert k == k / MAX_LOG_LINES * MAX_LOG_LINES + k % MAX_LOG_LINES;
  }

  /** run_dmesg_filtered on the lines one command printed; 0 or -2 as in the source. */
  method RunDmesgFiltered(ring: array<seq<byte>>, lines: seq<Line>, exitCode: int) returns (count: nat, res: int)
    requires ring.Length == MAX_LOG_LINES
    modifies ring
    ensures count == |Rows(lines)| && Holds(ring[..], Rows(lines))
    ensures res == if exitCode != 0 || (exists l :: l in lines && SaysDenied(l)) then -2 else 0
  {
    count := 0;
    var denied := false;
    for i := 0 to |lines|
      invariant count == |Rows(lines[..i])| && Holds(ring[..], Rows(lines[..i]))
      invariant denied <==> exists l :: l in lines[..i] && SaysDenied(l)
    {
      var line := lines[i];
      assert lines[..i + 1] == lines[..i] + [line];
      assert lines[..i + 1][..i] == lines[..i];
      var a := ContainsKeyword(line, PERMISSION_DENIED);
      var b := ContainsKeyword(line, NOT_PERMITTED);
      if a || b {
        denied := true;
        assert line in lines[..i + 1] && SaysDenied(line);
      }
      var c := ContainsKeyword(line, SYSTEM_MONITOR);
      var d := ContainsKeyword(line, SYSMGR);
      if c || d {
        RingStep(ring[..], Rows(lines[..i]), Row(line));
        ring[count % MAX_LOG_LINES] := Row(line);
        count := count + 1;
      }
    }
    assert lines[..|lines|] == lines;
    res := if exitCode != 0 || denied then -2 else 0;
  }

  /** The output of one command: its lines and its exit code. */
  datatype Command = Command(lines: seq<Line>, exitCode: int)

  ghost predicate Succeeds(c: Command) { c.exitCode == 0 && forall l :: l in c.lines ==> !SaysDenied(l) }

  lemma SaysDeniedMeans(line: Line)
    ensures SaysDenied(line) <==>
              (exists i: nat :: Says(line, "permission denied", i)) || (exists i: nat :: Says(line, "not permitted", i))
  {
    hide Contains, Says;
    ContainsMeans(line, PERMISSION_DENIED, "permission denied");
    ContainsMeans(line, NOT_PERMITTED, "not permitted");
  }

  /** A command succeeds when it ends with 0 and no line says that access is refused. */
  lemma SucceedsMeans(c: Command)
    ensures Succeeds(c) <==>
              c.exitCode == 0 && forall l, i: nat :: l in c.lines ==>
                                                       !Says(l, "permission denied", i) && !Says(l, "not permitted", i)
  {
    hide SaysDenied, Says;
    forall l | l in c.lines
      ensures SaysDenied(l) <==>
                (exists i: nat :: Says(l, "permission denied", i)) || (exists i: nat :: Says(l, "not permitted", i))
    {
      SaysDeniedMeans(l);
    }
  }

  /** kernel_mgr_show_log: dmesg, then sudo dmesg if that was refused; what is printed is
      the end of the relevant rows of the one that succeeded, whatever the other one left
      in the ring, and nothing when both fail. */
  method ShowLog(dmesg: Command, sudo: Command) returns (printed: Option<seq<seq<byte>>>)
    ensures printed.None? <==> !Succeeds(dmesg) && !Succeeds(sudo)
    ensures Succeeds(dmesg) ==> printed == Some(Last(Rows(dmesg.lines), 20))
    ensures !Succeeds(dmesg) && Succeeds(sudo) ==> printed == Some(Last(Rows(sudo.lines), 20))
  {
    var ring := new seq<byte>[MAX_LOG_LINES](_ => []);
    var exitCode := dmesg.exitCode;
    var count, res := RunDmesgFiltered(ring, dmesg.lines, exitCode);
    ghost var all := Rows(dmesg.lines);
    if res == -2 || exitCode != 0 {
      exitCode := sudo.exitCode;
      count, res := RunDmesgFiltered(ring, sudo.lines, exitCode);
      all := Rows(sudo.lines);
    }
    if res != 0 || exitCode != 0 {
      return None;
    }
    var out := Unroll(ring, count, all);
    return Some(out);
  }

  /** The printing loop. */
  method Unroll(ring: array<seq<byte>>, count: nat, ghost all: seq<seq<byte>>) returns (out: seq<seq<byte>>)
    requires ring.Length == MAX_LOG_LINES && count == |all| && Holds(ring[..], all)
    ensures out == Last(all, MAX_LOG_LINES)
  {
    out := [];
    var start, limit := 0, count;
    if count > MAX_LOG_LINES {
      start := count % MAX_LOG_LINES;
      limit := MAX_LOG_LINES;
    }
    ghost var first := count - limit;
    for i := 0 to limit
      invariant out == all[first..first + i]
    {
      var idx := (start + i) % MAX_LOG_LINES;
      SlotOf(count, i);
      assert idx == (first + i) % MAX_LOG_LINES;
      assert ring[..][(first + i) % MAX_LOG_LINES] == all[first + i];
      out := out + [ring[idx]];
    }
  }

  lemma SlotOf(count: nat, i: nat)
    requires i < MAX_LOG_LINES
    ensures MAX_LOG_LINES < count ==>
              (count % MAX_LOG_LINES + i) % MAX_LOG_LINES == (count - MAX_LOG_LINES + i) % MAX_LOG_LINES
  {
    if MAX_LOG_LINES < count {
      var q := count / MAX_LOG_LINES;
      assert count == q * MAX_LOG_LINES + count % MAX_LOG_LINES;
      ModShift(count % MAX_LOG_LINES + i, q - 1);
    }
  }

  lemma {:induction false} ModShift(x: nat, q: nat)
    ensures (x + q * MAX_LOG_LINES) % MAX_LOG_LINES == x % MAX_LOG_LINES
  {
    if 0 < q {
      ModShift(x, q - 1);
      assert x + q * MAX_LOG_LINES == (x + (q - 1) * MAX_LOG_LINES) + MAX_LOG_LINES;
    }
  }
}
