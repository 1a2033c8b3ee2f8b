/** The command tokenizer (cli/parser.c:14-65) and the command line main builds
    (app/main.c:137-151). */
module Tokenizer {
  import opened Seqs
  import opened Utf8
  import opened History

  const QUOTE: byte := 34

  /** isspace in the C locale. */
  predicate IsSpace(b: byte) { b == 32 || 9 <= b <= 13 }

  /** The arguments parser_tokenize still produces when n more fit: `s` is unread, and
      `open` holds the bytes since arg_start, if one is set. */
  function Tokens(s: seq<byte>, quoted: bool, open: Option<seq<byte>>, n: nat): seq<seq<byte>>
    decreases |s|
  {
    if n == 0 then []
    else if s == [] then (if open.Some? then [open.value] else [])
    else
      var b, rest := s[0], s[1..];
      if b == QUOTE && quoted then
        [if open.Some? then open.value else []] + Tokens(rest, false, None, n - 1)
      else if b == QUOTE then Tokens(rest, true, Some([]), n)
      else if IsSpace(b) && !quoted then
        if open.Some? then [open.value] + Tokens(rest, false, None, n - 1)
        else Tokens(rest, false, None, n)
      else Tokens(rest, quoted, Some(if open.Some? then open.value + [b] else [b]), n)
  }

  function Tokenized(line: seq<byte>, maxArgs: int): seq<seq<byte>> {
    Tokens(line, false, None, if maxArgs < 0 then 0 else maxArgs)
  }

  /** strdup from an index of the copy up to its next NUL. */
  method StrDup(copy: array<byte>, start: nat, ghost end: nat) returns (s: seq<byte>)
    requires start <= end < copy.Length && copy[end] == 0
    requires forall k :: start <= k < end ==> copy[k] != 0
    ensures s == copy[start..end]
  {
    var i := start;
    while copy[i] != 0
      invariant start <= i <= end
      decreases end - i
    {
      i := i + 1;
    }
    s := copy[start..i];
  }

  /** Ends the argument at p and copies it. */
  method CutArgument(copy: array<byte>, line: Line, start: nat, p: nat) returns (arg: seq<byte>)
    requires start <= p < |line| == copy.Length - 1 && copy[start..p] == line[start..p]
    modifies copy
    ensures arg == line[start..p] && copy[p + 1..|line|] == old(copy[p + 1..|line|])
    ensures copy[|line|] == old(copy[|line|])
  {
    copy[p] := 0;
    NoNul(line, start, p, copy[..]);
    arg := StrDup(copy, start, p);
  }

  /** The bytes from arg_start up to p. */
  function Open(line: seq<byte>, start: Option<nat>, p: nat): Option<seq<byte>> {
    if start.Some? && start.value <= p <= |line| then Some(line[start.value..p]) else None
  }

  /** parser_tokenize: reads a writable copy of the line and ends each argument with a NUL. */
  method ParserTokenize(line: Line, maxArgs: int) returns (argv: seq<seq<byte>>)
    ensures argv == Tokenized(line, maxArgs)
  {
    hide Tokens, Open;
    var n := |line|;
    var copy := new byte[n + 1](i requires 0 <= i <= n => if i < n then line[i] else 0);
    argv := [];
    ghost var max := if maxArgs < 0 then 0 else maxArgs;
    var p: nat, inQuotes, argStart: Option<nat> := 0, false, None;
    NothingRead(line, max);
    while copy[p] != 0 && |argv| < maxArgs
      invariant p <= n && copy.Length == n + 1 && |argv| <= max
      invariant copy[p..n] == line[p..] && copy[n] == 0
      invariant argStart.Some? ==> argStart.value <= p && copy[argStart.value..p] == line[argStart.value..p]
      invariant inQuotes ==> argStart.Some?
      invariant argv + Tokens(line[p..], inQuotes, Open(line, argStart, p), max - |argv|) == Tokenized(line, maxArgs)
      decreases n - p
    {
      NextByte(line, p, copy[..], n);
      TokensStep(line, p, inQuotes, argStart, max - |argv|);
      ghost var more := Tokens(line[p + 1..], false, None, max - |argv| - 1);
      if copy[p] == QUOTE {
        if inQuotes {
          var arg := CutArgument(copy, line, argStart.value, p);
          Assoc(argv, [arg], more);
          argv := argv + [arg];
          argStart := None;
          inQuotes := false;
        } else {
          inQuotes := true;
          argStart := Some(p + 1);
        }
      } else if IsSpace(copy[p]) && !inQuotes {
        if argStart.Some? {
          var arg := CutArgument(copy, line, argStart.value, p);
          Assoc(argv, [arg], more);
          argv := argv + [arg];
          argStart := None;
        }
      } else {
        if argStart.None? {
          argStart := Some(p);
        }
        SliceSnoc(line, argStart.value, p);
        SliceSnoc(copy[..], argStart.value, p);
      }
      p := p + 1;
    }
    if p < n {
      NextByte(line, p, copy[..], n);
    }
    TokensEnd(line, p, inQuotes, argStart, max - |argv|);
    if argStart.Some? && |argv| < maxArgs {
      NoNul(line, argStart.value, p, copy[..]);
      var arg := StrDup(copy, argStart.value, n);
      argv := argv + [arg];
    }
  }

  lemma NothingRead(line: seq<byte>, n: nat)
    ensures [] + Tokens(line[0..], false, Open(line, None, 0), n) == Tokens(line, false, None, n)
  {
    hide Tokens;
    NoneLeft(line);
    NoneLeft(Tokens(line, false, None, n));
  }

  /** One byte read. */
  lemma TokensStep(line: seq<byte>, p: nat, quoted: bool, start: Option<nat>, n: nat)
    requires p < |line| && 0 < n && (start.Some? ==> start.value <= p)
    ensures var b, rest := line[p], line[p + 1..];
            Tokens(line[p..], quoted, Open(line, start, p), n) ==
            if b == QUOTE && quoted then
              [if start.Some? then line[start.value..p] else []] + Tokens(rest, false, Open(line, None, p + 1), n - 1)
            else if b == QUOTE then Tokens(rest, true, Open(line, Some(p + 1), p + 1), n)
            else if IsSpace(b) && !quoted then
              if start.Some? then [line[start.value..p]] + Tokens(rest, false, Open(line, None, p + 1), n - 1)
              else Tokens(rest, false, Open(line, None, p + 1), n)
            else Tokens(rest, quoted, Open(line, Some(if start.Some? then start.value else p), p + 1), n)
    ensures Open(line, None, p + 1) == None
  {
    DropDrop(line, p, 1);
    assert [line[p]] == line[p..p + 1] && line[p + 1..p + 1] == [];
    if start.Some? {
      SliceSnoc(line, start.value, p);
    }
  }

  lemma TokensEnd(line: seq<byte>, p: nat, quoted: bool, start: Option<nat>, n: nat)
    requires p <= |line| && (start.Some? ==> start.value <= p) && (n == 0 || p == |line|)
    ensures Tokens(line[p..], quoted, Open(line, start, p), n) ==
            if n == 0 || start.None? then [] else [line[start.value..p]]
  {}

  lemma NextByte(line: Line, p: nat, copy: seq<byte>, n: nat)
    requires p < n == |line| < |copy| && copy[p..n] == line[p..]
    ensures line[p] == copy[p] != 0 && copy[p + 1..n] == line[p + 1..]
  {
    SliceCons(copy, p, n);
    HeadTail(line[p..]);
    DropDrop(line, p, 1);
    assert line[p] in line;
  }

  lemma NoNul(line: Line, a: nat, p: nat, copy: seq<byte>)
    requires a <= p <= |line| && p <= |copy| && copy[a..p] == line[a..p]
    ensures forall k :: a <= k < p ==> copy[k] != 0
  {
    forall k | a <= k < p ensures copy[k] != 0 {
      assert copy[a..p][k - a] == line[a..p][k - a] == line[k] && line[k] in line;
    }
  }

  // ----- round trips

  function Take<T>(s: seq<T>, n: nat): seq<T> { if n < |s| then s[..n] else s }

  /** A quoted argument. */
  function Quoted(t: seq<byte>): seq<byte> { [QUOTE] + t + [QUOTE] }

  /** Words joined by single spaces. */
  function Joined(ws: seq<seq<byte>>): seq<byte> {
    if ws == [] then [] else if |ws| == 1 then ws[0] else ws[0] + [SPACE] + Joined(ws[1..])
  }

  function QuoteAll(ts: seq<seq<byte>>): (r: seq<seq<byte>>)
    ensures |r| == |ts|
  {
    if ts == [] then [] else [Quoted(ts[0])] + QuoteAll(ts[1..])
  }

  /** The loop of main that builds the command line from its arguments. */
  method JoinArguments(args: seq<Line>) returns (line: Line)
    ensures line == Joined(args)
  {
    line := [];
    assert Joined(args[..0]) + [] == [];
    hide Joined;
    for i := 0 to |args|
      invariant 0 !in line
      invariant line == Joined(args[..i]) + (if 0 < i < |args| then [SPACE] else [])
    {
      JoinedSnoc(args[..i], args[i]);
      TakeSnoc(args, i);
      NoneLeft(Joined(args[..i]));
      line := line + args[i];
      if i < |args| - 1 {
        line := line + [SPACE];
      } else {
        NoneLeft(line);
      }
    }
    NoneLeft(args);
    NoneLeft(Joined(args));
  }

  lemma {:induction false} JoinedSnoc(ws: seq<seq<byte>>, w: seq<byte>)
    ensures Joined(ws + [w]) == if ws == [] then w else Joined(ws) + [SPACE] + w
  {
    if ws == [] {
      assert ws + [w] == [w];
    } else {
      assert (ws + [w])[1..] == ws[1..] + [w];
      JoinedSnoc(ws[1..], w);
      if |ws| == 1 {
        assert ws[1..] == [];
      } else {
        Assoc(ws[0] + [SPACE], Joined(ws[1..]), [SPACE]);
        Assoc(ws[0] + [SPACE], Joined(ws[1..]) + [SPACE], w);
      }
    }
  }

  /** Inside quotes everything up to the next quote belongs to the argument. */
  lemma {:induction false} UpToQuote(t: seq<byte>, rest: seq<byte>, acc: seq<byte>, n: nat)
    requires QUOTE !in t && 0 < n
    ensures Tokens(t + ([QUOTE] + rest), true, Some(acc), n) == [acc + t] + Tokens(rest, false, None, n - 1)
    decreases |t|
  {
    var s := t + ([QUOTE] + rest);
    if t == [] {
      assert s == [QUOTE] + rest && s[1..] == rest && acc + t == acc;
    } else {
      assert s[0] == t[0] && t[0] in t && s[1..] == t[1..] + ([QUOTE] + rest);
      assert forall b :: b in t[1..] ==> b in t;
      UpToQuote(t[1..], rest, acc + [t[0]], n);
      assert acc + [t[0]] + t[1..] == acc + t;
    }
  }

  lemma QuotedFirst(t: seq<byte>, rest: seq<byte>, n: nat)
    requires QUOTE !in t && 0 < n
    ensures Tokens(Quoted(t) + rest, false, None, n) == [t] + Tokens(rest, false, None, n - 1)
  {
    var s := Quoted(t) + rest;
    assert s[0] == QUOTE && s[1..] == t + ([QUOTE] + rest);
    UpToQuote(t, rest, [], n);
    assert [] + t == t;
  }

  lemma SpaceSkipped(s: seq<byte>, n: nat)
    ensures Tokens([SPACE] + s, false, None, n) == Tokens(s, false, None, n)
  {
    assert ([SPACE] + s)[1..] == s;
  }

  /** Quoting every argument and joining with spaces gives back the arguments, empty ones
      and ones with white space included, up to the limit. */
  lemma {:induction false} QuotingRoundTrip(ts: seq<seq<byte>>, n: nat)
    requires forall t :: t in ts ==> QUOTE !in t
    ensures Tokenized(Joined(QuoteAll(ts)), n) == Take(ts, n)
    decreases |ts|
  {
    hide Tokens;
    var qs := QuoteAll(ts);
    NoMore(Joined(qs));
    if ts == [] {
      NothingLeft(n);
    } else if 0 < n {
      var t, rest := ts[0], ts[1..];
      assert t in ts && forall u :: u in rest ==> u in ts;
      assert qs[0] == Quoted(t) && qs[1..] == QuoteAll(rest);
      QuotingRoundTrip(rest, n - 1);
      if rest == [] {
        assert Joined(qs) == Quoted(t) + [];
        QuotedFirst(t, [], n);
        NothingLeft(n - 1);
      } else {
        Assoc(Quoted(t), [SPACE], Joined(qs[1..]));
        QuotedFirst(t, [SPACE] + Joined(qs[1..]), n);
        SpaceSkipped(Joined(qs[1..]), n - 1);
      }
      assert Take(ts, n) == [t] + Take(rest, n - 1);
    }
  }

  lemma NoMore(s: seq<byte>)
    ensures Tokens(s, false, None, 0) == []
  {}

  lemma NothingLeft(n: nat)
    ensures Tokens([], false, None, n) == []
  {}

  predicate IsWord(w: seq<byte>) { w != [] && forall b :: b in w ==> b != QUOTE && !IsSpace(b) }

  lemma {:induction false} WordRead(w: seq<byte>, rest: seq<byte>, acc: seq<byte>, n: nat)
    requires (forall b :: b in w ==> b != QUOTE && !IsSpace(b)) && 0 < n
    ensures Tokens(w + rest, false, Some(acc), n) == Tokens(rest, false, Some(acc + w), n)
    decreases |w|
  {
    if w == [] {
      assert w + rest == rest && acc + w == acc;
    } else {
      assert (w + rest)[0] == w[0] && w[0] in w && (w + rest)[1..] == w[1..] + rest;
      assert forall b :: b in w[1..] ==> b in w;
      WordRead(w[1..], rest, acc + [w[0]], n);
      assert acc + [w[0]] + w[1..] == acc + w;
    }
  }

  lemma WordFirst(w: seq<byte>, rest: seq<byte>, n: nat)
    requires IsWord(w) && 0 < n && (rest == [] || IsSpace(rest[0]))
    ensures Tokens(w + rest, false, None, n) ==
            [w] + Tokens(if rest == [] then [] else rest[1..], false, None, n - 1)
  {
    var s := w + rest;
    assert s[0] == w[0] && w[0] in w && s[1..] == w[1..] + rest;
    assert forall b :: b in w[1..] ==> b in w;
    WordRead(w[1..], rest, [w[0]], n);
    assert [w[0]] + w[1..] == w;
    if rest == [] {
      NothingLeft(n - 1);
    }
  }

  lemma {:induction false} WordsComeBack(ws: seq<seq<byte>>, n: nat)
    requires forall w :: w in ws ==> IsWord(w)
    ensures Tokenized(Joined(ws), n) == Take(ws, n)
    decreases |ws|
  {
    hide Tokens, IsWord;
    NoMore(Joined(ws));
    if ws == [] {
      NothingLeft(n);
    } else if 0 < n {
      var w, rest := ws[0], ws[1..];
      assert w in ws && forall u :: u in rest ==> u in ws;
      WordsComeBack(rest, n - 1);
      if rest == [] {
        assert Joined(ws) == w + [];
        WordFirst(w, [], n);
        NothingLeft(n - 1);
      } else {
        Assoc(w, [SPACE], Joined(rest));
        WordFirst(w, [SPACE] + Joined(rest), n);
        assert ([SPACE] + Joined(rest))[1..] == Joined(rest);
      }
      assert Take(ws, n) == [w] + Take(rest, n - 1);
    }
  }

  /** Tab, newline, vertical tab, form feed, carriage return and space. */
  predicate White(s: seq<byte>) { forall b :: b in s ==> b in {9, 10, 11, 12, 13, 32} }

  /** Bytes that are neither those nor a quote. */
  predicate Black(s: seq<byte>) { forall b :: b in s ==> b !in {9, 10, 11, 12, 13, 32, 34} }

  /** A word and the white space before it. */
  datatype Spaced = Spaced(gap: seq<byte>, word: seq<byte>)
  {
    predicate Ok() { White(gap) && Black(word) && word != [] }
  }

  function Spread(ps: seq<Spaced>, end: seq<byte>): seq<byte> {
    if ps == [] then end else ps[0].gap + (ps[0].word + Spread(ps[1..], end))
  }

  function Words(ps: seq<Spaced>): (ws: seq<seq<byte>>)
    ensures |ws| == |ps| && forall k :: 0 <= k < |ps| ==> ws[k] == ps[k].word
  {
    seq(|ps|, k requires 0 <= k < |ps| => ps[k].word)
  }

  /** Every word but the first has white space before it. */
  predicate Apart(ps: seq<Spaced>) { forall k :: 0 < k < |ps| ==> ps[k].gap != [] }

  lemma {:induction false} WhiteSkipped(g: seq<byte>, s: seq<byte>, n: nat)
    requires White(g)
    ensures Tokens(g + s, false, None, n) == Tokens(s, false, None, n)
  {
    if g == [] {
      NoneLeft(s);
    } else {
      assert g[0] in g && forall b :: b in g[1..] ==> b in g;
      assert (g + s)[1..] == g[1..] + s;
      WhiteSkipped(g[1..], s, n);
    }
  }

  lemma SpreadStarts(ps: seq<Spaced>, end: seq<byte>)
    requires White(end) && ps != [] && forall p :: p in ps ==> p.Ok()
    requires Apart(ps)
    ensures var rest := Spread(ps[1..], end); rest == [] || IsSpace(rest[0])
  {
    if |ps| == 1 {
      assert end != [] ==> end[0] in end;
    } else {
      assert ps[1] in ps && ps[1].gap != [];
      assert ps[1..][0] == ps[1] && ps[1].gap[0] in ps[1].gap;
    }
  }

  /** Words with any white space before, between and after them come back, up to the limit. */
  lemma {:induction false} SpacedWordsComeBack(ps: seq<Spaced>, end: seq<byte>, n: nat)
    requires White(end) && (forall p :: p in ps ==> p.Ok()) && Apart(ps)
    ensures Tokenized(Spread(ps, end), n) == Take(Words(ps), n)
    decreases |ps|
  {
    hide Tokens, White, Black;
    NoMore(Spread(ps, end));
    if ps == [] {
      NoneLeft(end);
      WhiteSkipped(end, [], n);
      NothingLeft(n);
    } else if 0 < n {
      var w, rest := ps[0].word, Spread(ps[1..], end);
      assert ps[0] in ps && forall p :: p in ps[1..] ==> p in ps;
      WhiteSkipped(ps[0].gap, w + rest, n);
      SpreadStarts(ps, end);
      BlackIsWord(w);
      WordFirst(w, rest, n);
      AfterWord(rest, n - 1);
      SpacedWordsComeBack(ps[1..], end, n - 1);
      assert Words(ps) == [w] + Words(ps[1..]);
      assert Take(Words(ps), n) == [w] + Take(Words(ps[1..]), n - 1);
    }
  }

  lemma BlackIsWord(w: seq<byte>)
    requires Black(w) && w != []
    ensures IsWord(w)
  {}

  lemma AfterWord(rest: seq<byte>, n: nat)
    requires rest == [] || IsSpace(rest[0])
    ensures Tokens(if rest == [] then [] else rest[1..], false, None, n) == Tokens(rest, false, None, n)
  {
    if rest == [] {
      NothingLeft(n);
    }
  }

  /** No argument ever contains a quote. */
  lemma {:induction false} ArgumentsHaveNoQuote(s: seq<byte>, quoted: bool, open: Option<seq<byte>>, n: nat)
    requires open.Some? ==> QUOTE !in open.value
    ensures forall t :: t in Tokens(s, quoted, open, n) ==> QUOTE !in t
    decreases |s|
  {
    if n != 0 && s != [] {
      var b, rest := s[0], s[1..];
      if b == QUOTE && quoted {
        ArgumentsHaveNoQuote(rest, false, None, n - 1);
      } else if b == QUOTE {
        ArgumentsHaveNoQuote(rest, true, Some([]), n);
      } else if IsSpace(b) && !quoted {
        ArgumentsHaveNoQuote(rest, false, None, if open.Some? then n - 1 else n);
      } else {
        ArgumentsHaveNoQuote(rest, quoted, Some(if open.Some? then open.value + [b] else [b]), n);
      }
    }
  }

  /** Without quotes in the line every argument is a word. */
  lemma {:induction false} ArgumentsAreWords(s: seq<byte>, open: Option<seq<byte>>, n: nat)
    requires QUOTE !in s && (open.Some? ==> IsWord(open.value))
    ensures forall t :: t in Tokens(s, false, open, n) ==> IsWord(t)
    decreases |s|
  {
    if n != 0 && s != [] {
      var b, rest := s[0], s[1..];
      assert b in s && forall c :: c in rest ==> c in s;
      if IsSpace(b) {
        ArgumentsAreWords(rest, None, if open.Some? then n - 1 else n);
      } else {
        var t := if open.Some? then open.value + [b] else [b];
        assert IsWord(t);
        ArgumentsAreWords(rest, Some(t), n);
      }
    }
  }

  lemma {:induction false} JoinedHasNoQuote(ws: seq<seq<byte>>)
    requires forall w :: w in ws ==> QUOTE !in w
    ensures QUOTE !in Joined(ws)
    decreases |ws|
  {
    if 1 < |ws| {
      assert ws[0] in ws && forall w :: w in ws[1..] ==> w in ws;
      JoinedHasNoQuote(ws[1..]);
    } else if |ws| == 1 {
      assert ws[0] in ws;
    }
  }

  /** The command line that main joins from its arguments comes apart into the same
      arguments exactly when each is non-empty, without quotes and without white space. */
  lemma DirectCommandRoundTrip(args: seq<seq<byte>>, n: nat)
    requires |args| <= n
    ensures Tokenized(Joined(args), n) == args <==> forall w :: w in args ==> IsWord(w)
  {
    hide Tokens, IsWord;
    if forall w :: w in args ==> IsWord(w) {
      WordsComeBack(args, n);
    }
    if Tokenized(Joined(args), n) == args {
      ArgumentsHaveNoQuote(Joined(args), false, None, n);
      JoinedHasNoQuote(args);
      ArgumentsAreWords(Joined(args), None, n);
    }
  }

  /** Text right before an opening quote is dropped: ab"c" has the one argument c. */
  lemma GluedTextIsDropped()
    ensures Tokenized([97, 98, QUOTE, 99, QUOTE], 16) == [[99]]
  {
    assert [97, 98, QUOTE, 99, QUOTE][1..] == [98, QUOTE, 99, QUOTE];
    assert [98, QUOTE, 99, QUOTE][1..] == [QUOTE, 99, QUOTE] && [QUOTE, 99, QUOTE][1..] == [99, QUOTE];
    assert [99, QUOTE][1..] == [QUOTE] && [QUOTE][1..] == [];
    assert Tokens([], false, None, 15) == [];
    assert Tokens([QUOTE], true, Some([99]), 16) == [[99]];
    assert Tokens([99, QUOTE], true, Some([]), 16) == [[99]] by { assert [] + [99] == [99]; }
    assert Tokens([QUOTE, 99, QUOTE], false, Some([97, 98]), 16) == [[99]];
    assert [97] + [98] == [97, 98];
    assert Tokens([98, QUOTE, 99, QUOTE], false, Some([97]), 16) == [[99]];
  }
}
