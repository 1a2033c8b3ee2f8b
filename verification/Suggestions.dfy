/** Walking through the suggested commands with the arrow keys (cli/linenoise.c:1249-1334):
    the index, the saved query and the line they put into the edit buffer. */
module Suggestions {
  import opened Seqs
  import opened Utf8
  import opened History
  import opened DmesgLog
  import opened Document
  import opened Render

  const SLASH: byte := 47
  const MAX_MATCHES: nat := 16
  /** sizeof(original_query), lower_cmd and lower_query */
  const QUERY_SIZE: nat := 4096
  const LOWER_SIZE: nat := 128

  /** "package" */
  const PACKAGE: Line := [112, 97, 99, 107, 97, 103, 101]
  /** "packet" */
  const PACKET: Line := [112, 97, 99, 107, 101, 116]

  datatype Item = Item(command: Line, context: Line)

  /** The palette, the current context, and the bytes of the buffer that a copy may use. */
  datatype Env = Env(items: seq<Item>, ctx: Line, room: nat)

  function UpTo(s: Line, n: nat): Line { if |s| <= n then s else s[..n] }

  predicate IsMatch(item: Item, ctx: Line, query: Line) {
    && item.context == ctx
    && (query == [] ||
        var command, start := Lowered(UpTo(item.command, LOWER_SIZE - 1)), Lowered(UpTo(query, LOWER_SIZE - 1));
        start <= command || (command == PACKAGE && start <= PACKET))
  }

  /** The first max commands that match, in the palette's order. */
  function MatchesFrom(items: seq<Item>, ctx: Line, query: Line, max: nat): (ms: seq<Line>)
    ensures |ms| <= max
  {
    if items == [] || max == 0 then []
    else if IsMatch(items[0], ctx, query) then [items[0].command] + MatchesFrom(items[1..], ctx, query, max - 1)
    else MatchesFrom(items[1..], ctx, query, max)
  }

  function Matches(env: Env, input: Line): seq<Line> {
    if At(input, 0) != SLASH then [] else MatchesFrom(env.items, env.ctx, input[1..], MAX_MATCHES)
  }

  /** get_suggestion_matches. */
  method GetSuggestionMatches(env: Env, input: Line) returns (ms: seq<Line>)
    ensures ms == Matches(env, input)
  {
    if At(input, 0) != SLASH {
      return [];
    }
    ms := ScanPalette(env, input[1..]);
  }

  method ScanPalette(env: Env, query: Line) returns (ms: seq<Line>)
    ensures ms == MatchesFrom(env.items, env.ctx, query, MAX_MATCHES)
  {
    hide *;
    ms := [];
    var i := 0;
    StartOfScan(env, query);
    while i < |env.items| && |ms| < MAX_MATCHES
      invariant 0 <= i <= |env.items| && |ms| <= MAX_MATCHES
      invariant ms + MatchesFrom(env.items[i..], env.ctx, query, MAX_MATCHES - |ms|) ==
                MatchesFrom(env.items, env.ctx, query, MAX_MATCHES)
    {
      var item := env.items[i];
      NextItem(env, i, query, MAX_MATCHES - |ms|);
      i := i + 1;
      if IsMatch(item, env.ctx, query) {
        Assoc(ms, [item.command], MatchesFrom(env.items[i..], env.ctx, query, MAX_MATCHES - |ms| - 1));
        ms := ms + [item.command];
      }
    }
    NoMore(env.items[i..], env.ctx, query, MAX_MATCHES - |ms|);
    assert ms + [] == ms;
  }

  lemma StartOfScan(env: Env, query: Line)
    ensures [] + MatchesFrom(env.items[0..], env.ctx, query, MAX_MATCHES) ==
            MatchesFrom(env.items, env.ctx, query, MAX_MATCHES)
  {
    hide MatchesFrom;
    assert env.items[0..] == env.items;
  }

  lemma NextItem(env: Env, i: nat, query: Line, max: nat)
    requires i < |env.items| && 0 < max
    ensures MatchesFrom(env.items[i..], env.ctx, query, max) ==
            if IsMatch(env.items[i], env.ctx, query) then
              [env.items[i].command] + MatchesFrom(env.items[i + 1..], env.ctx, query, max - 1)
            else MatchesFrom(env.items[i + 1..], env.ctx, query, max)
  {
    hide IsMatch;
    DropDrop(env.items, i, 1);
  }

  lemma NoMore(items: seq<Item>, ctx: Line, query: Line, max: nat)
    requires items == [] || max == 0
    ensures MatchesFrom(items, ctx, query, max) == []
  {}

  // ----- which commands match

  /** The first letters of s are those of q, in either case. */
  predicate StartsAs(s: seq<byte>, q: seq<byte>) {
    |q| <= |s| && forall k :: 0 <= k < |q| ==> SameLetter(q[k], s[k])
  }

  lemma StartsAsLowered(s: seq<byte>, q: seq<byte>)
    ensures Lowered(q) <= Lowered(s) <==> StartsAs(s, q)
  {
    if |q| <= |s| {
      forall k | 0 <= k < |q| ensures Lowered(q)[k] == Lowered(s)[k] <==> SameLetter(q[k], s[k]) {
        LowerMeans(q[k], s[k]);
      }
      var x, y := Lowered(q), Lowered(s)[..|q|];
      if StartsAs(s, q) {
        assert x == y;
      }
    }
  }

  /** A query finds, in its own context, exactly the commands that begin with it in either
      case, and "package" by what begins "packet". */
  lemma MatchMeans(item: Item, ctx: Line, query: Line)
    requires |item.command| < 128 && |query| < 128
    ensures IsMatch(item, ctx, query) <==>
              && item.context == ctx
              && (|| StartsAs(item.command, query)
                  || (&& |item.command| == 7 && StartsAs([112, 97, 99, 107, 97, 103, 101], item.command)
                      && StartsAs([112, 97, 99, 107, 101, 116], query)))
  {
    hide Lowered, StartsAs;
    StartsAsLowered(item.command, query);
    StartsAsLowered(PACKET, query);
    StartsAsLowered(PACKAGE, item.command);
    LowerWords();
    WholeWord(item.command);
    StartOfNothing(item.command, query);
  }

  lemma LowerWords()
    ensures Lowered(PACKAGE) == PACKAGE && Lowered(PACKET) == PACKET
  {}

  lemma WholeWord(s: seq<byte>)
    ensures Lowered(s) == PACKAGE <==> |s| == 7 && Lowered(s) <= PACKAGE
  {}

  lemma StartOfNothing(s: seq<byte>, q: seq<byte>)
    ensures q == [] ==> StartsAs(s, q)
  {}

  /** The matches are commands of the palette that match, and a palette with at most
      sixteen of them misses none. */
  lemma {:induction false} MatchesAre(items: seq<Item>, ctx: Line, query: Line, max: nat)
    ensures forall c :: c in MatchesFrom(items, ctx, query, max) ==>
                          exists item :: item in items && item.command == c && IsMatch(item, ctx, query)
    ensures |MatchesFrom(items, ctx, query, max)| < max ==>
              forall item :: item in items && IsMatch(item, ctx, query) ==>
                               item.command in MatchesFrom(items, ctx, query, max)
    decreases |items|
  {
    hide IsMatch;
    if items != [] && max != 0 {
      HeadTail(items);
      var more := if IsMatch(items[0], ctx, query) then max - 1 else max;
      MatchesAre(items[1..], ctx, query, more);
      forall c | c in MatchesFrom(items, ctx, query, max)
        ensures exists item :: item in items && item.command == c && IsMatch(item, ctx, query)
      {
        if c in MatchesFrom(items[1..], ctx, query, more) {
          var item :| item in items[1..] && item.command == c && IsMatch(item, ctx, query);
          assert item in items;
        } else {
          assert items[0] in items;
        }
      }
    }
  }

  /** At most sixteen commands are offered, and below that none is missed. */
  lemma OfferedAre(env: Env, input: Line)
    requires At(input, 0) == 47
    ensures |Matches(env, input)| <= 16
    ensures forall c :: c in Matches(env, input) ==>
                          exists item :: item in env.items && item.command == c && IsMatch(item, env.ctx, input[1..])
    ensures |Matches(env, input)| < 16 ==>
              forall item :: item in env.items && IsMatch(item, env.ctx, input[1..]) ==>
                               item.command in Matches(env, input)
  {
    assert MAX_MATCHES == 16;
    hide IsMatch, MatchesFrom;
    MatchesAre(env.items, env.ctx, input[1..], MAX_MATCHES);
  }

  // ----- one press of an arrow key

  datatype Nav = Nav(selected: int, original: Line, text: Line)

  /** The index selects nothing, or one of the matches of the saved query. */
  predicate NavOk(env: Env, nav: Nav) {
    && -1 <= nav.selected
    && (nav.selected >= 0 ==> At(nav.original, 0) == SLASH && nav.selected < |Matches(env, nav.original)|)
  }

  function Query(nav: Nav): Line {
    if nav.selected >= 0 && At(nav.original, 0) == SLASH then nav.original else nav.text
  }

  predicate Responds(env: Env, nav: Nav, down: bool) {
    At(nav.text, 0) == SLASH && Matches(env, Query(nav)) != [] && (down || nav.selected != -1)
  }

  /** Where the index goes when there are count matches. */
  function Moved(count: nat, selected: int, down: bool): int {
    if down then (if selected + 1 >= count then -1 else selected + 1)
    else if selected == -1 then -1 else selected - 1
  }

  /** linenoiseEditSuggestionNext. */
  function Pressed(env: Env, nav: Nav, down: bool): Nav
    requires NavOk(env, nav)
  {
    if !Responds(env, nav, down) then nav
    else
      var ms := Matches(env, Query(nav));
      var original := if nav.selected == -1 then UpTo(nav.text, QUERY_SIZE - 1) else nav.original;
      var selected := if nav.selected == -1 then 0 else Moved(|ms|, nav.selected, down);
      Nav(selected, original, UpTo(if selected == -1 then original else [SLASH] + ms[selected], env.room))
  }

  /** The edit buffer and the static variables of the navigation. */
  class SuggestionLine {
    const items: seq<Item>
    const ctx: Line
    const buflen: nat
    const buf: array<byte>
    var len: nat
    var pos: nat
    var selected: int
    var original: Line

    ghost predicate Valid()
      reads this
    {
      1 <= buflen < buf.Length && NavOk(Room(), Nav(selected, original, []))
    }

    ghost function Room(): Env {
      Env(items, ctx, if buflen == 0 then 0 else buflen - 1)
    }

    ghost function Model(): Nav
      reads this, buf
    {
      Nav(selected, original, CStr(buf[..]))
    }

    /** strncpy of the saved query and its terminator. */
    method Restore()
      requires Valid()
      modifies buf
      ensures CStr(buf[..]) == UpTo(original, Room().room)
    {
      forall i | 0 <= i < buflen {
        buf[i] := if i < |original| then original[i] else 0;
      }
      buf[buflen - 1] := 0;
      CStrOf(buf[..], UpTo(original, buflen - 1));
    }

    /** snprintf of a slash and a command. */
    method PrintCommand(command: Line)
      requires Valid()
      modifies buf
      ensures CStr(buf[..]) == UpTo([SLASH] + command, Room().room)
    {
      var s := UpTo([SLASH] + command, buflen - 1);
      forall i | 0 <= i < |s| {
        buf[i] := s[i];
      }
      buf[|s|] := 0;
      CStrOf(buf[..], s);
    }

    method SuggestionNext(down: bool) returns (used: bool)
      requires Valid()
      modifies this`len, this`pos, this`selected, this`original, buf
      ensures Valid() && used == old(Responds(Room(), Model(), down))
      ensures Model() == old(Pressed(Room(), Model(), down))
      ensures used ==> len == pos == |Model().text|
      ensures !used ==> len == old(len) && pos == old(pos)
    {
      hide Matches, CStr;
      ghost var nav := Model();
      var line := CStr(buf[..]);
      if At(line, 0) != SLASH {
        return false;
      }
      var query := if selected >= 0 && At(original, 0) == SLASH then original else line;
      var ms := GetSuggestionMatches(Env(items, ctx, buflen - 1), query);
      if |ms| == 0 {
        return false;
      }
      SavedQueryFinds(Room(), line);
      if down {
        if selected == -1 {
          original := UpTo(line, QUERY_SIZE - 1);
          selected := 0;
        } else {
          selected := selected + 1;
          if selected >= |ms| {
            selected := -1;
          }
        }
      } else if selected == -1 {
        return false;
      } else {
        selected := selected - 1;
      }
      if selected == -1 {
        Restore();
      } else {
        PrintCommand(ms[selected]);
      }
      line := CStr(buf[..]);
      len := |line|;
      pos := len;
      return true;
    }
  }

  lemma {:induction false} CStrOf(b: seq<byte>, s: Line)
    requires |s| < |b| && b[|s|] == 0 && forall i :: 0 <= i < |s| ==> b[i] == s[i]
    ensures CStr(b) == s
  {
    if s != [] {
      assert s[0] in s;
      CStrOf(b[1..], s[1..]);
    }
  }

  // ----- the saved query finds what the whole query finds

  lemma {:induction false} SameMatches(items: seq<Item>, ctx: Line, q: Line, r: Line, max: nat)
    requires UpTo(q, LOWER_SIZE - 1) == UpTo(r, LOWER_SIZE - 1)
    ensures MatchesFrom(items, ctx, q, max) == MatchesFrom(items, ctx, r, max)
    decreases |items|
  {
    if items != [] && max != 0 {
      SameMatches(items[1..], ctx, q, r, max - 1);
      SameMatches(items[1..], ctx, q, r, max);
    }
  }

  /** Cutting the query to its 4096 bytes loses no match: only 127 bytes of it count. */
  lemma SavedQueryFinds(env: Env, q: Line)
    ensures Matches(env, UpTo(q, QUERY_SIZE - 1)) == Matches(env, q)
    ensures At(UpTo(q, QUERY_SIZE - 1), 0) == At(q, 0)
  {
    if At(q, 0) == SLASH && QUERY_SIZE - 1 < |q| {
      var r := q[..QUERY_SIZE - 1];
      CutOfTake(q, QUERY_SIZE - 1, 1);
      CutOfDrop(q, 1, QUERY_SIZE - 2);
      TakeTake(q[1..], QUERY_SIZE - 2, LOWER_SIZE - 1);
      SameMatches(env.items, env.ctx, q[1..], r[1..], MAX_MATCHES);
    }
  }

  // ----- whole runs

  /** An arrow key; an edit, which resets the navigation; or a folded paste, which changes
      the line and does not. */
  datatype Step = Press(down: bool) | Edit(text: Line) | FoldedPaste(text: Line)

  /** The index stays in range whatever is pressed, edited and pasted. */
  function After(env: Env, nav: Nav, steps: seq<Step>): (r: Nav)
    requires NavOk(env, nav)
    ensures NavOk(env, r)
    decreases |steps|
  {
    if steps == [] then nav
    else
      match steps[0]
      case Press(down) => PressedOk(env, nav, down); After(env, Pressed(env, nav, down), steps[1..])
      case Edit(text) => After(env, Nav(-1, [], text), steps[1..])
      case FoldedPaste(text) => After(env, nav.(text := text), steps[1..])
  }

  lemma PressedOk(env: Env, nav: Nav, down: bool)
    requires NavOk(env, nav)
    ensures NavOk(env, Pressed(env, nav, down))
  {
    hide Matches;
    SavedQueryFinds(env, nav.text);
  }

  /** What the line holds while the matches of q are walked through. */
  predicate Walking(env: Env, q: Line, nav: Nav) {
    var ms := Matches(env, q);
    && -1 <= nav.selected < |ms|
    && (nav.selected >= 0 ==> nav.original == q)
    && nav.text == if nav.selected == -1 then q else UpTo([SLASH] + ms[nav.selected], env.room)
  }

  function Presses(downs: seq<bool>): (steps: seq<Step>)
    ensures |steps| == |downs|
  {
    seq(|downs|, i requires 0 <= i < |downs| => Press(downs[i]))
  }

  function Position(count: nat, selected: int, downs: seq<bool>): int
    decreases |downs|
  {
    if downs == [] then selected else Position(count, Moved(count, selected, downs[0]), downs[1..])
  }

  lemma WalkingStep(env: Env, q: Line, nav: Nav, down: bool)
    requires At(q, 0) == SLASH && |q| < QUERY_SIZE && |q| <= env.room && Walking(env, q, nav)
    ensures NavOk(env, nav) && Walking(env, q, Pressed(env, nav, down))
    ensures Pressed(env, nav, down).selected == Moved(|Matches(env, q)|, nav.selected, down)
  {
    hide Matches;
  }

  /** Up undoes Down before the last match, and Down then undoes Up behind the query. */
  lemma UpUndoesDown(env: Env, q: Line, nav: Nav)
    requires At(q, 0) == SLASH && |q| < QUERY_SIZE && |q| <= env.room && Walking(env, q, nav)
    ensures NavOk(env, nav)
    ensures var down := Pressed(env, nav, true);
            && NavOk(env, down)
            && (nav.selected + 1 < |Matches(env, q)| ==>
                  && down.selected == nav.selected + 1
                  && Pressed(env, down, false).selected == nav.selected
                  && Pressed(env, down, false).text == nav.text)
    ensures var up := Pressed(env, nav, false);
            && NavOk(env, up)
            && (0 <= nav.selected ==> Pressed(env, up, true) == nav)
  {
    hide Matches, Walking, Pressed, NavOk;
    WalkingOk(env, q, nav);
    WalkingStep(env, q, nav, true);
    WalkingStep(env, q, nav, false);
    var down, up := Pressed(env, nav, true), Pressed(env, nav, false);
    WalkingOk(env, q, down);
    WalkingOk(env, q, up);
    WalkingStep(env, q, down, false);
    WalkingStep(env, q, up, true);
    SamePlace(env, q, nav, Pressed(env, down, false));
    SamePlace(env, q, nav, Pressed(env, up, true));
  }

  /** The index decides the line, and behind the query all that is stored. */
  lemma SamePlace(env: Env, q: Line, a: Nav, b: Nav)
    requires Walking(env, q, a) && Walking(env, q, b)
    ensures -1 <= a.selected < |Matches(env, q)|
    ensures a.selected == b.selected ==> a.text == b.text && (0 <= a.selected ==> a == b)
  {
    hide Matches;
  }

  /** A query that fits comes back: after any presses the line is the query itself or the
      match the index has moved to, and the index alone decides which. */
  lemma {:induction false} PressesShow(env: Env, q: Line, nav: Nav, downs: seq<bool>)
    requires At(q, 0) == SLASH && |q| < QUERY_SIZE && |q| <= env.room && Walking(env, q, nav)
    ensures NavOk(env, nav)
    ensures var r := After(env, nav, Presses(downs));
            Walking(env, q, r) && r.selected == Position(|Matches(env, q)|, nav.selected, downs)
    decreases |downs|
  {
    hide Matches, Walking, Pressed, NavOk, Moved;
    WalkingOk(env, q, nav);
    if downs != [] {
      WalkingStep(env, q, nav, downs[0]);
      assert Presses(downs)[1..] == Presses(downs[1..]);
      PressesShow(env, q, Pressed(env, nav, downs[0]), downs[1..]);
    }
  }

  lemma WalkingOk(env: Env, q: Line, nav: Nav)
    requires At(q, 0) == SLASH && Walking(env, q, nav)
    ensures NavOk(env, nav)
  {}

  /** k presses of Down show the k-th match. */
  lemma {:induction false} DownsShow(env: Env, nav: Nav, k: nat)
    requires nav.selected == -1 && At(nav.text, 0) == SLASH && 1 <= env.room
    requires 1 <= k <= |Matches(env, nav.text)|
    ensures After(env, nav, seq(k, _ => Press(true))) ==
            Nav(k - 1, UpTo(nav.text, QUERY_SIZE - 1), UpTo([SLASH] + Matches(env, nav.text)[k - 1], env.room))
  {
    hide Matches;
    SavedQueryFinds(env, nav.text);
    if k == 1 {
      assert seq(1, _ => Press(true))[1..] == [];
    } else {
      DownsShow(env, nav, k - 1);
      OneMore(env, nav, k - 1);
    }
  }

  /** One more press after k of them. */
  lemma {:induction false} OneMore(env: Env, nav: Nav, k: nat)
    requires NavOk(env, nav)
    ensures After(env, nav, seq(k + 1, _ => Press(true))) ==
            Pressed(env, After(env, nav, seq(k, _ => Press(true))), true)
    decreases k
  {
    hide Pressed, NavOk;
    assert seq(k + 1, _ => Press(true))[1..] == seq(k, _ => Press(true));
    if k == 0 {
      assert seq(1, _ => Press(true))[1..] == [];
      PressedOk(env, nav, true);
    } else {
      PressedOk(env, nav, true);
      OneMore(env, Pressed(env, nav, true), k - 1);
      assert seq(k, _ => Press(true))[1..] == seq(k - 1, _ => Press(true));
    }
  }

  lemma {:induction false} SomeMatch(items: seq<Item>, ctx: Line, query: Line, max: nat) returns (item: Item)
    requires MatchesFrom(items, ctx, query, max) != []
    ensures item in items && IsMatch(item, ctx, query)
  {
    hide IsMatch;
    item := items[0];
    if !IsMatch(item, ctx, query) {
      item := SomeMatch(items[1..], ctx, query, max);
    }
  }

  /** A query that matches a command which is not cut for comparing is no longer than it,
      or than "packet". */
  lemma MatchIsShort(item: Item, ctx: Line, query: Line)
    requires IsMatch(item, ctx, query) && |item.command| < LOWER_SIZE - 1
    ensures |query| < LOWER_SIZE - 1
  {}

  /** Once around all matches the query is back, as the commands of cli/palette.c are all
      shorter than 127 bytes: a query that matches one is short, and fits everywhere. */
  lemma AroundAlwaysRestores(env: Env, nav: Nav)
    requires forall item :: item in env.items ==> |item.command| < LOWER_SIZE - 1
    requires LOWER_SIZE <= env.room
    requires nav.selected == -1 && At(nav.text, 0) == SLASH && Matches(env, nav.text) != []
    ensures var r := After(env, nav, seq(|Matches(env, nav.text)| + 1, _ => Press(true)));
            r.selected == -1 && r.text == nav.text
  {
    var item := SomeMatch(env.items, env.ctx, nav.text[1..], MAX_MATCHES);
    MatchIsShort(item, env.ctx, nav.text[1..]);
    hide Matches, After, IsMatch;
    AroundRestores(env, nav);
  }

  /** For any palette the query is back exactly when it fits both the saved copy
      and the buffer less one byte; otherwise it comes back cut. */
  lemma AroundRestores(env: Env, nav: Nav)
    requires nav.selected == -1 && At(nav.text, 0) == SLASH && 1 <= env.room && Matches(env, nav.text) != []
    ensures var r := After(env, nav, seq(|Matches(env, nav.text)| + 1, _ => Press(true)));
            && r.selected == -1 && r.text == UpTo(UpTo(nav.text, 4095), env.room)
            && (r.text == nav.text <==> |nav.text| < 4096 && |nav.text| <= env.room)
  {
    assert QUERY_SIZE == 4096;
    hide Matches, After;
    var count := |Matches(env, nav.text)|;
    SavedQueryFinds(env, nav.text);
    DownsShow(env, nav, count);
    OneMore(env, nav, count);
  }

  // ----- folds left behind

  lemma {:induction false} FoldsOver(fs: seq<Fold>, lo: nat, s: seq<byte>, t: seq<byte>)
    requires FoldsFrom(fs, lo, s) && forall b :: b in t ==> b < 0x80
    ensures Sorted(fs, lo)
    ensures lo <= |t| ==> (FoldsFrom(fs, lo, t) <==> EndOf(fs, lo) <= |t|)
  {
    if fs != [] {
      FoldsOver(fs[1..], fs[0].end, s, t);
      EndGrows(fs[1..], fs[0].end, s);
      assert EndOf(fs, lo) == EndOf(fs[1..], fs[0].end);
      if fs[0].end <= |t| {
        AsciiBoundary(t, fs[0].start);
        AsciiBoundary(t, fs[0].end);
      }
    }
  }

  lemma {:induction false} EndGrows(fs: seq<Fold>, lo: nat, s: seq<byte>)
    requires FoldsFrom(fs, lo, s)
    ensures lo <= EndOf(fs, lo)
  {
    if fs != [] {
      EndGrows(fs[1..], fs[0].end, s);
      assert EndOf(fs, lo) == EndOf(fs[1..], fs[0].end);
    }
  }

  lemma AsciiBoundary(t: seq<byte>, i: nat)
    requires i <= |t| && forall b :: b in t ==> b < 0x80
    ensures Boundary(t, i)
  {
    if i < |t| {
      assert t[i] in t;
    }
  }

  /** A command put into the buffer leaves the folds of the old text in place.  They stay
      sorted, so rendering still skips or shows them safely, but the line keeps the editor's
      invariant exactly when the last of them still ends inside the new text. */
  lemma StaleFolds(d: Doc, t: seq<byte>)
    requires Document.Inv(d) && IsText(t) && forall b :: b in t ==> b < 0x80
    ensures Sorted(d.folds, 0) && Fits(LiveFolds(d.folds, |t|), 0, |t|)
    ensures Document.Inv(Doc(t, |t|, d.folds)) <==> EndOf(d.folds, 0) <= |t|
  {
    hide IsText;
    FoldsOver(d.folds, 0, d.text, t);
    LiveFoldsFit(d.folds, 0, |t|);
    AsciiBoundary(t, |t|);
  }

  /** The line after an arrow key: a suggestion replaces the text and not the folds. */
  function Suggested(env: Env, d: Doc, nav: Nav, down: bool): Doc
    requires NavOk(env, nav)
  {
    if Responds(env, nav, down) then
      var text := Pressed(env, nav, down).text;
      Doc(text, |text|, d.folds)
    else d
  }

  /** "file", "process" and "main" */
  const FILE: Line := [102, 105, 108, 101]
  const PROCESS: Line := [112, 114, 111, 99, 101, 115, 115]
  const MAIN: Line := [109, 97, 105, 110]

  /** Reached from the line "/" with Down, a folded paste and Down again, with any palette
      that offers "file" and "process" first: the line is "/process", and the fold of the
      paste, from 5 to 9, ends past it. */
  lemma SuggestionLeavesFold(env: Env, x: Line)
    requires 2 <= |Matches(env, [SLASH])| && Matches(env, [SLASH])[0] == FILE && Matches(env, [SLASH])[1] == PROCESS
    requires 8 <= env.room && x == [97, LF, 98, 99]
    ensures var nav, d := Nav(-1, [], [SLASH]), Doc([SLASH], 1, []);
            && NavOk(env, nav)
            && var (nav1, d1) := (Pressed(env, nav, true), Suggested(env, d, nav, true));
            && NavOk(env, nav1) && Document.Inv(d1) && IsText(x) && ShouldFold(x)
            && var d2 := InsertFolded(d1, x);
            && 0 !in d2.text && var nav2 := nav1.(text := d2.text);
            && NavOk(env, nav2) && Document.Inv(d2)
            && Suggested(env, d2, nav2, true) == Doc([SLASH] + PROCESS, 8, [Fold(5, 9)])
            && !Document.Inv(Suggested(env, d2, nav2, true))
  {
    hide Matches, Document.Inv, InsertFolded, IsText;
    var nav := Nav(-1, [], [SLASH]);
    var nav1 := Pressed(env, nav, true);
    assert nav1 == Nav(0, [SLASH], [SLASH] + FILE);
    PastedAfterFile(x);
    var nav2 := nav1.(text := [SLASH] + FILE + x);
    assert Pressed(env, nav2, true) == Nav(1, [SLASH], [SLASH] + PROCESS);
    PastTheEnd();
  }

  lemma PastedAfterFile(x: Line)
    requires x == [97, LF, 98, 99]
    ensures IsText(x) && ShouldFold(x) && Document.Inv(Doc([SLASH] + FILE, 5, []))
    ensures InsertFolded(Doc([SLASH] + FILE, 5, []), x) == Doc([SLASH] + FILE + x, 9, [Fold(5, 9)])
  {
    hide IsText;
    AsciiIsText([SLASH] + FILE);
    AsciiIsText(x);
    assert x[1] == LF;
  }

  lemma PastTheEnd()
    ensures !Document.Inv(Doc([SLASH] + PROCESS, 8, [Fold(5, 9)]))
  {}

  /** A palette whose first entries are those two, in the current context, offers them
      first. */
  lemma FirstOffers(env: Env)
    requires env.ctx == MAIN && 2 <= |env.items|
    requires env.items[0] == Item(FILE, MAIN) && env.items[1] == Item(PROCESS, MAIN)
    ensures var ms := Matches(env, [SLASH]); 2 <= |ms| && ms[0] == FILE && ms[1] == PROCESS
  {
    assert [SLASH][1..] == [];
    DropDrop(env.items, 1, 1);
    assert MatchesFrom(env.items[1..], MAIN, [], 15) == [PROCESS] + MatchesFrom(env.items[2..], MAIN, [], 14);
    assert MatchesFrom(env.items, MAIN, [], 16) == [FILE] + MatchesFrom(env.items[1..], MAIN, [], 15);
  }

  lemma {:induction false} AsciiIsText(s: seq<byte>)
    requires forall b :: b in s ==> b < 0x80
    ensures IsText(s)
  {
    if s == [] {
      EmptyIsText();
    } else {
      assert forall b :: b in s[1..] ==> b in s;
      assert s[0] in s;
      AsciiIsText(s[1..]);
      EncodeOne(s[0]);
      HeadTail(s);
      TextConcat([s[0]], s[1..]);
    }
  }
}
