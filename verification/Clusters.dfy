/** Grapheme-cluster stepping (cli/linenoise.c:210-369). */
module Clusters {
  import opened Seqs
  import opened Utf8

  predicate IsVariationSelector(cp: nat) { cp == 0xFE0E || cp == 0xFE0F }

  predicate IsSkinToneModifier(cp: nat) { 0x1F3FB <= cp <= 0x1F3FF }

  predicate IsZwj(cp: nat) { cp == 0x200D }

  predicate IsRegionalIndicator(cp: nat) { 0x1F1E6 <= cp <= 0x1F1FF }

  predicate IsCombiningMark(cp: nat) {
    || 0x0300 <= cp <= 0x036F
    || 0x1AB0 <= cp <= 0x1AFF
    || 0x1DC0 <= cp <= 0x1DFF
    || 0x20D0 <= cp <= 0x20FF
    || 0xFE20 <= cp <= 0xFE2F
  }

  predicate IsExtend(cp: nat) {
    IsVariationSelector(cp) || IsSkinToneModifier(cp) || IsZwj(cp) || IsCombiningMark(cp)
  }

  // ----- the two steppers on bytes

  /** utf8NextCharLen: bytes in the cluster that starts at pos. */
  function NextLen(s: seq<byte>, pos: nat): nat
  {
    if pos >= |s| then 0
    else
      var p := Decode(s, pos);
      p.len + NextExtra(s, pos + p.len, IsRegionalIndicator(p.cp))
  }

  /** Bytes its loop consumes from cur on. */
  function NextExtra(s: seq<byte>, cur: nat, isRI: bool): nat
    decreases |s| - cur
  {
    if cur >= |s| then 0
    else
      var p := Decode(s, cur);
      if IsZwj(p.cp) && cur + p.len < |s| then
        var q := Decode(s, cur + p.len);
        p.len + q.len + NextExtra(s, cur + p.len + q.len, isRI)
      else if IsExtend(p.cp) then p.len + NextExtra(s, cur + p.len, isRI)
      else if isRI && IsRegionalIndicator(p.cp) then p.len + NextExtra(s, cur + p.len, false)
      else 0
  }

  /** utf8PrevCharLen: bytes in the cluster that ends at pos. */
  function PrevLen(s: seq<byte>, pos: nat): (n: nat)
    requires pos <= |s|
    ensures n <= pos && (0 < pos ==> 0 < n)
  {
    if pos == 0 then 0
    else
      var p := DecodeBack(s, pos);
      p.len + PrevExtra(s, pos - p.len, p.cp)
  }

  /** Bytes its loop consumes below cur, when cp is the code point just above. */
  function PrevExtra(s: seq<byte>, cur: nat, cp: nat): (n: nat)
    requires cur <= |s|
    ensures n <= cur
    decreases cur
  {
    if cur == 0 then 0
    else
      var p := DecodeBack(s, cur);
      if IsZwj(p.cp) then
        var q := DecodeBack(s, cur - p.len);
        if q.len == 0 then p.len
        else p.len + q.len + PrevExtra(s, cur - p.len - q.len, q.cp)
      else if IsExtend(cp) then p.len + PrevExtra(s, cur - p.len, p.cp)
      else if IsRegionalIndicator(cp) && IsRegionalIndicator(p.cp) then p.len
      else 0
  }

  method Utf8NextCharLen(s: seq<byte>, pos: nat) returns (total: nat)
    ensures total == NextLen(s, pos)
  {
    hide Decode, DecodeBack;
    if pos >= |s| {
      return 0;
    }
    var p := Decode(s, pos);
    total := p.len;
    var cur := pos + p.len;
    var isRI := IsRegionalIndicator(p.cp);
    while cur < |s|
      invariant cur == pos + total
      invariant total + NextExtra(s, cur, isRI) == NextLen(s, pos)
      decreases |s| - cur
    {
      var q := Decode(s, cur);
      if IsZwj(q.cp) && cur + q.len < |s| {
        total, cur := total + q.len, cur + q.len;
        q := Decode(s, cur);
        total, cur := total + q.len, cur + q.len;
      } else if IsExtend(q.cp) {
        total, cur := total + q.len, cur + q.len;
      } else if isRI && IsRegionalIndicator(q.cp) {
        total, cur, isRI := total + q.len, cur + q.len, false;
      } else {
        break;
      }
    }
  }

  method Utf8PrevCharLen(s: seq<byte>, pos: nat) returns (total: nat)
    requires pos <= |s|
    ensures total == PrevLen(s, pos)
  {
    hide Decode, DecodeBack;
    if pos == 0 {
      return 0;
    }
    var cp: nat, cplen: nat := Utf8DecodePrev(s, pos);
    total := cplen;
    var cur := pos - cplen;
    while 0 < cur
      invariant 0 <= cur && cur + total == pos
      invariant total + PrevExtra(s, cur, cp) == PrevLen(s, pos)
      decreases cur
    {
      var prev, prevLen := Utf8DecodePrev(s, cur);
      if IsZwj(prev) {
        total, cur := total + prevLen, cur - prevLen;
        prev, prevLen := Utf8DecodePrev(s, cur);
        if prevLen == 0 {
          break;
        }
        total, cur, cp := total + prevLen, cur - prevLen, prev;
      } else if IsExtend(cp) {
        total, cur, cp := total + prevLen, cur - prevLen, prev;
      } else if IsRegionalIndicator(cp) && IsRegionalIndicator(prev) {
        total, cur := total + prevLen, cur - prevLen;
        break;
      } else {
        break;
      }
    }
  }

  // ----- the same steps counted in code points

  function NextCount(b: seq<Scalar>): (n: nat)
    ensures n <= |b| && (b != [] ==> 0 < n)
  {
    if b == [] then 0 else 1 + NextMore(b[1..], IsRegionalIndicator(b[0]))
  }

  function NextMore(b: seq<Scalar>, isRI: bool): (n: nat)
    ensures n <= |b|
  {
    if b == [] then 0
    else if IsZwj(b[0]) && 1 < |b| then 2 + NextMore(b[2..], isRI)
    else if IsExtend(b[0]) then 1 + NextMore(b[1..], isRI)
    else if isRI && IsRegionalIndicator(b[0]) then 1 + NextMore(b[1..], false)
    else 0
  }

  function PrevCount(a: seq<Scalar>): (n: nat)
    ensures n <= |a| && (a != [] ==> 0 < n)
  {
    if a == [] then 0 else 1 + PrevMore(a[..|a| - 1], a[|a| - 1])
  }

  function PrevMore(a: seq<Scalar>, c: Scalar): (n: nat)
    ensures n <= |a|
  {
    if a == [] then 0
    else
      var p := a[|a| - 1];
      if IsZwj(p) then
        if |a| == 1 then 1 else 2 + PrevMore(a[..|a| - 2], a[|a| - 2])
      else if IsExtend(c) then 1 + PrevMore(a[..|a| - 1], p)
      else if IsRegionalIndicator(c) && IsRegionalIndicator(p) then 1
      else 0
  }

  lemma DecodeNext(s: seq<byte>, i: nat, b: seq<Scalar>)
    requires i <= |s| && s[i..] == Encode(b) && b != []
    ensures var e := |Encode1(b[0])|;
            Decode(s, i) == Point(b[0], e) && i + e <= |s| && s[i + e..] == Encode(b[1..])
  {
    hide Decode, DecodeBack, Encode1, Encode;
    var e := Encode1(b[0]);
    EncodeHead(b);
    Halves(e, Encode(b[1..]));
    CutOfDrop(s, i, |e|);
    DecodeEncoded(s, i, b[0]);
  }

  lemma DecodePrevious(s: seq<byte>, i: nat, a: seq<Scalar>)
    requires i <= |s| && s[..i] == Encode(a) && a != []
    ensures var c := a[|a| - 1];
            var e := |Encode1(c)|;
            e <= i && DecodeBack(s, i) == Point(c, e) && s[..i - e] == Encode(a[..|a| - 1])
  {
    hide Decode, DecodeBack, Encode1;
    var k := LastEncoded(a);
    CutOfTake(s, i, k);
    DecodeBackEncoded(s, i, a[|a| - 1]);
  }

  lemma {:induction false} NextExtraCounts(s: seq<byte>, cur: nat, b: seq<Scalar>, isRI: bool)
    requires cur <= |s| && s[cur..] == Encode(b)
    ensures NextExtra(s, cur, isRI) == |Encode(b)| - |Encode(b[NextMore(b, isRI)..])|
    decreases |b|
  {
    hide Encode, Decode, DecodeBack, Encode1, IsExtend, IsZwj, IsRegionalIndicator;
    if b == [] {
      EncodeNil();
    } else {
      DecodeNext(s, cur, b);
      var c, r := b[0], b[1..];
      var next := cur + |Encode1(c)|;
      TextLeft(s, next, r);
      if IsZwj(c) && r != [] {
        DecodeNext(s, next, r);
        DropDrop(b, 1, 1);
        NextExtraCounts(s, next + |Encode1(r[0])|, b[2..], isRI);
        DropDrop(b, 2, NextMore(b[2..], isRI));
      } else if IsExtend(c) {
        NextExtraCounts(s, next, r, isRI);
        DropDrop(b, 1, NextMore(r, isRI));
      } else if isRI && IsRegionalIndicator(c) {
        NextExtraCounts(s, next, r, false);
        DropDrop(b, 1, NextMore(r, false));
      } else {
        NoneLeft(b);
      }
    }
  }

  lemma TextLeft(s: seq<byte>, i: nat, r: seq<Scalar>)
    requires i <= |s| && s[i..] == Encode(r)
    ensures i < |s| <==> r != []
  {
    hide Encode1;
  }

  /** On well-formed text, utf8NextCharLen is the byte length of NextCount code points. */
  lemma NextLenCounts(s: seq<byte>, pos: nat, b: seq<Scalar>)
    requires pos <= |s| && s[pos..] == Encode(b)
    ensures NextLen(s, pos) == |Encode(b[..NextCount(b)])|
    ensures pos + NextLen(s, pos) <= |s|
    ensures s[pos + NextLen(s, pos)..] == Encode(b[NextCount(b)..])
  {
    hide Decode, DecodeBack, Encode1, IsExtend, IsZwj, IsRegionalIndicator;
    if b != [] {
      DecodeNext(s, pos, b);
      var ri := IsRegionalIndicator(b[0]);
      NextExtraCounts(s, pos + |Encode1(b[0])|, b[1..], ri);
      assert b[1..][NextMore(b[1..], ri)..] == b[NextCount(b)..];
    }
    EncodeCut(b, NextCount(b));
    Halves(Encode(b[..NextCount(b)]), Encode(b[NextCount(b)..]));
    CutOfDrop(s, pos, NextLen(s, pos));
  }

  lemma {:induction false} PrevExtraCounts(s: seq<byte>, cur: nat, a: seq<Scalar>, c: Scalar)
    requires cur <= |s| && s[..cur] == Encode(a)
    ensures PrevExtra(s, cur, c) == |Encode(a)| - |Encode(a[..|a| - PrevMore(a, c)])|
    decreases |a|
  {
    hide Encode, Decode, DecodeBack, Encode1, IsExtend, IsZwj, IsRegionalIndicator, PrevMore;
    PrevMoreIs(a, c);
    if a == [] {
      EncodeNil();
    } else {
      DecodePrevious(s, cur, a);
      var p, a1 := a[|a| - 1], a[..|a| - 1];
      var e := |Encode1(p)|;
      if IsZwj(p) {
        if 1 < |a| {
          var q, a2 := a[|a| - 2], a[..|a| - 2];
          JoinedBefore(s, cur, a);
          PrevExtraCounts(s, cur - e - |Encode1(q)|, a2, q);
          TakeTake(a, |a| - 2, |a2| - PrevMore(a2, q));
        } else {
          NothingBefore(s, a1, cur - e);
        }
      } else if IsExtend(c) {
        PrevExtraCounts(s, cur - e, a1, p);
        TakeTake(a, |a| - 1, |a1| - PrevMore(a1, p));
      } else {
        NoneLeft(a);
      }
    }
  }

  lemma PrevMoreIs(a: seq<Scalar>, c: Scalar)
    ensures a == [] ==> PrevMore(a, c) == 0
    ensures a != [] ==>
              var p := a[|a| - 1];
              PrevMore(a, c) ==
              if IsZwj(p) then (if |a| == 1 then 1 else 2 + PrevMore(a[..|a| - 2], a[|a| - 2]))
              else if IsExtend(c) then 1 + PrevMore(a[..|a| - 1], p)
              else if IsRegionalIndicator(c) && IsRegionalIndicator(p) then 1
              else 0
  {}

  /** The two characters before cur. */
  lemma JoinedBefore(s: seq<byte>, cur: nat, a: seq<Scalar>)
    requires cur <= |s| && s[..cur] == Encode(a) && 1 < |a|
    ensures var e, d := |Encode1(a[|a| - 1])|, |Encode1(a[|a| - 2])|;
            && e + d <= cur && DecodeBack(s, cur - e) == Point(a[|a| - 2], d)
            && s[..cur - e - d] == Encode(a[..|a| - 2])
  {
    hide Encode, DecodeBack, Encode1;
    DecodePrevious(s, cur, a);
    TakeTake(a, |a| - 1, |a| - 2);
    DecodePrevious(s, cur - |Encode1(a[|a| - 1])|, a[..|a| - 1]);
  }

  lemma NothingBefore(s: seq<byte>, a: seq<Scalar>, i: nat)
    requires i <= |s| && s[..i] == Encode(a) && a == []
    ensures i == 0 && DecodeBack(s, i).len == 0
  {}

  /** On well-formed text, utf8PrevCharLen is the byte length of PrevCount code points. */
  lemma PrevLenCounts(s: seq<byte>, pos: nat, a: seq<Scalar>)
    requires pos <= |s| && s[..pos] == Encode(a)
    ensures PrevLen(s, pos) == |Encode(a[|a| - PrevCount(a)..])|
    ensures s[..pos - PrevLen(s, pos)] == Encode(a[..|a| - PrevCount(a)])
    ensures s[pos - PrevLen(s, pos)..pos] == Encode(a[|a| - PrevCount(a)..])
  {
    hide Decode, DecodeBack, Encode1, IsExtend, IsZwj, IsRegionalIndicator;
    if a != [] {
      DecodePrevious(s, pos, a);
      var a1, c := a[..|a| - 1], a[|a| - 1];
      PrevExtraCounts(s, pos - |Encode1(c)|, a1, c);
      assert a1[..|a1| - PrevMore(a1, c)] == a[..|a| - PrevCount(a)];
    }
    var k := |a| - PrevCount(a);
    EncodeCut(a, k);
    Halves(Encode(a[..k]), Encode(a[k..]));
    CutOfTake(s, pos, pos - PrevLen(s, pos));
  }

  /** Stepping right moves, stays in range and lands between characters. */
  lemma NextLands(s: seq<byte>, pos: nat)
    requires IsText(s) && Boundary(s, pos) && pos < |s|
    ensures 0 < NextLen(s, pos) && pos + NextLen(s, pos) <= |s|
    ensures Boundary(s, pos + NextLen(s, pos))
  {
    hide Decode, DecodeBack, Encode1;
    var a, b := SplitText(s, pos);
    NextLenCounts(s, pos, b);
    TextStarts(s[pos + NextLen(s, pos)..]);
  }

  /** Stepping left moves, stays in range and lands between characters. */
  lemma PrevLands(s: seq<byte>, pos: nat)
    requires IsText(s) && Boundary(s, pos) && 0 < pos
    ensures 0 < PrevLen(s, pos) <= pos && Boundary(s, pos - PrevLen(s, pos))
  {
    hide Decode, DecodeBack, Encode1;
    var a, b := SplitText(s, pos);
    PrevLenCounts(s, pos, a);
    TextStarts(s[pos - PrevLen(s, pos)..pos]);
  }

  // ----- inverse laws

  /** No joiner and no flag letter. */
  predicate NoJoin(cs: seq<Scalar>) {
    forall c :: c in cs ==> !IsZwj(c) && !IsRegionalIndicator(c)
  }

  function Extenders(b: seq<Scalar>): (n: nat)
    ensures n <= |b|
    ensures forall k :: 0 <= k < n ==> IsExtend(b[k])
    ensures n < |b| ==> !IsExtend(b[n])
  {
    if b != [] && IsExtend(b[0]) then 1 + Extenders(b[1..]) else 0
  }

  lemma {:induction false} NextMoreExtenders(b: seq<Scalar>)
    requires NoJoin(b)
    ensures NextMore(b, false) == Extenders(b)
  {
    if b != [] && IsExtend(b[0]) {
      NextMoreExtenders(b[1..]);
    }
  }

  /** Going back from the end of base + extenders stops at the base. */
  lemma {:induction false} PrevMoreExtenders(a: seq<Scalar>, m: seq<Scalar>, c: Scalar)
    requires NoJoin(a + m + [c])
    requires m != [] ==> IsExtend(c) && forall k :: 1 <= k < |m| ==> IsExtend(m[k])
    requires a == [] || !IsExtend(if m == [] then c else m[0])
    ensures PrevMore(a + m, c) == |m|
    decreases |m|
  {
    forall d | d in a || d in m || d == c ensures !IsZwj(d) && !IsRegionalIndicator(d) {
      assert d in a + m + [c];
    }
    if m == [] {
      assert a + m == a;
    } else {
      var m1, d := m[..|m| - 1], m[|m| - 1];
      assert (a + m)[..|a + m| - 1] == a + m1;
      PrevMoreExtenders(a, m1, d);
    }
  }

  /** One step right from the end of a, then one step left, counted in code points:
      exactly the step when a is empty or b starts with a base, too far otherwise. */
  lemma StepBackCounts(a: seq<Scalar>, b: seq<Scalar>)
    requires NoJoin(a + b) && b != []
    ensures var k := NextCount(b);
            if a == [] || !IsExtend(b[0]) then PrevCount(a + b[..k]) == k
            else k < PrevCount(a + b[..k])
  {
    hide IsExtend, IsZwj, IsRegionalIndicator;
    forall d | d in a || d in b ensures !IsZwj(d) && !IsRegionalIndicator(d) {
      assert d in a + b;
    }
    NextMoreExtenders(b[1..]);
    var k := NextCount(b);
    var ab := a + b[..k];
    var m, c := b[..k - 1], b[k - 1];
    SnocOfCut(a, b, k);
    forall j | 1 <= j < k ensures IsExtend(b[j]) {
      assert b[j] == b[1..][j - 1];
    }
    if a == [] || !IsExtend(b[0]) {
      PrevMoreExtenders(a, m, c);
    } else {
      PrevMoreAtLeast(a, m, c);
    }
  }

  lemma SnocOfCut(a: seq<Scalar>, b: seq<Scalar>, k: nat)
    requires 0 < k <= |b|
    ensures var ab := a + b[..k]; ab[..|ab| - 1] == a + b[..k - 1] && ab[|ab| - 1] == b[k - 1]
  {
    LastOfConcat(a, b[..k]);
    TakeTake(b, k, k - 1);
  }

  /** The text up to the end of the cluster right of a. */
  lemma RightOf(s: seq<byte>, a: seq<Scalar>, b: seq<Scalar>)
    requires s == Encode(a) + Encode(b) && b != []
    ensures var n, ab := NextLen(s, |Encode(a)|), a + b[..NextCount(b)];
            && n == |Encode(b[..NextCount(b)])| && |Encode(a)| + n <= |s|
            && s[..|Encode(a)| + n] == Encode(ab)
  {
    hide *;
    Halves(Encode(a), Encode(b));
    NextLenCounts(s, |Encode(a)|, b);
    var k := NextCount(b);
    EncodeCut(b, k);
    EncodeConcat(a, b[..k]);
    Assoc(Encode(a), Encode(b[..k]), Encode(b[k..]));
    Halves(Encode(a + b[..k]), Encode(b[k..]));
  }

  /** Left undoes Right exactly from the start of the text and from the positions
      that are not at an extender. */
  lemma LeftUndoesRight(s: seq<byte>, pos: nat, a: seq<Scalar>, b: seq<Scalar>)
    requires s == Encode(a) + Encode(b) && pos == |Encode(a)|
    requires NoJoin(a + b) && b != []
    ensures var n := NextLen(s, pos);
            pos + n <= |s| && (PrevLen(s, pos + n) == n <==> a == [] || !IsExtend(b[0]))
  {
    hide Encode, Decode, DecodeBack, Encode1, IsExtend, IsZwj, IsRegionalIndicator, NextLen, PrevLen, NoJoin,
      NextCount, PrevCount;
    RightOf(s, a, b);
    StepBackCounts(a, b);
    var k, n := NextCount(b), NextLen(s, pos);
    var ab := a + b[..k];
    PrevLenCounts(s, pos + n, ab);
    var p := PrevCount(ab);
    LastPart(a, b[..k], p);
    EncodeConcat(a[|a| - (p - k)..], b[..k]);
  }

  lemma LastPart(a: seq<Scalar>, m: seq<Scalar>, p: nat)
    requires |m| <= p <= |a| + |m|
    ensures (a + m)[|a + m| - p..] == a[|a| - (p - |m|)..] + m
  {}

  lemma {:induction false} PrevMoreAtLeast(a: seq<Scalar>, m: seq<Scalar>, c: Scalar)
    requires NoJoin(a + m + [c]) && a != []
    requires IsExtend(c) && forall k :: 0 <= k < |m| ==> IsExtend(m[k])
    ensures PrevMore(a + m, c) > |m|
    decreases |m|
  {
    forall d | d in a || d in m || d == c ensures !IsZwj(d) && !IsRegionalIndicator(d) {
      assert d in a + m + [c];
    }
    if m == [] {
      assert a + m == a;
    } else {
      var m1, d := m[..|m| - 1], m[|m| - 1];
      assert (a + m)[..|a + m| - 1] == a + m1;
      PrevMoreAtLeast(a, m1, d);
    }
  }

  /** One code point per cluster: no extender and no flag letter. */
  predicate Plain(c: Scalar) { !IsExtend(c) && !IsRegionalIndicator(c) }

  predicate AllPlain(cs: seq<Scalar>) { forall c :: c in cs ==> Plain(c) }

  lemma PlainSteps(a: seq<Scalar>, b: seq<Scalar>)
    requires AllPlain(a) && AllPlain(b)
    ensures b != [] ==> NextLen(Encode(a) + Encode(b), |Encode(a)|) == |Encode1(b[0])|
    ensures a != [] ==> PrevLen(Encode(a) + Encode(b), |Encode(a)|) == |Encode1(a[|a| - 1])|
  {
    hide Encode, Encode1, NextCount, PrevCount, NextLen, PrevLen, AllPlain;
    var s, pos := Encode(a) + Encode(b), |Encode(a)|;
    Halves(Encode(a), Encode(b));
    NextLenCounts(s, pos, b);
    PrevLenCounts(s, pos, a);
    PlainCounts(a);
    PlainCounts(b);
    if b != [] {
      assert b[..1] == [b[0]];
      EncodeOne(b[0]);
    }
    if a != [] {
      LastOf(a);
      EncodeOne(a[|a| - 1]);
    }
  }

  lemma PlainCounts(cs: seq<Scalar>)
    requires AllPlain(cs)
    ensures cs != [] ==> NextCount(cs) == 1 && PrevCount(cs) == 1
  {
    hide IsRegionalIndicator;
    if cs != [] {
      var n := |cs|;
      assert cs[0] in cs && cs[n - 1] in cs;
      if 1 < n {
        assert cs[1] in cs && cs[n - 2] in cs;
        assert cs[1..][0] == cs[1] && cs[..n - 1][n - 2] == cs[n - 2];
      }
    }
  }
}
