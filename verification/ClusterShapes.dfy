/** What the two cluster steppers do with extenders, joiners and flags, on code points given
    by their numbers (cli/linenoise.c:210-369). */
module ClusterShapes {
  import opened Seqs
  import opened Utf8
  import opened Clusters
  import opened Document

  /** Variation selectors, skin tones and the five blocks of combining marks. */
  predicate Mark(c: Scalar) {
    || c in [0xFE0E, 0xFE0F]
    || 0x1F3FB <= c <= 0x1F3FF
    || 0x300 <= c <= 0x36F || 0x1AB0 <= c <= 0x1AFF || 0x1DC0 <= c <= 0x1DFF
    || 0x20D0 <= c <= 0x20FF || 0xFE20 <= c <= 0xFE2F
  }

  predicate Flag(c: Scalar) { 0x1F1E6 <= c <= 0x1F1FF }

  /** Any other character than these and U+200D. */
  predicate Base(c: Scalar) { !Mark(c) && !Flag(c) && c != 0x200D }

  /** A cluster goes on with an extender, or with a joiner and the character it joins. */
  datatype Piece = Extra(c: Scalar) | Joined(c: Scalar)
  {
    predicate Ok() { if Extra? then Mark(c) else c != 0x200D }

    function Points(): (cs: seq<Scalar>)
      ensures cs != [] && cs[|cs| - 1] == c
    {
      if Extra? then [c] else [0x200D, c]
    }
  }

  predicate AllOk(ps: seq<Piece>) { forall p :: p in ps ==> p.Ok() }

  function Points(ps: seq<Piece>): seq<Scalar> {
    if ps == [] then [] else ps[0].Points() + Points(ps[1..])
  }

  /** What follows a whole cluster: nothing, or a character that does not extend it. */
  predicate Apart(b: seq<Scalar>) { b == [] || (!Mark(b[0]) && b[0] != 0x200D) }

  lemma Classes(c: Scalar)
    ensures IsExtend(c) <==> Mark(c) || c == 0x200D
    ensures (IsZwj(c) <==> c == 0x200D) && (IsRegionalIndicator(c) <==> Flag(c))
  {}

  // ----- counted in code points

  lemma MarkIsNoJoiner(p: Piece)
    requires p.Ok()
    ensures p.c != 0x200D
  {}

  /** The forward loop takes all pieces and goes on behind them. */
  lemma {:induction false} PiecesTaken(ps: seq<Piece>, b: seq<Scalar>, ri: bool)
    requires AllOk(ps)
    ensures NextMore(Points(ps) + b, ri) == |Points(ps)| + NextMore(b, ri)
    decreases |ps|
  {
    hide Mark, IsExtend, IsZwj, IsRegionalIndicator, NextMore;
    if ps == [] {
      NoneLeft(b);
    } else {
      var p, r := ps[0], Points(ps[1..]);
      assert p in ps;
      PiecesTaken(ps[1..], b, ri);
      Assoc(p.Points(), r, b);
      PieceTaken(p, r + b, ri);
    }
  }

  lemma PieceTaken(p: Piece, b: seq<Scalar>, ri: bool)
    requires p.Ok()
    ensures NextMore(p.Points() + b, ri) == |p.Points()| + NextMore(b, ri)
  {
    hide Mark, IsExtend, IsRegionalIndicator;
    Classes(p.c);
    MarkIsNoJoiner(p);
    var s := p.Points() + b;
    if p.Extra? {
      ConsTail(p.c, b);
    } else {
      assert s[2..] == b;
    }
  }

  /** How many code points the backward loop takes from the end of a text. */
  function Back(s: seq<Scalar>): nat
    requires s != []
  {
    PrevMore(s[..|s| - 1], s[|s| - 1])
  }

  /** The backward loop takes a piece and goes on before it. */
  lemma PieceTakenBack(s: seq<Scalar>, p: Piece)
    requires s != [] && s[|s| - 1] != 0x200D && p.Ok()
    ensures Back(s + p.Points()) == |p.Points()| + Back(s)
  {
    hide Mark, IsExtend, IsRegionalIndicator;
    var t := s + p.Points();
    Classes(p.c);
    Classes(s[|s| - 1]);
    assert t[|t| - 1] == p.c;
    if p.Extra? {
      assert t[..|t| - 1] == s;
    } else {
      assert t[..|t| - 1] == s + [0x200D];
      assert (s + [0x200D])[..|s| - 1] == s[..|s| - 1];
    }
  }

  lemma {:induction false} PiecesTakenBack(s: seq<Scalar>, ps: seq<Piece>)
    requires s != [] && s[|s| - 1] != 0x200D && AllOk(ps)
    ensures Back(s + Points(ps)) == |Points(ps)| + Back(s)
    decreases |ps|
  {
    hide Back, Mark;
    if ps == [] {
      NoneLeft(s);
    } else {
      var p, t := ps[0], s + ps[0].Points();
      assert p in ps;
      PieceTakenBack(s, p);
      assert t[|t| - 1] == p.c;
      assert p.c != 0x200D by { MarkIsNoJoiner(p); }
      PiecesTakenBack(t, ps[1..]);
      Assoc(s, p.Points(), Points(ps[1..]));
    }
  }

  /** One step forward takes a cluster up to the next plain character or flag. */
  lemma ForwardCount(h: Scalar, ps: seq<Piece>, b: seq<Scalar>)
    requires AllOk(ps) && Apart(b) && (Flag(h) ==> b == [] || !Flag(b[0]))
    ensures NextCount([h] + Points(ps) + b) == 1 + |Points(ps)|
  {
    hide Mark, IsExtend, IsZwj;
    Assoc([h], Points(ps), b);
    ConsTail(h, Points(ps) + b);
    PiecesTaken(ps, b, IsRegionalIndicator(h));
    if b != [] {
      Classes(b[0]);
    }
  }

  /** One step back takes the same cluster when no joiner stands before its base. */
  lemma BackwardCount(a: seq<Scalar>, h: Scalar, ps: seq<Piece>)
    requires AllOk(ps) && Base(h) && (a == [] || a[|a| - 1] != 0x200D)
    ensures PrevCount(a + [h] + Points(ps)) == 1 + |Points(ps)|
  {
    hide Mark, IsExtend, IsRegionalIndicator;
    Classes(h);
    LastOfConcat(a, [h]);
    NoneLeft(a);
    PiecesTakenBack(a + [h], ps);
    if a != [] {
      Classes(a[|a| - 1]);
    }
  }

  /** Two flag letters and what extends them are one step forward; a third is not taken. */
  lemma FlagForward(x: Scalar, y: Scalar, ps: seq<Piece>, b: seq<Scalar>)
    requires Flag(x) && Flag(y) && AllOk(ps) && Apart(b)
    ensures NextCount([x, y] + Points(ps) + b) == 2 + |Points(ps)|
  {
    hide Mark, IsExtend, IsZwj;
    var s := [x, y] + Points(ps) + b;
    var r := [y] + (Points(ps) + b);
    assert s[1..] == r && s[0] == x;
    ConsTail(y, Points(ps) + b);
    PiecesTaken(ps, b, false);
    Classes(y);
    if b != [] {
      Classes(b[0]);
    }
    FlagIsNoMark(y);
  }

  lemma FlagIsNoMark(c: Scalar)
    requires Flag(c)
    ensures !Mark(c) && c != 0x200D
  {}

  /** Two flag letters and what extends them are one step back, whatever stands before. */
  lemma FlagBackward(a: seq<Scalar>, x: Scalar, y: Scalar, ps: seq<Piece>)
    requires Flag(x) && Flag(y) && AllOk(ps)
    ensures PrevCount(a + [x, y] + Points(ps)) == 2 + |Points(ps)|
  {
    hide Mark, IsExtend;
    Classes(x);
    Classes(y);
    FlagIsNoMark(x);
    FlagIsNoMark(y);
    var s := a + [x, y];
    assert s[..|s| - 1] == a + [x] && (a + [x])[|a|] == x;
    PiecesTakenBack(s, ps);
  }

  // ----- the keys that step, on a line without folds

  function Line(a: seq<Scalar>, k: seq<Scalar>, b: seq<Scalar>): seq<byte> { Encode(a) + Encode(k) + Encode(b) }

  lemma LineParts(a: seq<Scalar>, k: seq<Scalar>, b: seq<Scalar>)
    ensures Line(a, k, b) == Encode(a + k) + Encode(b) && Line(a, k, b) == Encode(a) + Encode(k + b)
    ensures Line(a, k, b) == Encode(a + k + b) && |Encode(a + k)| == |Encode(a)| + |Encode(k)|
  {
    hide Encode;
    EncodeConcat(a, k);
    EncodeConcat(k, b);
    EncodeConcat(a + k, b);
    Assoc(Encode(a), Encode(k), Encode(b));
  }

  lemma LineIsText(a: seq<Scalar>, k: seq<Scalar>, b: seq<Scalar>)
    ensures IsText(Line(a, k, b))
    ensures Boundary(Line(a, k, b), |Encode(a)|) && Boundary(Line(a, k, b), |Encode(a)| + |Encode(k)|)
  {
    hide *;
    LineParts(a, k, b);
    BoundaryAfterEncode(a, k + b);
    BoundaryAfterEncode(a + k, b);
    TextOf(a + k + b);
  }

  lemma LineCuts(a: seq<Scalar>, k: seq<Scalar>, b: seq<Scalar>)
    ensures |Line(a, k, b)| == |Encode(a)| + |Encode(k)| + |Encode(b)|
    ensures Line(a, k, b)[|Encode(a)|..] == Encode(k + b)
    ensures Line(a, k, b)[..|Encode(a)| + |Encode(k)|] == Encode(a + k)
    ensures Cut(Line(a, k, b), |Encode(a)|, |Encode(k)|) == Encode(a) + Encode(b)
  {
    hide Encode, Cut;
    ThreeCuts(Encode(a), Encode(k), Encode(b));
    EncodeConcat(a, k);
    EncodeConcat(k, b);
  }

  lemma ThreeCuts(x: seq<byte>, y: seq<byte>, z: seq<byte>)
    ensures (x + y + z)[|x|..] == y + z && (x + y + z)[..|x| + |y|] == x + y
    ensures Cut(x + y + z, |x|, |y|) == x + z
  {
    Assoc(x, y, z);
    Halves(x, y + z);
    Halves(x + y, z);
  }

  lemma TextOf(cs: seq<Scalar>)
    ensures IsText(Encode(cs))
  {}

  /** From the end of a, one Right crosses k and one Delete removes it. */
  ghost predicate TakenForward(a: seq<Scalar>, k: seq<Scalar>, b: seq<Scalar>) {
    var s, p := Line(a, k, b), |Encode(a)|;
    && NextLen(s, p) == |Encode(k)| && Inv(Doc(s, p, []))
    && MoveRight(Doc(s, p, [])) == Doc(s, p + |Encode(k)|, [])
    && Delete(Doc(s, p, [])) == Doc(Encode(a) + Encode(b), p, [])
  }

  /** From the end of k, one Left crosses k and one Backspace removes it. */
  ghost predicate TakenBackward(a: seq<Scalar>, k: seq<Scalar>, b: seq<Scalar>) {
    var s, p := Line(a, k, b), |Encode(a)| + |Encode(k)|;
    && p <= |s| && PrevLen(s, p) == |Encode(k)| && Inv(Doc(s, p, []))
    && MoveLeft(Doc(s, p, [])) == Doc(s, |Encode(a)|, [])
    && Backspace(Doc(s, p, [])) == Doc(Encode(a) + Encode(b), |Encode(a)|, [])
  }

  lemma RightTakes(a: seq<Scalar>, k: seq<Scalar>, b: seq<Scalar>)
    requires k != [] && NextCount(k + b) == |k|
    ensures TakenForward(a, k, b)
  {
    hide Encode, Boundary, IsText, NextLen, NextCount, Line, Cut;
    var s, p := Line(a, k, b), |Encode(a)|;
    LineIsText(a, k, b);
    LineCuts(a, k, b);
    NextLenCounts(s, p, k + b);
    Halves(k, b);
    EncodedSome(k);
  }

  lemma EncodedSome(k: seq<Scalar>)
    requires k != []
    ensures 0 < |Encode(k)|
  {}

  lemma LeftTakes(a: seq<Scalar>, k: seq<Scalar>, b: seq<Scalar>)
    requires k != [] && PrevCount(a + k) == |k|
    ensures TakenBackward(a, k, b)
  {
    hide Encode, Boundary, IsText, PrevLen, PrevCount, Line, Cut;
    var s, p := Line(a, k, b), |Encode(a)| + |Encode(k)|;
    LineIsText(a, k, b);
    LineCuts(a, k, b);
    PrevLenCounts(s, p, a + k);
    Halves(a, k);
    EncodedSome(k);
  }

  /** A base with any marks, and any characters joined to it, is one step of Right and
      Delete up to the next base or flag, and one step of Left and Backspace unless a
      joiner stands before it. */
  lemma ClusterIsOneStep(a: seq<Scalar>, h: Scalar, ps: seq<Piece>, b: seq<Scalar>)
    requires Base(h) && AllOk(ps)
    ensures Apart(b) ==> TakenForward(a, [h] + Points(ps), b)
    ensures (a == [] || a[|a| - 1] != 0x200D) ==> TakenBackward(a, [h] + Points(ps), b)
  {
    hide *;
    BaseIsNoFlag(h);
    if Apart(b) {
      ForwardCount(h, ps, b);
      RightTakes(a, [h] + Points(ps), b);
    }
    if a == [] || a[|a| - 1] != 0x200D {
      BackwardCount(a, h, ps);
      Assoc(a, [h], Points(ps));
      LeftTakes(a, [h] + Points(ps), b);
    }
  }

  lemma BaseIsNoFlag(c: Scalar)
    requires Base(c)
    ensures !Flag(c)
  {}

  /** Two flag letters with what extends them are one step both ways; forwards a third flag
      letter is left alone. */
  lemma FlagIsOneStep(a: seq<Scalar>, x: Scalar, y: Scalar, ps: seq<Piece>, b: seq<Scalar>)
    requires Flag(x) && Flag(y) && AllOk(ps)
    ensures Apart(b) ==> TakenForward(a, [x, y] + Points(ps), b)
    ensures TakenBackward(a, [x, y] + Points(ps), b)
  {
    hide *;
    if Apart(b) {
      FlagForward(x, y, ps, b);
      RightTakes(a, [x, y] + Points(ps), b);
    }
    FlagBackward(a, x, y, ps);
    Assoc(a, [x, y], Points(ps));
    LeftTakes(a, [x, y] + Points(ps), b);
  }

  /** A lone flag letter is one step forward with what extends it, when no other follows. */
  lemma LoneFlagForward(a: seq<Scalar>, x: Scalar, ps: seq<Piece>, b: seq<Scalar>)
    requires Flag(x) && AllOk(ps) && Apart(b) && (b == [] || !Flag(b[0]))
    ensures TakenForward(a, [x] + Points(ps), b)
  {
    hide *;
    ForwardCount(x, ps, b);
    RightTakes(a, [x] + Points(ps), b);
  }

  /** A joiner at the end of the text belongs to the cluster before it, both ways. */
  lemma TrailingJoiner(a: seq<Scalar>, h: Scalar, ps: seq<Piece>)
    requires Base(h) && AllOk(ps) && (a == [] || a[|a| - 1] != 0x200D)
    ensures TakenForward(a, [h] + Points(ps) + [0x200D], [])
    ensures TakenBackward(a, [h] + Points(ps) + [0x200D], [])
  {
    hide *;
    var k := [h] + Points(ps) + [0x200D];
    JoinerTaken(h, ps);
    JoinerTakenBack(a, h, ps);
    NoneLeft(k);
    RightTakes(a, k, []);
    LeftTakes(a, k, []);
  }

  lemma JoinerTaken(h: Scalar, ps: seq<Piece>)
    requires Base(h) && AllOk(ps)
    ensures NextCount([h] + Points(ps) + [0x200D]) == |Points(ps)| + 2
  {
    hide Mark, IsExtend, IsZwj, IsRegionalIndicator;
    var j: seq<Scalar> := [0x200D];
    Classes(j[0]);
    Assoc([h], Points(ps), j);
    ConsTail(h, Points(ps) + j);
    PiecesTaken(ps, j, IsRegionalIndicator(h));
    assert j[1..] == [];
  }

  lemma JoinerTakenBack(a: seq<Scalar>, h: Scalar, ps: seq<Piece>)
    requires Base(h) && AllOk(ps) && (a == [] || a[|a| - 1] != 0x200D)
    ensures PrevCount(a + ([h] + Points(ps) + [0x200D])) == |Points(ps)| + 2
  {
    hide Base, AllOk, Points, PrevMore, PrevCount;
    var k := [h] + Points(ps);
    Assoc(a, k, [0x200D]);
    Assoc(a, [h], Points(ps));
    BackwardCount(a, h, ps);
    LastOfCluster(h, ps) by { BaseIsNoJoiner(h); }
    LastOfConcat(a, k);
    OneJoinerMore(a + k);
  }

  lemma BaseIsNoJoiner(c: Scalar)
    requires Base(c)
    ensures c != 0x200D
  {}

  lemma OneJoinerMore(x: seq<Scalar>)
    requires x != [] && x[|x| - 1] != 0x200D
    ensures PrevCount(x + [0x200D]) == 1 + PrevCount(x)
  {
    hide Mark, IsExtend, IsRegionalIndicator, PrevMore;
    Classes(0x200D);
    Classes(x[|x| - 1]);
    PrevMoreIs(x, 0x200D);
    LastOfConcat(x, [0x200D]);
    NoneLeft(x);
  }

  /** A cluster does not end in a joiner. */
  lemma {:induction false} LastOfCluster(h: Scalar, ps: seq<Piece>)
    requires h != 0x200D && AllOk(ps)
    ensures var k := [h] + Points(ps); k[|k| - 1] != 0x200D
    decreases |ps|
  {
    hide Mark;
    if ps != [] {
      assert ps[0] in ps;
      MarkIsNoJoiner(ps[0]);
      LastOfCluster(ps[0].c, ps[1..]);
      var k, r := [h] + Points(ps), [ps[0].c] + Points(ps[1..]);
      assert k[|k| - 1] == r[|r| - 1];
    }
  }

  /** A family of three, eighteen bytes, is one step of every key. */
  lemma FamilyIsOneStep()
    ensures var k: seq<Scalar> := [0x1F468, 0x200D, 0x1F469, 0x200D, 0x1F467];
            |Encode(k)| == 18 && TakenForward([], k, []) && TakenBackward([], k, [])
  {
    hide TakenForward, TakenBackward, Encode;
    var ps := [Joined(0x1F469), Joined(0x1F467)];
    assert ps[1..][1..] == [];
    assert [0x1F468] + Points(ps) == [0x1F468, 0x200D, 0x1F469, 0x200D, 0x1F467];
    FamilyLength();
    ClusterIsOneStep([], 0x1F468, ps, []);
  }

  lemma FamilyLength()
    ensures |Encode([0x1F468, 0x200D, 0x1F469, 0x200D, 0x1F467])| == 18
  {
    hide Encode;
    EncodeCons(0x1F468, [0x200D, 0x1F469, 0x200D, 0x1F467]);
    EncodeCons(0x200D, [0x1F469, 0x200D, 0x1F467]);
    EncodeCons(0x1F469, [0x200D, 0x1F467]);
    EncodeCons(0x200D, [0x1F467]);
    EncodeOne(0x1F467);
    assert [0x1F468] + [0x200D, 0x1F469, 0x200D, 0x1F467] == [0x1F468, 0x200D, 0x1F469, 0x200D, 0x1F467];
    assert [0x200D] + [0x1F469, 0x200D, 0x1F467] == [0x200D, 0x1F469, 0x200D, 0x1F467];
    assert [0x1F469] + [0x200D, 0x1F467] == [0x1F469, 0x200D, 0x1F467];
    assert [0x200D] + [0x1F467] == [0x200D, 0x1F467];
  }

  /** Ctrl-T with the cursor between y and z exchanges them when neither has more than 32
      bytes, and does nothing otherwise. */
  ghost predicate SwapsOrStays(x: seq<byte>, y: seq<byte>, z: seq<byte>, t: seq<byte>) {
    var d := Doc(x + y + z + t, |x| + |y|, []);
    && Inv(d)
    && Transpose(d) == if |y| <= 32 && |z| <= 32 then Doc(x + z + y + t, |x| + |y| + |z|, []) else d
  }

  lemma TransposeIs(d: Doc, p: nat, c: nat)
    requires Inv(d) && d.folds == [] && 0 < d.pos < |d.text|
    requires p == PrevLen(d.text, d.pos) && c == NextLen(d.text, d.pos)
    ensures p <= d.pos && d.pos + c <= |d.text|
    ensures Transpose(d) ==
            if p <= 32 && c <= 32 then Doc(Swapped(d.text, d.pos - p, d.pos, d.pos + c), d.pos + c, []) else d
  {
    hide *;
    StepsUnfolded(d);
    TransposeCases(d, p, c);
  }

  /** Transpose by its two steps. */
  lemma TransposeCases(d: Doc, p: nat, c: nat)
    requires Inv(d) && d.folds == [] && 0 < d.pos < |d.text| && p == StepLeft(d, d.pos) && c == StepRight(d, d.pos)
    ensures p <= d.pos && d.pos + c <= |d.text|
    ensures Transpose(d) ==
            if p <= 32 && c <= 32 then Doc(Swapped(d.text, d.pos - p, d.pos, d.pos + c), d.pos + c, []) else d
  {
    hide Inv, StepLeft, StepRight, Swapped;
    TransposeSteps(d);
  }

  lemma StepsUnfolded(d: Doc)
    requires d.folds == [] && d.pos <= |d.text|
    ensures StepLeft(d, d.pos) == PrevLen(d.text, d.pos) && StepRight(d, d.pos) == NextLen(d.text, d.pos)
  {
    hide PrevLen, NextLen;
  }

  lemma SwapOfSteps(s: seq<byte>, x: seq<byte>, y: seq<byte>, z: seq<byte>, t: seq<byte>)
    requires s == x + y + z + t && y != [] && z != [] && Inv(Doc(s, |x| + |y|, []))
    requires PrevLen(s, |x| + |y|) == |y| && NextLen(s, |x| + |y|) == |z|
    ensures SwapsOrStays(x, y, z, t)
  {
    hide Inv, PrevLen, NextLen, Swapped, Transpose;
    TransposeIs(Doc(s, |x| + |y|, []), |y|, |z|);
    ExchangedParts(x, y, z, t);
  }

  /** Ctrl-T between two clusters that are one step each. */
  lemma ClustersSwap(a: seq<Scalar>, k: seq<Scalar>, m: seq<Scalar>, b: seq<Scalar>)
    requires k != [] && m != [] && TakenBackward(a, k, m + b) && TakenForward(a + k, m, b)
    ensures SwapsOrStays(Encode(a), Encode(k), Encode(m), Encode(b))
  {
    hide *;
    StepsAround(a, k, m, b);
    EncodedSome(k);
    EncodedSome(m);
    SwapOfSteps(Line(a, k, m + b), Encode(a), Encode(k), Encode(m), Encode(b));
  }

  lemma StepsAround(a: seq<Scalar>, k: seq<Scalar>, m: seq<Scalar>, b: seq<Scalar>)
    requires TakenBackward(a, k, m + b) && TakenForward(a + k, m, b)
    ensures var s, p := Line(a, k, m + b), |Encode(a)| + |Encode(k)|;
            && s == Encode(a) + Encode(k) + Encode(m) + Encode(b) && Inv(Doc(s, p, []))
            && p <= |s| && PrevLen(s, p) == |Encode(k)| && NextLen(s, p) == |Encode(m)|
  {
    hide *;
    StepsOf(a, k, m + b);
    StepsOf(a + k, m, b);
    SameLine(a, k, m, b);
    LineOf(a, k, m, b);
  }

  lemma SameLine(a: seq<Scalar>, k: seq<Scalar>, m: seq<Scalar>, b: seq<Scalar>)
    ensures Line(a, k, m + b) == Line(a + k, m, b) && |Encode(a + k)| == |Encode(a)| + |Encode(k)|
  {
    hide *;
    LineParts(a, k, m + b);
    LineParts(a + k, m, b);
    Assoc(a + k, m, b);
  }

  lemma StepsOf(a: seq<Scalar>, k: seq<Scalar>, b: seq<Scalar>)
    ensures TakenForward(a, k, b) ==> NextLen(Line(a, k, b), |Encode(a)|) == |Encode(k)|
    ensures TakenBackward(a, k, b) ==>
              var s, p := Line(a, k, b), |Encode(a)| + |Encode(k)|;
              p <= |s| && PrevLen(s, p) == |Encode(k)| && Inv(Doc(s, p, []))
  {
    hide Encode, Line, Inv, PrevLen, NextLen, MoveLeft, MoveRight, Delete, Backspace;
  }

  lemma LineOf(a: seq<Scalar>, k: seq<Scalar>, m: seq<Scalar>, b: seq<Scalar>)
    ensures Line(a, k, m + b) == Encode(a) + Encode(k) + Encode(m) + Encode(b)
  {
    hide Encode;
    EncodeConcat(m, b);
    Assoc(Encode(a) + Encode(k), Encode(m), Encode(b));
  }

  lemma ExchangedParts(x: seq<byte>, y: seq<byte>, z: seq<byte>, t: seq<byte>)
    ensures Swapped(x + y + z + t, |x|, |x| + |y|, |x| + |y| + |z|) == x + z + y + t
  {
    Assoc(x + y, z, t);
    ThreeCuts(x, y, z + t);
    ThreeCuts(x + y, z, t);
    assert (x + y + z + t)[|x|..|x| + |y|] == y;
    assert (x + y + z + t)[|x| + |y|..|x| + |y| + |z|] == z;
  }
}
