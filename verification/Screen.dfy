/** The line an editor over atoms puts on the screen meets what the trimming needs. */
module Screen {
  import opened Utf8
  import opened Clusters
  import opened Atoms
  import opened Render
  import opened Window

  /** ASCII bytes are their own code points. */
  function Ascii(s: seq<byte>): (cs: seq<Scalar>)
    requires forall b :: b in s ==> b < 0x80
    ensures |cs| == |s| && forall i :: 0 <= i < |s| ==> cs[i] == s[i]
  {
    seq(|s|, i requires 0 <= i < |s| => AsciiPoint(s, i))
  }

  function AsciiPoint(s: seq<byte>, i: nat): Scalar
    requires (forall b :: b in s ==> b < 0x80) && i < |s|
  {
    assert s[i] in s;
    s[i]
  }

  lemma {:induction false} AsciiEncodes(s: seq<byte>)
    requires forall b :: b in s ==> b < 0x80
    ensures Encode(Ascii(s)) == s
  {
    if s != [] {
      assert s[0] in s && forall b :: b in s[1..] ==> b in s;
      AsciiEncodes(s[1..]);
      assert Ascii(s)[1..] == Ascii(s[1..]);
    }
  }

  lemma MarkerIsAscii(hidden: seq<byte>)
    ensures forall b :: b in Marker(hidden) ==> 32 <= b < 0x7f
  {}

  function FacePoints(x: Atom): seq<Scalar> {
    match x
    case Char(c) => [c]
    case Folded(cs) => MarkerIsAscii(Encode(cs)); Ascii(Marker(Encode(cs)))
  }

  function AllFacePoints(xs: seq<Atom>): seq<Scalar> {
    if xs == [] then [] else FacePoints(xs[0]) + AllFacePoints(xs[1..])
  }

  predicate NoEscape(xs: seq<Atom>) { forall x :: x in xs ==> x != Char(27) }

  lemma FaceIsEncoded(x: Atom)
    requires x.Ok() && x != Char(27)
    ensures AtomFace(x) == Encode(FacePoints(x))
    ensures forall c :: c in FacePoints(x) ==> Plain(c) && c != 27
  {
    hide Encode, Encode1, Marker;
    match x
    case Char(c) =>
      EncodeOne(c);
      assert c in x.Points();
    case Folded(cs) =>
      MarkerIsAscii(Encode(cs));
      AsciiEncodes(Marker(Encode(cs)));
      var m := Marker(Encode(cs));
      forall c | c in FacePoints(x) ensures 32 <= c < 0x7f {
        var i :| 0 <= i < |m| && FacePoints(x)[i] == c;
        assert m[i] in m;
      }
  }

  lemma {:induction false} FacesAreEncoded(xs: seq<Atom>)
    requires AllOk(xs) && NoEscape(xs)
    ensures AtomFaces(xs) == Encode(AllFacePoints(xs))
    ensures forall c :: c in AllFacePoints(xs) ==> Plain(c) && c != 27
  {
    hide Encode, Encode1, Plain, AtomFace, FacePoints, Atom.Ok;
    if xs == [] {
      EncodeNil();
    } else {
      assert xs[0] in xs && forall y :: y in xs[1..] ==> y in xs;
      FaceIsEncoded(xs[0]);
      FacesAreEncoded(xs[1..]);
      EncodeConcat(FacePoints(xs[0]), AllFacePoints(xs[1..]));
    }
  }

  /** What an editor shows can be trimmed: it is drawable, the shown cursor is the
      encoding of its code points before p, and p is a cluster edge. */
  lemma EditorCanBeTrimmed(e: Editor) returns (cs: seq<Scalar>, p: nat)
    requires e.Ok() && NoEscape(e.All())
    ensures var d := Concrete(e);
            && Fits(d.folds, 0, |d.text|)
            && Rendered(d.text, d.folds, 0) == Encode(cs)
            && p <= |cs| && RenderedPos(d.text, d.folds, 0, d.pos) == |Encode(cs[..p])|
            && Drawable(cs) && ClusterEdge(cs, p)
  {
    hide Encode, Encode1, Rendered, RenderedPos, Fits, Ranges, Atom.Ok;
    RenderedEditor(e);
    OkParts(e.before, e.after);
    assert forall x :: x in e.before ==> x in e.All();
    assert forall x :: x in e.after ==> x in e.All();
    FacesAreEncoded(e.before);
    FacesAreEncoded(e.after);
    var a, b := AllFacePoints(e.before), AllFacePoints(e.after);
    cs, p := a + b, |a|;
    EncodeConcat(a, b);
    assert cs[..p] == a;
    PlainIsDrawable(cs, p);
  }

  lemma PlainIsDrawable(cs: seq<Scalar>, p: nat)
    requires p <= |cs| && forall c :: c in cs ==> Plain(c) && c != 27
    ensures Drawable(cs) && ClusterEdge(cs, p)
  {
    assert p < |cs| ==> cs[p] in cs;
  }
}
