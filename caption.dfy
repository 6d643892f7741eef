/** The loop of FigureDetection over the extracted contours: it classifies each
    contour, builds the caption and draws the recognized ones. The closed form
    CaptionOf says what the caption is after any prefix of the contours. */
module Caption {
  import opened Shapes

  datatype Option<T> = None | Some(value: T)

  const Header: string := "Figures recognized: \n"
  const NotRecognized: string := "Shape not recognized!"

  /** The vertex counts whose branch calls drawContours: exactly the counts the
      classifier recognizes, whatever the bounding box. */
  predicate Draws(n: nat)
    ensures forall w: nat, h: nat ::
      Draws(n) <==> Classify(Measurement(n, w, h)).Recognized?
  {
    n == 3 || n == 4 || n == 5 || n == 10 || n >= 11
  }

  /** How many of the contours have a vertex count that is drawn. */
  function CountDraws(ms: seq<Measurement>): (c: nat)
    ensures c <= |ms|
  {
    if ms == [] then 0
    else CountDraws(ms[..|ms| - 1]) + (if Draws(ms[|ms| - 1].vertices) then 1 else 0)
  }

  /** The labels of the recognized contours, in contour order. */
  function Labels(ms: seq<Measurement>): (ls: seq<Label>)
    ensures |ls| <= |ms|
  {
    if ms == [] then []
    else
      Labels(ms[..|ms| - 1])
      + match Classify(ms[|ms| - 1])
        case Recognized(l) => [l]
        case Unrecognized => []
  }

  /** The tokens of a label sequence, one after the other. */
  function Join(ls: seq<Label>): string
  {
    if ls == [] then "" else Join(ls[..|ls| - 1]) + Token(ls[|ls| - 1])
  }

  /** The index of the last contour that is not recognized, if there is one. */
  function LastUnrecognized(ms: seq<Measurement>): (r: Option<nat>)
    ensures r.Some? ==> r.value < |ms| && Classify(ms[r.value]).Unrecognized?
  {
    if ms == [] then None
    else if Classify(ms[|ms| - 1]).Unrecognized? then Some(|ms| - 1)
    else LastUnrecognized(ms[..|ms| - 1])
  }

  /** LastUnrecognized finds the last contour that is not recognized: every
      contour after it is recognized, and when there is none, every contour is. */
  lemma {:induction false} LastUnrecognizedIsLast(ms: seq<Measurement>)
    ensures LastUnrecognized(ms).Some? ==>
      forall j :: LastUnrecognized(ms).value < j < |ms| ==> Classify(ms[j]).Recognized?
    ensures LastUnrecognized(ms).None? ==>
      forall j :: 0 <= j < |ms| ==> Classify(ms[j]).Recognized?
  {
    if ms != [] && Classify(ms[|ms| - 1]).Recognized? {
      LastUnrecognizedIsLast(ms[..|ms| - 1]);
    }
  }

  /** The caption after the contours ms: the header and the tokens of all of them
      when each is recognized; otherwise the message, followed by the tokens of
      the contours after the last one that is not recognized. */
  function CaptionOf(ms: seq<Measurement>): string
  {
    match LastUnrecognized(ms)
    case None => Header + Join(Labels(ms))
    case Some(k) => NotRecognized + Join(Labels(ms[k + 1..]))
  }

  /** A vertex count is drawn exactly when its contour is recognized. */
  lemma DrawsIffRecognized(m: Measurement)
    ensures Draws(m.vertices) <==> Classify(m).Recognized?
  {
  }

  lemma Assoc(x: string, y: string, z: string)
    ensures (x + y) + z == x + (y + z)
  {
  }

  lemma JoinSnoc(ls: seq<Label>, l: Label)
    ensures Join(ls + [l]) == Join(ls) + Token(l)
  {
    assert (ls + [l])[..|ls|] == ls;
  }

  /** The tokens of the labels of b end with the token of its last contour,
      when that contour is recognized. */
  lemma JoinLabelsStep(b: seq<Measurement>)
    requires b != [] && Classify(b[|b| - 1]).Recognized?
    ensures Join(Labels(b)) == Join(Labels(b[..|b| - 1])) + Token(Classify(b[|b| - 1]).shape)
  {
    JoinSnoc(Labels(b[..|b| - 1]), Classify(b[|b| - 1]).shape);
  }

  /** A contour that is not recognized replaces the whole caption by the message. */
  lemma CaptionStepUnrecognized(ms: seq<Measurement>)
    requires ms != [] && Classify(ms[|ms| - 1]).Unrecognized?
    ensures CaptionOf(ms) == NotRecognized
  {
    assert ms[|ms|..] == [];
  }

  /** A recognized contour with no unrecognized one before it appends its token
      to the header and the tokens so far. */
  lemma CaptionStepBeforeWipe(ms: seq<Measurement>)
    requires ms != [] && Classify(ms[|ms| - 1]).Recognized?
    requires LastUnrecognized(ms[..|ms| - 1]).None?
    ensures CaptionOf(ms) == CaptionOf(ms[..|ms| - 1]) + Token(Classify(ms[|ms| - 1]).shape)
  {
    var front, l := ms[..|ms| - 1], Classify(ms[|ms| - 1]).shape;
    JoinSnoc(Labels(front), l);
    Assoc(Header, Join(Labels(front)), Token(l));
  }

  /** A recognized contour after an unrecognized one appends its token to the
      message and the tokens that follow it. */
  lemma CaptionStepAfterWipe(ms: seq<Measurement>)
    requires ms != [] && Classify(ms[|ms| - 1]).Recognized?
    requires LastUnrecognized(ms[..|ms| - 1]).Some?
    ensures CaptionOf(ms) == CaptionOf(ms[..|ms| - 1]) + Token(Classify(ms[|ms| - 1]).shape)
  {
    var front, l := ms[..|ms| - 1], Classify(ms[|ms| - 1]).shape;
    var k := LastUnrecognized(front).value;
    var tail := ms[k + 1..];
    assert tail[..|tail| - 1] == front[k + 1..] && tail[|tail| - 1] == ms[|ms| - 1];
    JoinLabelsStep(tail);
    Assoc(NotRecognized, Join(Labels(front[k + 1..])), Token(l));
  }

  /** One step of the loop: a recognized contour appends its token to the caption
      of the contours before it, any other contour replaces the whole caption by
      the message. */
  lemma CaptionStep(ms: seq<Measurement>)
    requires ms != []
    ensures Classify(ms[|ms| - 1]).Recognized? ==>
      CaptionOf(ms) == CaptionOf(ms[..|ms| - 1]) + Token(Classify(ms[|ms| - 1]).shape)
    ensures Classify(ms[|ms| - 1]).Unrecognized? ==> CaptionOf(ms) == NotRecognized
  {
    if Classify(ms[|ms| - 1]).Unrecognized? {
      CaptionStepUnrecognized(ms);
    } else if LastUnrecognized(ms[..|ms| - 1]).None? {
      CaptionStepBeforeWipe(ms);
    } else {
      CaptionStepAfterWipe(ms);
    }
  }

  /** Each contour adds one draw when it is recognized and none otherwise. */
  lemma {:induction false} DrawsCountLabels(ms: seq<Measurement>)
    ensures CountDraws(ms) == |Labels(ms)|
  {
    if ms != [] {
      DrawsCountLabels(ms[..|ms| - 1]);
      DrawsIffRecognized(ms[|ms| - 1]);
    }
  }

  /** An empty contour list leaves the header and draws nothing. */
  lemma NoContours()
    ensures CaptionOf([]) == Header
    ensures CountDraws([]) == 0
  {
  }

  /** Contours that are all recognized contribute one label each, in their order,
      and one draw each. */
  lemma {:induction false} AllRecognizedLabels(ms: seq<Measurement>)
    requires forall i :: 0 <= i < |ms| ==> Classify(ms[i]).Recognized?
    ensures |Labels(ms)| == |ms|
    ensures forall i :: 0 <= i < |ms| ==> Labels(ms)[i] == Classify(ms[i]).shape
    ensures CountDraws(ms) == |ms|
  {
    if ms != [] {
      AllRecognizedLabels(ms[..|ms| - 1]);
      DrawsCountLabels(ms);
    }
  }

  /** Appending one more recognized contour after a prefix is one step of the loop. */
  lemma StepAfterPrefix(a: seq<Measurement>, b: seq<Measurement>)
    requires b != [] && Classify(b[|b| - 1]).Recognized?
    ensures CaptionOf(a + b) == CaptionOf(a + b[..|b| - 1]) + Token(Classify(b[|b| - 1]).shape)
  {
    var ab := a + b;
    assert ab[..|ab| - 1] == a + b[..|b| - 1];
    assert ab[|ab| - 1] == b[|b| - 1];
    CaptionStep(ab);
  }

  /** Recognized contours after the contours a only append their tokens. */
  lemma {:induction false} AppendRecognized(a: seq<Measurement>, b: seq<Measurement>)
    requires forall i :: 0 <= i < |b| ==> Classify(b[i]).Recognized?
    ensures CaptionOf(a + b) == CaptionOf(a) + Join(Labels(b))
  {
    if b == [] {
      assert a + b == a;
      assert CaptionOf(a) + Join(Labels(b)) == CaptionOf(a) by {
        assert Join(Labels(b)) == [];
      }
    } else {
      var b0 := b[..|b| - 1];
      AppendRecognized(a, b0);
      StepAfterPrefix(a, b);
      JoinLabelsStep(b);
      Assoc(CaptionOf(a), Join(Labels(b0)), Token(Classify(b[|b| - 1]).shape));
    }
  }

  /** With every contour recognized the caption is the header followed by each
      contour's token, in contour order, and every contour is drawn. */
  lemma AllRecognizedCaption(ms: seq<Measurement>)
    requires forall i :: 0 <= i < |ms| ==> Classify(ms[i]).Recognized?
    ensures CaptionOf(ms) == Header + Join(Labels(ms))
    ensures |Labels(ms)| == |ms|
    ensures forall i :: 0 <= i < |ms| ==> Labels(ms)[i] == Classify(ms[i]).shape
    ensures CountDraws(ms) == |ms|
  {
    AppendRecognized([], ms);
    assert [] + ms == ms;
    AllRecognizedLabels(ms);
  }

  /** Once a contour is not recognized, nothing that came before it survives:
      the caption is the one the contours from then on would give by themselves. */
  lemma {:induction false} UnrecognizedForgetsPrefix(a: seq<Measurement>, b: seq<Measurement>, k: nat)
    requires k < |b| && Classify(b[k]).Unrecognized?
    ensures CaptionOf(a + b) == CaptionOf(b)
  {
    var ab := a + b;
    assert ab[..|ab| - 1] == a + b[..|b| - 1];
    assert ab[|ab| - 1] == b[|b| - 1];
    CaptionStep(ab);
    CaptionStep(b);
    if k < |b| - 1 {
      UnrecognizedForgetsPrefix(a, b[..|b| - 1], k);
    }
  }

  /** The contours after one that is not recognized append their tokens to the
      message, with nothing in between. */
  lemma RecognizedAfterMessage(a: seq<Measurement>, u: Measurement, b: seq<Measurement>)
    requires Classify(u).Unrecognized?
    requires forall i :: 0 <= i < |b| ==> Classify(b[i]).Recognized?
    ensures CaptionOf(a + [u] + b) == NotRecognized + Join(Labels(b))
  {
    var prefix := a + [u];
    assert prefix[|prefix| - 1] == u;
    CaptionStepUnrecognized(prefix);
    AppendRecognized(prefix, b);
  }

  /** After a contour that is not recognized the caption begins with the message
      and no longer holds the header. */
  lemma UnrecognizedStartsWithMessage(ms: seq<Measurement>, k: nat)
    requires k < |ms| && Classify(ms[k]).Unrecognized?
    ensures CaptionOf(ms)[..|NotRecognized|] == NotRecognized
    ensures CaptionOf(ms)[..|Header|] != Header
  {
    LastUnrecognizedIsLast(ms);
    var j := LastUnrecognized(ms).value;
    var s := NotRecognized + Join(Labels(ms[j + 1..]));
    assert s[..|NotRecognized|] == NotRecognized;
    assert s[0] == 'S' && Header[0] == 'F';
  }

  /** A single recognized contour gives the header and its token. */
  lemma SingleContour(m: Measurement)
    requires Classify(m).Recognized?
    ensures CaptionOf([m]) == Header + Token(Classify(m).shape)
  {
    assert [m][..0] == [];
    CaptionStepBeforeWipe([m]);
  }

  /** End-to-end scenario: one triangle. */
  lemma ScenarioTriangle(tri: Measurement)
    requires tri.vertices == 3
    ensures CaptionOf([tri]) == Header + "Triangle "
  {
    SingleContour(tri);
  }

  /** Two recognized contours give the header and their two tokens, in order. */
  lemma TwoContours(m1: Measurement, m2: Measurement)
    requires Classify(m1).Recognized? && Classify(m2).Recognized?
    ensures CaptionOf([m1, m2]) == Header + Token(Classify(m1).shape) + Token(Classify(m2).shape)
  {
    SingleContour(m1);
    assert [m1, m2][..1] == [m1];
    CaptionStepBeforeWipe([m1, m2]);
  }

  /** End-to-end scenario: a square (four vertices, width / height within 0.9 and
      1.1), then a circle. */
  lemma ScenarioSquareCircle(sq: Measurement, circ: Measurement)
    requires sq.vertices == 4 && sq.height > 0
    requires 0.9 <= (sq.width as real) / (sq.height as real) <= 1.1
    requires circ.vertices >= 16
    ensures CaptionOf([sq, circ]) == Header + "Square " + "Circle "
  {
    SquareAspectIsRatioTest(sq.width, sq.height);
    assert Classify(sq) == Recognized(Square) && Classify(circ) == Recognized(Circle);
    TwoContours(sq, circ);
  }

  /** The classification loop of FigureDetection. It returns the caption and the
      number of drawContours calls the loop makes. */
  method FigureDetection(contours: seq<Measurement>) returns (caption: string, draws: nat)
    ensures caption == CaptionOf(contours)
    ensures draws == CountDraws(contours)
  {
    caption := Header;
    draws := 0;
    for i := 0 to |contours|
      invariant caption == CaptionOf(contours[..i])
      invariant draws == CountDraws(contours[..i])
    {
      var m := contours[i];
      ghost var done := contours[..i + 1];
      assert done[..i] == contours[..i] && done[i] == m;
      DrawsIffRecognized(m);
      match Classify(m) {
        case Recognized(l) =>
          assert CaptionOf(done) == caption + Token(l) by { CaptionStep(done); }
          caption := caption + Token(l);
          draws := draws + 1;
        case Unrecognized =>
          assert CaptionOf(done) == NotRecognized by { CaptionStep(done); }
          caption := NotRecognized;
      }
    }
    assert contours[..|contours|] == contours;
  }
}
