/** The shape classifier of FigureDetection: one approximated contour, described by
    the vertex count of its polygon and the bounding box of the original contour,
    is mapped to a shape label, or to "not recognized". */
module Shapes {

  /** What the vision library hands the classifier for one contour: the number of
      vertices of the approximated polygon and the width and height of the
      bounding rectangle of the original contour, in pixels. */
  datatype Measurement = Measurement(vertices: nat, width: nat, height: nat)

  datatype Label = Pentagon | Triangle | Square | Rectangle | HalfCircle | MultiAngle | Circle

  datatype Classification = Recognized(shape: Label) | Unrecognized

  /** The text a recognized label appends to the caption: one word followed by
      a single space, the separator. */
  function Token(l: Label): (r: string)
    ensures |r| >= 2 && r[|r| - 1] == ' '
    ensures forall i :: 0 <= i < |r| - 1 ==> r[i] != ' '
  {
    match l
    case Pentagon => "Pentagon "
    case Triangle => "Triangle "
    case Square => "Square "
    case Rectangle => "Rectangle "
    case HalfCircle => "Half-Circle "
    case MultiAngle => "Multi-Angle "
    case Circle => "Circle "
  }

  /** No two labels append the same text. */
  lemma TokenInjective(a: Label, b: Label)
    ensures Token(a) == Token(b) ==> a == b
  {
  }

  /** The aspect test of a four-vertex contour, in integers. With a zero height the
      floating-point ratio is +infinity when the width is positive (so the upper
      bound fails) and NaN when it is zero (so both bounds fail): the test fails.
      A box with equal positive sides passes; a box that passes has positive sides. */
  predicate SquareAspect(width: nat, height: nat)
    ensures width == height && height > 0 ==> SquareAspect(width, height)
    ensures SquareAspect(width, height) ==> width > 0 && height > 0
  {
    height > 0 && 9 * height <= 10 * width && 10 * width <= 11 * height
  }

  /** Comparing a ratio with a bound is comparing the numerator with the bound
      scaled by the (positive) denominator. */
  lemma RatioBound(a: real, w: real, h: real)
    requires h > 0.0
    ensures a <= w / h <==> a * h <= w
    ensures w / h <= a <==> w <= a * h
  {
    var r := w / h;
    assert r * h == w;
    if a <= r {
      assert (r - a) * h >= 0.0;
    } else {
      assert (a - r) * h > 0.0;
    }
  }

  /** The integer aspect test is the ratio test 0.9 <= width / height <= 1.1 with
      both bounds inclusive. */
  lemma SquareAspectIsRatioTest(width: nat, height: nat)
    ensures SquareAspect(width, height)
        <==> height > 0 && 0.9 <= (width as real) / (height as real) <= 1.1
  {
    if height > 0 {
      var w, h := width as real, height as real;
      RatioBound(0.9, w, h);
      RatioBound(1.1, w, h);
      assert (9 * height) as real == 9.0 * h;
      assert (10 * width) as real == 10.0 * w;
      assert (11 * height) as real == 11.0 * h;
    }
  }

  /** The if/else chain of FigureDetection, tested in the source's order:
      5, 3, 4 (with the aspect test), 10, 11..15, above 15, anything else.
      Every vertex count reaches an outcome; the final "else" takes exactly the
      counts below 3 and 6 to 9. */
  function Classify(m: Measurement): (r: Classification)
    ensures r.Unrecognized? <==> m.vertices < 3 || 6 <= m.vertices <= 9
  {
    var n := m.vertices;
    if n == 5 then Recognized(Pentagon)
    else if n == 3 then Recognized(Triangle)
    else if n == 4 then
      (if SquareAspect(m.width, m.height) then Recognized(Square) else Recognized(Rectangle))
    else if n == 10 then Recognized(HalfCircle)
    else if n > 10 && n <= 15 then Recognized(MultiAngle)
    else if n > 15 then Recognized(Circle)
    else Unrecognized
  }

  /** The decision table, one outcome at a time and in both directions, with the
      aspect test read as the ratio width / height. */
  lemma ClassifyTable(m: Measurement)
    ensures Classify(m) == Recognized(Pentagon) <==> m.vertices == 5
    ensures Classify(m) == Recognized(Triangle) <==> m.vertices == 3
    ensures Classify(m) == Recognized(Square)
        <==> m.vertices == 4 && m.height > 0
             && 0.9 <= (m.width as real) / (m.height as real) <= 1.1
    ensures Classify(m) == Recognized(Rectangle)
        <==> m.vertices == 4
             && !(m.height > 0 && 0.9 <= (m.width as real) / (m.height as real) <= 1.1)
    ensures Classify(m) == Recognized(HalfCircle) <==> m.vertices == 10
    ensures Classify(m) == Recognized(MultiAngle) <==> 11 <= m.vertices <= 15
    ensures Classify(m) == Recognized(Circle) <==> m.vertices >= 16
  {
    SquareAspectIsRatioTest(m.width, m.height);
  }

  /** The guards of the chain, each read on its own, without the "else" before it. */
  function Guards(n: nat): seq<bool>
  {
    [n == 5, n == 3, n == 4, n == 10, n > 10 && n <= 15, n > 15]
  }

  /** No two guards hold together, so the order of the chain does not change the
      outcome, and the final "else" is taken exactly when no guard holds. */
  lemma GuardsDisjoint(m: Measurement)
    ensures |Guards(m.vertices)| == 6
    ensures forall i, j :: 0 <= i < j < 6 ==> !(Guards(m.vertices)[i] && Guards(m.vertices)[j])
    ensures Classify(m).Unrecognized? <==> forall i :: 0 <= i < 6 ==> !Guards(m.vertices)[i]
  {
    var g := Guards(m.vertices);
    assert !g[0] && !g[1] && !g[2] && !g[3] && !g[4] && !g[5] ==> Classify(m).Unrecognized?;
  }

  /** A degenerate polygon (fewer than three vertices) is not an error: it falls
      through to "not recognized", and every count has an outcome. */
  lemma DegenerateIsUnrecognized(m: Measurement)
    requires m.vertices < 3
    ensures Classify(m) == Unrecognized
  {
  }

  /** The boundary cases of the aspect test: exactly 0.9 and exactly 1.1 are
      squares, 0.89 and 1.11 are rectangles. */
  lemma AspectBoundaries()
    ensures Classify(Measurement(4, 9, 10)) == Recognized(Square)
    ensures Classify(Measurement(4, 11, 10)) == Recognized(Square)
    ensures Classify(Measurement(4, 89, 100)) == Recognized(Rectangle)
    ensures Classify(Measurement(4, 111, 100)) == Recognized(Rectangle)
  {
  }

  /** The boundary cases of the vertex-count table. */
  lemma VertexBoundaries(w: nat, h: nat)
    ensures Classify(Measurement(10, w, h)) == Recognized(HalfCircle)
    ensures Classify(Measurement(11, w, h)) == Recognized(MultiAngle)
    ensures Classify(Measurement(15, w, h)) == Recognized(MultiAngle)
    ensures Classify(Measurement(16, w, h)) == Recognized(Circle)
    ensures Classify(Measurement(2, w, h)) == Unrecognized
  {
  }
}
