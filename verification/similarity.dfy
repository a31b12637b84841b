/** The duplicate collapser: comparing two polar lines, and keeping one
    representative per cluster of near-duplicate lines. */
module Similarity {
  import opened Geometry
  import opened LineParameters
  import opened Sequences
  import opened Clustering

  /** The other polar representation of the same undirected line: negating
      `rho` and turning `theta` by half a turn describes the same set of points. */
  function Opposite(l: Line): Line {
    Line(-l.rho, l.theta - PI)
  }

  /** The source's `linesHasCloseAbsoluteParameters`: it rejects on the rho test
      first and only then looks at theta, which amounts to both parameters
      being within their tolerances. A line compared with itself passes
      exactly when neither tolerance is negative. */
  predicate HasCloseAbsoluteParameters(l1: Line, l2: Line, rhoTolerance: real, thetaTolerance: real)
    ensures HasCloseAbsoluteParameters(l1, l2, rhoTolerance, thetaTolerance)
            <==> Abs(l1.rho - l2.rho) <= rhoTolerance && Abs(l1.theta - l2.theta) <= thetaTolerance
    ensures l1 == l2 ==>
              (HasCloseAbsoluteParameters(l1, l2, rhoTolerance, thetaTolerance)
               <==> 0.0 <= rhoTolerance && 0.0 <= thetaTolerance)
  {
    if Abs(l1.rho - l2.rho) > rhoTolerance then false
    else Abs(l1.theta - l2.theta) <= thetaTolerance
  }

  /** The source's `transformCoordinates`: a line whose theta exceeds PI/2 is
      rewritten in its opposite representation, any other line is kept. The
      result is always the same undirected line, and a line with theta in
      (-PI, PI] lands in (-PI, PI/2]. */
  function TransformCoordinates(l: Line): (r: Line)
    ensures r == l || r == Opposite(l)
    ensures l.theta <= PI / 2.0 ==> r == l
    ensures PI / 2.0 < l.theta ==> r == Opposite(l)
    ensures -PI < l.theta <= PI ==> -PI < r.theta <= PI / 2.0
  {
    if l.theta > PI / 2.0 then Opposite(l) else l
  }

  /** On lines with theta in (-PI, PI] the transform is idempotent: a second
      application changes nothing. */
  lemma TransformIdempotent(l: Line)
    requires -PI < l.theta <= PI
    ensures TransformCoordinates(TransformCoordinates(l)) == TransformCoordinates(l)
  {
  }

  /** The source's `areLinesSimilar`: close as given, or close once both are
      moved to theta at most PI/2. The second test only changes the answer
      when the two thetas lie on different sides of PI/2: on the same side it
      compares the same differences again, and across PI/2 it compares the
      higher line's opposite representation with the other line. */
  predicate AreLinesSimilar(l1: Line, l2: Line, rhoTolerance: real, thetaTolerance: real)
    ensures HasCloseAbsoluteParameters(l1, l2, rhoTolerance, thetaTolerance)
            ==> AreLinesSimilar(l1, l2, rhoTolerance, thetaTolerance)
    ensures (l1.theta <= PI / 2.0) == (l2.theta <= PI / 2.0) ==>
              (AreLinesSimilar(l1, l2, rhoTolerance, thetaTolerance)
               <==> HasCloseAbsoluteParameters(l1, l2, rhoTolerance, thetaTolerance))
    ensures PI / 2.0 < l1.theta && l2.theta <= PI / 2.0 ==>
              (AreLinesSimilar(l1, l2, rhoTolerance, thetaTolerance)
               <==> || HasCloseAbsoluteParameters(l1, l2, rhoTolerance, thetaTolerance)
                    || HasCloseAbsoluteParameters(Opposite(l1), l2, rhoTolerance, thetaTolerance))
    ensures l1.theta <= PI / 2.0 && PI / 2.0 < l2.theta ==>
              (AreLinesSimilar(l1, l2, rhoTolerance, thetaTolerance)
               <==> || HasCloseAbsoluteParameters(l1, l2, rhoTolerance, thetaTolerance)
                    || HasCloseAbsoluteParameters(l1, Opposite(l2), rhoTolerance, thetaTolerance))
  {
    || HasCloseAbsoluteParameters(l1, l2, rhoTolerance, thetaTolerance)
    || HasCloseAbsoluteParameters(TransformCoordinates(l1), TransformCoordinates(l2), rhoTolerance, thetaTolerance)
  }

  /** With non-negative tolerances every line is similar to itself. */
  lemma AreLinesSimilarReflexive(l: Line, rhoTolerance: real, thetaTolerance: real)
    requires 0.0 <= rhoTolerance && 0.0 <= thetaTolerance
    ensures AreLinesSimilar(l, l, rhoTolerance, thetaTolerance)
  {
  }

  /** Similarity does not depend on the order of the two lines. */
  lemma AreLinesSimilarSymmetric(l1: Line, l2: Line, rhoTolerance: real, thetaTolerance: real)
    ensures AreLinesSimilar(l1, l2, rhoTolerance, thetaTolerance) <==> AreLinesSimilar(l2, l1, rhoTolerance, thetaTolerance)
  {
  }

  /** The transform resolves the representation ambiguity for lines with theta
      in (PI/2, PI]: such a line is similar to its opposite representation,
      in either argument order, at any non-negative tolerances. */
  lemma SimilarToOpposite(l: Line, rhoTolerance: real, thetaTolerance: real)
    requires PI / 2.0 < l.theta <= PI
    requires 0.0 <= rhoTolerance && 0.0 <= thetaTolerance
    ensures AreLinesSimilar(l, Opposite(l), rhoTolerance, thetaTolerance)
    ensures AreLinesSimilar(Opposite(l), l, rhoTolerance, thetaTolerance)
  {
  }

  /** At zero tolerance two lines are similar exactly when their transformed
      forms coincide. */
  lemma SimilarAtZeroTolerance(l1: Line, l2: Line)
    ensures AreLinesSimilar(l1, l2, 0.0, 0.0) <==> TransformCoordinates(l1) == TransformCoordinates(l2)
  {
  }

  /** `areLinesSimilar` with fixed tolerances, called as (new line, anchor). */
  function Similar(rhoTolerance: real, thetaTolerance: real): (Line, Line) -> bool {
    (l1: Line, l2: Line) => AreLinesSimilar(l1, l2, rhoTolerance, thetaTolerance)
  }

  /** The source's `filterSimilarLines`: greedy clustering on `areLinesSimilar`,
      then the first line of each cluster, with no averaging. The output is an
      order-preserving selection from the input that starts with the first
      input line, its representatives are pairwise dissimilar, and every input
      line is a representative or similar to one. */
  function FilterSimilarLines(lines: seq<Line>, rhoTolerance: real, thetaTolerance: real): (r: seq<Line>)
    ensures Subseq(r, lines)
    ensures |r| <= |lines|
    ensures |r| == 0 <==> |lines| == 0
    ensures |lines| > 0 ==> r[0] == lines[0]
    ensures forall i, j | 0 <= i < j < |r| :: !AreLinesSimilar(r[j], r[i], rhoTolerance, thetaTolerance)
    ensures forall i | 0 <= i < |lines| ::
              exists k | 0 <= k < |r| :: lines[i] == r[k] || AreLinesSimilar(lines[i], r[k], rhoTolerance, thetaTolerance)
  {
    ClusterAnchors(lines, Similar(rhoTolerance, thetaTolerance));
    Anchors(Cluster(lines, Similar(rhoTolerance, thetaTolerance)))
  }

  /** With non-negative tolerances every input line is similar to some
      representative, and no two representatives are similar in either order
      nor equal, so duplicates of one line leave one representative. */
  lemma FilterSimilarLinesRepresentatives(lines: seq<Line>, rhoTolerance: real, thetaTolerance: real)
    requires 0.0 <= rhoTolerance && 0.0 <= thetaTolerance
    ensures forall i | 0 <= i < |lines| ::
              exists k | 0 <= k < |FilterSimilarLines(lines, rhoTolerance, thetaTolerance)| ::
                AreLinesSimilar(lines[i], FilterSimilarLines(lines, rhoTolerance, thetaTolerance)[k], rhoTolerance, thetaTolerance)
    ensures forall i, j | 0 <= i < j < |FilterSimilarLines(lines, rhoTolerance, thetaTolerance)| ::
              && !AreLinesSimilar(FilterSimilarLines(lines, rhoTolerance, thetaTolerance)[i],
                                  FilterSimilarLines(lines, rhoTolerance, thetaTolerance)[j], rhoTolerance, thetaTolerance)
              && FilterSimilarLines(lines, rhoTolerance, thetaTolerance)[i] != FilterSimilarLines(lines, rhoTolerance, thetaTolerance)[j]
  {
    var r := FilterSimilarLines(lines, rhoTolerance, thetaTolerance);
    forall i | 0 <= i < |lines|
      ensures exists k | 0 <= k < |r| :: AreLinesSimilar(lines[i], r[k], rhoTolerance, thetaTolerance)
    {
      var k :| 0 <= k < |r| && (lines[i] == r[k] || AreLinesSimilar(lines[i], r[k], rhoTolerance, thetaTolerance));
      AreLinesSimilarReflexive(r[k], rhoTolerance, thetaTolerance);
    }
    forall i, j | 0 <= i < j < |r|
      ensures !AreLinesSimilar(r[i], r[j], rhoTolerance, thetaTolerance) && r[i] != r[j]
    {
      AreLinesSimilarReflexive(r[i], rhoTolerance, thetaTolerance);
      AreLinesSimilarSymmetric(r[i], r[j], rhoTolerance, thetaTolerance);
    }
  }

  /** One more input line: `filterSimilarLines` keeps the representatives it
      had and appends the new line exactly when it is similar to none of
      them. With the empty input giving no representatives, this fixes the
      output on every input: the first-seen line of a cluster is the one
      kept. */
  lemma FilterSimilarLinesStep(lines: seq<Line>, x: Line, rhoTolerance: real, thetaTolerance: real)
    ensures FilterSimilarLines([], rhoTolerance, thetaTolerance) == []
    ensures var r := FilterSimilarLines(lines, rhoTolerance, thetaTolerance);
            FilterSimilarLines(lines + [x], rhoTolerance, thetaTolerance)
            == if exists k | 0 <= k < |r| :: AreLinesSimilar(x, r[k], rhoTolerance, thetaTolerance)
               then r else r + [x]
  {
    AnchorsStep(lines, x, Similar(rhoTolerance, thetaTolerance));
  }

  /** Of two similar lines the first one seen is the one kept: when `c` is
      similar to `b` but neither `b` nor `c` is similar to `a`, the output on
      `[a, b, c]` is `[a, b]`, never `[a, c]`. With tolerances (1, 0.1) the
      lines (0, 0), (10, 0) and (10.5, 0) are such a triple. */
  lemma FirstSeenIsKept(a: Line, b: Line, c: Line, rhoTolerance: real, thetaTolerance: real)
    requires !AreLinesSimilar(b, a, rhoTolerance, thetaTolerance)
    requires !AreLinesSimilar(c, a, rhoTolerance, thetaTolerance)
    requires AreLinesSimilar(c, b, rhoTolerance, thetaTolerance)
    ensures FilterSimilarLines([a, b, c], rhoTolerance, thetaTolerance) == [a, b]
  {
    FirstSeenAnchorIsKept([a, b, c], Similar(rhoTolerance, thetaTolerance));
    assert [a, b, c][..2] == [a, b];
  }

  /** The triple named above meets the pattern. */
  lemma FirstSeenExample()
    ensures var a, b, c := Line(0.0, 0.0), Line(10.0, 0.0), Line(10.5, 0.0);
            && !AreLinesSimilar(b, a, 1.0, 0.1)
            && !AreLinesSimilar(c, a, 1.0, 0.1)
            && AreLinesSimilar(c, b, 1.0, 0.1)
  {
  }

  /** `areLinesSimilar` does not wrap at a full turn either: the same rho
      with thetas just inside PI and just above -PI is nearly one line, and
      shifting the second theta by a full turn makes the two close, yet they
      are not similar. */
  lemma NoWrapAtFullTurn()
    ensures var l1, l2 := Line(5.0, PI - 0.01), Line(5.0, -PI + 0.01);
            && HasCloseAbsoluteParameters(l1, Line(l2.rho, l2.theta + Turns(1)), 1.0, 0.1)
            && !AreLinesSimilar(l1, l2, 1.0, 0.1)
  {
  }

  /** Only a theta above PI/2 is moved, so a line with theta at most PI/2 is
      compared with its own opposite form as given: they are similar, in
      either order, only when the tolerances cover a rho gap of twice
      `Abs(rho)` and a theta gap of PI. The line (5, 0.1) and its opposite
      form are not similar at tolerances (1, 0.1). */
  lemma OppositeOfLowLineNotMatched(l: Line, rhoTolerance: real, thetaTolerance: real)
    requires l.theta <= PI / 2.0
    ensures AreLinesSimilar(l, Opposite(l), rhoTolerance, thetaTolerance)
            <==> 2.0 * Abs(l.rho) <= rhoTolerance && PI <= thetaTolerance
    ensures AreLinesSimilar(Opposite(l), l, rhoTolerance, thetaTolerance)
            <==> 2.0 * Abs(l.rho) <= rhoTolerance && PI <= thetaTolerance
    ensures !AreLinesSimilar(Line(5.0, 0.1), Opposite(Line(5.0, 0.1)), 1.0, 0.1)
  {
  }
}
