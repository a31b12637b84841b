/** The orientation grouper: splitting lines into families of near-parallel
    lines by angle alone. */
module Orientation {
  import opened Geometry
  import opened LineParameters
  import opened Sequences
  import opened Clustering

  /** The source's `areThetasClose`: first the angles differ by at most the
      tolerance, then their difference is within the tolerance of half a
      turn (a line near 179 degrees and one near 0 degrees are
      near-parallel). Put differently, the signed difference lies within the
      tolerance of -PI, 0 or PI. */
  predicate AreThetasClose(firstTheta: real, secondTheta: real, thetaTolerance: real)
    ensures AreThetasClose(firstTheta, secondTheta, thetaTolerance)
            <==> var d := firstTheta - secondTheta;
                 || Abs(d + PI) <= thetaTolerance
                 || Abs(d) <= thetaTolerance
                 || Abs(d - PI) <= thetaTolerance
  {
    || Abs(firstTheta - secondTheta) <= thetaTolerance
    || Abs(Abs(firstTheta - secondTheta) - PI) <= thetaTolerance
  }

  /** At a non-negative tolerance every angle is close to itself. */
  lemma AreThetasCloseReflexive(a: real, thetaTolerance: real)
    requires 0.0 <= thetaTolerance
    ensures AreThetasClose(a, a, thetaTolerance)
  {
  }

  /** Closeness of angles does not depend on their order. */
  lemma AreThetasCloseSymmetric(a: real, b: real, thetaTolerance: real)
    ensures AreThetasClose(a, b, thetaTolerance) <==> AreThetasClose(b, a, thetaTolerance)
  {
  }

  /** Angles half a turn apart are close at any non-negative tolerance, and so
      are angles that miss half a turn by no more than the tolerance: 0.01 and
      PI - 0.01 are close once the tolerance reaches 0.02. */
  lemma HalfTurnApartAreClose(a: real, thetaTolerance: real)
    requires 0.0 <= thetaTolerance
    ensures AreThetasClose(a, a + PI, thetaTolerance)
    ensures AreThetasClose(a + PI, a, thetaTolerance)
    ensures 0.02 <= thetaTolerance ==> AreThetasClose(0.01, PI - 0.01, thetaTolerance)
  {
  }

  /** `k` half turns, in radians. */
  function HalfTurns(k: int): real {
    PI * (k as real)
  }

  /** Two angles give near-parallel directions: some whole number of half
      turns brings their difference within the tolerance. */
  ghost predicate CloseModuloHalfTurn(a: real, b: real, thetaTolerance: real) {
    exists k: int :: Abs(a - b - HalfTurns(k)) <= thetaTolerance
  }

  /** On the angles `twoPointsToPolar` produces, between 0 and PI inclusive,
      `areThetasClose` is exactly closeness modulo a half turn. */
  lemma CloseModuloHalfTurnOnUpperHalf(a: real, b: real, thetaTolerance: real)
    requires 0.0 <= a <= PI && 0.0 <= b <= PI
    ensures AreThetasClose(a, b, thetaTolerance) <==> CloseModuloHalfTurn(a, b, thetaTolerance)
  {
    var d := a - b;
    if AreThetasClose(a, b, thetaTolerance) {
      if Abs(d + PI) <= thetaTolerance {
        assert Abs(d - HalfTurns(-1)) <= thetaTolerance;
      } else if Abs(d) <= thetaTolerance {
        assert Abs(d - HalfTurns(0)) <= thetaTolerance;
      } else {
        assert Abs(d - HalfTurns(1)) <= thetaTolerance;
      }
    }
    if CloseModuloHalfTurn(a, b, thetaTolerance) {
      var k: int :| Abs(d - HalfTurns(k)) <= thetaTolerance;
      if k <= -2 {
        assert HalfTurns(k) <= -2.0 * PI;
        assert Abs(d) <= thetaTolerance;
      } else if k >= 2 {
        assert HalfTurns(k) >= 2.0 * PI;
        assert Abs(d) <= thetaTolerance;
      } else {
        assert k == -1 || k == 0 || k == 1;
      }
    }
  }

  /** Neither test wraps at a full turn: just inside PI and just above -PI
      are 0.02 short of two half turns apart, so they are near-parallel, yet they
      are not close. */
  lemma NoWrapAtFullTurn()
    ensures CloseModuloHalfTurn(PI - 0.01, -PI + 0.01, 0.1)
    ensures !AreThetasClose(PI - 0.01, -PI + 0.01, 0.1)
  {
    assert Abs((PI - 0.01) - (-PI + 0.01) - HalfTurns(2)) <= 0.1;
  }

  /** `areThetasClose` on the thetas of (new line, anchor) at a fixed tolerance. */
  function ThetasClose(thetaTolerance: real): (Line, Line) -> bool {
    (l: Line, anchor: Line) => AreThetasClose(l.theta, anchor.theta, thetaTolerance)
  }

  /** The source's `groupByNearParallelLines`: greedy grouping of the lines on
      `areThetasClose`. The groups partition the input: each is non-empty and
      keeps the input order, every input line lands in exactly one group, and
      groups appear in the order of their first lines. Every later member of a
      group is close to the group's first line, and no line is close to the
      first line of an earlier group. */
  function GroupByNearParallelLines(lines: seq<Line>, thetaTolerance: real): (groups: seq<seq<Line>>)
    ensures forall g | 0 <= g < |groups| :: |groups[g]| > 0 && Subseq(groups[g], lines)
    ensures multiset(Flatten(groups)) == multiset(lines)
    ensures |Flatten(groups)| == |lines|
    ensures Subseq(Anchors(groups), lines)
    ensures |lines| > 0 ==> |groups| > 0 && groups[0][0] == lines[0]
    ensures forall g, j | 0 <= g < |groups| && 1 <= j < |groups[g]| ::
              AreThetasClose(groups[g][j].theta, groups[g][0].theta, thetaTolerance)
    ensures forall h, g, j | 0 <= h < g < |groups| && 0 <= j < |groups[g]| ::
              !AreThetasClose(groups[g][j].theta, groups[h][0].theta, thetaTolerance)
  {
    ClusterIsGreedyPartition(lines, ThetasClose(thetaTolerance));
    var groups: seq<seq<Line>> := Cluster(lines, ThetasClose(thetaTolerance));
    assert |multiset(Flatten(groups))| == |multiset(lines)|;
    groups
  }

  /** At a non-negative tolerance every member, first line included, is close
      to its group's first line, and the first lines of different groups are
      pairwise not close, in either order. */
  lemma GroupAnchorsSeparate(lines: seq<Line>, thetaTolerance: real)
    requires 0.0 <= thetaTolerance
    ensures forall g, j | 0 <= g < |GroupByNearParallelLines(lines, thetaTolerance)|
                          && 0 <= j < |GroupByNearParallelLines(lines, thetaTolerance)[g]| ::
              AreThetasClose(GroupByNearParallelLines(lines, thetaTolerance)[g][j].theta,
                             GroupByNearParallelLines(lines, thetaTolerance)[g][0].theta, thetaTolerance)
    ensures forall h, g | 0 <= h < |GroupByNearParallelLines(lines, thetaTolerance)|
                          && 0 <= g < |GroupByNearParallelLines(lines, thetaTolerance)| && h != g ::
              !AreThetasClose(GroupByNearParallelLines(lines, thetaTolerance)[g][0].theta,
                              GroupByNearParallelLines(lines, thetaTolerance)[h][0].theta, thetaTolerance)
  {
    var groups: seq<seq<Line>> := GroupByNearParallelLines(lines, thetaTolerance);
    AnchorsSeparate(groups, thetaTolerance);
  }

  /** The closing step of `GroupAnchorsSeparate`, for any groups with the
      greedy shape: reflexivity brings the first member into its own group,
      symmetry turns "not close to an earlier anchor" into both orders. */
  lemma AnchorsSeparate(groups: seq<seq<Line>>, thetaTolerance: real)
    requires 0.0 <= thetaTolerance
    requires forall g | 0 <= g < |groups| :: |groups[g]| > 0
    requires forall g, j | 0 <= g < |groups| && 1 <= j < |groups[g]| ::
               AreThetasClose(groups[g][j].theta, groups[g][0].theta, thetaTolerance)
    requires forall h, g | 0 <= h < g < |groups| ::
               !AreThetasClose(groups[g][0].theta, groups[h][0].theta, thetaTolerance)
    ensures forall g, j | 0 <= g < |groups| && 0 <= j < |groups[g]| ::
              AreThetasClose(groups[g][j].theta, groups[g][0].theta, thetaTolerance)
    ensures forall h, g | 0 <= h < |groups| && 0 <= g < |groups| && h != g ::
              !AreThetasClose(groups[g][0].theta, groups[h][0].theta, thetaTolerance)
  {
    forall g | 0 <= g < |groups|
      ensures AreThetasClose(groups[g][0].theta, groups[g][0].theta, thetaTolerance)
    {
      AreThetasCloseReflexive(groups[g][0].theta, thetaTolerance);
    }
    forall h, g | 0 <= g < h < |groups|
      ensures !AreThetasClose(groups[g][0].theta, groups[h][0].theta, thetaTolerance)
    {
      AreThetasCloseSymmetric(groups[g][0].theta, groups[h][0].theta, thetaTolerance);
    }
  }
}
