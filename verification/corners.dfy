/** The corner resolver: the four corners of the document from the first two
    lines of the first two orientation groups. */
module Corners {
  import opened Geometry
  import opened LineParameters

  /** Reading a group or a line that is not there: Java's
      `IndexOutOfBoundsException` from `List.get`. */
  datatype CornerError = IndexOutOfBounds

  datatype Result<T> = Success(value: T) | Failure(error: CornerError)

  /** Which line of group 0 and which of group 1 meet at each of the four
      corners, in output order. */
  const CornerPattern: seq<(nat, nat)> := [(0, 1), (0, 0), (1, 0), (1, 1)]

  /** Corners `i` and the one after it (the first after the last) lie on a
      common line of one group and on different lines of the other. */
  predicate StepKeepsOneLine(i: nat)
    requires i < 4
  {
    var here := CornerPattern[i];
    var next := CornerPattern[(i + 1) % 4];
    (here.0 == next.0) != (here.1 == next.1)
  }

  /** The pattern names each of the four pairs of lines exactly once, and
      every step round it keeps one line and changes the other, so the
      corners follow the outline of the quadrilateral rather than crossing a
      diagonal. */
  lemma CornerPatternTracesOutline()
    ensures |CornerPattern| == 4
    ensures forall a, b | 0 <= a < 2 && 0 <= b < 2 :: (a, b) in CornerPattern
    ensures forall i | 0 <= i < 4 :: StepKeepsOneLine(i)
  {
  }

  /** The source's `getIntersectionsFromParallelLines`, with `getIntersection`
      taken as the parameter `intersect`. It needs two groups whose first two
      lines exist and fails with an out-of-bounds error otherwise; further
      groups and further lines are ignored. On success it yields exactly four
      points: corner `i` is where line `CornerPattern[i].0` of group 0 meets
      line `CornerPattern[i].1` of group 1. */
  function GetIntersectionsFromParallelLines(lineGroups: seq<seq<Line>>, intersect: (Line, Line) -> Point): (r: Result<seq<Point>>)
    ensures r.Success? <==> 2 <= |lineGroups| && 2 <= |lineGroups[0]| && 2 <= |lineGroups[1]|
    ensures r.Success? ==>
              && |r.value| == 4
              && forall i | 0 <= i < 4 ::
                   r.value[i] == intersect(lineGroups[0][CornerPattern[i].0], lineGroups[1][CornerPattern[i].1])
  {
    if |lineGroups| < 2 || |lineGroups[0]| < 2 || |lineGroups[1]| < 2 then
      Failure(IndexOutOfBounds)
    else
      var g0 := lineGroups[0];
      var g1 := lineGroups[1];
      Success([intersect(g0[0], g1[1]), intersect(g0[0], g1[0]), intersect(g0[1], g1[0]), intersect(g0[1], g1[1])])
  }

  /** Only the first two lines of the first two groups matter: inputs that
      agree on those give the same corners. */
  lemma CornersDependOnFirstLinesOnly(gs: seq<seq<Line>>, hs: seq<seq<Line>>, intersect: (Line, Line) -> Point)
    requires 2 <= |gs| && 2 <= |hs|
    requires |gs[0]| >= 2 && |gs[1]| >= 2 && |hs[0]| >= 2 && |hs[1]| >= 2
    requires gs[0][..2] == hs[0][..2] && gs[1][..2] == hs[1][..2]
    ensures GetIntersectionsFromParallelLines(gs, intersect) == GetIntersectionsFromParallelLines(hs, intersect)
  {
  }
}
