# Document-corner line clean-up, modelled in Dafny

This project models the trig-free core of the Android document scanner's
`ImageCalculationUtils` and its `LineParameters` value type. The document's
edges arrive as lines in polar form (rho, theta). The core then:

- folds angles into (-PI, PI] (`normalizeAngle`);
- converts a pair of points into a polar line (`twoPointsToPolar`);
- compares lines within a rho and a theta tolerance. The comparison allows for
  the opposite representation (-rho, theta - PI) of a line whose theta
  exceeds PI/2 (`areLinesSimilar`, `linesHasCloseAbsoluteParameters`, `transformCoordinates`);
- collapses near-duplicates by greedy first-fit clustering and keeps the first
  line of each cluster (`filterSimilarLines`);
- groups lines into near-parallel families: two lines are near-parallel when
  their theta difference is within the tolerance of 0, PI or -PI
  (`areThetasClose`, `groupByNearParallelLines`);
- picks the four document corners from the first two lines of the first two
  families (`getIntersectionsFromParallelLines`).

Layout, one module per file:

- `geometry.dfy` (`Geometry`): `PI`, `Abs`, `Turns`, `Point`.
- `line_parameters.dfy` (`LineParameters`): the immutable `Line` datatype.
- `angles.dfy` (`Angles`): `NormalizeAngle`, the two source loops as a method.
- `polar.dfy` (`Polar`): `TwoPointsToPolar`.
- `sequences.dfy` (`Sequences`): `Subseq` (order-preserving selection) and
  `Flatten`.
- `clustering.dfy` (`Clustering`): the one greedy first-fit scheme that both
  `filterSimilarLines` and `groupByNearParallelLines` run. The closeness
  relation is a parameter. It is always called as (new line, anchor), as in
  the source.
- `similarity.dfy` (`Similarity`): line comparison and `FilterSimilarLines`.
- `orientation.dfy` (`Orientation`): `AreThetasClose` and
  `GroupByNearParallelLines`.
- `corners.dfy` (`Corners`): `GetIntersectionsFromParallelLines`.

`PI` is the exact value of the double `Math.PI`. All doubles are modelled as
mathematical reals.

Edge cases the model takes from the code as written:

- Two identical points are not undefined. The code takes the vertical branch
  and returns (x, 0).
- The corner resolver does not demand exactly two groups. Groups after the
  second, and lines after the second in a group, are ignored.
- The resolver's failure is the `IndexOutOfBoundsException` that `List.get`
  throws. It is modelled as `Failure(IndexOutOfBounds)`.

## Model

| member | source | states |
|---|---|---|
| LineParameters.ConstructorAndGetters | android/src/main/java/com/ubidreams/RNDocumentScanner/LineParameters.java:3-17 | The constructor stores rho and theta and the getters return exactly those values. A line is determined by its two reals and never changes. |
| Angles.NormalizeAngle | android/src/main/java/com/ubidreams/RNDocumentScanner/ImageCalculationUtils.java:38-43 | The loops terminate with a result in (-PI, PI]. The result differs from the input by a whole number of turns. An input already in (-PI, PI] comes back unchanged. |
| Angles.NormalizedDirectionIsUnique | android/src/main/java/com/ubidreams/RNDocumentScanner/ImageCalculationUtils.java:38-43 | Two angles in (-PI, PI] that differ by whole turns are equal. So the normalised angle depends only on the direction of the input. |
| Polar.TwoPointsToPolar | android/src/main/java/com/ubidreams/RNDocumentScanner/ImageCalculationUtils.java:11-36 | Equal x gives rho = p2.x and theta = 0. Otherwise abs(rho) is the origin's distance abs(c)/sqrt(m*m+1) from the line y = m*x + c. Rho is negative exactly for a rising line with a negative intercept. Theta is PI/2 for a horizontal line, else PI/2 -/+ atan modulo turns. Theta always lies in (-PI, PI]. |
| Similarity.TransformCoordinates | android/src/main/java/com/ubidreams/RNDocumentScanner/ImageCalculationUtils.java:91-99 | The result is the same line or its opposite representation (-rho, theta - PI). A theta of at most PI/2 is kept, and a theta above PI/2 always gives the opposite representation. A theta in (-PI, PI] is moved into (-PI, PI/2]. |
| Similarity.TransformIdempotent | android/src/main/java/com/ubidreams/RNDocumentScanner/ImageCalculationUtils.java:91-99 | For theta in (-PI, PI], transforming twice gives the same line as transforming once. |
| Similarity.HasCloseAbsoluteParameters | android/src/main/java/com/ubidreams/RNDocumentScanner/ImageCalculationUtils.java:83-89 | The rho test rejects first and then theta decides. This holds exactly when both parameter differences are within their tolerances. A line compared with itself passes exactly when neither tolerance is negative. |
| Similarity.AreLinesSimilar | android/src/main/java/com/ubidreams/RNDocumentScanner/ImageCalculationUtils.java:75-81 | Lines close as given are similar. When both thetas are on the same side of PI/2, similar means exactly close as given. When they straddle PI/2, similar means close as given or close after replacing the higher line by its opposite representation. |
| Similarity.AreLinesSimilarReflexive | android/src/main/java/com/ubidreams/RNDocumentScanner/ImageCalculationUtils.java:75-89 | With non-negative tolerances every line is similar to itself. |
| Similarity.AreLinesSimilarSymmetric | android/src/main/java/com/ubidreams/RNDocumentScanner/ImageCalculationUtils.java:75-89 | Similarity does not depend on the order of its two lines. |
| Similarity.SimilarToOpposite | android/src/main/java/com/ubidreams/RNDocumentScanner/ImageCalculationUtils.java:75-99 | A line with theta in (PI/2, PI] is similar to its opposite representation, in both argument orders, at any non-negative tolerances. |
| Similarity.SimilarAtZeroTolerance | android/src/main/java/com/ubidreams/RNDocumentScanner/ImageCalculationUtils.java:75-99 | At zero tolerances two lines are similar if and only if their transformed forms are equal. |
| Similarity.NoWrapAtFullTurn | android/src/main/java/com/ubidreams/RNDocumentScanner/ImageCalculationUtils.java:75-99 | Similarity does not wrap at a full turn. Rho 5 with theta PI - 0.01 and rho 5 with theta -PI + 0.01 are not similar at tolerances (1, 0.1), though shifting the second theta by a full turn makes them close. |
| Similarity.OppositeOfLowLineNotMatched | android/src/main/java/com/ubidreams/RNDocumentScanner/ImageCalculationUtils.java:75-99 | A line with theta at most PI/2 and its opposite form (-rho, theta - PI) are similar, in either order, exactly when the rho tolerance covers twice abs(rho) and the theta tolerance covers PI. The line (5, 0.1) and its opposite are not similar at (1, 0.1). |
| Similarity.FilterSimilarLines | android/src/main/java/com/ubidreams/RNDocumentScanner/ImageCalculationUtils.java:45-73 | The output is an order-preserving subsequence of the input and no longer than it. It is empty if and only if the input is. Its first line is the input's first line. No representative is similar to an earlier one. Every input line is a representative or similar to one. |
| Similarity.FilterSimilarLinesRepresentatives | android/src/main/java/com/ubidreams/RNDocumentScanner/ImageCalculationUtils.java:45-81 | With non-negative tolerances every input line is similar to some representative. Representatives are pairwise dissimilar in both orders and pairwise distinct, so exact duplicates leave one representative. |
| Similarity.FilterSimilarLinesStep | android/src/main/java/com/ubidreams/RNDocumentScanner/ImageCalculationUtils.java:45-81 | The empty input gives no representatives. One more input line leaves the representatives unchanged when it is similar to one of them, and is appended as the last representative otherwise. This fixes the output on every input. |
| Similarity.FirstSeenIsKept | android/src/main/java/com/ubidreams/RNDocumentScanner/ImageCalculationUtils.java:45-81 | When c is similar to b but neither b nor c is similar to a, the lines [a, b, c] give [a, b]. The first-seen line of a cluster is reported, never a later one. |
| Similarity.FirstSeenExample | android/src/main/java/com/ubidreams/RNDocumentScanner/ImageCalculationUtils.java:75-89 | At tolerances (1, 0.1) the lines (0, 0), (10, 0) and (10.5, 0) form such a triple: only the last two are similar. |
| Orientation.AreThetasClose | android/src/main/java/com/ubidreams/RNDocumentScanner/ImageCalculationUtils.java:101-110 | Two angles are close exactly when their signed difference is within the tolerance of -PI, 0 or PI. This covers the direct test and the half-turn test. |
| Orientation.AreThetasCloseReflexive | android/src/main/java/com/ubidreams/RNDocumentScanner/ImageCalculationUtils.java:101-110 | At a non-negative tolerance every angle is close to itself. |
| Orientation.AreThetasCloseSymmetric | android/src/main/java/com/ubidreams/RNDocumentScanner/ImageCalculationUtils.java:101-110 | Closeness of angles does not depend on their order. |
| Orientation.HalfTurnApartAreClose | android/src/main/java/com/ubidreams/RNDocumentScanner/ImageCalculationUtils.java:101-110 | Angles exactly PI apart are close, in either order, at any non-negative tolerance. 0.01 and PI - 0.01 are close once the tolerance reaches 0.02. |
| Orientation.CloseModuloHalfTurnOnUpperHalf | android/src/main/java/com/ubidreams/RNDocumentScanner/ImageCalculationUtils.java:101-110 | For two angles between 0 and PI inclusive, they are close exactly when some whole number of half turns brings their difference within the tolerance. |
| Orientation.NoWrapAtFullTurn | android/src/main/java/com/ubidreams/RNDocumentScanner/ImageCalculationUtils.java:101-110 | The test does not wrap at a full turn. PI - 0.01 and -PI + 0.01 are within 0.1 of each other modulo a half turn, yet they are not close at tolerance 0.1. |
| Orientation.GroupByNearParallelLines | android/src/main/java/com/ubidreams/RNDocumentScanner/ImageCalculationUtils.java:113-130 | The groups partition the input. Each group is non-empty and keeps input order. Total size equals input size and the contents agree as multisets. Groups come in the order of their first lines, and the first input line opens group 0. Later members are close to their group's first line. No line is close to an earlier group's first line. |
| Orientation.GroupAnchorsSeparate | android/src/main/java/com/ubidreams/RNDocumentScanner/ImageCalculationUtils.java:101-130 | At a non-negative tolerance every member's theta, the first included, is close to its group's first line. The first lines of two different groups are not close in either order. |
| Corners.GetIntersectionsFromParallelLines | android/src/main/java/com/ubidreams/RNDocumentScanner/ImageCalculationUtils.java:132-139 | It succeeds if and only if there are at least two groups and each of the first two holds at least two lines. Otherwise it fails with an out-of-bounds error. On success it gives four points in the order (g0[0],g1[1]), (g0[0],g1[0]), (g0[1],g1[0]), (g0[1],g1[1]). |
| Corners.CornerPatternTracesOutline | android/src/main/java/com/ubidreams/RNDocumentScanner/ImageCalculationUtils.java:134-137 | The four corners use each pair of one line from each family exactly once. Each step to the next corner (cyclically) keeps one line and changes the other, so the corners trace the outline. |
| Corners.CornersDependOnFirstLinesOnly | android/src/main/java/com/ubidreams/RNDocumentScanner/ImageCalculationUtils.java:132-139 | Inputs that agree on the first two lines of the first two groups give the same corners. |
| Clustering.FirstMatch | android/src/main/java/com/ubidreams/RNDocumentScanner/ImageCalculationUtils.java:49-56 | The chunk scan returns the first group whose anchor the new line is close to. It returns the group count when there is none, and every group it skipped was not close. |
| Clustering.Insert | android/src/main/java/com/ubidreams/RNDocumentScanner/ImageCalculationUtils.java:48-59 | One outer-loop iteration keeps every chunk non-empty: a chunk is only ever created holding the new line or extended by it. |
| Clustering.InsertFirstFit | android/src/main/java/com/ubidreams/RNDocumentScanner/ImageCalculationUtils.java:47-60 | A line opens a new chunk at the end exactly when it is close to no anchor. Otherwise it is appended to the lowest-numbered chunk whose anchor it is close to, and every other chunk is unchanged. |
| Clustering.Cluster | android/src/main/java/com/ubidreams/RNDocumentScanner/ImageCalculationUtils.java:46-60 | The greedy pass never leaves a group empty, so reading a chunk's first line is always defined. |
| Clustering.ClusterIsGreedyPartition | android/src/main/java/com/ubidreams/RNDocumentScanner/ImageCalculationUtils.java:45-60 | The chunks partition the input: same multiset, each chunk and the sequence of anchors in input order, and the first input line anchors chunk 0. They have the first-fit shape: later members are close to their anchor and no member is close to an earlier chunk's anchor. |
| Clustering.ClusterCovers | android/src/main/java/com/ubidreams/RNDocumentScanner/ImageCalculationUtils.java:47-60 | Every input line lies in some chunk and is that chunk's anchor or close to it. |
| Clustering.ClusterAnchors | android/src/main/java/com/ubidreams/RNDocumentScanner/ImageCalculationUtils.java:61-72 | The list of first lines is an order-preserving subsequence of the input, no longer than it, and empty only for empty input. It starts with the first input line. No anchor is close to an earlier one. Every input line is an anchor or close to one. |
| Clustering.Anchors | android/src/main/java/com/ubidreams/RNDocumentScanner/ImageCalculationUtils.java:61-72 | The result holds one entry per chunk, and entry g is the first line of chunk g. |
| Clustering.InsertAnchors | android/src/main/java/com/ubidreams/RNDocumentScanner/ImageCalculationUtils.java:47-72 | Adding a line keeps the anchors when the line is close to one of them. Otherwise the line becomes the last anchor. |
| Clustering.AnchorsStep | android/src/main/java/com/ubidreams/RNDocumentScanner/ImageCalculationUtils.java:45-72 | No input gives no anchors. One more input line keeps the anchors when it is close to one of them, and otherwise appends it, so the first-seen line of each chunk is the one kept. |
| Clustering.FirstSeenAnchorIsKept | android/src/main/java/com/ubidreams/RNDocumentScanner/ImageCalculationUtils.java:45-72 | When the third element is close to the second and neither is close to the first, the anchors are the first two elements. |

## Left out

- Polar.TwoPointsToPolar: `Math.atan` and `Math.sqrt` are parameters, and only
  `sqrt(v) > 0` for `v >= 1` is assumed. Theta is therefore stated only up to
  whole turns of PI/2 -/+ atan, with no claim about atan's range.
- Double rounding, NaN and infinities are not modelled anywhere. The
  horizontal branch's `Math.PI/180 * 90` needs none of them: as doubles it
  rounds to exactly `Math.PI/2`, the value the model computes from `PI`.
- Neither `areThetasClose` nor `areLinesSimilar` wraps at a full turn. Two
  angles just inside PI and just above -PI are 0.02 apart as directions,
  yet they are not close (`Orientation.NoWrapAtFullTurn`,
  `Similarity.NoWrapAtFullTurn`). This is harmless for the angles that
  `twoPointsToPolar` yields, which lie between 0 and PI inclusive. On that
  range closeness is exactly closeness modulo a half turn
  (`Orientation.CloseModuloHalfTurnOnUpperHalf`).
- `areLinesSimilar` moves only a theta above PI/2 to its opposite
  representation. A line with theta at most PI/2 is therefore not matched
  with its own opposite form (-rho, theta - PI), whose theta is at most
  -PI/2, unless the tolerances cover a rho gap of twice abs(rho) and a theta
  gap of PI (`Similarity.OppositeOfLowLineNotMatched`). This is harmless for
  the lines `twoPointsToPolar` yields, whose theta lies between 0 and PI
  inclusive, so the opposite form never occurs among them.
- `getIntersection` and `getTwoPointsOfLine` (cos/sin and a determinant
  division, undefined for parallel lines) become the parameter `intersect`.
  Nothing is claimed about where two lines meet.
- `printablePoint` and `LineParameters.toString` are diagnostic string
  formatting and are not modelled.
- OpenCV's `Point` is modelled as a pair of reals.
- The iOS header only declares the same API and the same two-field struct.
  Its implementation is not part of this model.
- Corners.GetIntersectionsFromParallelLines: a failure carries no indication
  of which `get` call went out of bounds.
- Angles.NormalizeAngle: termination is proved over the reals only. With
  doubles, an infinite input never leaves the loops. The same holds for a
  huge one such as 1e17, where subtracting 2*PI rounds back to the same
  value. The only caller, `twoPointsToPolar`, passes PI/2 -/+ an arctangent,
  which lies between 0 and PI.

