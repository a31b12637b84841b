/** The greedy single-pass clustering that both `filterSimilarLines` and
    `groupByNearParallelLines` perform: each line, in input order, joins the
    first existing group whose first member (its anchor) it is close to, or
    else opens a new group of its own. `close(line, anchor)` is called with
    the new line first, as the source does. */
module Clustering {
  import opened Sequences

  ghost predicate NonEmptyGroups<T>(gs: seq<seq<T>>) {
    forall g | 0 <= g < |gs| :: |gs[g]| > 0
  }

  /** The inner `chunkIndex` loop: the index of the first group, from `from`
      on, whose anchor `x` is close to, or `|gs|` when there is none. */
  function FirstMatch<T>(gs: seq<seq<T>>, x: T, close: (T, T) -> bool, from: nat): (k: nat)
    requires from <= |gs|
    requires NonEmptyGroups(gs)
    ensures from <= k <= |gs|
    ensures forall g | from <= g < k :: !close(x, gs[g][0])
    ensures k < |gs| ==> close(x, gs[k][0])
    decreases |gs| - from
  {
    if from == |gs| then from
    else if close(x, gs[from][0]) then from
    else FirstMatch(gs, x, close, from + 1)
  }

  /** One iteration of the outer loop: `x` joins the first group whose anchor
      it is close to, leaving every other group as it was, or, when it is
      close to no anchor, starts a new group of its own at the end. */
  function Insert<T>(gs: seq<seq<T>>, x: T, close: (T, T) -> bool): (r: seq<seq<T>>)
    requires NonEmptyGroups(gs)
    ensures NonEmptyGroups(r)
  {
    var k := FirstMatch(gs, x, close, 0);
    if k < |gs| then gs[k := gs[k] + [x]] else gs + [[x]]
  }

  /** What `Insert` does, stated without `FirstMatch`: a new group exactly
      when `x` is close to no anchor, and otherwise `x` is appended to the
      lowest-numbered group whose anchor it is close to, all other groups
      unchanged. */
  lemma InsertFirstFit<T>(gs: seq<seq<T>>, x: T, close: (T, T) -> bool)
    requires NonEmptyGroups(gs)
    ensures var r := Insert(gs, x, close);
            |r| == |gs| + 1 <==> forall g | 0 <= g < |gs| :: !close(x, gs[g][0])
    ensures var r := Insert(gs, x, close);
            |r| == |gs| + 1 ==> r == gs + [[x]]
    ensures var r := Insert(gs, x, close);
            |r| != |gs| + 1 ==>
              exists k | 0 <= k < |gs| ::
                && close(x, gs[k][0])
                && (forall h | 0 <= h < k :: !close(x, gs[h][0]))
                && r == gs[k := gs[k] + [x]]
  {
    var k := FirstMatch(gs, x, close, 0);
    if k < |gs| {
      assert |gs[k := gs[k] + [x]]| == |gs|;
    }
  }

  /** The groups built from `xs`, processed front to back. */
  function Cluster<T>(xs: seq<T>, close: (T, T) -> bool): (gs: seq<seq<T>>)
    ensures NonEmptyGroups(gs)
  {
    if |xs| == 0 then [] else Insert(Cluster(xs[..|xs| - 1], close), xs[|xs| - 1], close)
  }

  /** The result loop of `filterSimilarLines`: the first member of every
      group is appended, group by group, so there is one anchor per group and
      anchor `g` is the first member of group `g`. */
  function Anchors<T>(gs: seq<seq<T>>): (a: seq<T>)
    requires NonEmptyGroups(gs)
    ensures |a| == |gs|
    ensures forall g | 0 <= g < |gs| :: a[g] == gs[g][0]
  {
    if |gs| == 0 then [] else Anchors(gs[..|gs| - 1]) + [gs[|gs| - 1][0]]
  }

  /** `gs` splits `xs`: every element of `xs` lands in exactly one group (as
      multisets), every group keeps the input order, groups are ordered by
      their anchors' positions in `xs`, and the first input opens the first
      group. */
  ghost predicate IsPartition<T>(gs: seq<seq<T>>, xs: seq<T>) {
    && NonEmptyGroups(gs)
    && multiset(Flatten(gs)) == multiset(xs)
    && (forall g | 0 <= g < |gs| :: Subseq(gs[g], xs))
    && Subseq(Anchors(gs), xs)
    && (|xs| > 0 ==> |gs| > 0 && gs[0][0] == xs[0])
  }

  /** The shape greedy first-fit leaves behind: every later member of a group
      is close to its anchor, and no member of a group is close to the anchor
      of any earlier group (it would have joined that group instead). */
  ghost predicate IsGreedy<T>(gs: seq<seq<T>>, close: (T, T) -> bool) {
    && NonEmptyGroups(gs)
    && (forall g, j | 0 <= g < |gs| && 1 <= j < |gs[g]| :: close(gs[g][j], gs[g][0]))
    && (forall h, g, j | 0 <= h < g < |gs| && 0 <= j < |gs[g]| :: !close(gs[g][j], gs[h][0]))
  }

  /** Non-empty groups flatten to something non-empty. */
  lemma FlattenNonEmpty<T>(gs: seq<seq<T>>)
    requires NonEmptyGroups(gs)
    ensures |gs| > 0 ==> |Flatten(gs)| > 0
  {
  }

  lemma InsertIsGreedy<T>(gs: seq<seq<T>>, x: T, close: (T, T) -> bool)
    requires IsGreedy(gs, close)
    ensures IsGreedy(Insert(gs, x, close), close)
  {
  }

  lemma InsertIsPartition<T>(xs: seq<T>, gs: seq<seq<T>>, x: T, close: (T, T) -> bool)
    requires IsPartition(gs, xs)
    ensures IsPartition(Insert(gs, x, close), xs + [x])
  {
    var k := FirstMatch(gs, x, close, 0);
    if k < |gs| {
      JoinIsPartition(xs, gs, k, x);
    } else {
      OpenIsPartition(xs, gs, x);
    }
  }

  /** `x` joining group `k` keeps the partition. */
  lemma JoinIsPartition<T>(xs: seq<T>, gs: seq<seq<T>>, k: nat, x: T)
    requires IsPartition(gs, xs)
    requires k < |gs|
    ensures IsPartition(gs[k := gs[k] + [x]], xs + [x])
  {
    FlattenNonEmpty(gs);
    FlattenAppendToGroup(gs, k, x);
    JoinKeepsAnchors(gs, k, x, gs[k := gs[k] + [x]]);
    SubseqAppend(Anchors(gs), xs, x);
    JoinKeepsOrder(xs, gs, k, x, gs[k := gs[k] + [x]]);
  }

  /** After `x` joins group `k`, every group is still an order-preserving
      selection from the input. */
  lemma JoinKeepsOrder<T>(xs: seq<T>, gs: seq<seq<T>>, k: nat, x: T, joined: seq<seq<T>>)
    requires k < |gs| && joined == gs[k := gs[k] + [x]]
    requires forall g | 0 <= g < |gs| :: Subseq(gs[g], xs)
    ensures forall g | 0 <= g < |joined| :: Subseq(joined[g], xs + [x])
  {
    forall g | 0 <= g < |joined| ensures Subseq(joined[g], xs + [x]) {
      SubseqAppend(gs[g], xs, x);
      if g == k {
        assert joined[g] == gs[g] + [x];
      } else {
        assert joined[g] == gs[g];
      }
    }
  }

  /** `x` opening a new group keeps the partition. */
  lemma OpenIsPartition<T>(xs: seq<T>, gs: seq<seq<T>>, x: T)
    requires IsPartition(gs, xs)
    ensures IsPartition(gs + [[x]], xs + [x])
  {
    FlattenNonEmpty(gs);
    FlattenAppendGroup(gs, [x]);
    OpenKeepsAnchorOrder(xs, gs, x);
    OpenKeepsOrder(xs, gs, x, gs + [[x]]);
  }

  /** After opening a group for `x`, the anchors are still an order-preserving
      selection from the input. */
  lemma OpenKeepsAnchorOrder<T>(xs: seq<T>, gs: seq<seq<T>>, x: T)
    requires NonEmptyGroups(gs)
    requires Subseq(Anchors(gs), xs)
    ensures NonEmptyGroups(gs + [[x]])
    ensures Subseq(Anchors(gs + [[x]]), xs + [x])
  {
    assert Anchors(gs + [[x]]) == Anchors(gs) + [x];
    SubseqAppend(Anchors(gs), xs, x);
  }

  /** After opening a group for `x`, every group is still an order-preserving
      selection from the input. */
  lemma OpenKeepsOrder<T>(xs: seq<T>, gs: seq<seq<T>>, x: T, grown: seq<seq<T>>)
    requires grown == gs + [[x]]
    requires forall g | 0 <= g < |gs| :: Subseq(gs[g], xs)
    ensures forall g | 0 <= g < |grown| :: Subseq(grown[g], xs + [x])
  {
    forall g | 0 <= g < |grown| ensures Subseq(grown[g], xs + [x]) {
      if g < |gs| {
        assert grown[g] == gs[g];
        SubseqAppend(gs[g], xs, x);
      } else {
        assert grown[g] == [] + [x];
        SubseqAppend([], xs, x);
      }
    }
  }

  /** The groups `Cluster` builds partition its input and have the greedy
      first-fit shape. */
  lemma {:induction false} ClusterIsGreedyPartition<T>(xs: seq<T>, close: (T, T) -> bool)
    ensures IsPartition(Cluster(xs, close), xs)
    ensures IsGreedy(Cluster(xs, close), close)
  {
    if |xs| > 0 {
      var n := |xs| - 1;
      var gs := Cluster(xs[..n], close);
      assert Cluster(xs, close) == Insert(gs, xs[n], close);
      ClusterIsGreedyPartition(xs[..n], close);
      assert xs == xs[..n] + [xs[n]];
      InsertIsPartition(xs[..n], gs, xs[n], close);
      InsertIsGreedy(gs, xs[n], close);
    }
  }

  /** Every input element is the anchor of some group or close to it. */
  lemma ClusterCovers<T>(xs: seq<T>, close: (T, T) -> bool, i: nat)
    requires i < |xs|
    ensures exists g :: 0 <= g < |Cluster(xs, close)| && xs[i] in Cluster(xs, close)[g]
    ensures exists g :: 0 <= g < |Cluster(xs, close)|
              && (xs[i] == Cluster(xs, close)[g][0] || close(xs[i], Cluster(xs, close)[g][0]))
  {
    ClusterIsGreedyPartition(xs, close);
    GreedyPartitionCovers(xs, Cluster(xs, close), close, i);
  }

  /** In any greedy partition of `xs`, element `i` lies in some group and is
      that group's anchor or close to it. */
  lemma GreedyPartitionCovers<T>(xs: seq<T>, gs: seq<seq<T>>, close: (T, T) -> bool, i: nat)
    requires IsPartition(gs, xs) && IsGreedy(gs, close)
    requires i < |xs|
    ensures exists g :: 0 <= g < |gs| && xs[i] in gs[g]
    ensures exists g :: 0 <= g < |gs| && (xs[i] == gs[g][0] || close(xs[i], gs[g][0]))
  {
    assert xs[i] in multiset(xs);
    assert xs[i] in Flatten(gs);
    InFlatten(gs, xs[i]);
    var g :| 0 <= g < |gs| && xs[i] in gs[g];
    var j :| 0 <= j < |gs[g]| && gs[g][j] == xs[i];
    assert xs[i] == gs[g][0] || close(xs[i], gs[g][0]);
  }

  /** What the anchors of `Cluster` say about the input: an order-preserving
      selection from it that starts with its first element, no anchor close to
      an earlier one, and every input element an anchor or close to one. */
  lemma ClusterAnchors<T>(xs: seq<T>, close: (T, T) -> bool)
    ensures Subseq(Anchors(Cluster(xs, close)), xs)
    ensures |Anchors(Cluster(xs, close))| <= |xs|
    ensures |Anchors(Cluster(xs, close))| == 0 <==> |xs| == 0
    ensures |xs| > 0 ==> Anchors(Cluster(xs, close))[0] == xs[0]
    ensures forall i, j | 0 <= i < j < |Anchors(Cluster(xs, close))| ::
              !close(Anchors(Cluster(xs, close))[j], Anchors(Cluster(xs, close))[i])
    ensures forall i | 0 <= i < |xs| ::
              exists k | 0 <= k < |Anchors(Cluster(xs, close))| ::
                xs[i] == Anchors(Cluster(xs, close))[k] || close(xs[i], Anchors(Cluster(xs, close))[k])
  {
    var gs := Cluster(xs, close);
    var a := Anchors(gs);
    ClusterIsGreedyPartition(xs, close);
    SubseqLength(a, xs);
    forall i | 0 <= i < |xs|
      ensures exists k | 0 <= k < |a| :: xs[i] == a[k] || close(xs[i], a[k])
    {
      ClusterCovers(xs, close, i);
      var g :| 0 <= g < |gs| && (xs[i] == gs[g][0] || close(xs[i], gs[g][0]));
      assert a[g] == gs[g][0];
    }
  }

  /** One more input element: the anchors stay as they were when `x` is close
      to one of them, and `x` becomes the last anchor otherwise. Together with
      `Cluster([]) == []` this determines the anchors of every input, so the
      first-seen element of each group is the one kept. */
  lemma AnchorsStep<T>(xs: seq<T>, x: T, close: (T, T) -> bool)
    ensures Anchors(Cluster([], close)) == []
    ensures var a := Anchors(Cluster(xs, close));
            Anchors(Cluster(xs + [x], close))
            == if exists k | 0 <= k < |a| :: close(x, a[k]) then a else a + [x]
  {
    assert (xs + [x])[..|xs|] == xs;
    InsertAnchors(Cluster(xs, close), x, close);
  }

  /** `Insert` keeps the anchors when `x` is close to one of them and adds
      `x` as the last anchor otherwise. */
  lemma InsertAnchors<T>(gs: seq<seq<T>>, x: T, close: (T, T) -> bool)
    requires NonEmptyGroups(gs)
    ensures var a := Anchors(gs);
            Anchors(Insert(gs, x, close))
            == if exists k | 0 <= k < |a| :: close(x, a[k]) then a else a + [x]
  {
    var a := Anchors(gs);
    var k := FirstMatch(gs, x, close, 0);
    if k < |gs| {
      var joined := gs[k := gs[k] + [x]];
      assert Insert(gs, x, close) == joined;
      JoinKeepsAnchors(gs, k, x, joined);
      assert close(x, a[k]);
    } else {
      assert Insert(gs, x, close) == gs + [[x]];
      assert (gs + [[x]])[..|gs|] == gs;
      assert forall j | 0 <= j < |a| :: !close(x, a[j]);
    }
  }

  /** Appending to a group leaves every anchor where it was. */
  lemma JoinKeepsAnchors<T>(gs: seq<seq<T>>, k: nat, x: T, joined: seq<seq<T>>)
    requires NonEmptyGroups(gs)
    requires k < |gs| && joined == gs[k := gs[k] + [x]]
    ensures NonEmptyGroups(joined)
    ensures Anchors(joined) == Anchors(gs)
  {
    assert forall g | 0 <= g < |gs| :: joined[g][0] == gs[g][0];
  }

  /** `AnchorsStep` when the new element is close to anchor `k`. */
  lemma AnchorsKept<T>(xs: seq<T>, x: T, ys: seq<T>, close: (T, T) -> bool, a: seq<T>, k: nat)
    requires ys == xs + [x] && a == Anchors(Cluster(xs, close))
    requires k < |a| && close(x, a[k])
    ensures Anchors(Cluster(ys, close)) == a
  {
    AnchorsStep(xs, x, close);
  }

  /** `AnchorsStep` when the new element is close to no anchor. */
  lemma AnchorsGrow<T>(xs: seq<T>, x: T, ys: seq<T>, close: (T, T) -> bool, a: seq<T>)
    requires ys == xs + [x] && a == Anchors(Cluster(xs, close))
    requires forall k | 0 <= k < |a| :: !close(x, a[k])
    ensures Anchors(Cluster(ys, close)) == a + [x]
  {
    AnchorsStep(xs, x, close);
  }

  /** The first element always opens the first chunk. */
  lemma AnchorsOfOne<T>(xs: seq<T>, close: (T, T) -> bool)
    requires |xs| == 1
    ensures Anchors(Cluster(xs, close)) == xs
  {
    AnchorsStep([], xs[0], close);
    assert [] + [xs[0]] == xs;
  }

  /** A three-element sequence is built from its first element in two appends. */
  lemma PrefixSteps<T>(xs: seq<T>)
    requires |xs| == 3
    ensures xs[..2] == xs[..1] + [xs[1]] && xs == xs[..2] + [xs[2]]
  {
  }

  /** The first-seen member of a chunk is its anchor: when the third element
      is close to the second but neither is close to the first, the anchors
      are the first two elements, not the first and the third. */
  lemma FirstSeenAnchorIsKept<T>(xs: seq<T>, close: (T, T) -> bool)
    requires |xs| == 3
    requires !close(xs[1], xs[0]) && !close(xs[2], xs[0]) && close(xs[2], xs[1])
    ensures Anchors(Cluster(xs, close)) == xs[..2]
  {
    var one, two := xs[..1], xs[..2];
    PrefixSteps(xs);
    AnchorsOfOne(one, close);
    AnchorsGrow(one, xs[1], two, close, one);
    AnchorsKept(two, xs[2], xs, close, two, 1);
  }
}
