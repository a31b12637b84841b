/** Sequence vocabulary for the clustering stages: subsequences and flattening. */
module Sequences {

  /** `s` can be obtained from `t` by deleting elements: every element of `s`
      occurs in `t`, in the same order. */
  ghost predicate Subseq<T>(s: seq<T>, t: seq<T>)
    decreases |t|
  {
    || |s| == 0
    || (&& |t| > 0
        && (|| (s[|s| - 1] == t[|t| - 1] && Subseq(s[..|s| - 1], t[..|t| - 1]))
            || Subseq(s, t[..|t| - 1])))
  }

  lemma {:induction false} SubseqLength<T>(s: seq<T>, t: seq<T>)
    requires Subseq(s, t)
    ensures |s| <= |t|
    decreases |t|
  {
    if |s| > 0 {
      if s[|s| - 1] == t[|t| - 1] && Subseq(s[..|s| - 1], t[..|t| - 1]) {
        SubseqLength(s[..|s| - 1], t[..|t| - 1]);
      } else {
        SubseqLength(s, t[..|t| - 1]);
      }
    }
  }

  /** Appending to the longer sequence keeps a subsequence, and appending the
      same element to both does too. */
  lemma SubseqAppend<T>(s: seq<T>, t: seq<T>, x: T)
    requires Subseq(s, t)
    ensures Subseq(s, t + [x])
    ensures Subseq(s + [x], t + [x])
  {
  }

  /** The concatenation of the groups, in order. */
  ghost function Flatten<T>(gs: seq<seq<T>>): seq<T> {
    if |gs| == 0 then [] else Flatten(gs[..|gs| - 1]) + gs[|gs| - 1]
  }

  lemma FlattenAppendGroup<T>(gs: seq<seq<T>>, g: seq<T>)
    ensures Flatten(gs + [g]) == Flatten(gs) + g
  {
  }

  /** Appending one element to one group adds exactly that element to the
      contents of the flattening. */
  lemma {:induction false} FlattenAppendToGroup<T>(gs: seq<seq<T>>, k: nat, x: T)
    requires k < |gs|
    ensures multiset(Flatten(gs[k := gs[k] + [x]])) == multiset(Flatten(gs)) + multiset{x}
  {
    var n := |gs| - 1;
    var gs' := gs[k := gs[k] + [x]];
    if k == n {
      assert gs'[..n] == gs[..n];
    } else {
      assert gs'[..n] == gs[..n][k := gs[k] + [x]];
      FlattenAppendToGroup(gs[..n], k, x);
    }
  }

  /** Every element of the flattening comes from some group. */
  lemma {:induction false} InFlatten<T>(gs: seq<seq<T>>, x: T)
    requires x in Flatten(gs)
    ensures exists g :: 0 <= g < |gs| && x in gs[g]
  {
    var n := |gs| - 1;
    if x !in gs[n] {
      InFlatten(gs[..n], x);
      var g :| 0 <= g < n && x in gs[..n][g];
      assert x in gs[g];
    }
  }
}
