/**
 Acyclic parent graphs: paths, longest-path depth, and the levels the depths cut
 the graph into.
 */
module Graph {
  import opened Sequences

  // A 32-byte transaction hash.
  type TxHash = nat

  // Each node's parents.
  type Parents = map<TxHash, seq<TxHash>>

  // A ranking under which every parent is present and ranks below its child.
  ghost predicate Ranked(g: Parents, rank: map<TxHash, nat>) {
    && g.Keys <= rank.Keys
    && forall h, p :: h in g && p in g[h] ==> p in g && rank[p] < rank[h]
  }

  /** A new node whose parents are present can be ranked above everything. */
  lemma RankedExtend(g: Parents, rank: map<TxHash, nat>, h: TxHash, parents: seq<TxHash>, n: nat)
    requires Ranked(g, rank) && h !in g
    requires forall p :: p in parents ==> p in g
    requires forall x :: x in g ==> rank[x] < n
    ensures Ranked(g[h := parents], rank[h := n])
  {
    var g', rank' := g[h := parents], rank[h := n];
    forall x, p | x in g' && p in g'[x] ensures p in g' && rank'[p] < rank'[x] {
      if x != h {
        assert p in g[x];
      }
    }
  }

  // A walk from p[0] along parent links.
  ghost predicate IsPath(g: Parents, p: seq<TxHash>) {
    && p != [] && (forall i :: 0 <= i < |p| ==> p[i] in g)
    && forall i :: 0 <= i < |p| - 1 ==> p[i + 1] in g[p[i]]
  }

  ghost predicate PathFrom(g: Parents, h: TxHash, p: seq<TxHash>) {
    IsPath(g, p) && p[0] == h
  }

  /** d is the number of links on a longest path from h. */
  ghost predicate IsDepth(g: Parents, h: TxHash, d: nat) {
    && (exists p :: PathFrom(g, h, p) && |p| == d + 1)
    && (forall p :: PathFrom(g, h, p) ==> |p| <= d + 1)
  }

  lemma DepthUnique(g: Parents, h: TxHash, d: nat, e: nat)
    requires IsDepth(g, h, d) && IsDepth(g, h, e)
    ensures d == e
  {
    var p :| PathFrom(g, h, p) && |p| == d + 1;
    var q :| PathFrom(g, h, q) && |q| == e + 1;
    assert |p| <= e + 1 && |q| <= d + 1;
  }

  lemma PathCons(g: Parents, h: TxHash, p: seq<TxHash>)
    requires h in g && IsPath(g, p) && p[0] in g[h]
    ensures PathFrom(g, h, [h] + p)
  {
    var q := [h] + p;
    forall i | 0 <= i < |q| - 1 ensures q[i + 1] in g[q[i]] {
      if i > 0 {
        assert q[i + 1] == p[i] && q[i] == p[i - 1] && p[i - 1 + 1] in g[p[i - 1]];
      }
    }
  }

  lemma PathTail(g: Parents, p: seq<TxHash>)
    requires IsPath(g, p) && |p| > 1
    ensures PathFrom(g, p[1], p[1..]) && p[1] in g[p[0]]
  {
    assert p[0 + 1] in g[p[0]];
    var q := p[1..];
    forall i | 0 <= i < |q| - 1 ensures q[i + 1] in g[q[i]] {
      assert p[i + 1 + 1] in g[p[i + 1]];
    }
  }

  // The largest of the parents' depths plus one, zero without parents.
  ghost predicate IsMaxPlusOne(parents: seq<TxHash>, depths: map<TxHash, nat>, m: nat)
    requires forall p :: p in parents ==> p in depths
  {
    && (forall p :: p in parents ==> depths[p] + 1 <= m)
    && (if parents == [] then m == 0 else exists p :: p in parents && m == depths[p] + 1)
  }

  // The recurrence the depth computation relies on.
  lemma DepthFromParents(g: Parents, h: TxHash, depths: map<TxHash, nat>, m: nat)
    requires h in g && forall p :: p in g[h] ==> p in g && p in depths && IsDepth(g, p, depths[p])
    requires IsMaxPlusOne(g[h], depths, m)
    ensures IsDepth(g, h, m)
  {
    if g[h] == [] {
      assert PathFrom(g, h, [h]);
    } else {
      var p :| p in g[h] && m == depths[p] + 1;
      var q :| PathFrom(g, p, q) && |q| == depths[p] + 1;
      PathCons(g, h, q);
      assert |[h] + q| == m + 1;
    }
    forall q | PathFrom(g, h, q) ensures |q| <= m + 1 {
      if |q| > 1 {
        PathTail(g, q);
        assert |q[1..]| <= depths[q[1]] + 1;
      }
    }
  }

  /** In a ranked graph every node has a depth. */
  lemma {:induction false} DepthExists(g: Parents, rank: map<TxHash, nat>, h: TxHash) returns (d: nat)
    requires Ranked(g, rank) && h in g
    ensures IsDepth(g, h, d)
    decreases rank[h]
  {
    hide IsDepth;
    var depths: map<TxHash, nat> := map[];
    d := 0;
    for k := 0 to |g[h]|
      invariant forall p :: p in g[h][..k] ==> p in depths
      invariant forall p :: p in depths ==> p in g && IsDepth(g, p, depths[p])
      invariant IsMaxPlusOne(g[h][..k], depths, d)
    {
      var p := g[h][k];
      assert g[h][..k + 1] == g[h][..k] + [p];
      if p !in depths {
        var e := DepthExists(g, rank, p);
        depths := depths[p := e];
      }
      d := if d < depths[p] + 1 then depths[p] + 1 else d;
    }
    assert g[h][..|g[h]|] == g[h];
    DepthFromParents(g, h, depths, d);
  }

  // ----- levels -----

  /** Group k is exactly the nodes of depth k, each once; no group is empty and none is missing. */
  ghost predicate IsLevelling(g: Parents, groups: seq<seq<TxHash>>) {
    && (forall k :: 0 <= k < |groups| ==> groups[k] != [] && NoDuplicates(groups[k]))
    && (forall k, h :: 0 <= k < |groups| ==> (h in groups[k] <==> h in g && IsDepth(g, h, k)))
    && (forall h, d: nat :: h in g && IsDepth(g, h, d) ==> d < |groups|)
  }

  /** The levels partition the graph. */
  lemma LevelsPartition(g: Parents, rank: map<TxHash, nat>, groups: seq<seq<TxHash>>)
    requires Ranked(g, rank) && IsLevelling(g, groups)
    ensures forall h :: h in g <==> exists k :: 0 <= k < |groups| && h in groups[k]
    ensures forall k, l, h :: 0 <= k < |groups| && 0 <= l < |groups| && h in groups[k] && h in groups[l] ==> k == l
  {
    hide IsDepth;
    forall h | h in g ensures exists k :: 0 <= k < |groups| && h in groups[k] {
      var d := DepthExists(g, rank, h);
      assert h in groups[d];
    }
    forall k, l, h | 0 <= k < |groups| && 0 <= l < |groups| && h in groups[k] && h in groups[l] ensures k == l {
      DepthUnique(g, h, k, l);
    }
  }

  /** Walking up a path lowers the depth by at least the links walked. */
  lemma {:induction false} AncestorIsShallower(g: Parents, p: seq<TxHash>, d: nat, e: nat)
    requires IsPath(g, p) && IsDepth(g, p[0], d) && IsDepth(g, p[|p| - 1], e)
    ensures e + |p| - 1 <= d
  {
    var q :| PathFrom(g, p[|p| - 1], q) && |q| == e + 1;
    var r := p + q[1..];
    forall i | 0 <= i < |r| - 1 ensures r[i + 1] in g[r[i]] {
      if i < |p| - 1 {
        assert p[i + 1] in g[p[i]];
      } else {
        var m := i - (|p| - 1);
        assert r[i] == q[m] && r[i + 1] == q[m + 1] && q[m + 1] in g[q[m]];
      }
    }
    assert PathFrom(g, p[0], r);
  }

  /** Parents, and all ancestors, lie in strictly earlier groups; so no group holds an ancestor pair. */
  lemma AncestorsInEarlierGroups(g: Parents, groups: seq<seq<TxHash>>, p: seq<TxHash>, k: nat, l: nat)
    requires IsLevelling(g, groups) && IsPath(g, p) && |p| > 1
    requires k < |groups| && l < |groups| && p[0] in groups[k] && p[|p| - 1] in groups[l]
    ensures l < k
  {
    hide IsDepth;
    AncestorIsShallower(g, p, k, l);
  }

  // A node of positive depth has a node of the next smaller depth above it.
  lemma DepthsHaveNoGaps(g: Parents, rank: map<TxHash, nat>, h: TxHash, d: nat) returns (p: TxHash)
    requires Ranked(g, rank) && h in g && IsDepth(g, h, d) && d > 0
    ensures p in g && IsDepth(g, p, d - 1)
  {
    var q :| PathFrom(g, h, q) && |q| == d + 1;
    PathTail(g, q);
    p := q[1];
    var e := DepthExists(g, rank, p);
    assert |q[1..]| <= e + 1;
    var r :| PathFrom(g, p, r) && |r| == e + 1;
    PathCons(g, h, r);
    assert |[h] + r| <= d + 1;
  }
}
