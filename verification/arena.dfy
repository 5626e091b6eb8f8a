/**
 * The graph as an append-only arena: vertex labels in creation order, a
 * vertex being identified by its position, and edges as pairs of positions.
 * A labelled tree laid out in pre-order, each vertex created together with
 * the edge from its parent, is what the graph builder produces; this module
 * defines that layout and proves that it is a tree rooted at its first vertex.
 */
module Arena {
  import opened Wrappers

  datatype Tree = Node(text: string, children: seq<Tree>)

  datatype Edge = Edge(source: nat, target: nat)

  function Size(t: Tree): nat
    decreases t, 1
  {
    1 + ForestSize(t.children)
  }

  function ForestSize(ts: seq<Tree>): nat
    decreases ts, 0
  {
    if ts == [] then 0 else Size(ts[0]) + ForestSize(ts[1..])
  }

  /** Labels in creation order: a vertex, then its subtrees left to right. */
  function Preorder(t: Tree): seq<string>
    decreases t, 1
  {
    [t.text] + ForestPreorder(t.children)
  }

  function ForestPreorder(ts: seq<Tree>): seq<string>
    decreases ts, 0
  {
    if ts == [] then [] else Preorder(ts[0]) + ForestPreorder(ts[1..])
  }

  /**
   * Edges in creation order when `t`'s vertex gets index `base`: the edge
   * from `parent` to it (none when there is no parent), then its subtrees'.
   */
  function TreeEdges(t: Tree, parent: Option<nat>, base: nat): seq<Edge>
    decreases t, 1
  {
    (match parent
     case Some(p) => [Edge(p, base)]
     case None => [])
    + ForestEdges(t.children, base, base + 1)
  }

  /** Edges of sibling subtrees under `parent`, the first rooted at `base`. */
  function ForestEdges(ts: seq<Tree>, parent: nat, base: nat): seq<Edge>
    decreases ts, 0
  {
    if ts == [] then []
    else TreeEdges(ts[0], Some(parent), base) + ForestEdges(ts[1..], parent, base + Size(ts[0]))
  }

  /**
   * Edge `i` enters vertex `first + i`, the vertex created with it, and leaves
   * a vertex created before it.
   */
  ghost predicate ChainFrom(es: seq<Edge>, first: nat) {
    forall i :: 0 <= i < |es| ==> es[i].target == first + i && es[i].source < es[i].target
  }

  /**
   * `n` vertices, vertex 0 has no incoming edge and every other vertex has
   * exactly one, from a vertex created earlier.
   */
  ghost predicate RootedTree(n: nat, es: seq<Edge>) {
    n >= 1 && |es| == n - 1 && ChainFrom(es, 1)
  }

  lemma {:induction false} PreorderSize(t: Tree)
    ensures |Preorder(t)| == Size(t)
    decreases t, 1
  {
    ForestPreorderSize(t.children);
  }

  lemma {:induction false} ForestPreorderSize(ts: seq<Tree>)
    ensures |ForestPreorder(ts)| == ForestSize(ts)
    decreases ts, 0
  {
    if ts != [] {
      PreorderSize(ts[0]);
      ForestPreorderSize(ts[1..]);
    }
  }

  /** Laying out siblings `a + b` lays out `a`, then `b` right after it. */
  lemma ForestAppend(a: seq<Tree>, b: seq<Tree>, parent: nat, base: nat)
    ensures ForestSize(a + b) == ForestSize(a) + ForestSize(b)
    ensures ForestPreorder(a + b) == ForestPreorder(a) + ForestPreorder(b)
    ensures ForestEdges(a + b, parent, base)
         == ForestEdges(a, parent, base) + ForestEdges(b, parent, base + ForestSize(a))
  {
    ForestSizeAppend(a, b);
    ForestPreorderAppend(a, b);
    ForestEdgesAppend(a, b, parent, base);
  }

  lemma {:induction false} ForestSizeAppend(a: seq<Tree>, b: seq<Tree>)
    ensures ForestSize(a + b) == ForestSize(a) + ForestSize(b)
  {
    if a == [] {
      assert a + b == b;
    } else {
      assert (a + b)[0] == a[0] && (a + b)[1..] == a[1..] + b;
      ForestSizeAppend(a[1..], b);
    }
  }

  lemma {:induction false} ForestPreorderAppend(a: seq<Tree>, b: seq<Tree>)
    ensures ForestPreorder(a + b) == ForestPreorder(a) + ForestPreorder(b)
  {
    if a == [] {
      assert a + b == b;
    } else {
      assert (a + b)[0] == a[0] && (a + b)[1..] == a[1..] + b;
      ForestPreorderAppend(a[1..], b);
      Associative(Preorder(a[0]), ForestPreorder(a[1..]), ForestPreorder(b));
    }
  }

  lemma {:induction false} ForestEdgesAppend(a: seq<Tree>, b: seq<Tree>, parent: nat, base: nat)
    ensures ForestEdges(a + b, parent, base)
         == ForestEdges(a, parent, base) + ForestEdges(b, parent, base + ForestSize(a))
  {
    if a == [] {
      assert a + b == b;
    } else {
      assert (a + b)[0] == a[0] && (a + b)[1..] == a[1..] + b;
      var next := base + Size(a[0]);
      ForestEdgesAppend(a[1..], b, parent, next);
      assert base + ForestSize(a) == next + ForestSize(a[1..]);
      Associative(TreeEdges(a[0], Some(parent), base), ForestEdges(a[1..], parent, next),
                  ForestEdges(b, parent, next + ForestSize(a[1..])));
    }
  }

  /** A single subtree laid out as a forest. */
  lemma ForestSingleton(t: Tree, parent: nat, base: nat)
    ensures ForestSize([t]) == Size(t)
    ensures ForestPreorder([t]) == Preorder(t)
    ensures ForestEdges([t], parent, base) == TreeEdges(t, Some(parent), base)
  {
    assert [t][1..] == [];
  }

  /** Laying out one more sibling appends that sibling's own layout. */
  lemma ForestExtend(ts: seq<Tree>, i: nat, parent: nat, base: nat)
    requires i < |ts|
    ensures |ForestPreorder(ts[..i])| == ForestSize(ts[..i])
    ensures ForestPreorder(ts[..i + 1]) == ForestPreorder(ts[..i]) + Preorder(ts[i])
    ensures ForestEdges(ts[..i + 1], parent, base)
         == ForestEdges(ts[..i], parent, base) + TreeEdges(ts[i], Some(parent), base + ForestSize(ts[..i]))
  {
    ForestPreorderSize(ts[..i]);
    assert ts[..i + 1] == ts[..i] + [ts[i]];
    ForestAppend(ts[..i], [ts[i]], parent, base);
    ForestSingleton(ts[i], parent, base + ForestSize(ts[..i]));
  }

  /**
   * The bookkeeping of a loop that lays out siblings one by one: after the
   * `i`-th sibling's own layout is appended, the graph holds the layout of
   * the first `i + 1` siblings.
   */
  lemma ForestStep(ts: seq<Tree>, i: nat, parent: nat, base: nat,
                   labels0: seq<string>, edges0: seq<Edge>,
                   labels1: seq<string>, edges1: seq<Edge>,
                   labels2: seq<string>, edges2: seq<Edge>)
    requires i < |ts| && |labels0| == base
    requires labels1 == labels0 + ForestPreorder(ts[..i])
    requires edges1 == edges0 + ForestEdges(ts[..i], parent, base)
    requires labels2 == labels1 + Preorder(ts[i])
    requires edges2 == edges1 + TreeEdges(ts[i], Some(parent), |labels1|)
    ensures labels2 == labels0 + ForestPreorder(ts[..i + 1])
    ensures edges2 == edges0 + ForestEdges(ts[..i + 1], parent, base)
  {
    ForestExtend(ts, i, parent, base);
    Associative(labels0, ForestPreorder(ts[..i]), Preorder(ts[i]));
    Associative(edges0, ForestEdges(ts[..i], parent, base), TreeEdges(ts[i], Some(parent), |labels1|));
  }

  /** Concatenation of sequences is associative. */
  lemma Associative<T>(a: seq<T>, b: seq<T>, c: seq<T>)
    ensures (a + b) + c == a + (b + c)
  {
  }

  lemma ChainAppend(a: seq<Edge>, b: seq<Edge>, first: nat)
    requires ChainFrom(a, first) && ChainFrom(b, first + |a|)
    ensures ChainFrom(a + b, first)
  {
    forall i | 0 <= i < |a + b|
      ensures (a + b)[i].target == first + i && (a + b)[i].source < (a + b)[i].target
    {
      if i >= |a| {
        assert (a + b)[i] == b[i - |a|];
      }
    }
  }

  /**
   * Laying a tree out from `base` creates its vertices `base ..
   * base + Size(t) - 1` one by one, each with its single incoming edge; only
   * a tree without a parent gets no edge into its first vertex.
   */
  lemma {:induction false} TreeEdgesChain(t: Tree, parent: Option<nat>, base: nat)
    requires parent.Some? ==> parent.value < base
    ensures parent.Some? ==> ChainFrom(TreeEdges(t, parent, base), base)
    ensures parent.None? ==> ChainFrom(TreeEdges(t, parent, base), base + 1)
    ensures |TreeEdges(t, parent, base)| == if parent.Some? then Size(t) else Size(t) - 1
    decreases t, 1
  {
    var head: seq<Edge> := if parent.Some? then [Edge(parent.value, base)] else [];
    assert TreeEdges(t, parent, base) == head + ForestEdges(t.children, base, base + 1);
    ForestEdgesChain(t.children, base, base + 1);
    ChainAppend(head, ForestEdges(t.children, base, base + 1), if parent.Some? then base else base + 1);
  }

  lemma {:induction false} ForestEdgesChain(ts: seq<Tree>, parent: nat, base: nat)
    requires parent < base
    ensures ChainFrom(ForestEdges(ts, parent, base), base)
    ensures |ForestEdges(ts, parent, base)| == ForestSize(ts)
    decreases ts, 0
  {
    if ts != [] {
      TreeEdgesChain(ts[0], Some(parent), base);
      ForestEdgesChain(ts[1..], parent, base + Size(ts[0]));
      ChainAppend(TreeEdges(ts[0], Some(parent), base), ForestEdges(ts[1..], parent, base + Size(ts[0])), base);
    }
  }

  /** A tree laid out from index 0 without a parent is a tree rooted at 0. */
  lemma LayoutIsRootedTree(t: Tree)
    ensures RootedTree(|Preorder(t)|, TreeEdges(t, None, 0))
  {
    PreorderSize(t);
    TreeEdgesChain(t, None, 0);
  }

  /** Number of edges entering `v`. */
  function InDegree(es: seq<Edge>, v: nat): nat {
    if es == [] then 0
    else (if es[0].target == v then 1 else 0) + InDegree(es[1..], v)
  }

  lemma {:induction false} ChainInDegree(es: seq<Edge>, first: nat, v: nat)
    requires ChainFrom(es, first)
    ensures InDegree(es, v) == if first <= v < first + |es| then 1 else 0
  {
    if es != [] {
      assert ChainFrom(es[1..], first + 1) by {
        forall i | 0 <= i < |es[1..]|
          ensures es[1..][i].target == first + 1 + i && es[1..][i].source < es[1..][i].target
        {
          assert es[1..][i] == es[i + 1];
        }
      }
      ChainInDegree(es[1..], first + 1, v);
    }
  }

  /** In a rooted tree the root has no incoming edge and every other vertex exactly one. */
  lemma RootedTreeInDegree(n: nat, es: seq<Edge>, v: nat)
    requires RootedTree(n, es) && v < n
    ensures InDegree(es, v) == if v == 0 then 0 else 1
  {
    ChainInDegree(es, 1, v);
  }

  /** The vertices from the root down to `v`, each the parent of the next. */
  function PathFromRoot(es: seq<Edge>, v: nat): (path: seq<nat>)
    requires ChainFrom(es, 1) && v <= |es|
    ensures |path| >= 1 && path[0] == 0 && path[|path| - 1] == v
    decreases v
  {
    if v == 0 then [0] else PathFromRoot(es, es[v - 1].source) + [v]
  }

  /** Every vertex of a rooted tree is reached from vertex 0 along edges. */
  lemma {:induction false} RootReachesEveryVertex(n: nat, es: seq<Edge>, v: nat)
    requires RootedTree(n, es) && v < n
    ensures forall k :: 0 <= k < |PathFromRoot(es, v)| - 1 ==>
              Edge(PathFromRoot(es, v)[k], PathFromRoot(es, v)[k + 1]) in es
    decreases v
  {
    if v > 0 {
      var u := es[v - 1].source;
      RootReachesEveryVertex(n, es, u);
      var prefix := PathFromRoot(es, u);
      assert PathFromRoot(es, v) == prefix + [v];
      assert es[v - 1] == Edge(u, v);
      forall k | 0 <= k < |prefix + [v]| - 1
        ensures Edge((prefix + [v])[k], (prefix + [v])[k + 1]) in es
      {
        if k < |prefix| - 1 {
          assert (prefix + [v])[k] == prefix[k] && (prefix + [v])[k + 1] == prefix[k + 1];
        } else {
          assert (prefix + [v])[k] == u && (prefix + [v])[k + 1] == v;
        }
      }
    }
  }
}
