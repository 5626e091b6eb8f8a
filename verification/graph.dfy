/**
 * The graph builder: a depth-first, parent-passing walk over the JSON object
 * that appends vertices and edges to one shared graph. Each method is proved
 * to append exactly the pre-order layout of the tree the layout policy
 * assigns to its input, so the finished graph is that tree laid out from
 * vertex 0.
 */
module GraphBuilder {
  import opened Wrappers
  import opened JsonValue
  import opened KeysManager
  import opened Arena
  import opened Layout

  /** Vertex labels and directed edges; a vertex's descriptor is its position. */
  class Graph {
    var labels: seq<string>
    var edges: seq<Edge>

    /** Every edge joins two vertices of the graph. */
    ghost predicate Valid()
      reads this
    {
      forall e <- edges :: e.source < |labels| && e.target < |labels|
    }

    constructor ()
      ensures Valid() && labels == [] && edges == []
    {
      labels := [];
      edges := [];
    }

    /** add_vertex: the new vertex's descriptor is the previous vertex count. */
    method AddVertex(text: string) returns (v: nat)
      requires Valid()
      modifies this
      ensures Valid()
      ensures v == |old(labels)| && labels == old(labels) + [text] && edges == old(edges)
    {
      v := |labels|;
      labels := labels + [text];
    }

    /** add_edge between two existing vertices. */
    method AddEdge(source: nat, target: nat)
      requires Valid() && source < |labels| && target < |labels|
      modifies this
      ensures Valid()
      ensures labels == old(labels) && edges == old(edges) + [Edge(source, target)]
    {
      edges := edges + [Edge(source, target)];
    }
  }

  /**
   * json_to_graph: the root object is laid out from vertex 0 with no parent,
   * so the result is a tree rooted at vertex 0 with one vertex per object,
   * per array-valued key, per nested-array element and per scalar element.
   */
  method JsonToGraph(root: seq<Member>) returns (g: Graph)
    requires WellFormedMembers(root)
    ensures fresh(g) && g.Valid()
    ensures g.labels == Preorder(ObjectTree(root))
    ensures g.edges == TreeEdges(ObjectTree(root), None, 0)
    ensures RootedTree(|g.labels|, g.edges)
    ensures |g.labels| == ObjectCensus(root) && |g.edges| == |g.labels| - 1
  {
    g := new Graph();
    AddObject(g, root, None);
    LayoutIsRootedTree(ObjectTree(root));
    PreorderSize(ObjectTree(root));
    CensusCountsVertices(root);
  }

  /**
   * The object overload: one vertex labelled with the scalar members' lines,
   * an edge into it unless there is no parent, then the array- and
   * object-valued members in key order, each under this vertex.
   */
  method AddObject(g: Graph, obj: seq<Member>, parent: Option<nat>)
    requires g.Valid() && WellFormedMembers(obj)
    requires parent.Some? ==> parent.value < |g.labels|
    modifies g
    ensures g.Valid()
    ensures g.labels == old(g.labels) + Preorder(ObjectTree(obj))
    ensures g.edges == old(g.edges) + TreeEdges(ObjectTree(obj), parent, |old(g.labels)|)
    decreases obj, 2
  {
    var text := ScalarLines(obj);
    var vertex := g.AddVertex(Join(text));
    if parent.Some? {
      g.AddEdge(parent.value, vertex);
    }
    ghost var labels0, edges0 := g.labels, g.edges;
    ghost var children := MemberForest(obj);
    var structuredKeys := StructuredKeys(obj);
    MemberForestLength(obj);
    for i := 0 to |structuredKeys|
      invariant g.Valid() && vertex < |g.labels|
      invariant g.labels == labels0 + ForestPreorder(children[..i])
      invariant g.edges == edges0 + ForestEdges(children[..i], vertex, vertex + 1)
    {
      var childKey := structuredKeys[i];
      LookupChild(obj, i);
      var member := obj[IndexOf(obj, childKey)];
      ghost var labels1, edges1 := g.labels, g.edges;
      AddMember(g, member, vertex);
      ForestStep(children, i, vertex, vertex + 1, labels0, edges0, labels1, edges1, g.labels, g.edges);
    }
    assert children[..|structuredKeys|] == children;
    ObjectAssembled(obj, parent, vertex, old(g.labels), old(g.edges), g.labels, g.edges);
  }

  /**
   * One array- or object-valued member under its object's vertex: an array
   * gets a vertex labelled with the key, its elements beneath it; an object
   * is hung directly under the vertex, with no vertex for the key.
   */
  method AddMember(g: Graph, member: Member, vertex: nat)
    requires g.Valid() && vertex < |g.labels| && IsStructured(member.value) && WellFormed(member.value)
    modifies g
    ensures g.Valid()
    ensures g.labels == old(g.labels) + Preorder(MemberTree(member))
    ensures g.edges == old(g.edges) + TreeEdges(MemberTree(member), Some(vertex), |old(g.labels)|)
    decreases member, 1
  {
    if member.value.Array? {
      var arrayKey := g.AddVertex(member.key);
      g.AddEdge(vertex, arrayKey);
      AddArray(g, member.value.elems, arrayKey);
    } else {
      AddObject(g, member.value.members, Some(vertex));
    }
  }

  /**
   * The label lines of an object's vertex: for each scalar-valued key, in
   * key order, the key, ": " and the text of the value found under the key.
   */
  method ScalarLines(obj: seq<Member>) returns (text: seq<string>)
    requires UniqueKeys(obj)
    ensures text == Lines(ScalarMembers(obj))
    ensures Join(text) == ObjectLabel(obj)
  {
    ghost var scalars := ScalarMembers(obj);
    var scalarKeys := ScalarKeys(obj);
    text := [];
    for i := 0 to |scalarKeys|
      invariant |text| == i
      invariant forall k :: 0 <= k < i ==> text[k] == Line(scalars[k])
    {
      var key := scalarKeys[i];
      LookupLine(obj, i);
      var line := key + ": " + ToString(obj[IndexOf(obj, key)].value);
      text := text + [line];
    }
    LinesPointwise(text, scalars);
  }

  /**
   * The array overload: the elements in order, each under the parent.
   */
  method AddArray(g: Graph, arr: seq<Json>, parent: nat)
    requires g.Valid() && parent < |g.labels|
    requires forall i :: 0 <= i < |arr| ==> WellFormed(arr[i])
    modifies g
    ensures g.Valid()
    ensures g.labels == old(g.labels) + ForestPreorder(ArrayForest(arr))
    ensures g.edges == old(g.edges) + ForestEdges(ArrayForest(arr), parent, |old(g.labels)|)
    decreases arr, 2
  {
    ghost var forest := ArrayForest(arr);
    ghost var base := |g.labels|;
    for i := 0 to |arr|
      invariant g.Valid() && parent < |g.labels|
      invariant g.labels == old(g.labels) + ForestPreorder(forest[..i])
      invariant g.edges == old(g.edges) + ForestEdges(forest[..i], parent, base)
    {
      ghost var labels1, edges1 := g.labels, g.edges;
      AddElement(g, arr[i], parent);
      ArrayForestIndex(arr, i);
      ForestStep(forest, i, parent, base, old(g.labels), old(g.edges), labels1, edges1, g.labels, g.edges);
    }
    assert forest[..|arr|] == forest;
  }

  /**
   * One array element under `parent`, the array's own vertex (the vertex of
   * the array's key, or a nested array's empty-label vertex): a nested array
   * gets an empty-label vertex with its elements beneath it, an object is
   * hung directly under `parent` (so sibling objects share it), a scalar
   * becomes a leaf.
   */
  method AddElement(g: Graph, value: Json, parent: nat)
    requires g.Valid() && parent < |g.labels| && WellFormed(value)
    modifies g
    ensures g.Valid()
    ensures g.labels == old(g.labels) + Preorder(ElementTree(value))
    ensures g.edges == old(g.edges) + TreeEdges(ElementTree(value), Some(parent), |old(g.labels)|)
    decreases value, 1
  {
    if value.Array? {
      var arrayKey := g.AddVertex("");
      g.AddEdge(parent, arrayKey);
      AddArray(g, value.elems, arrayKey);
    } else if value.Object? {
      AddObject(g, value.members, Some(parent));
    } else {
      AddScalar(g, value, parent);
    }
  }

  /** The scalar overload: a leaf labelled with the value's text, under the parent. */
  method AddScalar(g: Graph, value: Json, parent: nat)
    requires g.Valid() && parent < |g.labels| && !IsStructured(value)
    modifies g
    ensures g.Valid()
    ensures g.labels == old(g.labels) + [ToString(value)]
    ensures g.edges == old(g.edges) + [Edge(parent, |old(g.labels)|)]
  {
    var line := ToString(value);
    var vertex := g.AddVertex(line);
    g.AddEdge(parent, vertex);
  }
}
