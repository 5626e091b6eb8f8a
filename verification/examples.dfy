/**
 * Small documents worked through the layout: what graph the builder produces
 * for them, vertex labels in creation order and edges as pairs of positions.
 */
module Examples {
  import opened Wrappers
  import opened JsonValue
  import opened KeysManager
  import opened Arena
  import opened Layout

  /** `{"a": 1, "b": "x"}`: one vertex holding both lines, in key order, and no edge. */
  lemma ScalarOnlyObject()
    ensures var doc := [Member("a", Number("1")), Member("b", Str("x"))];
            Preorder(ObjectTree(doc)) == ["a: 1\nb: x"] && TreeEdges(ObjectTree(doc), None, 0) == []
  {
    var doc := [Member("a", Number("1")), Member("b", Str("x"))];
    assert ScalarMembers(doc) == doc by {
      assert doc[1..] == [Member("b", Str("x"))];
      assert doc[1..][1..] == [];
    }
    assert Line(doc[0]) == "a: 1" && Line(doc[1]) == "b: x";
    assert Lines(doc) == ["a: 1", "b: x"];
    assert Join(["a: 1", "b: x"]) == "a: 1\nb: x" by {
      assert ["a: 1", "b: x"][1..] == ["b: x"];
    }
    assert MemberForest(doc) == [] by {
      assert doc[1..] == [Member("b", Str("x"))];
      assert doc[1..][1..] == [];
    }
  }

  /**
   * `{"k": [1, 2]}`: an empty root, a vertex labelled with the key under it,
   * and the two elements as siblings under the key's vertex.
   */
  lemma ArrayUnderKey()
    ensures var doc := [Member("k", Array([Number("1"), Number("2")]))];
            Preorder(ObjectTree(doc)) == ["", "k", "1", "2"] &&
            TreeEdges(ObjectTree(doc), None, 0) == [Edge(0, 1), Edge(1, 2), Edge(1, 3)]
  {
    var elems := [Number("1"), Number("2")];
    var doc := [Member("k", Array(elems))];
    assert doc[1..] == [];
    assert ScalarMembers(doc) == [];
    assert ObjectLabel(doc) == "";
    var forest := ArrayForest(elems);
    assert forest == [Node("1", []), Node("2", [])];
    assert forest[1..] == [Node("2", [])];
    assert forest[1..][1..] == [];
    assert MemberForest(doc) == [Node("k", forest)];
    assert ForestPreorder(forest) == ["1", "2"];
    assert ForestEdges(forest, 1, 2) == [Edge(1, 2), Edge(1, 3)];
    assert [Node("k", forest)][1..] == [];
  }

  /** The inner object `{"x": 1}` alone: a single vertex labelled `x: 1`. */
  lemma InnerLeaf()
    ensures ObjectTree([Member("x", Number("1"))]) == Node("x: 1", [])
  {
    var inner := [Member("x", Number("1"))];
    assert inner[1..] == [];
    assert ScalarMembers(inner) == inner;
    assert Line(inner[0]) == "x: 1";
    assert Lines(inner) == ["x: 1"];
    assert MemberForest(inner) == [];
  }

  /**
   * `{"outer": {"x": 1}}`: an empty root and one child labelled `x: 1`; no
   * vertex carries the key `outer`.
   */
  lemma ObjectUnderKey()
    ensures var doc := [Member("outer", Object([Member("x", Number("1"))]))];
            Preorder(ObjectTree(doc)) == ["", "x: 1"] &&
            TreeEdges(ObjectTree(doc), None, 0) == [Edge(0, 1)]
  {
    var doc := [Member("outer", Object([Member("x", Number("1"))]))];
    var leaf := Node("x: 1", []);
    InnerLeaf();
    assert ObjectTree(doc) == Node("", [leaf]) by {
      assert doc[1..] == [];
      assert ScalarMembers(doc) == [];
      assert ObjectLabel(doc) == "";
      assert MemberForest(doc) == [leaf];
    }
    assert [leaf][1..] == [];
    assert Preorder(leaf) == ["x: 1"];
    assert TreeEdges(leaf, Some(0), 1) == [Edge(0, 1)];
  }
}
