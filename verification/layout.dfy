/**
 * The vertex-layout policy of the graph builder, stated as the labelled tree
 * it produces from a JSON object:
 *  - an object is one vertex, labelled with its scalar members as
 *    "key: value" lines;
 *  - an array-valued member is a vertex labelled with the key, whose
 *    children are the array's elements;
 *  - an object-valued member is the nested object's own vertex, with no
 *    vertex for the key;
 *  - inside an array, a nested array is an empty-label vertex over its
 *    elements, an object is its own vertex, and a scalar is a leaf.
 * Every array element and every structured member thus contributes exactly
 * one subtree to the vertex above it.
 */
module Layout {
  import opened Wrappers
  import opened JsonValue
  import opened KeysManager
  import opened Arena

  /** Text of a scalar: the converter never passes it an array or an object. */
  function ToString(v: Json): (r: string)
    requires !IsStructured(v)
    ensures v.Bool? ==> r == (if v.b then "true" else "false")
    ensures v.Str? ==> r == v.s
    ensures v.Number? ==> r == v.text
    ensures v.Null? ==> r == "null"
  {
    match v
    case Bool(b) => if b then "true" else "false"
    case Str(s) => s
    case Number(text) => text
    case Null => "null"
  }

  /** QStringList::join with a newline separator. */
  function Join(lines: seq<string>): string {
    if |lines| == 0 then ""
    else if |lines| == 1 then lines[0]
    else lines[0] + "\n" + Join(lines[1..])
  }

  /** The inverse reading: the text between newlines, one entry per line. */
  function SplitLines(s: string): (r: seq<string>)
    ensures |r| >= 1
  {
    if s == [] then [""]
    else if s[0] == '\n' then [""] + SplitLines(s[1..])
    else var rest := SplitLines(s[1..]); [[s[0]] + rest[0]] + rest[1..]
  }

  /** One line of an object's label. */
  function Line(m: Member): string
    requires !IsStructured(m.value)
  {
    m.key + ": " + ToString(m.value)
  }

  function Lines(ms: seq<Member>): (r: seq<string>)
    requires forall i :: 0 <= i < |ms| ==> !IsStructured(ms[i].value)
    ensures |r| == |ms|
  {
    seq(|ms|, i requires 0 <= i < |ms| => Line(ms[i]))
  }

  /** A sequence holding each member's line, position by position, is `Lines`. */
  lemma LinesPointwise(text: seq<string>, ms: seq<Member>)
    requires forall i :: 0 <= i < |ms| ==> !IsStructured(ms[i].value)
    requires |text| == |ms| && forall k :: 0 <= k < |ms| ==> text[k] == Line(ms[k])
    ensures text == Lines(ms)
  {
  }

  /**
   * Looking up the `i`-th scalar-valued key and writing "key: value" gives
   * the `i`-th line of the label.
   */
  lemma LookupLine(ms: seq<Member>, i: nat)
    requires UniqueKeys(ms) && i < |ScalarKeys(ms)|
    ensures ScalarKeys(ms)[i] in KeysOf(ms)
    ensures !IsStructured(ms[IndexOf(ms, ScalarKeys(ms)[i])].value)
    ensures ScalarKeys(ms)[i] + ": " + ToString(ms[IndexOf(ms, ScalarKeys(ms)[i])].value)
         == Line(ScalarMembers(ms)[i])
  {
    LookupScalar(ms, i);
  }

  /** Label of an object's vertex: its scalar members' lines in key order. */
  function ObjectLabel(ms: seq<Member>): string {
    Join(Lines(ScalarMembers(ms)))
  }

  function ObjectTree(ms: seq<Member>): Tree
    decreases ms, 2
  {
    Node(ObjectLabel(ms), MemberForest(ms))
  }

  /** One subtree per array- or object-valued member, in key order. */
  function MemberForest(ms: seq<Member>): seq<Tree>
    decreases ms, 1
  {
    if ms == [] then []
    else (if IsStructured(ms[0].value) then [MemberTree(ms[0])] else []) + MemberForest(ms[1..])
  }

  function MemberTree(m: Member): Tree
    requires IsStructured(m.value)
    decreases m, 0
  {
    match m.value
    case Array(es) => Node(m.key, ArrayForest(es))
    case Object(inner) => ObjectTree(inner)
  }

  /**
   * One subtree per array element, each hanging under the array's own
   * vertex: the vertex of the array's key, or a nested array's empty-label
   * vertex.
   */
  function ArrayForest(es: seq<Json>): (r: seq<Tree>)
    ensures |r| == |es|
    decreases es, 1
  {
    if es == [] then [] else [ElementTree(es[0])] + ArrayForest(es[1..])
  }

  function ElementTree(e: Json): Tree
    decreases e, 0
  {
    match e
    case Array(xs) => Node("", ArrayForest(xs))
    case Object(ms) => ObjectTree(ms)
    case _ => Node(ToString(e), [])
  }

  // ---------------------------------------------------------------------
  // The object's label

  lemma {:induction false} JoinEmpty(lines: seq<string>)
    requires forall l <- lines :: l != ""
    ensures Join(lines) == "" <==> lines == []
  {
    if |lines| > 1 {
      assert lines[0] in lines;
    } else if |lines| == 1 {
      assert lines[0] in lines;
    }
  }

  /**
   * An object's label is empty exactly when the object has no scalar member
   * (every line carries at least the ": " separator).
   */
  lemma ObjectLabelEmpty(ms: seq<Member>)
    ensures ObjectLabel(ms) == "" <==> ScalarKeys(ms) == []
  {
    var lines := Lines(ScalarMembers(ms));
    forall l <- lines ensures l != "" {
      var i :| 0 <= i < |lines| && lines[i] == l;
      assert |Line(ScalarMembers(ms)[i])| >= 2;
    }
    JoinEmpty(lines);
  }

  lemma {:induction false} SplitLinesNoNewline(a: string)
    requires '\n' !in a
    ensures SplitLines(a) == [a]
  {
    if a != [] {
      assert a[0] in a;
      SplitLinesNoNewline(a[1..]);
      assert [a[0]] + a[1..] == a;
    }
  }

  lemma {:induction false} SplitLinesAfterLine(a: string, rest: string)
    requires '\n' !in a
    ensures SplitLines(a + "\n" + rest) == [a] + SplitLines(rest)
  {
    if a == [] {
      assert a + "\n" + rest == "\n" + rest;
      assert ("\n" + rest)[1..] == rest;
    } else {
      assert (a + "\n" + rest)[0] == a[0];
      assert (a + "\n" + rest)[1..] == a[1..] + "\n" + rest;
      SplitLinesAfterLine(a[1..], rest);
      assert [a[0]] + a[1..] == a;
    }
  }

  /** Splitting a join at its newlines gives back the lines that had none. */
  lemma {:induction false} SplitJoin(lines: seq<string>)
    requires |lines| >= 1
    requires forall l <- lines :: '\n' !in l
    ensures SplitLines(Join(lines)) == lines
  {
    assert lines[0] in lines;
    if |lines| == 1 {
      SplitLinesNoNewline(lines[0]);
    } else {
      SplitLinesAfterLine(lines[0], Join(lines[1..]));
      SplitJoin(lines[1..]);
      assert lines == [lines[0]] + lines[1..];
    }
  }

  /**
   * When no key or value holds a newline, the label reads back as one line
   * per scalar member, in key order, each "key: value".
   */
  lemma ObjectLabelLines(ms: seq<Member>)
    requires ScalarKeys(ms) != []
    requires forall m <- ms :: !IsStructured(m.value) ==> '\n' !in Line(m)
    ensures |SplitLines(ObjectLabel(ms))| == |ScalarKeys(ms)|
    ensures forall i :: 0 <= i < |ScalarKeys(ms)| ==>
              SplitLines(ObjectLabel(ms))[i] == ScalarKeys(ms)[i] + ": " + ToString(ScalarMembers(ms)[i].value)
  {
    KeysOfFiltered(ms);
    var sm := ScalarMembers(ms);
    var lines := Lines(sm);
    forall l <- lines ensures '\n' !in l {
      var i :| 0 <= i < |lines| && lines[i] == l;
      assert sm[i] in ms;
    }
    SplitJoin(lines);
  }

  // ---------------------------------------------------------------------
  // The object's children

  /**
   * An object's vertex has one child per array- or object-valued key, in key
   * order: for an array, a vertex labelled with the key over the array's
   * elements; for an object, the nested object's own vertex.
   */
  lemma {:induction false} ObjectChildren(ms: seq<Member>)
    ensures |ObjectTree(ms).children| == |StructuredKeys(ms)|
    ensures forall i :: 0 <= i < |StructuredKeys(ms)| ==>
              var m := StructuredMembers(ms)[i];
              m.key == StructuredKeys(ms)[i] &&
              ObjectTree(ms).children[i] == MemberTree(m) &&
              (m.value.Array? ==> ObjectTree(ms).children[i] == Node(m.key, ArrayForest(m.value.elems))) &&
              (m.value.Object? ==> ObjectTree(ms).children[i] == ObjectTree(m.value.members))
  {
    MemberForestIndex(ms);
    KeysOfFiltered(ms);
  }

  /** The layout of an object: its own vertex, then its children's. */
  lemma ObjectLayout(ms: seq<Member>, parent: Option<nat>, base: nat)
    ensures Preorder(ObjectTree(ms)) == [ObjectLabel(ms)] + ForestPreorder(MemberForest(ms))
    ensures TreeEdges(ObjectTree(ms), parent, base)
         == (if parent.Some? then [Edge(parent.value, base)] else []) + ForestEdges(MemberForest(ms), base, base + 1)
  {
  }

  /**
   * An object's vertex followed by the layout of its member subtrees is the
   * layout of the object's tree.
   */
  lemma ObjectAssembled(ms: seq<Member>, parent: Option<nat>, base: nat,
                        labels: seq<string>, edges: seq<Edge>,
                        labels1: seq<string>, edges1: seq<Edge>)
    requires |labels| == base
    requires labels1 == labels + [ObjectLabel(ms)] + ForestPreorder(MemberForest(ms))
    requires edges1 == edges + (if parent.Some? then [Edge(parent.value, base)] else [])
                             + ForestEdges(MemberForest(ms), base, base + 1)
    ensures labels1 == labels + Preorder(ObjectTree(ms))
    ensures edges1 == edges + TreeEdges(ObjectTree(ms), parent, base)
  {
    ObjectLayout(ms, parent, base);
  }

  lemma MemberForestLength(ms: seq<Member>)
    ensures |MemberForest(ms)| == |StructuredKeys(ms)|
  {
    KeysOfFiltered(ms);
    MemberForestIndex(ms);
  }

  /**
   * The `i`-th array- or object-valued key, looked up in the object, finds
   * the member whose subtree is the object's `i`-th child.
   */
  lemma LookupChild(ms: seq<Member>, i: nat)
    requires UniqueKeys(ms) && i < |StructuredKeys(ms)|
    ensures |MemberForest(ms)| == |StructuredKeys(ms)|
    ensures StructuredKeys(ms)[i] in KeysOf(ms)
    ensures var m := ms[IndexOf(ms, StructuredKeys(ms)[i])];
            m.key == StructuredKeys(ms)[i] && m in ms && IsStructured(m.value) &&
            MemberForest(ms)[i] == MemberTree(m)
  {
    KeysOfFiltered(ms);
    MemberForestIndex(ms);
    LookupStructured(ms, i);
  }

  lemma {:induction false} MemberForestIndex(ms: seq<Member>)
    ensures |MemberForest(ms)| == |StructuredMembers(ms)|
    ensures forall i :: 0 <= i < |MemberForest(ms)| ==>
              MemberForest(ms)[i] == MemberTree(StructuredMembers(ms)[i])
  {
    if ms != [] {
      MemberForestIndex(ms[1..]);
      if IsStructured(ms[0].value) {
        var f := MemberForest(ms[1..]);
        assert MemberForest(ms) == [MemberTree(ms[0])] + f;
        assert StructuredMembers(ms) == [ms[0]] + StructuredMembers(ms[1..]);
        forall i | 0 <= i < |MemberForest(ms)|
          ensures MemberForest(ms)[i] == MemberTree(StructuredMembers(ms)[i])
        {
          if i > 0 {
            assert MemberForest(ms)[i] == f[i - 1];
          }
        }
      } else {
        assert MemberForest(ms) == MemberForest(ms[1..]);
      }
    }
  }

  /**
   * An array's elements each give one subtree under the array's vertex, in
   * order: a nested array an empty-label vertex over its own elements, an
   * object its own vertex (so sibling objects share the parent), a scalar a
   * leaf labelled with its text.
   */
  lemma ArrayChildren(es: seq<Json>)
    ensures |ArrayForest(es)| == |es|
    ensures forall i :: 0 <= i < |es| && es[i].Array? ==>
              ArrayForest(es)[i] == Node("", ArrayForest(es[i].elems))
    ensures forall i :: 0 <= i < |es| && es[i].Object? ==>
              ArrayForest(es)[i] == ObjectTree(es[i].members)
    ensures forall i :: 0 <= i < |es| && !IsStructured(es[i]) ==>
              ArrayForest(es)[i] == Node(ToString(es[i]), [])
  {
    forall i | 0 <= i < |es| ensures ArrayForest(es)[i] == ElementTree(es[i]) {
      ArrayForestIndex(es, i);
    }
  }

  /** The `i`-th subtree under an array's vertex is its `i`-th element's. */
  lemma {:induction false} ArrayForestIndex(es: seq<Json>, i: nat)
    requires i < |es|
    ensures ArrayForest(es)[i] == ElementTree(es[i])
  {
    if i > 0 {
      ArrayForestIndex(es[1..], i - 1);
    }
  }

  // ---------------------------------------------------------------------
  // Counting vertices

  /** What the document holds, counted independently of the layout. */
  datatype Kind = Objects | ArrayKeys | NestedArrays | ScalarElements

  function One(k: Kind, counted: Kind): nat {
    if k == counted then 1 else 0
  }

  /** Number of things of kind `k` in an object, the object itself included. */
  function ObjectCount(k: Kind, ms: seq<Member>): nat
    decreases ms, 2
  {
    One(k, Objects) + MembersCount(k, ms)
  }

  function MembersCount(k: Kind, ms: seq<Member>): nat
    decreases ms, 1
  {
    if ms == [] then 0 else MemberCount(k, ms[0]) + MembersCount(k, ms[1..])
  }

  function MemberCount(k: Kind, m: Member): nat
    decreases m, 0
  {
    match m.value
    case Array(es) => One(k, ArrayKeys) + ElementsCount(k, es)
    case Object(inner) => ObjectCount(k, inner)
    case _ => 0
  }

  function ElementsCount(k: Kind, es: seq<Json>): nat
    decreases es, 1
  {
    if es == [] then 0 else ElementCount(k, es[0]) + ElementsCount(k, es[1..])
  }

  function ElementCount(k: Kind, e: Json): nat
    decreases e, 0
  {
    match e
    case Array(xs) => One(k, NestedArrays) + ElementsCount(k, xs)
    case Object(ms) => ObjectCount(k, ms)
    case _ => One(k, ScalarElements)
  }

  /** The four counts of an object added up. */
  function ObjectCensus(ms: seq<Member>): nat {
    ObjectCount(Objects, ms) + ObjectCount(ArrayKeys, ms)
    + ObjectCount(NestedArrays, ms) + ObjectCount(ScalarElements, ms)
  }

  function MembersCensus(ms: seq<Member>): nat {
    MembersCount(Objects, ms) + MembersCount(ArrayKeys, ms)
    + MembersCount(NestedArrays, ms) + MembersCount(ScalarElements, ms)
  }

  function MemberCensus(m: Member): nat {
    MemberCount(Objects, m) + MemberCount(ArrayKeys, m)
    + MemberCount(NestedArrays, m) + MemberCount(ScalarElements, m)
  }

  function ElementsCensus(es: seq<Json>): nat {
    ElementsCount(Objects, es) + ElementsCount(ArrayKeys, es)
    + ElementsCount(NestedArrays, es) + ElementsCount(ScalarElements, es)
  }

  function ElementCensus(e: Json): nat {
    ElementCount(Objects, e) + ElementCount(ArrayKeys, e)
    + ElementCount(NestedArrays, e) + ElementCount(ScalarElements, e)
  }

  /**
   * The tree of an object has one vertex per object, per array-valued key,
   * per array element that is an array and per scalar array element.
   */
  lemma {:induction false} CensusCountsVertices(ms: seq<Member>)
    ensures Size(ObjectTree(ms)) == ObjectCensus(ms)
    decreases ms, 2
  {
    MembersCensusCounts(ms);
    assert Size(ObjectTree(ms)) == 1 + ForestSize(MemberForest(ms));
    assert ObjectCensus(ms) == 1 + MembersCensus(ms);
  }

  lemma {:induction false} MembersCensusCounts(ms: seq<Member>)
    ensures ForestSize(MemberForest(ms)) == MembersCensus(ms)
    decreases ms, 1
  {
    if ms == [] {
      assert MemberForest(ms) == [];
    } else {
      MembersCensusCounts(ms[1..]);
      var rest := MemberForest(ms[1..]);
      assert MembersCensus(ms) == MemberCensus(ms[0]) + MembersCensus(ms[1..]);
      if IsStructured(ms[0].value) {
        MemberCensusCounts(ms[0]);
        assert MemberForest(ms) == [MemberTree(ms[0])] + rest;
        ForestAppend([MemberTree(ms[0])], rest, 0, 0);
        ForestSingleton(MemberTree(ms[0]), 0, 0);
      } else {
        assert MemberForest(ms) == rest;
        assert MemberCensus(ms[0]) == 0;
      }
    }
  }

  lemma {:induction false} MemberCensusCounts(m: Member)
    requires IsStructured(m.value)
    ensures Size(MemberTree(m)) == MemberCensus(m)
    decreases m, 0
  {
    match m.value
    case Array(es) =>
      ElementsCensusCounts(es);
      assert Size(MemberTree(m)) == 1 + ForestSize(ArrayForest(es));
      assert MemberCensus(m) == 1 + ElementsCensus(es);
    case Object(inner) =>
      CensusCountsVertices(inner);
      assert MemberTree(m) == ObjectTree(inner);
      assert MemberCensus(m) == ObjectCensus(inner);
  }

  lemma {:induction false} ElementsCensusCounts(es: seq<Json>)
    ensures ForestSize(ArrayForest(es)) == ElementsCensus(es)
    decreases es, 1
  {
    if es == [] {
      assert ArrayForest(es) == [];
    } else {
      ElementsCensusCounts(es[1..]);
      ElementCensusCounts(es[0]);
      var rest := ArrayForest(es[1..]);
      assert ElementsCensus(es) == ElementCensus(es[0]) + ElementsCensus(es[1..]);
      assert ArrayForest(es) == [ElementTree(es[0])] + rest;
      ForestAppend([ElementTree(es[0])], rest, 0, 0);
      ForestSingleton(ElementTree(es[0]), 0, 0);
    }
  }

  lemma {:induction false} ElementCensusCounts(e: Json)
    ensures Size(ElementTree(e)) == ElementCensus(e)
    decreases e, 0
  {
    match e
    case Array(xs) =>
      ElementsCensusCounts(xs);
      assert Size(ElementTree(e)) == 1 + ForestSize(ArrayForest(xs));
      assert ElementCensus(e) == 1 + ElementsCensus(xs);
    case Object(ms) =>
      CensusCountsVertices(ms);
      assert ElementTree(e) == ObjectTree(ms);
      assert ElementCensus(e) == ObjectCensus(ms);
    case _ =>
      assert Size(ElementTree(e)) == 1;
  }
}
