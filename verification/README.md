# JSON to graph conversion (CrossplatformLab2)

This project models how CrossplatformLab2 turns a parsed JSON object into a labelled directed graph. It also models how each vertex label is escaped when the graph is written in the DOT language of Graphviz.

The builder walks the document depth first. It passes down the vertex under which the next vertex is hung, and appends vertices and edges to one shared graph:

- An object becomes one vertex. Its label is its scalar members' `key: value` lines, joined with newlines, in key order. An edge comes into that vertex from the parent unless the object is the document root.
- An array-valued member becomes a vertex labelled with the key, with the array's elements beneath it.
- An object-valued member is hung directly under the object's vertex. No vertex is made for its key.
- Inside an array:
  - a nested array becomes an empty-label vertex over its elements;
  - an object is hung directly under the array's own vertex (the key's vertex, or a nested array's empty-label vertex), so sibling objects share that vertex;
  - a scalar becomes a leaf labelled with its text.

Modules:

- `JsonValue` (json.dfy) is the parsed document. An object is the ordered sequence of its members, and its keys are unique.
- `KeysManager` (keys_manager.dfy) is the key-partitioning collaborator. It is stated as two order-preserving filters.
- `Arena` (arena.dfy) is a labelled tree laid out in pre-order into an append-only vertex and edge list. It proves that such a layout is a tree rooted at vertex 0.
- `Layout` (layout.dfy) holds the layout policy above, as the tree it assigns to a document, plus `to_string`, the label join and a vertex count.
- `GraphBuilder` (graph.dfy) is the imperative builder. `Graph` is a class whose vertex labels and edges the methods append to. Each `json_to_graph_impl` overload is a method proved to append exactly the pre-order layout of its input's tree.
- `Graphviz` (graphviz.dfy) covers the label escaping and the vertex attribute text, with a model of how the DOT lexer of Graphviz reads a quoted string back. The lexer takes a backslash before a quote as a quote, keeps a doubled backslash as it is, and drops a backslash before a newline together with the newline.
- `Examples` (examples.dfy) works small documents through the layout.

A vertex descriptor is the vertex's position in creation order. The "no parent" value of the root call, the largest descriptor, is modelled as `None` of an `Option<nat>`. The converter compares the parent with the vertex count after the new vertex is added. Every real parent was created earlier, so only the root call skips the edge. The model states exactly that.

## Model

| member | source | states |
|---|---|---|
| GraphBuilder.JsonToGraph | graph/graph.cpp:28-35 | The graph built from a root object is the pre-order layout of the object's tree from vertex 0 with no parent. It is a rooted tree: every vertex except vertex 0 has exactly one incoming edge, from an earlier vertex. There is one vertex per object, per array-valued key, per nested-array element and per scalar array element, and one edge fewer than vertices. |
| GraphBuilder.AddObject | graph/graph.cpp:54-78 | The object overload appends exactly its object's layout: its own vertex, the edge from the parent when there is one, then every array- or object-valued member's subtree in key order. No other vertex or edge changes, and every edge stays between existing vertices. |
| GraphBuilder.ScalarLines | graph/graph.cpp:56-62 | Looking up each scalar-valued key, in key order, gives one `key: value` line per scalar member. Joined with newlines by `Layout.Join`, the model of `text.join("\n")`, they are the object's label. |
| GraphBuilder.AddMember | graph/graph.cpp:67-77 | For an array-valued member, a vertex labelled with the key goes under the object's vertex, with the elements beneath it. For an object-valued member, the nested object's layout goes under the object's vertex, with no vertex for the key. |
| GraphBuilder.AddScalar | graph/graph.cpp:81-86 | The scalar overload appends one leaf labelled with the value's text and one edge into it from the parent. Nothing else changes. |
| GraphBuilder.AddArray | graph/graph.cpp:89-102 | The array overload appends the layouts of its elements in order, each under the given parent, which is the array's own vertex. |
| GraphBuilder.AddElement | graph/graph.cpp:91-101 | A nested array element gets an empty-label vertex under the parent, with its elements beneath it. An object element is laid out directly under the parent. A scalar element is a leaf under the parent. |
| GraphBuilder.Graph.AddVertex | graph/graph.cpp:62 | `add_vertex` returns the previous vertex count as the new descriptor, appends the label and leaves the edges unchanged. |
| GraphBuilder.Graph.AddEdge | graph/graph.cpp:64-65 | `add_edge` between two existing vertices appends that edge and leaves the labels unchanged. |
| Layout.ToString | graph/graph.cpp:43-48 | A boolean is written `true` or `false`, a string verbatim, null as `null`, and a number as its formatted text. |
| Layout.ObjectLabelEmpty | graph/graph.cpp:57-62 | An object's label is empty if and only if the object has no scalar-valued key. |
| Layout.ObjectLabelLines | graph/graph.cpp:57-62 | For an object with at least one scalar key, when no scalar key or value contains a newline, splitting the label at newlines gives back exactly one line per scalar key, in key order, each `key: value`. An object without scalar keys has the empty label, which `Layout.ObjectLabelEmpty` covers. |
| Layout.SplitJoin | graph/graph.cpp:62 | `Join` stands for `text.join("\n")`. Joining one or more lines that contain no newline, then splitting at newlines, gives back the lines. |
| Layout.ObjectChildren | graph/graph.cpp:67-77 | An object's vertex has one child per array- or object-valued key, in key order. For an array it is a key-labelled vertex over the elements. For an object it is the nested object's own vertex. |
| Layout.LookupChild | graph/graph.cpp:67-68 | Looking up the `i`-th array- or object-valued key in the object finds a structured member carrying that key. That member's subtree is the object's `i`-th child. |
| Layout.LookupLine | graph/graph.cpp:59-60 | Looking up the `i`-th scalar key finds a scalar value. The line built from it is the `i`-th scalar member's line. |
| Layout.ArrayChildren | graph/graph.cpp:91-101 | The subtrees under an array's vertex are its elements' subtrees, one per element in order. A nested array is an empty-label vertex, an object is its own vertex, and a scalar is a leaf labelled with its text. |
| Layout.ObjectAssembled | graph/graph.cpp:62-77 | An object's vertex, the parent edge and its members' layouts, appended in that order, are the layout of the object's tree. |
| Layout.CensusCountsVertices | graph/graph.cpp:54-102 | The number of vertices of an object's tree equals a count made independently on the document: objects, array-valued keys, nested-array elements and scalar array elements. |
| Arena.LayoutIsRootedTree | graph/graph.cpp:28-35 | A tree laid out from vertex 0 without a parent has one edge fewer than vertices. Edge `i` enters vertex `i + 1` and leaves an earlier vertex. |
| Arena.RootedTreeInDegree | graph/graph.cpp:64-65 | In such a graph, vertex 0 has no incoming edge and every other vertex has exactly one. |
| Arena.RootReachesEveryVertex | graph/graph.cpp:28-35 | Every vertex is reached from vertex 0 along a path of edges of the graph. |
| Arena.ForestAppend | graph/graph.cpp:67-77 | Laying out siblings `a + b` under one parent lays out `a`, then `b` starting right after `a`'s vertices. |
| Arena.ForestStep | graph/graph.cpp:89-101 | After the `i`-th sibling's layout is appended to the layout of the first `i` siblings, the graph holds the layout of the first `i + 1`. |
| KeysManager.Partition | graph/graph.cpp:59-67 | The scalar-valued and the structured-valued groups together hold every member of the object exactly once. |
| KeysManager.KeysOfFiltered | graph/graph.cpp:59-67 | Each group lists, position by position, the keys of its members, and every member of a group is a member of the object. |
| KeysManager.KeysInObjectOrder | graph/graph.cpp:59-67 | Both groups keep the object's key order: a key listed before another in a group is found at an earlier position of the object. |
| KeysManager.LookupScalar | graph/graph.cpp:59-60 | Looking up the `i`-th scalar key finds the `i`-th scalar member itself. |
| KeysManager.LookupStructured | graph/graph.cpp:67-68 | Looking up the `i`-th structured key finds the `i`-th structured member itself. |
| JsonValue.IndexOf | graph/graph.cpp:60 | Looking up a key present in the object finds a member carrying that key, and no earlier member carries it. |
| JsonValue.IndexOfMember | graph/graph.cpp:68 | Since keys are unique, looking up a member's own key finds that member. |
| Graphviz.VertexAttr | graph/graph.cpp:16-20 | The attribute text is ` [label="`, then `Graphviz.Escape` of the label (the model of the `std::regex_replace` call), then `"]`. Its length is the label's length plus its quote count plus 11. |
| Graphviz.EscapeLength | graph/graph.cpp:18-19 | `Graphviz.Escape`, the model of replacing every `"` with `\"`, adds exactly one character per double quote. |
| Graphviz.EscapeConcat | graph/graph.cpp:18-19 | Escaping distributes over concatenation, because the replacement works quote by quote. |
| Graphviz.EscapeNoQuote | graph/graph.cpp:18-19 | A label without double quotes is written unchanged. |
| Graphviz.EscapedQuotes | graph/graph.cpp:18-19 | Every double quote of the escaped label has a backslash right before it. |
| Graphviz.UnescapeEscape | graph/graph.cpp:18-19 | Removing the backslash before each escaped quote gives back the label. |
| Graphviz.ReadEscaped | graph/graph.cpp:16-20 | The DOT lexer reading the written quoted label recovers the label and stops right after the closing quote, when every backslash of the label is followed by a character that is neither a quote nor a newline. |
| Graphviz.QuotedLabel | graph/graph.cpp:16-20 | The label `"hi"` is written as ` [label="\"hi\""]`. |
| Graphviz.TrailingBackslash | graph/graph.cpp:16-20 | For the label `a\`, the lexer takes the written closing quote as an escaped quote and does not recover the label. |
| Graphviz.BackslashNewline | graph/graph.cpp:16-20 | For a label with a backslash before a newline, such as the label of `{"a": "x\\", "b": 1}`, the lexer drops both characters: `x\` newline `b` reads back as `xb`. |
| Graphviz.BackslashQuote | graph/graph.cpp:16-20 | For the label `\"`, the written text `\\"` is read as a kept doubled backslash followed by the closing quote, so the string ends early. |
| Examples.ScalarOnlyObject | graph/graph.cpp:54-65 | `{"a": 1, "b": "x"}` gives one vertex labelled `a: 1` newline `b: x` and no edge. |
| Examples.ArrayUnderKey | graph/graph.cpp:54-102 | `{"k": [1, 2]}` gives vertices `""`, `k`, `1`, `2`, with edges 0→1, 1→2 and 1→3. |
| Examples.InnerLeaf | graph/graph.cpp:54-62 | `{"x": 1}` alone is one vertex labelled `x: 1` with no children. |
| Examples.ObjectUnderKey | graph/graph.cpp:67-78 | `{"outer": {"x": 1}}` gives vertices `""` and `x: 1`, with the edge 0→1. No vertex carries the key `outer`. |

## Left out

- Layout.ToString: a number is carried as its already-formatted decimal text. `QString::number` on the double value, with its rounding and exponent form, is not modelled.
- Layout.ToString: requires a scalar. The compact JSON text of an array or object value (graph/graph.cpp:49-50) is not modelled, because no caller in the converter passes a structured value.
- Graphviz.ReadEscaped: holds only for labels in which every backslash is followed by a character other than a quote or a newline. The escaping replaces quotes only, so labels with a trailing backslash, a backslash before a newline or a backslash before a quote are reachable and are not read back (see `Graphviz.TrailingBackslash`, `Graphviz.BackslashNewline` and `Graphviz.BackslashQuote`).
- The DOT framing written by `boost::write_graphviz` (graph/graph.cpp:23): the graph header, vertex identifiers, edge lines and stream output. Only the vertex attribute text is modelled.
- JSON parsing and the Qt object model. The document is taken as already parsed, with objects as member sequences in the key order the parser presents.
- The `KeysManager` implementation. keysmanager is not part of this model; the class is stated as the two order-preserving filters the converter relies on.
- The "no parent" descriptor, `std::numeric_limits<descriptor_t>::max()`, is modelled as `None`. Descriptor width and the vertex count reaching it are not modelled.
- Edge storage order: the model keeps all edges in one sequence in creation order. The graph library keeps an out-edge list per source vertex and writes edges grouped by source. What carries over to the program is the set of edges, each vertex's in-degree, and each edge leaving an earlier vertex.
- Recursion depth and stack use on deeply nested documents.
- Conversions between `QString`, `std::string` and UTF-8. Labels are sequences of characters.
- The gui files, which draw nodes and edges on screen.
