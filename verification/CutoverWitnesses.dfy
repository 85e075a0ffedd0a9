/** Small inputs on which the rebuild does not match its source, one for each condition. */
module CutoverWitnesses {
  import opened Prelude
  import opened JsonValues
  import opened Strings
  import opened CutoverModel
  import opened CutoverApply
  import opened CutoverBuild
  import opened CutoverVerify
  import opened CutoverPhases
  import opened CutoverResult
  import opened CutoverGuarantees

  const NO_MAPS := Maps("cloud", "vps", [], [], map[], map[])

  function Bare(name: string, kind: string, version: Option<Json>): Node {
    Node(name, kind, version, None, map[], [], None, None, None, None, map[])
  }

  function Graph(nodes: seq<Node>, connections: Connections): Workflow {
    Workflow(nodes, connections, NO_SETTINGS, None)
  }

  /** A source node without a version, added to an empty target: 1 against nothing. */
  lemma VersionlessNodeDiffers()
    ensures LeftDifferent(TypeVersionDiffers("A"), Graph([Bare("A", "set", None)], map[]), Graph([], map[]), NO_MAPS, map[])
  {
    var node := Bare("A", "set", None);
    assert node in Graph([node], map[]).nodes && DefaultsVersion(node, ByName([]));
  }

  /** Two Code nodes with one overlay key: the file goes to the first, the checker wants it in both. */
  lemma NamesakeLosesItsFile()
    ensures OverlayKey("b") == OverlayKey("B")
    ensures var source := Graph([Bare("b", CODE_TYPE, Some(JNum(2))), Bare("B", CODE_TYPE, Some(JNum(2)))], map[]);
            LeftDifferent(ParametersDiffer("B"), source, Graph([], map[]), NO_MAPS, map["b" := "return 1"])
  {
    var source := Graph([Bare("b", CODE_TYPE, Some(JNum(2))), Bare("B", CODE_TYPE, Some(JNum(2)))], map[]);
    KeyOfOneLetter('b');
    KeyOfOneLetter('B');
    hide OverlayKey;
    assert ['b'] == "b" && ['B'] == "B";
    assert WantsFile(source.nodes[0], "b");
    assert TakenBefore(source.nodes, 1, "b");
    assert LosesFile(source.nodes, 1, NO_MAPS, map["b" := "return 1"]);
  }

  lemma KeyOfOneLetter(c: char)
    requires LowerAlnum(Lower(c))
    ensures OverlayKey([c]) == [Lower(c)]
  {
    assert [c][1..] == "" && Collapse("", false) == "";
    assert Collapse([c], false) == [Lower(c)];
  }

  /** A target edge that never carried an index survives its own removal. */
  lemma UnindexedEdgeStays()
    ensures var nodes := [Bare("A", "set", Some(JNum(1))), Bare("B", "set", Some(JNum(1)))];
            var target := Graph(nodes, map["A" := map["main" := [Some([Edge("B", "main", None)])]]]);
            LeftDifferent(ExtraConnection(FlatEdge("A", "main", 0, "B", 0)), Graph(nodes, map[]), target, NO_MAPS, map[])
  {
    var nodes := [Bare("A", "set", Some(JNum(1))), Bare("B", "set", Some(JNum(1)))];
    var target := Graph(nodes, map["A" := map["main" := [Some([Edge("B", "main", None)])]]]);
    var key := LaneKey("A", "main", 0);
    assert LaneAt(target.connections, key) == [Edge("B", "main", None)];
    assert LaneAt(map[], key) == [] && Flatten(key, []) == [];
    ByNameIsFind(nodes);
    assert Gone(nodes, nodes) == {} by {
      forall node | node in nodes ensures NodeAt(ByName(nodes), node.name) == Some(node) {
        var i :| 0 <= i < |nodes| && nodes[i] == node;
        FindIsThe(nodes, i);
      }
    }
    assert Edge("B", "main", None) in LaneAt(target.connections, key);
  }

  /** A null lane stops the interpreter as soon as an edge is added to it. */
  lemma NullLaneStopsTheRun(op: Operation)
    requires op == AddConnection(FlatEdge("A", "main", 0, "B", 0))
    ensures ApplyAll(Graph([], map["A" := map["main" := [None]]]), [op]) == Failed(NullLane)
  {
    var connections: Connections := map["A" := map["main" := [None]]];
    assert LaneOf(connections, LaneKey("A", "main", 0)) == None;
  }
}
