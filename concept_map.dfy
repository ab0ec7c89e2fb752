/**
 * The 2D concept view: the element list handed to the graph-layout library
 * (one node element per concept, one edge element per list entry, dangling
 * references included), its stylesheet, and the selection state driven by
 * taps and by the panel.
 */
module ConceptMap {
  import opened Wrappers
  import opened Types
  import NodePanel

  // ---------------------------------------------------------------------------
  // Elements
  // ---------------------------------------------------------------------------

  /** A node element's data: the `label` shown (here `caption`) plus every field of the concept. */
  datatype NodeElement = NodeElement(caption: string, node: ConceptNode)

  /** An edge element's data. */
  datatype EdgeElement = EdgeElement(id: string, source: string, target: string, kind: EdgeKind)

  /** The node mapping: one element per concept, labelled with its name, in dataset order. */
  function NodeElements(nodes: seq<ConceptNode>): (r: seq<NodeElement>)
    ensures |r| == |nodes|
    ensures forall i :: 0 <= i < |nodes| ==> r[i].node == nodes[i] && r[i].caption == nodes[i].name
  {
    seq(|nodes|, i requires 0 <= i < |nodes| => NodeElement(nodes[i].name, nodes[i]))
  }

  /** The computed id of an edge from `ref` into `owner`. */
  function EdgeId(ref: string, owner: string, kind: EdgeKind): string
  {
    match kind
    case Prerequisite => ref + "-" + owner
    case Related => ref + "-" + owner + "-related"
  }

  function EdgeFor(ref: string, owner: string, kind: EdgeKind): EdgeElement
  {
    EdgeElement(EdgeId(ref, owner, kind), ref, owner, kind)
  }

  /** The edges one reference list yields: one per entry, whether or not it resolves. */
  function RefEdges(refs: seq<string>, owner: string, kind: EdgeKind): seq<EdgeElement>
  {
    if refs == [] then []
    else RefEdges(refs[..|refs| - 1], owner, kind) + [EdgeFor(refs[|refs| - 1], owner, kind)]
  }

  /** The edges of one node: its prerequisite edges, then its related edges. */
  function NodeEdges(n: ConceptNode): seq<EdgeElement>
  {
    RefEdges(n.prerequisites, n.id, Prerequisite) + RefEdges(n.related, n.id, Related)
  }

  /** The edge list of the whole dataset, grouped per node in node order. */
  function AllEdges(ns: seq<ConceptNode>): seq<EdgeElement>
  {
    if ns == [] then []
    else AllEdges(ns[..|ns| - 1]) + NodeEdges(ns[|ns| - 1])
  }

  /** The number of reference entries of the nodes: |prerequisites| + |related| summed. */
  function RefCount(ns: seq<ConceptNode>): nat
  {
    if ns == [] then 0
    else |ns[0].prerequisites| + |ns[0].related| + RefCount(ns[1..])
  }

  /** Each entry `refs[i]` is edge `i`: source the entry, target the owner, id computed from both. */
  lemma {:induction false} RefEdgesAt(refs: seq<string>, owner: string, kind: EdgeKind)
    ensures |RefEdges(refs, owner, kind)| == |refs|
    ensures forall i :: 0 <= i < |refs| ==> RefEdges(refs, owner, kind)[i] == EdgeFor(refs[i], owner, kind)
  {
    if refs != [] {
      RefEdgesAt(refs[..|refs| - 1], owner, kind);
    }
  }

  lemma RefEdgesStep(refs: seq<string>, j: nat, owner: string, kind: EdgeKind)
    requires j < |refs|
    ensures RefEdges(refs[..j + 1], owner, kind) == RefEdges(refs[..j], owner, kind) + [EdgeFor(refs[j], owner, kind)]
  {
    assert refs[..j + 1][..j] == refs[..j];
  }

  lemma AllEdgesStep(ns: seq<ConceptNode>, i: nat)
    requires i < |ns|
    ensures AllEdges(ns[..i + 1]) == AllEdges(ns[..i]) + NodeEdges(ns[i])
  {
    assert ns[..i + 1][..i] == ns[..i];
  }

  lemma {:induction false} AllEdgesAppend(a: seq<ConceptNode>, b: seq<ConceptNode>)
    ensures AllEdges(a + b) == AllEdges(a) + AllEdges(b)
  {
    if b != [] {
      var init := b[..|b| - 1];
      assert (a + b)[..|a + b| - 1] == a + init;
      assert (a + b)[|a + b| - 1] == b[|b| - 1];
      AllEdgesAppend(a, init);
      assert AllEdges(a + b) == AllEdges(a) + AllEdges(init) + NodeEdges(b[|b| - 1]);
    } else {
      assert a + b == a;
    }
  }

  lemma {:induction false} RefCountAppend(ns: seq<ConceptNode>, n: ConceptNode)
    ensures RefCount(ns + [n]) == RefCount(ns) + |n.prerequisites| + |n.related|
  {
    if ns != [] {
      assert (ns + [n])[1..] == ns[1..] + [n];
      RefCountAppend(ns[1..], n);
    }
  }

  /** No entry is dropped: there is one edge per reference entry, dangling ones included. */
  lemma {:induction false} EdgeCount(ns: seq<ConceptNode>)
    ensures |AllEdges(ns)| == RefCount(ns)
  {
    if ns != [] {
      var init, n := ns[..|ns| - 1], ns[|ns| - 1];
      EdgeCount(init);
      RefEdgesAt(n.prerequisites, n.id, Prerequisite);
      RefEdgesAt(n.related, n.id, Related);
      assert ns == init + [n];
      RefCountAppend(init, n);
    }
  }

  /** Within a node's edges, the prerequisite entries come first, then the related ones. */
  lemma NodeEdgesAt(n: ConceptNode)
    ensures |NodeEdges(n)| == |n.prerequisites| + |n.related|
    ensures forall j :: 0 <= j < |n.prerequisites| ==> NodeEdges(n)[j] == EdgeFor(n.prerequisites[j], n.id, Prerequisite)
    ensures forall j :: 0 <= j < |n.related| ==> NodeEdges(n)[|n.prerequisites| + j] == EdgeFor(n.related[j], n.id, Related)
  {
    RefEdgesAt(n.prerequisites, n.id, Prerequisite);
    RefEdgesAt(n.related, n.id, Related);
  }

  lemma AllEdgesAround(ns: seq<ConceptNode>, i: nat)
    requires i < |ns|
    ensures AllEdges(ns) == AllEdges(ns[..i]) + NodeEdges(ns[i]) + AllEdges(ns[i + 1..])
  {
    assert ns[..i + 1] + ns[i + 1..] == ns;
    AllEdgesAppend(ns[..i + 1], ns[i + 1..]);
    AllEdgesStep(ns, i);
  }

  /** The layout of the edge list: node `i`'s edges are a contiguous block that starts after
      the edges of all the nodes before it (within the block, `NodeEdgesAt` gives the order). */
  lemma EdgesOfNodeAt(ns: seq<ConceptNode>, i: nat)
    requires i < |ns|
    ensures RefCount(ns[..i]) + |NodeEdges(ns[i])| <= |AllEdges(ns)|
    ensures AllEdges(ns)[RefCount(ns[..i])..RefCount(ns[..i]) + |NodeEdges(ns[i])|] == NodeEdges(ns[i])
  {
    AllEdgesAround(ns, i);
    EdgeCount(ns[..i]);
    var front, mine, back := AllEdges(ns[..i]), NodeEdges(ns[i]), AllEdges(ns[i + 1..]);
    assert (front + mine + back)[|front|..|front| + |mine|] == mine;
  }

  /** Two entries of the same list naming the same id give two edges with one id. */
  lemma RepeatedEntrySharesEdgeId(n: ConceptNode, j: nat, k: nat)
    requires j < k < |n.prerequisites| && n.prerequisites[j] == n.prerequisites[k]
    ensures |RefEdges(n.prerequisites, n.id, Prerequisite)| == |n.prerequisites|
    ensures RefEdges(n.prerequisites, n.id, Prerequisite)[j].id == RefEdges(n.prerequisites, n.id, Prerequisite)[k].id
  {
    RefEdgesAt(n.prerequisites, n.id, Prerequisite);
  }

  /** The first inner `forEach`: an edge `prereq-owner` per prerequisite entry. */
  method PushPrerequisiteEdges(edges: seq<EdgeElement>, prereqs: seq<string>, owner: string) returns (pushed: seq<EdgeElement>)
    ensures pushed == edges + RefEdges(prereqs, owner, Prerequisite)
  {
    pushed := edges;
    var j := 0;
    while j < |prereqs|
      invariant 0 <= j <= |prereqs|
      invariant pushed == edges + RefEdges(prereqs[..j], owner, Prerequisite)
    {
      var prereq := prereqs[j];
      RefEdgesStep(prereqs, j, owner, Prerequisite);
      pushed := pushed + [EdgeElement(prereq + "-" + owner, prereq, owner, Prerequisite)];
      j := j + 1;
    }
    assert prereqs[..j] == prereqs;
  }

  /** The second inner `forEach`: an edge `rel-owner-related` per related entry. */
  method PushRelatedEdges(edges: seq<EdgeElement>, related: seq<string>, owner: string) returns (pushed: seq<EdgeElement>)
    ensures pushed == edges + RefEdges(related, owner, Related)
  {
    pushed := edges;
    var k := 0;
    while k < |related|
      invariant 0 <= k <= |related|
      invariant pushed == edges + RefEdges(related[..k], owner, Related)
    {
      var rel := related[k];
      RefEdgesStep(related, k, owner, Related);
      pushed := pushed + [EdgeElement(rel + "-" + owner + "-related", rel, owner, Related)];
      k := k + 1;
    }
    assert related[..k] == related;
  }

  /** The outer `forEach` callback: the prerequisite edges of `node`, then its related edges. */
  method PushNodeEdges(edges: seq<EdgeElement>, node: ConceptNode) returns (pushed: seq<EdgeElement>)
    ensures pushed == edges + NodeEdges(node)
  {
    var withPrereqs := PushPrerequisiteEdges(edges, node.prerequisites, node.id);
    pushed := PushRelatedEdges(withPrereqs, node.related, node.id);
    assert edges + RefEdges(node.prerequisites, node.id, Prerequisite) + RefEdges(node.related, node.id, Related)
        == edges + NodeEdges(node);
  }

  /** The edge construction of the mount effect, node by node in dataset order. */
  method BuildEdges(nodes: seq<ConceptNode>) returns (edges: seq<EdgeElement>)
    ensures edges == AllEdges(nodes)
  {
    edges := [];
    var i := 0;
    while i < |nodes|
      invariant 0 <= i <= |nodes|
      invariant edges == AllEdges(nodes[..i])
    {
      edges := PushNodeEdges(edges, nodes[i]);
      AllEdgesStep(nodes, i);
      i := i + 1;
    }
    assert nodes[..i] == nodes;
  }

  // ---------------------------------------------------------------------------
  // Stylesheet
  // ---------------------------------------------------------------------------

  /** Node background colours for levels 1 to 4, and the grey for any other level. */
  const NodePalette: seq<string> := ["#22c55e", "#3b82f6", "#f59e0b", "#ef4444"]
  const FallbackColor: string := "#6b7280"

  /** The background-colour rule. */
  function NodeBackground(level: int): (c: string)
    ensures 1 <= level <= 4 ==> c == NodePalette[level - 1]
    ensures !(1 <= level <= 4) ==> c == FallbackColor
  {
    var colors := NodePalette;
    if 1 <= level <= 4 then colors[level - 1] else FallbackColor
  }

  /** Tailwind's default hex value of each class the panel uses for a level dot. */
  function TailwindHex(cls: string): Option<string>
  {
    if cls == "bg-green-500" then Some("#22c55e")
    else if cls == "bg-blue-500" then Some("#3b82f6")
    else if cls == "bg-amber-500" then Some("#f59e0b")
    else if cls == "bg-red-500" then Some("#ef4444")
    else if cls == "bg-gray-500" then Some("#6b7280")
    else None
  }

  /** A node in the 2D graph is painted in the colour of its level dot in the panel,
      the fallback grey included. */
  lemma BackgroundMatchesPanelDot(level: int)
    ensures TailwindHex(NodePanel.LevelColorClass(level)) == Some(NodeBackground(level))
  {
  }

  datatype BorderStyle = Solid | Dashed

  /** The style computed for one node element. Sizes are in px. */
  datatype NodeStyle = NodeStyle(
    background: string,
    caption: string,
    width: nat,
    height: nat,
    borderWidth: nat,
    borderStyle: BorderStyle,
    borderColor: string
  )

  /** The `node` rule, overridden by the `node:selected` rule on a selected node. */
  function StyleOf(el: NodeElement, selected: bool): (s: NodeStyle)
    ensures s.background == NodeBackground(el.node.level) && s.caption == el.caption
    ensures s.width == s.height
    ensures IsExtended(el.node) ==> s.width == 50
    ensures !IsExtended(el.node) ==> s.width == 60
    ensures !selected ==> s.borderWidth == (if IsExtended(el.node) then 2 else 0) && s.borderStyle == Dashed && s.borderColor == "#666"
    ensures selected ==> s.borderWidth == 3 && s.borderStyle == Solid && s.borderColor == "#000"
  {
    var ext := IsExtended(el.node);
    var size := if ext then 50 else 60;
    if selected then NodeStyle(NodeBackground(el.node.level), el.caption, size, size, 3, Solid, "#000")
    else NodeStyle(NodeBackground(el.node.level), el.caption, size, size, if ext then 2 else 0, Dashed, "#666")
  }

  /** An extended node is drawn smaller than a core node, and only an extended node has a
      border while unselected. */
  lemma ExtendedNodesStandOut(a: NodeElement, b: NodeElement)
    requires IsExtended(a.node) && !IsExtended(b.node)
    ensures StyleOf(a, false).width < StyleOf(b, false).width
    ensures StyleOf(a, false).borderWidth > 0 && StyleOf(b, false).borderWidth == 0
  {
  }

  datatype EdgeStyle = EdgeStyle(width: nat, lineColor: string, lineStyle: BorderStyle, arrow: bool)

  /** The `edge[type=...]` rules: prerequisite edges solid, dark and arrowed; related edges thin and dashed. */
  function EdgeStyleOf(e: EdgeElement): (s: EdgeStyle)
    ensures e.kind.Prerequisite? <==> s.arrow
    ensures e.kind.Prerequisite? ==> s.width == 2 && s.lineColor == "#666" && s.lineStyle == Solid
    ensures e.kind.Related? ==> s.width == 1 && s.lineColor == "#999" && s.lineStyle == Dashed
  {
    match e.kind
    case Prerequisite => EdgeStyle(2, "#666", Solid, true)
    case Related => EdgeStyle(1, "#999", Dashed, false)
  }

  // ---------------------------------------------------------------------------
  // Selection state
  // ---------------------------------------------------------------------------

  /** `cy.$('#id')` on the node elements: the first one with that id. */
  function FindElement(els: seq<NodeElement>, id: string): (r: Option<NodeElement>)
    ensures r.Some? ==> r.value in els && r.value.node.id == id
    ensures r.None? <==> forall i :: 0 <= i < |els| ==> els[i].node.id != id
    ensures forall i :: 0 <= i < |els| && els[i].node.id == id && (forall j :: 0 <= j < i ==> els[j].node.id != id) ==> r == Some(els[i])
  {
    if els == [] then None
    else if els[0].node.id == id then Some(els[0])
    else FindElement(els[1..], id)
  }

  /** What a tap lands on. */
  datatype TapTarget = OnNode(el: NodeElement) | OnEdge(edge: EdgeElement) | OnBackground

  /** The component's state: the fixed dataset, the graph instance once mounted (its elements
      and the ids it has selected), and the panel. */
  class ConceptMapView {
    const data: seq<ConceptNode>
    var mounted: bool
    var nodeElements: seq<NodeElement>
    var edgeElements: seq<EdgeElement>
    var selected: set<string>
    var selectedNode: Option<ConceptNode>
    var isPanelOpen: bool

    /** The panel is closed with no node or open on one; a mounted instance was handed the
        elements built from the dataset; before mounting there is no instance. */
    ghost predicate Valid()
      reads this
    {
      && (isPanelOpen <==> selectedNode.Some?)
      && (mounted ==> nodeElements == NodeElements(data) && edgeElements == AllEdges(data))
      && (!mounted ==> nodeElements == [] && edgeElements == [] && selected == {})
    }

    constructor (data: seq<ConceptNode>)
      ensures Valid()
      ensures this.data == data && !mounted && selectedNode == None && !isPanelOpen
    {
      this.data := data;
      mounted := false;
      nodeElements := [];
      edgeElements := [];
      selected := {};
      selectedNode := None;
      isPanelOpen := false;
    }

    /** The mount effect: build the elements and create the graph instance. */
    method Mount()
      requires Valid() && !mounted
      modifies this
      ensures Valid()
      ensures mounted && nodeElements == NodeElements(data) && edgeElements == AllEdges(data)
      ensures selected == {} && selectedNode == old(selectedNode) && isPanelOpen == old(isPanelOpen)
    {
      nodeElements := NodeElements(data);
      edgeElements := BuildEdges(data);
      mounted := true;
    }

    /** A tap on the mounted graph. The component's handlers open the panel on a tapped node's
        data and close it on a background tap; the library's default single selection makes the
        tapped element the only selected one, and a background tap clears the selection. */
    method Tap(target: TapTarget)
      requires Valid() && mounted
      modifies this
      ensures Valid()
      ensures target.OnNode? ==> selectedNode == Some(target.el.node) && isPanelOpen && selected == {target.el.node.id}
      ensures target.OnBackground? ==> selectedNode == None && !isPanelOpen && selected == {}
      ensures target.OnEdge? ==> selectedNode == old(selectedNode) && isPanelOpen == old(isPanelOpen) && selected == {target.edge.id}
      ensures mounted && nodeElements == old(nodeElements) && edgeElements == old(edgeElements)
    {
      match target
      case OnNode(el) =>
        selected := {el.node.id};
        selectedNode := Some(el.node);
        isPanelOpen := true;
      case OnBackground =>
        selected := {};
        isPanelOpen := false;
        selectedNode := None;
      case OnEdge(e) =>
        selected := {e.id};
    }

    /** The close button: panel closed, and the instance's selection cleared. */
    method HandleClosePanel()
      requires Valid()
      modifies this
      ensures Valid()
      ensures selectedNode == None && !isPanelOpen && selected == {}
      ensures mounted == old(mounted) && nodeElements == old(nodeElements) && edgeElements == old(edgeElements)
    {
      isPanelOpen := false;
      selectedNode := None;
      if mounted {
        selected := {};
      }
    }

    /** A click on a cross-reference in the panel: an id with no node element changes nothing;
        otherwise that node becomes the only selected element and the panel opens on it. */
    method HandleNodeClick(nodeId: string)
      requires Valid()
      modifies this
      ensures Valid()
      ensures mounted == old(mounted) && nodeElements == old(nodeElements) && edgeElements == old(edgeElements)
      ensures var found := FindElement(nodeElements, nodeId);
        if mounted && found.Some?
        then selected == {nodeId} && selectedNode == Some(found.value.node) && isPanelOpen
        else selected == old(selected) && selectedNode == old(selectedNode) && isPanelOpen == old(isPanelOpen)
    {
      if mounted {
        var targetNode := FindElement(nodeElements, nodeId);
        if targetNode.Some? {
          selected := {};
          selected := selected + {nodeId};
          selectedNode := Some(targetNode.value.node);
          isPanelOpen := true;
        }
      }
    }
  }

  /** In a mounted view, panel navigation opens on a node of the dataset with the requested id
      exactly when the dataset has a node with that id. */
  lemma NavigationFindsDatasetNode(data: seq<ConceptNode>, nodeId: string)
    ensures FindElement(NodeElements(data), nodeId).Some? <==> exists i :: 0 <= i < |data| && data[i].id == nodeId
    ensures FindElement(NodeElements(data), nodeId).Some? ==>
              FindElement(NodeElements(data), nodeId).value.node in data
  {
    var els := NodeElements(data);
    if FindElement(els, nodeId).Some? {
      var e := FindElement(els, nodeId).value;
      var i :| 0 <= i < |els| && els[i] == e;
      assert data[i].id == nodeId;
    }
  }
}
