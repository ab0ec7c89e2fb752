/**
 * The 3D concept view: choosing the dataset of the current topic, the focus
 * filter over levels, the graph handed to the force-graph renderer (nodes
 * flagged as adjacent context, links clipped to the shown nodes), the visual
 * encoders, and the selection state driven by clicks.
 */
module ConceptMap3D {
  import opened Wrappers
  import opened Types
  import Topics
  import opened Sequences

  // ---------------------------------------------------------------------------
  // Dataset selection
  // ---------------------------------------------------------------------------

  /** The ten bundled datasets, one per imported JSON file. */
  datatype DatasetKey =
    | Trigonometry | Vector | FunctionData | Algebra | Probability
    | Geometry | Statistics | Calculus | LinearAlgebra | DiscreteMath

  /** The JSON file under data/ that each dataset is imported from. */
  function DatasetFile(k: DatasetKey): string
  {
    match k
    case Trigonometry => "trigonometry.json"
    case Vector => "vector.json"
    case FunctionData => "function.json"
    case Algebra => "algebra.json"
    case Probability => "probability.json"
    case Geometry => "geometry.json"
    case Statistics => "statistics.json"
    case Calculus => "calculus.json"
    case LinearAlgebra => "linear-algebra.json"
    case DiscreteMath => "discrete-math.json"
  }

  /** The topic id whose catalogue entry names each dataset's file. */
  function DatasetTopic(k: DatasetKey): string
  {
    match k
    case Trigonometry => "trigonometry"
    case Vector => "vector"
    case FunctionData => "function"
    case Algebra => "algebra"
    case Probability => "probability"
    case Geometry => "geometry"
    case Statistics => "statistics"
    case Calculus => "calculus"
    case LinearAlgebra => "linear-algebra"
    case DiscreteMath => "discrete-math"
  }

  /** The topic ids the conditional chain tests, in the order it tests them. */
  const ChainIds: seq<string> := ["vector", "function", "algebra", "probability", "geometry",
                                  "statistics", "calculus", "linear-algebra", "discrete-math"]

  /** The conditional chain that picks the dataset of the current topic: the topic's own
      dataset when the chain names it, the trigonometry dataset for any other id. */
  function DatasetFor(topic: string): (k: DatasetKey)
    ensures topic in ChainIds ==> DatasetTopic(k) == topic
    ensures topic !in ChainIds ==> k == Trigonometry
  {
    if topic == "vector" then Vector
    else if topic == "function" then FunctionData
    else if topic == "algebra" then Algebra
    else if topic == "probability" then Probability
    else if topic == "geometry" then Geometry
    else if topic == "statistics" then Statistics
    else if topic == "calculus" then Calculus
    else if topic == "linear-algebra" then LinearAlgebra
    else if topic == "discrete-math" then DiscreteMath
    else Trigonometry
  }

  /** Every catalogue topic is shown with the dataset its catalogue entry names,
      and distinct catalogue topics get distinct datasets. */
  lemma DatasetForCatalogue()
    ensures forall t :: t in Topics.Catalogue ==> DatasetFile(DatasetFor(t.id)) == t.dataFile
    ensures forall i, j :: 0 <= i < j < |Topics.Catalogue| ==>
              DatasetFor(Topics.Catalogue[i].id) != DatasetFor(Topics.Catalogue[j].id)
  {
    Topics.CatalogueIdsDistinct();
    forall i | 0 <= i < |Topics.Catalogue|
      ensures DatasetTopic(DatasetFor(Topics.Catalogue[i].id)) == Topics.Catalogue[i].id
    {
      CatalogueEntryDataset(i);
    }
  }

  /** The chain names every catalogue topic but the first, which is the fallback's. */
  lemma CatalogueEntryDataset(i: nat)
    requires i < |Topics.Catalogue|
    ensures DatasetTopic(DatasetFor(Topics.Catalogue[i].id)) == Topics.Catalogue[i].id
  {
    Topics.CatalogueIdsAgree();
    if i > 0 {
      assert Topics.Catalogue[i].id == ChainIds[i - 1];
    }
  }

  // ---------------------------------------------------------------------------
  // Focus filter
  // ---------------------------------------------------------------------------

  /** The view selector: the whole graph, or one focused level. */
  datatype ViewMode = All | Focus(level: Level)

  /** `Array.prototype.filter` on the level: the nodes whose level is in `ls`. */
  function WithLevelIn(nodes: seq<ConceptNode>, ls: set<int>): seq<ConceptNode>
  {
    if nodes == [] then []
    else (if nodes[0].level in ls then [nodes[0]] else []) + WithLevelIn(nodes[1..], ls)
  }

  /** The filter keeps every occurrence of a node whose level is in `ls` and nothing else. */
  lemma {:induction false} WithLevelInMultiset(nodes: seq<ConceptNode>, ls: set<int>, n: ConceptNode)
    ensures multiset(WithLevelIn(nodes, ls))[n] == if n.level in ls then multiset(nodes)[n] else 0
  {
    if nodes != [] {
      assert nodes == [nodes[0]] + nodes[1..];
      WithLevelInMultiset(nodes[1..], ls, n);
    }
  }

  /** The filter keeps dataset order. */
  lemma {:induction false} WithLevelInOrder(nodes: seq<ConceptNode>, ls: set<int>)
    ensures Subsequence(WithLevelIn(nodes, ls), nodes)
  {
    if nodes != [] {
      WithLevelInOrder(nodes[1..], ls);
      var rest := WithLevelIn(nodes[1..], ls);
      if nodes[0].level in ls {
        assert ([nodes[0]] + rest)[1..] == rest;
      } else {
        assert WithLevelIn(nodes, ls) == rest;
      }
    }
  }

  /** How many nodes have level `l`. */
  function LevelCount(nodes: seq<ConceptNode>, l: int): nat
  {
    if nodes == [] then 0
    else (if nodes[0].level == l then 1 else 0) + LevelCount(nodes[1..], l)
  }

  /** The nodes shown in `mode`: all of them, or the focused level followed by the two neighbouring levels. */
  function FilteredNodes(nodes: seq<ConceptNode>, mode: ViewMode): seq<ConceptNode>
  {
    match mode
    case All => nodes
    case Focus(f) => WithLevelIn(nodes, {f}) + WithLevelIn(nodes, {f - 1, f + 1})
  }

  lemma {:induction false} WithLevelInLength(nodes: seq<ConceptNode>, l: int)
    ensures |WithLevelIn(nodes, {l})| == LevelCount(nodes, l)
    ensures |WithLevelIn(nodes, {l - 1, l + 1})| == LevelCount(nodes, l - 1) + LevelCount(nodes, l + 1)
  {
    if nodes != [] {
      WithLevelInLength(nodes[1..], l);
    }
  }

  /** In focus mode a node is shown as often as it occurs in the dataset when its level is
      within one of the focus, and not at all otherwise. */
  lemma FocusKeepsNearLevels(nodes: seq<ConceptNode>, f: Level, n: ConceptNode)
    ensures multiset(FilteredNodes(nodes, Focus(f)))[n] == if f - 1 <= n.level <= f + 1 then multiset(nodes)[n] else 0
  {
    var a, b := WithLevelIn(nodes, {f}), WithLevelIn(nodes, {f - 1, f + 1});
    assert a + b == FilteredNodes(nodes, Focus(f));
    WithLevelInMultiset(nodes, {f}, n);
    WithLevelInMultiset(nodes, {f - 1, f + 1}, n);
    var ma, mb := multiset(a)[n], multiset(b)[n];
    assert multiset(a + b)[n] == ma + mb;
    if n.level == f {
      assert ma == multiset(nodes)[n] && mb == 0;
    } else if n.level == f - 1 || n.level == f + 1 {
      assert ma == 0 && mb == multiset(nodes)[n];
    } else {
      assert ma == 0 && mb == 0;
    }
  }

  /** In focus mode a node is shown exactly when it is in the dataset and its level is within
      one of the focus. */
  lemma FocusShowsNearLevels(nodes: seq<ConceptNode>, f: Level, n: ConceptNode)
    ensures n in FilteredNodes(nodes, Focus(f)) <==> n in nodes && f - 1 <= n.level <= f + 1
  {
    FocusKeepsNearLevels(nodes, f, n);
    assert n in FilteredNodes(nodes, Focus(f)) <==> multiset(FilteredNodes(nodes, Focus(f)))[n] > 0;
    assert n in nodes <==> multiset(nodes)[n] > 0;
  }

  lemma {:induction false} WithLevelInLevels(nodes: seq<ConceptNode>, ls: set<int>)
    ensures forall i :: 0 <= i < |WithLevelIn(nodes, ls)| ==> WithLevelIn(nodes, ls)[i].level in ls
  {
    if nodes != [] {
      WithLevelInLevels(nodes[1..], ls);
    }
  }

  /** In focus mode the focused-level nodes come first, then the neighbouring-level nodes;
      the length is the number of nodes at the three levels. */
  lemma FocusLevelsAndLength(nodes: seq<ConceptNode>, f: Level)
    ensures |FilteredNodes(nodes, Focus(f))| == LevelCount(nodes, f - 1) + LevelCount(nodes, f) + LevelCount(nodes, f + 1)
    ensures forall i :: 0 <= i < LevelCount(nodes, f) ==> FilteredNodes(nodes, Focus(f))[i].level == f
    ensures forall i :: LevelCount(nodes, f) <= i < |FilteredNodes(nodes, Focus(f))| ==>
              FilteredNodes(nodes, Focus(f))[i].level in {f - 1, f + 1}
  {
    var a, b := WithLevelIn(nodes, {f}), WithLevelIn(nodes, {f - 1, f + 1});
    var r := a + b;
    assert r == FilteredNodes(nodes, Focus(f));
    WithLevelInLength(nodes, f);
    WithLevelInLevels(nodes, {f});
    WithLevelInLevels(nodes, {f - 1, f + 1});
    forall i | 0 <= i < |a| ensures r[i].level == f {
      assert r[i] == a[i];
    }
    forall i | |a| <= i < |r| ensures r[i].level in {f - 1, f + 1} {
      assert r[i] == b[i - |a|];
    }
  }

  /** Each of the two groups of the focus view keeps dataset order. */
  lemma FocusKeepsOrder(nodes: seq<ConceptNode>, f: Level)
    ensures LevelCount(nodes, f) <= |FilteredNodes(nodes, Focus(f))|
    ensures Subsequence(FilteredNodes(nodes, Focus(f))[..LevelCount(nodes, f)], nodes)
    ensures Subsequence(FilteredNodes(nodes, Focus(f))[LevelCount(nodes, f)..], nodes)
  {
    var a, b := WithLevelIn(nodes, {f}), WithLevelIn(nodes, {f - 1, f + 1});
    var r := a + b;
    assert r == FilteredNodes(nodes, Focus(f));
    WithLevelInLength(nodes, f);
    WithLevelInOrder(nodes, {f});
    WithLevelInOrder(nodes, {f - 1, f + 1});
    assert r[..|a|] == a && r[|a|..] == b;
  }

  // ---------------------------------------------------------------------------
  // Graph data
  // ---------------------------------------------------------------------------

  /** A node handed to the renderer: the concept plus the adjacent-context flag. */
  datatype GraphNode = GraphNode(node: ConceptNode, isAdjacent: bool)

  /** A link from a referenced id to the node that references it. */
  datatype Link = Link(source: string, target: string, kind: EdgeKind)

  datatype GraphData = GraphData(nodes: seq<GraphNode>, links: seq<Link>)

  /** The `nodeIds` set: the ids of the shown nodes. */
  function IdsOf(ns: seq<ConceptNode>): set<string>
  {
    set n | n in ns :: n.id
  }

  /** The adjacent-context flag of a node under `mode`. */
  predicate IsAdjacentIn(n: ConceptNode, mode: ViewMode)
  {
    mode.Focus? && n.level != mode.level
  }

  /** The node mapping: each shown node with its flag, same order and count. */
  function ViewNodes(ns: seq<ConceptNode>, mode: ViewMode): (r: seq<GraphNode>)
    ensures |r| == |ns|
    ensures forall i :: 0 <= i < |ns| ==> r[i] == GraphNode(ns[i], IsAdjacentIn(ns[i], mode))
  {
    seq(|ns|, i requires 0 <= i < |ns| => GraphNode(ns[i], IsAdjacentIn(ns[i], mode)))
  }

  /** The links one reference list yields: one per entry whose id is shown, in list order. */
  function RefLinks(refs: seq<string>, owner: string, kind: EdgeKind, ids: set<string>): seq<Link>
  {
    if refs == [] then []
    else
      var last := refs[|refs| - 1];
      RefLinks(refs[..|refs| - 1], owner, kind, ids) + (if last in ids then [Link(last, owner, kind)] else [])
  }

  /** The links of one node: its prerequisite links, then its related links. */
  function NodeLinks(n: ConceptNode, ids: set<string>): seq<Link>
  {
    RefLinks(n.prerequisites, n.id, Prerequisite, ids) + RefLinks(n.related, n.id, Related, ids)
  }

  /** The links of a node sequence, grouped per node in node order. */
  function AllLinks(ns: seq<ConceptNode>, ids: set<string>): seq<Link>
  {
    if ns == [] then []
    else AllLinks(ns[..|ns| - 1], ids) + NodeLinks(ns[|ns| - 1], ids)
  }

  /** The graph handed to the renderer in `mode`. */
  function GraphOf(data: seq<ConceptNode>, mode: ViewMode): GraphData
  {
    var shown := FilteredNodes(data, mode);
    GraphData(ViewNodes(shown, mode), AllLinks(shown, IdsOf(shown)))
  }

  /** The reference list a link kind is taken from. */
  function RefList(n: ConceptNode, kind: EdgeKind): seq<string>
  {
    match kind
    case Prerequisite => n.prerequisites
    case Related => n.related
  }

  /** How often `s` occurs in the `kind` lists of the nodes with id `t`. */
  function RefOccurrences(ns: seq<ConceptNode>, s: string, t: string, kind: EdgeKind): nat
  {
    if ns == [] then 0
    else
      var n := ns[|ns| - 1];
      RefOccurrences(ns[..|ns| - 1], s, t, kind) + (if n.id == t then multiset(RefList(n, kind))[s] else 0)
  }

  lemma {:induction false} RefLinksOccurrences(refs: seq<string>, owner: string, kind: EdgeKind, ids: set<string>, l: Link)
    ensures multiset(RefLinks(refs, owner, kind, ids))[l] ==
              if l.source in ids && l.target == owner && l.kind == kind then multiset(refs)[l.source] else 0
  {
    if refs != [] {
      var init, last := refs[..|refs| - 1], refs[|refs| - 1];
      assert refs == init + [last];
      RefLinksOccurrences(init, owner, kind, ids, l);
    }
  }

  /** Each occurrence of a shown id in a node's list yields exactly one link
      id -> node of that list's kind; an id that is not shown yields none. */
  lemma {:induction false} LinkOccurrences(ns: seq<ConceptNode>, ids: set<string>, l: Link)
    ensures multiset(AllLinks(ns, ids))[l] ==
              if l.source in ids then RefOccurrences(ns, l.source, l.target, l.kind) else 0
  {
    if ns != [] {
      var n := ns[|ns| - 1];
      LinkOccurrences(ns[..|ns| - 1], ids, l);
      RefLinksOccurrences(n.prerequisites, n.id, Prerequisite, ids, l);
      RefLinksOccurrences(n.related, n.id, Related, ids, l);
    }
  }

  lemma {:induction false} RefLinksClosed(refs: seq<string>, owner: string, kind: EdgeKind, ids: set<string>)
    ensures forall l :: l in RefLinks(refs, owner, kind, ids) ==> l.source in ids && l.source in refs && l.target == owner && l.kind == kind
  {
    if refs != [] {
      RefLinksClosed(refs[..|refs| - 1], owner, kind, ids);
    }
  }

  /** Every link goes from a shown id, listed by its target node in the list of its kind, to a node of `ns`. */
  lemma {:induction false} LinksClosed(ns: seq<ConceptNode>, ids: set<string>)
    ensures forall l :: l in AllLinks(ns, ids) ==>
              l.source in ids && exists n :: n in ns && n.id == l.target && l.source in RefList(n, l.kind)
  {
    if ns != [] {
      var init, n := ns[..|ns| - 1], ns[|ns| - 1];
      LinksClosed(init, ids);
      RefLinksClosed(n.prerequisites, n.id, Prerequisite, ids);
      RefLinksClosed(n.related, n.id, Related, ids);
      forall l | l in AllLinks(ns, ids)
        ensures l.source in ids && exists m :: m in ns && m.id == l.target && l.source in RefList(m, l.kind)
      {
        if l in AllLinks(init, ids) {
          var m :| m in init && m.id == l.target && l.source in RefList(m, l.kind);
          assert m in ns;
        } else {
          assert n in ns;
        }
      }
    }
  }

  /** Both ends of every link are ids of shown nodes. */
  lemma LinksWithinShown(ns: seq<ConceptNode>)
    ensures forall l :: l in AllLinks(ns, IdsOf(ns)) ==> l.source in IdsOf(ns) && l.target in IdsOf(ns)
  {
    LinksClosed(ns, IdsOf(ns));
  }

  /** The graph handed to the renderer has no dangling link: both ends of every link are shown nodes. */
  lemma GraphIsClosed(data: seq<ConceptNode>, mode: ViewMode)
    ensures var g := GraphOf(data, mode);
      forall l :: l in g.links ==>
        (exists i :: 0 <= i < |g.nodes| && g.nodes[i].node.id == l.source) &&
        (exists i :: 0 <= i < |g.nodes| && g.nodes[i].node.id == l.target)
  {
    var shown := FilteredNodes(data, mode);
    var g := GraphOf(data, mode);
    LinksClosed(shown, IdsOf(shown));
    forall l | l in g.links
      ensures (exists i :: 0 <= i < |g.nodes| && g.nodes[i].node.id == l.source)
      ensures (exists i :: 0 <= i < |g.nodes| && g.nodes[i].node.id == l.target)
    {
      var a :| a in shown && a.id == l.source;
      var b :| b in shown && b.id == l.target && l.source in RefList(b, l.kind);
      var i :| 0 <= i < |shown| && shown[i] == a;
      var j :| 0 <= j < |shown| && shown[j] == b;
      assert g.nodes[i].node.id == l.source;
      assert g.nodes[j].node.id == l.target;
    }
  }

  /** In the whole view no node is adjacent; in focus mode exactly the nodes after the
      focused-level group are adjacent. */
  lemma AdjacencyFlags(data: seq<ConceptNode>, mode: ViewMode)
    ensures mode.All? ==> GraphOf(data, mode).nodes == seq(|data|, i requires 0 <= i < |data| => GraphNode(data[i], false))
    ensures mode.Focus? ==> forall i :: 0 <= i < |GraphOf(data, mode).nodes| ==>
              (GraphOf(data, mode).nodes[i].isAdjacent <==> i >= LevelCount(data, mode.level))
  {
    if mode.Focus? {
      FocusLevelsAndLength(data, mode.level);
    }
  }

  lemma RefLinksStep(refs: seq<string>, j: nat, owner: string, kind: EdgeKind, ids: set<string>)
    requires j < |refs|
    ensures RefLinks(refs[..j + 1], owner, kind, ids) ==
              RefLinks(refs[..j], owner, kind, ids) + (if refs[j] in ids then [Link(refs[j], owner, kind)] else [])
  {
    assert refs[..j + 1][..j] == refs[..j];
  }

  lemma AllLinksStep(ns: seq<ConceptNode>, i: nat, ids: set<string>)
    requires i < |ns|
    ensures AllLinks(ns[..i + 1], ids) == AllLinks(ns[..i], ids) + NodeLinks(ns[i], ids)
  {
    assert ns[..i + 1][..i] == ns[..i];
  }

  /** The first inner `forEach`: a prerequisite link per entry whose id is shown. */
  method PushPrerequisiteLinks(links: seq<Link>, prereqs: seq<string>, owner: string, nodeIds: set<string>)
    returns (pushed: seq<Link>)
    ensures pushed == links + RefLinks(prereqs, owner, Prerequisite, nodeIds)
  {
    pushed := links;
    var j := 0;
    while j < |prereqs|
      invariant 0 <= j <= |prereqs|
      invariant pushed == links + RefLinks(prereqs[..j], owner, Prerequisite, nodeIds)
    {
      var prereq := prereqs[j];
      RefLinksStep(prereqs, j, owner, Prerequisite, nodeIds);
      if prereq in nodeIds {
        pushed := pushed + [Link(prereq, owner, Prerequisite)];
      }
      j := j + 1;
    }
    assert prereqs[..j] == prereqs;
  }

  /** The second inner `forEach`: a related link per entry whose id is shown. */
  method PushRelatedLinks(links: seq<Link>, related: seq<string>, owner: string, nodeIds: set<string>)
    returns (pushed: seq<Link>)
    ensures pushed == links + RefLinks(related, owner, Related, nodeIds)
  {
    pushed := links;
    var k := 0;
    while k < |related|
      invariant 0 <= k <= |related|
      invariant pushed == links + RefLinks(related[..k], owner, Related, nodeIds)
    {
      var rel := related[k];
      RefLinksStep(related, k, owner, Related, nodeIds);
      if rel in nodeIds {
        pushed := pushed + [Link(rel, owner, Related)];
      }
      k := k + 1;
    }
    assert related[..k] == related;
  }

  /** The outer `forEach` callback: the prerequisite links of `node`, then its related links. */
  method PushNodeLinks(links: seq<Link>, node: ConceptNode, nodeIds: set<string>) returns (pushed: seq<Link>)
    ensures pushed == links + NodeLinks(node, nodeIds)
  {
    var withPrereqs := PushPrerequisiteLinks(links, node.prerequisites, node.id, nodeIds);
    pushed := PushRelatedLinks(withPrereqs, node.related, node.id, nodeIds);
    assert links + RefLinks(node.prerequisites, node.id, Prerequisite, nodeIds) + RefLinks(node.related, node.id, Related, nodeIds)
        == links + NodeLinks(node, nodeIds);
  }

  /** `getGraphData`: builds the id set, maps the nodes, then walks every shown node's
      prerequisites and related lists, appending a link for each id in the set. */
  method GetGraphData(data: seq<ConceptNode>, mode: ViewMode) returns (g: GraphData)
    ensures g == GraphOf(data, mode)
    ensures forall l :: l in g.links ==> l.source in IdsOf(FilteredNodes(data, mode)) && l.target in IdsOf(FilteredNodes(data, mode))
  {
    var filtered := FilteredNodes(data, mode);
    var nodeIds := IdsOf(filtered);
    var nodes := ViewNodes(filtered, mode);
    var links: seq<Link> := [];
    var i := 0;
    while i < |filtered|
      invariant 0 <= i <= |filtered|
      invariant links == AllLinks(filtered[..i], nodeIds)
    {
      links := PushNodeLinks(links, filtered[i], nodeIds);
      AllLinksStep(filtered, i, nodeIds);
      i := i + 1;
    }
    assert filtered[..i] == filtered;
    g := GraphData(nodes, links);
    LinksWithinShown(filtered);
  }

  // ---------------------------------------------------------------------------
  // Visual encoding
  // ---------------------------------------------------------------------------

  /** Node colours for levels 1 to 4, and the grey used for any other level. */
  const NodePalette: seq<string> := ["#4ade80", "#60a5fa", "#fbbf24", "#f87171"]
  const FallbackColor: string := "#6b7280"

  predicate IsHexDigit(c: char)
  {
    '0' <= c <= '9' || 'a' <= c <= 'f'
  }

  /** `#rrggbb` in lower-case hex. */
  predicate IsHexColor(s: string)
  {
    |s| == 7 && s[0] == '#' && forall i :: 1 <= i < 7 ==> IsHexDigit(s[i])
  }

  /** `getNodeColor`: the level's palette colour (grey off the palette); an adjacent node
      gets the same colour with alpha byte 0x50 appended. */
  function NodeColor(level: int, isAdjacent: bool): (c: string)
    ensures |c| == if isAdjacent then 9 else 7
    ensures IsHexColor(c[..7])
    ensures isAdjacent ==> c[7..] == "50"
  {
    var color := if 1 <= level <= 4 then NodePalette[level - 1] else FallbackColor;
    if isAdjacent then color + "50" else color
  }

  lemma NodeColorByLevel(level: int)
    ensures 1 <= level <= 4 ==> NodeColor(level, false) == NodePalette[level - 1]
    ensures !(1 <= level <= 4) ==> NodeColor(level, false) == FallbackColor
    ensures NodeColor(level, true) == NodeColor(level, false) + "50"
  {
  }

  /** The four level colours and the fallback are pairwise different. */
  lemma NodeColorsDistinct(a: int, b: int)
    requires 1 <= a <= 4 && 1 <= b <= 4 && a != b
    ensures NodeColor(a, false) != NodeColor(b, false)
    ensures NodeColor(a, false) != FallbackColor
  {
  }

  /** `getNodeSize`: 8, 7, 6, 5 for levels 1 to 4, scaled by exactly 0.6 for an adjacent node. */
  function NodeSize(level: Level, isAdjacent: bool): (r: real)
    ensures !isAdjacent ==> r == (9 - level) as real
    ensures isAdjacent ==> r == (9 - level) as real * 3.0 / 5.0
  {
    var levelSizes := [8, 7, 6, 5];
    var baseSize := levelSizes[level - 1] as real;
    if isAdjacent then baseSize * 0.6 else baseSize
  }

  /** Lower levels are drawn larger, and an adjacent node is smaller than any shown at full size. */
  lemma NodeSizeOrder(a: Level, b: Level, adjA: bool, adjB: bool)
    ensures a < b ==> NodeSize(a, adjA) > NodeSize(b, adjA)
    ensures NodeSize(a, true) < NodeSize(a, false)
    ensures NodeSize(a, adjA) > 0.0
  {
  }

  /** The link colour and width given to the renderer. */
  function LinkColor(kind: EdgeKind): (c: string)
    ensures IsHexColor(c)
    ensures kind == Prerequisite <==> c == "#666666"
    ensures kind.Related? <==> c == "#999999"
  {
    if kind == Prerequisite then assert "#666666"[1] != "#999999"[1]; "#666666" else "#999999"
  }

  function LinkWidth(kind: EdgeKind): (w: nat)
    ensures kind.Prerequisite? <==> w == 2
    ensures kind.Related? <==> w == 1
  {
    if kind == Prerequisite then 2 else 1
  }

  /** The fixed opacity of every link, whatever the adjacency of its ends. */
  const LinkOpacity: real := 0.6

  // ---------------------------------------------------------------------------
  // Selection state
  // ---------------------------------------------------------------------------

  /** `find` over the graph nodes: the first one with the given id. */
  function FindGraphNode(ns: seq<GraphNode>, id: string): (r: Option<GraphNode>)
    ensures r.Some? ==> r.value in ns && r.value.node.id == id
    ensures r.None? <==> forall i :: 0 <= i < |ns| ==> ns[i].node.id != id
    ensures forall i :: 0 <= i < |ns| && ns[i].node.id == id && (forall j :: 0 <= j < i ==> ns[j].node.id != id) ==> r == Some(ns[i])
  {
    if ns == [] then None
    else if ns[0].node.id == id then Some(ns[0])
    else FindGraphNode(ns[1..], id)
  }

  /** The component's state: the current dataset's nodes, the view selector, and the
      panel, which is either closed or open on one graph node. */
  class ConceptMap3DView {
    var data: seq<ConceptNode>
    var viewMode: ViewMode
    var selectedNode: Option<GraphNode>
    var isPanelOpen: bool

    /** Closed with no node, or open on a node. */
    ghost predicate Valid()
      reads this
    {
      isPanelOpen <==> selectedNode.Some?
    }

    constructor (data: seq<ConceptNode>)
      ensures Valid()
      ensures this.data == data && viewMode == All && selectedNode == None && !isPanelOpen
    {
      this.data := data;
      viewMode := All;
      selectedNode := None;
      isPanelOpen := false;
    }

    /** A level tab or the whole-view tab; the panel is left as it is. */
    method SetViewMode(mode: ViewMode)
      requires Valid()
      modifies this
      ensures Valid()
      ensures viewMode == mode
      ensures data == old(data) && selectedNode == old(selectedNode) && isPanelOpen == old(isPanelOpen)
    {
      viewMode := mode;
    }

    /** A topic switch re-renders with another dataset; view mode and panel are kept. */
    method SetData(nodes: seq<ConceptNode>)
      requires Valid()
      modifies this
      ensures Valid()
      ensures data == nodes
      ensures viewMode == old(viewMode) && selectedNode == old(selectedNode) && isPanelOpen == old(isPanelOpen)
    {
      data := nodes;
    }

    /** A click on a node in the 3D graph opens the panel on it. */
    method HandleNodeClick(n: GraphNode)
      requires Valid()
      modifies this
      ensures Valid()
      ensures selectedNode == Some(n) && isPanelOpen
      ensures data == old(data) && viewMode == old(viewMode)
    {
      selectedNode := Some(n);
      isPanelOpen := true;
    }

    method HandleClosePanel()
      requires Valid()
      modifies this
      ensures Valid()
      ensures selectedNode == None && !isPanelOpen
      ensures data == old(data) && viewMode == old(viewMode)
    {
      isPanelOpen := false;
      selectedNode := None;
    }

    /** A click on a cross-reference in the panel: the panel moves to that node when it is
        drawn in the current graph; otherwise nothing changes. */
    method HandlePanelNodeClick(nodeId: string)
      requires Valid()
      modifies this
      ensures Valid()
      ensures data == old(data) && viewMode == old(viewMode)
      ensures var shown := GraphOf(data, viewMode).nodes;
        if forall i :: 0 <= i < |shown| ==> shown[i].node.id != nodeId
        then selectedNode == old(selectedNode) && isPanelOpen == old(isPanelOpen)
        else isPanelOpen && selectedNode == FindGraphNode(shown, nodeId) &&
             selectedNode.value in shown && selectedNode.value.node.id == nodeId
    {
      var graphData := GetGraphData(data, viewMode);
      var node := FindGraphNode(graphData.nodes, nodeId);
      if node.Some? {
        selectedNode := node;
        isPanelOpen := true;
      }
    }
  }
}
