/**
 * The side panel that shows one concept: its level colour, and the buttons for
 * those of its prerequisites and related concepts that resolve to a node of
 * the dataset. Both views share it; it has no state of its own.
 */
module NodePanel {
  import opened Wrappers
  import opened Types
  import opened Sequences

  /** `getLevelColor`: the Tailwind class of the level dot. */
  function LevelColorClass(level: int): (c: string)
    ensures level == 1 <==> c == "bg-green-500"
    ensures level == 2 <==> c == "bg-blue-500"
    ensures level == 3 <==> c == "bg-amber-500"
    ensures level == 4 <==> c == "bg-red-500"
    ensures !(1 <= level <= 4) <==> c == "bg-gray-500"
  {
    var colors := ["bg-green-500", "bg-blue-500", "bg-amber-500", "bg-red-500"];
    if 1 <= level <= 4 then colors[level - 1] else "bg-gray-500"
  }

  /** `getNodeById`: `find` over all nodes of the dataset. */
  function GetNodeById(allNodes: seq<ConceptNode>, id: string): (r: Option<ConceptNode>)
    ensures r.None? <==> forall i :: 0 <= i < |allNodes| ==> allNodes[i].id != id
    ensures r.Some? ==> r.value in allNodes && r.value.id == id
  {
    if allNodes == [] then None
    else if allNodes[0].id == id then Some(allNodes[0])
    else GetNodeById(allNodes[1..], id)
  }

  /** The node found is the first one with that id. */
  lemma {:induction false} GetNodeByIdFirst(allNodes: seq<ConceptNode>, id: string, i: nat)
    requires i < |allNodes| && allNodes[i].id == id
    requires forall j :: 0 <= j < i ==> allNodes[j].id != id
    ensures GetNodeById(allNodes, id) == Some(allNodes[i])
  {
    if i > 0 {
      GetNodeByIdFirst(allNodes[1..], id, i - 1);
    }
  }

  predicate Resolves(allNodes: seq<ConceptNode>, id: string)
  {
    GetNodeById(allNodes, id).Some?
  }

  /** One cross-reference button: the id it was listed under and the node it resolved to. */
  datatype PanelEntry = PanelEntry(refId: string, node: ConceptNode)

  /** The id a button passes to `onNodeClick`. */
  function ClickTarget(e: PanelEntry): string
  {
    e.refId
  }

  /** The buttons of one list: an entry per id that resolves, in list order; the others render nothing. */
  function ResolvedEntries(refs: seq<string>, allNodes: seq<ConceptNode>): seq<PanelEntry>
  {
    if refs == [] then []
    else
      var found := GetNodeById(allNodes, refs[0]);
      (if found.Some? then [PanelEntry(refs[0], found.value)] else []) + ResolvedEntries(refs[1..], allNodes)
  }

  function EntryIds(es: seq<PanelEntry>): (ids: seq<string>)
    ensures |ids| == |es|
    ensures forall i :: 0 <= i < |es| ==> ids[i] == es[i].refId
  {
    seq(|es|, i requires 0 <= i < |es| => es[i].refId)
  }

  /** Every button shows the node its id resolves to, and passes that node's own id on a click. */
  lemma {:induction false} EntriesResolve(refs: seq<string>, allNodes: seq<ConceptNode>)
    ensures forall e :: e in ResolvedEntries(refs, allNodes) ==>
              GetNodeById(allNodes, e.refId) == Some(e.node) && e.node.id == ClickTarget(e) && e.node in allNodes
  {
    if refs != [] {
      EntriesResolve(refs[1..], allNodes);
    }
  }

  /** The buttons are exactly the resolvable ids: each occurrence of a resolvable id gets one
      button and an unresolvable id gets none. */
  lemma {:induction false} EntriesAreResolvableIds(refs: seq<string>, allNodes: seq<ConceptNode>, id: string)
    ensures multiset(EntryIds(ResolvedEntries(refs, allNodes)))[id] ==
              if Resolves(allNodes, id) then multiset(refs)[id] else 0
  {
    if refs != [] {
      EntriesAreResolvableIds(refs[1..], allNodes, id);
      var rest := ResolvedEntries(refs[1..], allNodes);
      var es := ResolvedEntries(refs, allNodes);
      assert refs == [refs[0]] + refs[1..];
      assert multiset(refs) == multiset{refs[0]} + multiset(refs[1..]);
      if Resolves(allNodes, refs[0]) {
        assert EntryIds(es) == [refs[0]] + EntryIds(rest);
        assert multiset(EntryIds(es)) == multiset{refs[0]} + multiset(EntryIds(rest));
      } else {
        assert es == rest;
      }
    }
  }

  /** The buttons keep the order of the list. */
  lemma {:induction false} EntriesKeepOrder(refs: seq<string>, allNodes: seq<ConceptNode>)
    ensures Subsequence(EntryIds(ResolvedEntries(refs, allNodes)), refs)
  {
    if refs != [] {
      EntriesKeepOrder(refs[1..], allNodes);
      var rest := ResolvedEntries(refs[1..], allNodes);
      var es := ResolvedEntries(refs, allNodes);
      if Resolves(allNodes, refs[0]) {
        assert EntryIds(es) == [refs[0]] + EntryIds(rest);
        assert EntryIds(es)[1..] == EntryIds(rest);
      } else {
        assert es == rest;
      }
    }
  }

  /** What the panel renders: the node, its level class, and the two reference sections and
      the tag section, each absent (None) when its list is empty. */
  datatype PanelView = PanelView(
    node: ConceptNode,
    levelClass: string,
    prerequisites: Option<seq<PanelEntry>>,
    related: Option<seq<PanelEntry>>,
    tags: Option<seq<string>>
  )

  function Section<T>(shown: bool, items: T): Option<T>
  {
    if shown then Some(items) else None
  }

  /** The component: nothing at all unless the panel is open on a node. */
  function RenderPanel(node: Option<ConceptNode>, isOpen: bool, allNodes: seq<ConceptNode>): (r: Option<PanelView>)
    ensures r.None? <==> !isOpen || node.None?
    ensures r.Some? ==> r.value.node == node.value && r.value.levelClass == LevelColorClass(node.value.level)
    ensures r.Some? ==> (r.value.prerequisites.Some? <==> |node.value.prerequisites| > 0)
    ensures r.Some? ==> (r.value.related.Some? <==> |node.value.related| > 0)
    ensures r.Some? ==> (r.value.tags.Some? <==> |node.value.tags| > 0)
    ensures r.Some? && r.value.prerequisites.Some? ==> r.value.prerequisites.value == ResolvedEntries(node.value.prerequisites, allNodes)
    ensures r.Some? && r.value.related.Some? ==> r.value.related.value == ResolvedEntries(node.value.related, allNodes)
  {
    if !isOpen || node.None? then None
    else
      var n := node.value;
      Some(PanelView(
        n,
        LevelColorClass(n.level),
        Section(|n.prerequisites| > 0, ResolvedEntries(n.prerequisites, allNodes)),
        Section(|n.related| > 0, ResolvedEntries(n.related, allNodes)),
        Section(|n.tags| > 0, n.tags)))
  }

  /** A prerequisite list whose ids all dangle still shows its (empty) section. */
  lemma DanglingListKeepsSection(n: ConceptNode, allNodes: seq<ConceptNode>)
    requires |n.prerequisites| > 0
    requires forall id :: id in n.prerequisites ==> !Resolves(allNodes, id)
    ensures RenderPanel(Some(n), true, allNodes).value.prerequisites == Some([])
  {
    var ids := EntryIds(ResolvedEntries(n.prerequisites, allNodes));
    assert multiset(ids) == multiset{} by {
      forall id ensures multiset(ids)[id] == 0 {
        EntriesAreResolvableIds(n.prerequisites, allNodes, id);
        if Resolves(allNodes, id) {
          assert id !in n.prerequisites;
        }
      }
    }
    assert |ids| == |multiset(ids)| == 0;
  }
}
