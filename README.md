# Concept map of high-school mathematics — a Dafny model

The repository is a Next.js site. It draws each mathematics topic as a graph of concepts. Each
concept is a node with a level from 1 to 4, a category, tags, and two lists of ids: the
concepts it needs first (`prerequisites`) and the concepts it is merely `related` to. The
model covers:

- the record types of `types/index.ts` and the topics catalogue of `lib/topics.ts`
  (modules `Types` and `Topics`);
- the 2D view of `components/ConceptMap.tsx`, a cytoscape graph (module `ConceptMap`). It
  builds one element per node and one edge per list entry, styles them by level, and handles
  taps, panel navigation and closing the panel;
- the 3D view of `components/ConceptMap3D.tsx`, a force graph (module `ConceptMap3D`). It
  picks a dataset by topic, filters nodes by focus level into a focused level plus its two
  neighbouring levels, which are drawn as context, and keeps only links whose two ends are
  both drawn. It also models the node colours, sizes and link styles, and the panel state;
- the side panel of `components/NodePanel.tsx` (module `NodePanel`). It shows a concept, its
  level colour, and buttons for those of its prerequisites and related concepts that resolve
  to a node;
- the exercise card of `components/ExampleCard.tsx` (module `ExampleCard`):
  - the `renderMathText` tokenizer, which cuts a string at `$…$` formulas with the regular
    expression `/\$(.*?)\$/g`;
  - the badge texts and colours;
  - the option letters;
  - the two toggles for hint and answer.

The model has two parts. Pure computations are functions on values. The loops of the source
are methods, each proved against a function:
- `BuildEdges`, the edge loops of the 2D mount effect;
- `GetGraphData`, the link loops of the 3D view;
- `RenderMathText`, the tokenizer's `exec` loop.

The components' React state becomes classes whose methods change the fields the source's
setters change: `ConceptMap.ConceptMapView`, `ConceptMap3D.ConceptMap3DView` and
`ExampleCard.ExampleCardView`. A click, tap or topic switch is a call to one of these methods.

Properties proved include:
- the tokenizer's segments reassemble to the input text;
- every segment key equals its position;
- every formula is the leftmost, shortest `$…$` match;
- every segment sits where the regular expression cuts the text: a formula at the start of a
  match, a text over a stretch where no match starts. `MathSegments` is the only well-shaped
  cutting with that property;
- a focus view keeps exactly the nodes of the three nearby levels, in order, focused ones
  first;
- every 3D link has both ends among the drawn nodes, and each link occurs as often as its
  reference occurs among the drawn nodes;
- the 2D edge list has one edge per list entry, in list order;
- the panel shows exactly the resolvable references, in order;
- the catalogue's topic ids are distinct, each data file is named after its topic id, and the
  dataset chain of the 3D view agrees with the catalogue.

Strings are `seq<char>`. JavaScript strings are sequences of UTF-16 code units. The tokenizer
only cuts at `$`, and `$` and the line terminators are single code units that never occur
inside a surrogate pair. So the segments are the same either way.

What the code does, and so what the model does:
- the 2D view builds an edge for every list entry and passes them all to the graph library,
  dangling ids and repeated entries included. The code neither deduplicates entries nor
  drops dangling ones;
- the 3D view drops only the links that have an end outside the drawn node set;
- context nodes of the 3D view are drawn translucent, through the alpha suffix `50` on their
  hex colour, and smaller. No separate opacity setting depends on adjacency;
- the code has no reverse lookup of a node's dependents and never resolves the `examples`
  ids, so the model has neither;
- the 2D view always loads `trigonometry.json` (components/ConceptMap.tsx, line 7), whatever
  topic is selected. `ConceptMapView` takes its dataset as a constructor parameter, which
  covers that fixed dataset as one case.

## Model

| member | source | states |
|---|---|---|
| Types.ParseCategory | types/index.ts:8 | exactly the four category labels are accepted, and parsing is the inverse of printing a label |
| Types.ParseEdgeKind | types/index.ts:24 | exactly `prerequisite` and `related` are accepted, and parsing is the inverse of printing the kind |
| Types.ParseStrength | types/index.ts:25 | exactly `strong` and `weak` are accepted, and parsing is the inverse of printing the strength |
| Types.ParseDifficulty | types/index.ts:38 | exactly `easy`, `medium` and `hard` are accepted, and parsing is the inverse of printing the difficulty |
| Types.ParseQuestionType | types/index.ts:42 | exactly `choice`, `calc` and `proof` are accepted, and parsing is the inverse of printing the type |
| Topics.FindTopic | lib/topics.ts:94-96 | the `find` returns the first topic with the id; it returns nothing exactly when no topic has the id |
| Topics.GetTopicById | lib/topics.ts:94-96 | a lookup answers a catalogue topic with that id, and answers nothing exactly when the id is not one of the ten catalogue ids |
| Topics.CatalogueIdsAgree | lib/topics.ts:11-92 | the catalogue's ids, in order, are the ten listed topic ids |
| Topics.CatalogueIdsDistinct | lib/topics.ts:11-92 | the catalogue has ten topics and no two share an id |
| Topics.CatalogueFilesAgree | lib/topics.ts:11-92 | the catalogue's data files, in order, are the ten listed file names |
| Topics.FileNamedAfterId | lib/topics.ts:11-92 | the i-th listed file name is the i-th topic id followed by `.json` |
| Topics.DataFilesFollowIds | lib/topics.ts:11-92 | every topic's data file is its id followed by `.json` |
| Topics.GetTopicByIdOfEntry | lib/topics.ts:94-96 | looking up the id of any catalogue topic answers that very topic |
| Topics.DefaultTopicInCatalogue | contexts/TopicContext.tsx:13 | the initial topic id `trigonometry` resolves, to the first catalogue entry |
| ConceptMap3D.DatasetFor | components/ConceptMap3D.tsx:35 | the ternary chain picks the dataset of any of its nine named topics, and falls back to trigonometry for every other id |
| ConceptMap3D.DatasetForCatalogue | components/ConceptMap3D.tsx:35 | for every catalogue topic the chain loads the file the catalogue names; distinct topics get distinct datasets |
| ConceptMap3D.CatalogueEntryDataset | components/ConceptMap3D.tsx:35 | the dataset chosen for the i-th catalogue topic is that topic's own dataset |
| ConceptMap3D.WithLevelInMultiset | components/ConceptMap3D.tsx:43-46 | the level filter keeps every node whose level is in the set, as often as it occurs, and no other node |
| ConceptMap3D.WithLevelInOrder | components/ConceptMap3D.tsx:43-46 | the level filter keeps the nodes' order |
| ConceptMap3D.WithLevelInLength | components/ConceptMap3D.tsx:43-46 | the filter's length is the number of nodes at the kept levels |
| ConceptMap3D.WithLevelInLevels | components/ConceptMap3D.tsx:43-46 | every kept node has a level from the set |
| ConceptMap3D.FocusKeepsNearLevels | components/ConceptMap3D.tsx:38-49 | a focus on level f keeps each node within one level of f exactly as often as the dataset has it, and drops every other node |
| ConceptMap3D.FocusShowsNearLevels | components/ConceptMap3D.tsx:38-49 | a node is shown under a focus on f if and only if it is in the dataset and within one level of f |
| ConceptMap3D.FocusLevelsAndLength | components/ConceptMap3D.tsx:43-48 | the focus view is the focused nodes followed by the neighbouring-level nodes, and its length is their total count |
| ConceptMap3D.FocusKeepsOrder | components/ConceptMap3D.tsx:43-48 | both the focused part and the context part keep the dataset's order |
| ConceptMap3D.ViewNodes | components/ConceptMap3D.tsx:57-65 | one graph node per shown concept, in order, flagged adjacent exactly when a focus is on and its level is not the focused one |
| ConceptMap3D.AdjacencyFlags | components/ConceptMap3D.tsx:57-65 | in the whole view no node is adjacent; under a focus exactly the nodes after the focused-level group are adjacent |
| ConceptMap3D.RefLinksOccurrences | components/ConceptMap3D.tsx:70-88 | each link from one reference list occurs exactly as often as its source appears in that list, provided the source is drawn |
| ConceptMap3D.LinkOccurrences | components/ConceptMap3D.tsx:68-89 | each link occurs exactly as often as its source appears, under its kind, in the lists of the drawn nodes with its target id |
| ConceptMap3D.RefLinksClosed | components/ConceptMap3D.tsx:70-88 | every link from a list starts at a drawn id taken from that list and ends at the list's owner, with the list's kind |
| ConceptMap3D.LinksClosed | components/ConceptMap3D.tsx:68-89 | every link starts at a drawn id and ends at a node whose list of that kind contains the source |
| ConceptMap3D.LinksWithinShown | components/ConceptMap3D.tsx:54-89 | every link has both ends among the shown nodes' ids |
| ConceptMap3D.GraphIsClosed | components/ConceptMap3D.tsx:52-92 | both ends of every link of the graph data are ids of nodes in it |
| ConceptMap3D.RefLinksStep | components/ConceptMap3D.tsx:70-78 | one more list entry adds its link when the source is drawn and nothing otherwise |
| ConceptMap3D.AllLinksStep | components/ConceptMap3D.tsx:68-89 | one more node adds exactly the links of that node |
| ConceptMap3D.PushPrerequisiteLinks | components/ConceptMap3D.tsx:70-78 | the inner loop appends, in order, a prerequisite link for each prerequisite whose id is drawn |
| ConceptMap3D.PushRelatedLinks | components/ConceptMap3D.tsx:80-88 | the inner loop appends, in order, a related link for each related id that is drawn |
| ConceptMap3D.PushNodeLinks | components/ConceptMap3D.tsx:68-89 | one node contributes its prerequisite links, then its related links |
| ConceptMap3D.GetGraphData | components/ConceptMap3D.tsx:52-92 | the graph data equals the specification of the view, and every link stays within the filtered nodes |
| ConceptMap3D.NodeColor | components/ConceptMap3D.tsx:97-101 | a colour is a 7-character hex colour, and a context node's has the alpha suffix `50` appended |
| ConceptMap3D.NodeColorByLevel | components/ConceptMap3D.tsx:97-101 | levels 1 to 4 take the palette colour, any other level the grey fallback, and context adds `50` |
| ConceptMap3D.NodeColorsDistinct | components/ConceptMap3D.tsx:98 | the four level colours differ from each other and from the fallback |
| ConceptMap3D.NodeSize | components/ConceptMap3D.tsx:104-108 | size is 9 minus the level, three fifths of that for a context node |
| ConceptMap3D.NodeSizeOrder | components/ConceptMap3D.tsx:104-108 | lower levels are drawn larger, context nodes smaller, and every size is positive |
| ConceptMap3D.LinkColor | components/ConceptMap3D.tsx:213 | a hex colour: `#666666` exactly for prerequisite links and `#999999` exactly for related links |
| ConceptMap3D.LinkWidth | components/ConceptMap3D.tsx:214 | width 2 for prerequisite links and 1 for related ones |
| ConceptMap3D.FindGraphNode | components/ConceptMap3D.tsx:122-125 | the `find` returns the first drawn node with the id, and nothing exactly when none has it |
| ConceptMap3D.ConceptMap3DView.constructor | components/ConceptMap3D.tsx:30-32 | the initial state is the whole view with the panel closed and no node selected |
| ConceptMap3D.ConceptMap3DView.SetViewMode | components/ConceptMap3D.tsx:146-190 | a tab sets the view mode and leaves the dataset and the panel unchanged |
| ConceptMap3D.ConceptMap3DView.SetData | components/ConceptMap3D.tsx:35 | a topic switch replaces the dataset and keeps the view mode and the panel |
| ConceptMap3D.ConceptMap3DView.HandleNodeClick | components/ConceptMap3D.tsx:111-114 | a node click opens the panel on that node |
| ConceptMap3D.ConceptMap3DView.HandleClosePanel | components/ConceptMap3D.tsx:116-119 | closing clears the selection and closes the panel |
| ConceptMap3D.ConceptMap3DView.HandlePanelNodeClick | components/ConceptMap3D.tsx:121-138 | navigation to an id drawn in the current graph opens the panel on that drawn node; an id not drawn changes nothing |
| NodePanel.LevelColorClass | components/NodePanel.tsx:16-19 | each level 1 to 4 gets its own dot class, and every other value the grey class |
| NodePanel.GetNodeById | components/NodePanel.tsx:21-23 | the lookup answers a node of the dataset with the id, and nothing exactly when none has it |
| NodePanel.GetNodeByIdFirst | components/NodePanel.tsx:21-23 | the node answered is the first one with the id |
| NodePanel.EntryIds | components/NodePanel.tsx:65-80 | the ids of the buttons, one per button, in order |
| NodePanel.EntriesResolve | components/NodePanel.tsx:65-80 | each button shows the node its id resolves to, and its click passes that node's id |
| NodePanel.EntriesAreResolvableIds | components/NodePanel.tsx:65-80 | each resolvable id gets one button per occurrence in the list, and an unresolvable id gets none |
| NodePanel.EntriesKeepOrder | components/NodePanel.tsx:65-80 | the buttons keep the list's order |
| NodePanel.RenderPanel | components/NodePanel.tsx:14-125 | nothing renders unless the panel is open on a node; otherwise a section is shown exactly when its list is non-empty, and it holds the resolved buttons |
| NodePanel.DanglingListKeepsSection | components/NodePanel.tsx:58-83 | a non-empty prerequisite list whose ids all dangle still shows its heading with no buttons |
| ConceptMap.NodeElements | components/ConceptMap.tsx:25-30 | one node element per concept, in order, captioned with the concept's name |
| ConceptMap.RefEdgesAt | components/ConceptMap.tsx:36-45 | the edges of a list are one per entry, in order, each from the entry to the owner |
| ConceptMap.RefEdgesStep | components/ConceptMap.tsx:36-45 | one more entry appends its edge |
| ConceptMap.AllEdgesStep | components/ConceptMap.tsx:34-58 | one more node appends that node's edges |
| ConceptMap.AllEdgesAppend | components/ConceptMap.tsx:34-58 | the edges of two node lists joined are the two edge lists joined |
| ConceptMap.RefCountAppend | components/ConceptMap.tsx:34-58 | one more node adds its number of prerequisites and related ids to the entry count |
| ConceptMap.EdgeCount | components/ConceptMap.tsx:33-58 | the edge array handed to the library has exactly as many edges as entries in all lists together: none is dropped or merged |
| ConceptMap.NodeEdgesAt | components/ConceptMap.tsx:34-58 | a node's edges are its prerequisite edges, then its related edges, each in list order |
| ConceptMap.AllEdgesAround | components/ConceptMap.tsx:34-58 | the edge list is the earlier nodes' edges, this node's edges, then the later nodes' edges |
| ConceptMap.EdgesOfNodeAt | components/ConceptMap.tsx:34-58 | a node's edges sit in one contiguous block, starting after the earlier nodes' entries |
| ConceptMap.RepeatedEntrySharesEdgeId | components/ConceptMap.tsx:39 | a prerequisite listed twice yields two edges with the same id |
| ConceptMap.PushPrerequisiteEdges | components/ConceptMap.tsx:36-45 | the loop appends one prerequisite edge per entry, in order |
| ConceptMap.PushRelatedEdges | components/ConceptMap.tsx:48-57 | the loop appends one related edge per entry, in order |
| ConceptMap.PushNodeEdges | components/ConceptMap.tsx:34-58 | one node contributes its prerequisite edges, then its related edges |
| ConceptMap.BuildEdges | components/ConceptMap.tsx:33-58 | the edge array equals the specification of all edges |
| ConceptMap.NodeBackground | components/ConceptMap.tsx:68-72 | levels 1 to 4 take the palette colour, and any other level the fallback |
| ConceptMap.BackgroundMatchesPanelDot | components/ConceptMap.tsx:68-72 | a node's background is the hex value of the panel's dot class for the same level |
| ConceptMap.StyleOf | components/ConceptMap.tsx:66-103 | a node is square, 50 wide if extended and 60 otherwise; extended nodes get a 2-pixel dashed border; a selected node gets a 3-pixel solid black one |
| ConceptMap.ExtendedNodesStandOut | components/ConceptMap.tsx:78-91 | an extended node is smaller than a plain one and has a border where a plain one has none |
| ConceptMap.EdgeStyleOf | components/ConceptMap.tsx:104-123 | prerequisite edges are solid, 2 wide, dark and arrowed; related edges are dashed, 1 wide, light and have no arrow |
| ConceptMap.FindElement | components/ConceptMap.tsx:171-177 | the selector finds the first node element with the id, and nothing exactly when none has it |
| ConceptMap.ConceptMapView.constructor | components/ConceptMap.tsx:18-19 | the view starts unmounted with the panel closed |
| ConceptMap.ConceptMapView.Mount | components/ConceptMap.tsx:21-63 | mounting builds the node elements and the edges from the dataset, with nothing selected |
| ConceptMap.ConceptMapView.Tap | components/ConceptMap.tsx:143-156 | a node tap opens the panel on its data and selects it; a background tap closes the panel and clears the selection; an edge tap only selects the edge |
| ConceptMap.ConceptMapView.HandleClosePanel | components/ConceptMap.tsx:163-169 | closing closes the panel and clears the selection |
| ConceptMap.ConceptMapView.HandleNodeClick | components/ConceptMap.tsx:171-191 | navigating to the id of a mounted node element selects only that node and opens the panel on it; any other id changes nothing |
| ConceptMap.NavigationFindsDatasetNode | components/ConceptMap.tsx:171-177 | navigation finds a node exactly when the dataset has a concept with the id, and what it finds is that concept |
| ExampleCard.CloseFrom | components/ExampleCard.tsx:15 | the scan for a closing `$` answers a `$` at or after the start |
| ExampleCard.CloseFromCloses | components/ExampleCard.tsx:15 | the answer is the first `$` with no line terminator before it, and there is none exactly when no such `$` exists |
| ExampleCard.CloseFromAt | components/ExampleCard.tsx:15 | any first closing `$` is the one the scan answers |
| ExampleCard.NextMatch | components/ExampleCard.tsx:15-20 | a match lies in range with a `$` at both ends |
| ExampleCard.NextMatchIsLeftmost | components/ExampleCard.tsx:15-20 | the answer is a regex match and no match starts earlier; when there is no answer there is no match at all |
| ExampleCard.ContentIsClean | components/ExampleCard.tsx:15 | a formula's content holds no `$` and no line terminator |
| ExampleCard.Lead | components/ExampleCard.tsx:22-24 | the text before a match forms at most one segment |
| ExampleCard.ScanAtMatch | components/ExampleCard.tsx:20-39 | one turn of the loop emits the text before the match and the formula, then continues after the closing `$` |
| ExampleCard.EmitMatch | components/ExampleCard.tsx:21-36 | one turn appends the leading text and the formula, and advances the key past both |
| ExampleCard.ProgressStart | components/ExampleCard.tsx:14-18 | the loop starts with no parts at position 0 and key 0 |
| ExampleCard.ScanAdvance | components/ExampleCard.tsx:20-39 | one turn keeps the parts so far plus the rest's segments equal to all segments |
| ExampleCard.ScanFinish | components/ExampleCard.tsx:42-46 | after the last match, adding the remainder's text (if any) completes the segments |
| ExampleCard.Turn | components/ExampleCard.tsx:20-39 | a loop turn moves `lastIndex` strictly forward within the text and keeps the progress invariant |
| ExampleCard.RenderMathText | components/ExampleCard.tsx:13-47 | the loop returns exactly the specified segments |
| ExampleCard.LeadSource | components/ExampleCard.tsx:22-24 | the leading segment restores the text before the match |
| ExampleCard.SpansSource | components/ExampleCard.tsx:22-36 | one turn's segments restore the text before the match and the formula with its two `$` |
| ExampleCard.PrefixAtMatch | components/ExampleCard.tsx:20-38 | the restored prefix, plus one turn's text, is the prefix up to the closing `$` |
| ExampleCard.TurnReassembles | components/ExampleCard.tsx:20-39 | one turn keeps the parts reassembling to the text up to `lastIndex` |
| ExampleCard.RoundTripFinish | components/ExampleCard.tsx:42-46 | with the remainder added, the parts reassemble to the whole text |
| ExampleCard.RoundTrip | components/ExampleCard.tsx:13-47 | segmenting loses nothing: re-inserting the `$` around formulas restores the text exactly |
| ExampleCard.ShapedAppend | components/ExampleCard.tsx:20-44 | segments that alternate properly stay so when joined after a formula |
| ExampleCard.MatchSpansShaped | components/ExampleCard.tsx:22-36 | one turn's segments are keyed by position, with non-empty text before a formula |
| ExampleCard.ShapeAtMatch | components/ExampleCard.tsx:20-44 | if the rest after a turn is well shaped, so is the whole from that turn |
| ExampleCard.ScanShape | components/ExampleCard.tsx:20-44 | all segments are keyed by position, texts are non-empty, and no two texts are adjacent |
| ExampleCard.KeysArePositions | components/ExampleCard.tsx:13-47 | each segment's React key is its index in the result |
| ExampleCard.SegmentsAreMaximal | components/ExampleCard.tsx:13-47 | formulas hold clean content; a text segment is empty only for the empty input; a text is always followed by a formula |
| ExampleCard.NoneOpensSkip | components/ExampleCard.tsx:15-20 | `exec` started before a stretch where no match opens finds what it finds from the stretch's end |
| ExampleCard.SkipNoneOpens | components/ExampleCard.tsx:15-20 | no match opens between `lastIndex` and the match `exec` finds |
| ExampleCard.NextMatchOpens | components/ExampleCard.tsx:15-20 | the match found opens with a `$` whose lazy group closes at the match's end |
| ExampleCard.NoneOpensMeansNoMatch | components/ExampleCard.tsx:15 | a stretch where no `$` opens a closing group is exactly one where no match of the pattern starts |
| ExampleCard.SitsAtIsFoundAt | components/ExampleCard.tsx:15 | a span sits where the pattern cuts exactly when the search steps find it there |
| ExampleCard.SegmentsFollowPattern | components/ExampleCard.tsx:13-47 | at the position where its source starts, each formula is a match of the pattern and no match starts inside a text segment |
| ExampleCard.CutsDetermineScan | components/ExampleCard.tsx:20-46 | from any position, well-shaped spans that sit where the pattern cuts and cover the rest of the text are what the loop emits from there |
| ExampleCard.CuttingIsUnique | components/ExampleCard.tsx:13-47 | the segments are the only well-shaped cutting of the text whose spans all sit where the pattern cuts |
| ExampleCard.PlainTextIsOneSpan | components/ExampleCard.tsx:42-46 | text without a match renders as one text segment, and only such text does |
| ExampleCard.DelimitedFormula | components/ExampleCard.tsx:15-36 | `$c$` with clean content renders as the single formula `c` |
| ExampleCard.LineBreakStopsFormula | components/ExampleCard.tsx:15 | a line break ends an unclosed formula: `$a\n$b$` renders as the text `$a\n` and then the formula `b` |
| ExampleCard.DifficultyColor | components/ExampleCard.tsx:53-60 | the grey badge is used exactly for an unknown difficulty |
| ExampleCard.DifficultyText | components/ExampleCard.tsx:62-69 | the unknown label is used exactly for an unknown difficulty |
| ExampleCard.TypeText | components/ExampleCard.tsx:71-78 | the unknown label is used exactly for an unknown question type |
| ExampleCard.BadgesDistinguish | components/ExampleCard.tsx:53-78 | different difficulties get different colours and labels, and different question types different labels |
| ExampleCard.OptionCodeUnit | components/ExampleCard.tsx:105 | the letter is the UTF-16 code unit 65 plus the index, wrapped modulo 2^16 |
| ExampleCard.OptionLetters | components/ExampleCard.tsx:105 | the first 26 options are lettered A to Z |
| ExampleCard.OptionLines | components/ExampleCard.tsx:101-109 | one line per option, in order, with its letter and the option's segments |
| ExampleCard.ExampleCardView.constructor | components/ExampleCard.tsx:50-51 | a card starts with the hint and the answer hidden |
| ExampleCard.ExampleCardView.ToggleHint | components/ExampleCard.tsx:115 | the hint button flips the hint and leaves the answer alone |
| ExampleCard.ExampleCardView.ToggleAnswer | components/ExampleCard.tsx:131 | the answer button flips the answer and leaves the hint alone |
| ExampleCard.ExampleCardView.Render | components/ExampleCard.tsx:80-168 | the card shows the segmented question; options only when there are some; the hint block only when there is a hint, with its body only when toggled on; answer and solution only when toggled on; tags only when there are some |

## Left out

- Rendering engines: cytoscape's layout and zoom, the `animate` call, `destroy` and the reset-view button (components/ConceptMap.tsx:125-137, 158-160, 179-184, 193-203), and the 3D camera move with `Math.hypot` (components/ConceptMap3D.tsx:128-136). These are calls into external libraries, and all the model keeps of them is the state they leave behind.
- KaTeX: a `Math` segment keeps its source text and stands for either rendering of it: `katex.renderToString`, a foreign library, or the component's own catch branch, which shows `$content$` as plain text under the same key (components/ExampleCard.tsx:34-36).
- ConceptMap.ConceptMapView.HandleNodeClick: looks only among node elements. The source's selector `$('#' + id)` would also match an edge whose id equals it, and would misparse ids with CSS-special characters. The model treats such an id like a missing one.
- ConceptMap.ConceptMapView.Tap: box selection and the library's multi-select gestures are not modelled; a tap selects exactly the tapped element.
- The JSON datasets are an abstract input (`seq<ConceptNode>`), and the 3D view's `SetData` stands for switching datasets. The node records the renderers add (positions, velocities) are not modelled.
- `MathMapData.edges` is never read by the code, so no operation of the model reads it either. The catalogue's `dataFile` is not read by the 3D chain; `DatasetForCatalogue` proves the two agree.
- Duplicate node ids within a dataset are not excluded. Lookups then answer the first node with the id, and the 2D view's node elements share the id (components/ConceptMap.tsx:25-30). The model states no lemma about that clash.
- A prerequisite listed twice in one node is not excluded either. `RepeatedEntrySharesEdgeId` records that its two edges then share one cytoscape edge id.
- ConceptMap3D.NodeSize: takes a level from 1 to 4. For any other value the source's lookup table gives `undefined`, or `NaN` for a context node (components/ConceptMap3D.tsx:105-107); the type `Level` rules that out.
- ConceptMap3D.NodeSize: uses exact `real` arithmetic. The source multiplies doubles, so an adjacent level-3 node has size 3.5999999999999996 there and 3.6 in the model.
- ConceptMap.ConceptMapView.Mount: the model does not track which elements the graph library actually keeps. Cytoscape refuses an edge whose endpoint is not a node, and any element whose id is already in use. The model records the element arrays handed to it, not the elements drawn.
- The 2D view's `label` data field is `NodeElement.caption`, and the panel state holds the concept without that extra field.
- NodePanel's markup is left out: the description, the category, `isExtended` and `crossDiscipline` badges, and the close button's markup. `RenderPanel` keeps the node itself, so these fields are available but unstyled.
- JSX markup, legends, CSS classes beyond the badge and level classes, the page layout, the header, the topic selector and the topic context's React plumbing are left out. The initial topic is modelled by `DefaultTopicInCatalogue`.
