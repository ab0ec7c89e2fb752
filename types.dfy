/**
 * The records of a concept-map dataset: concept nodes, stored edges, practice
 * examples and the dataset that holds them. Every enumerated string field of
 * the TypeScript interfaces is a datatype here, with the exact label the JSON
 * data uses and a parser that accepts exactly those labels.
 */
module Types {
  import opened Wrappers

  /** A curriculum tier: the literal union `1 | 2 | 3 | 4`. */
  type Level = l: int | 1 <= l <= 4 witness 1

  /** The four category labels (foundational, core, advanced, integrative). */
  datatype Category = Basic | Core | Advanced | Integrated

  function CategoryLabel(c: Category): string
  {
    match c
    case Basic => "基礎觀念"
    case Core => "核心概念"
    case Advanced => "進階應用"
    case Integrated => "整合應用"
  }

  /** Reads a category label; exactly the four labels of the union are accepted. */
  function ParseCategory(s: string): (r: Option<Category>)
    ensures r.Some? <==> s in {"基礎觀念", "核心概念", "進階應用", "整合應用"}
    ensures r.Some? ==> CategoryLabel(r.value) == s
    ensures forall c: Category :: CategoryLabel(c) == s ==> r == Some(c)
  {
    if s == "基礎觀念" then Some(Basic)
    else if s == "核心概念" then Some(Core)
    else if s == "進階應用" then Some(Advanced)
    else if s == "整合應用" then Some(Integrated)
    else None
  }

  /** A concept record as the JSON datasets hold it. */
  datatype ConceptNode = ConceptNode(
    id: string,
    name: string,
    description: string,
    category: Category,
    level: Level,
    prerequisites: seq<string>,   // strong dependencies: concepts to know first
    related: seq<string>,         // weak dependencies: related concepts
    tags: seq<string>,
    isExtended: Option<bool>,     // supplementary material
    crossDiscipline: Option<string>,
    examples: Option<seq<string>> // reserved example ids, never resolved
  )

  /** JavaScript truthiness of the optional `isExtended` flag. */
  predicate IsExtended(n: ConceptNode)
  {
    n.isExtended == Some(true)
  }

  datatype EdgeKind = Prerequisite | Related

  function EdgeKindLabel(k: EdgeKind): string
  {
    match k
    case Prerequisite => "prerequisite"
    case Related => "related"
  }

  function ParseEdgeKind(s: string): (r: Option<EdgeKind>)
    ensures r.Some? <==> s in {"prerequisite", "related"}
    ensures r.Some? ==> EdgeKindLabel(r.value) == s
    ensures forall k: EdgeKind :: EdgeKindLabel(k) == s ==> r == Some(k)
  {
    if s == "prerequisite" then Some(Prerequisite)
    else if s == "related" then Some(Related)
    else None
  }

  datatype Strength = Strong | Weak

  function StrengthLabel(s: Strength): string
  {
    match s
    case Strong => "strong"
    case Weak => "weak"
  }

  function ParseStrength(s: string): (r: Option<Strength>)
    ensures r.Some? <==> s in {"strong", "weak"}
    ensures r.Some? ==> StrengthLabel(r.value) == s
    ensures forall t: Strength :: StrengthLabel(t) == s ==> r == Some(t)
  {
    if s == "strong" then Some(Strong)
    else if s == "weak" then Some(Weak)
    else None
  }

  /** A stored edge of a dataset (`from`, `to`, `type`, optional `strength`). */
  datatype Edge = Edge(from: string, to: string, kind: EdgeKind, strength: Option<Strength>)

  datatype Difficulty = Easy | Medium | Hard

  function DifficultyName(d: Difficulty): string
  {
    match d
    case Easy => "easy"
    case Medium => "medium"
    case Hard => "hard"
  }

  function ParseDifficulty(s: string): (r: Option<Difficulty>)
    ensures r.Some? <==> s in {"easy", "medium", "hard"}
    ensures r.Some? ==> DifficultyName(r.value) == s
    ensures forall d: Difficulty :: DifficultyName(d) == s ==> r == Some(d)
  {
    if s == "easy" then Some(Easy)
    else if s == "medium" then Some(Medium)
    else if s == "hard" then Some(Hard)
    else None
  }

  datatype QuestionType = Choice | Calc | Proof

  function QuestionTypeName(t: QuestionType): string
  {
    match t
    case Choice => "choice"
    case Calc => "calc"
    case Proof => "proof"
  }

  function ParseQuestionType(s: string): (r: Option<QuestionType>)
    ensures r.Some? <==> s in {"choice", "calc", "proof"}
    ensures r.Some? ==> QuestionTypeName(r.value) == s
    ensures forall t: QuestionType :: QuestionTypeName(t) == s ==> r == Some(t)
  {
    if s == "choice" then Some(Choice)
    else if s == "calc" then Some(Calc)
    else if s == "proof" then Some(Proof)
    else None
  }

  /** A practice item; `options` and `hint` are optional. */
  datatype Example = Example(
    id: string,
    title: string,
    question: string,
    options: Option<seq<string>>,
    answer: string,
    solution: string,
    difficulty: Difficulty,
    relatedNodes: seq<string>,
    tags: seq<string>,
    hint: Option<string>,
    kind: QuestionType
  )

  /** A whole dataset file. Neither graph builder reads `edges`. */
  datatype MathMapData = MathMapData(
    topic: string,
    version: string,
    lastUpdated: string,
    nodes: seq<ConceptNode>,
    edges: seq<Edge>,
    examples: seq<Example>
  )
}
