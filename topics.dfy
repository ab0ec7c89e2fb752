/**
 * The fixed catalogue of subject areas and the lookup by id that the topic
 * selector and the navigation use.
 */
module Topics {
  import opened Wrappers

  /** One catalogue entry; `color` is a Tailwind colour name, `icon` a glyph. */
  datatype Topic = Topic(id: string, name: string, description: string, dataFile: string, color: string, icon: string)

  /** The topic a session starts on (contexts/TopicContext.tsx). */
  const DefaultTopicId: string := "trigonometry"

  const Catalogue: seq<Topic> := [
    Topic("trigonometry", "三角函數", "三角比、三角函數、恆等式與應用", "trigonometry.json", "blue", "📐"),
    Topic("vector", "向量", "平面與空間向量、內積、外積", "vector.json", "purple", "➡️"),
    Topic("function", "函數", "一次、二次、指數、對數、三角函數", "function.json", "green", "📈"),
    Topic("algebra", "代數", "方程式、不等式、數列、級數、多項式", "algebra.json", "orange", "🔢"),
    Topic("probability", "排列組合與機率", "排列、組合、機率、條件機率、期望值", "probability.json", "pink", "🎲"),
    Topic("geometry", "幾何", "平面幾何、立體幾何、坐標幾何、圓錐曲線", "geometry.json", "cyan", "📏"),
    Topic("statistics", "統計學", "資料整理、集中趨勢、離散趨勢、相關與迴歸", "statistics.json", "indigo", "📊"),
    Topic("calculus", "微積分", "極限、導數、積分、微分方程", "calculus.json", "rose", "∫"),
    Topic("linear-algebra", "線性代數", "矩陣運算、行列式、向量空間、特徵值", "linear-algebra.json", "teal", "⊕"),
    Topic("discrete-math", "離散數學", "邏輯、集合、關係、圖論、數論", "discrete-math.json", "lime", "🔗")
  ]

  /** The ids of the catalogue, in catalogue order. */
  const CatalogueIds: seq<string> := ["trigonometry", "vector", "function", "algebra", "probability",
                                      "geometry", "statistics", "calculus", "linear-algebra", "discrete-math"]

  /** `Array.prototype.find` over topics: the first entry whose id equals `id`. */
  function FindTopic(ts: seq<Topic>, id: string): (r: Option<Topic>)
    ensures r.Some? ==> r.value in ts && r.value.id == id
    ensures r.None? <==> forall i :: 0 <= i < |ts| ==> ts[i].id != id
    ensures forall i :: 0 <= i < |ts| && ts[i].id == id && (forall j :: 0 <= j < i ==> ts[j].id != id) ==> r == Some(ts[i])
  {
    if ts == [] then None
    else if ts[0].id == id then Some(ts[0])
    else FindTopic(ts[1..], id)
  }

  function GetTopicById(id: string): (r: Option<Topic>)
    ensures r.Some? ==> r.value in Catalogue && r.value.id == id
    ensures r.None? <==> id !in CatalogueIds
  {
    CatalogueIdsAgree();
    FindTopic(Catalogue, id)
  }

  /** CatalogueIds lists exactly the ids of Catalogue, in order. */
  lemma CatalogueIdsAgree()
    ensures |CatalogueIds| == |Catalogue|
    ensures forall i :: 0 <= i < |Catalogue| ==> Catalogue[i].id == CatalogueIds[i]
  {
  }

  /** The catalogue has ten entries and no two share an id. */
  lemma CatalogueIdsDistinct()
    ensures |Catalogue| == 10
    ensures forall i, j :: 0 <= i < j < |Catalogue| ==> Catalogue[i].id != Catalogue[j].id
  {
    CatalogueIdsAgree();
  }

  /** The data files of the catalogue, in catalogue order. */
  const CatalogueFiles: seq<string> := ["trigonometry.json", "vector.json", "function.json", "algebra.json",
                                        "probability.json", "geometry.json", "statistics.json", "calculus.json",
                                        "linear-algebra.json", "discrete-math.json"]

  lemma CatalogueFilesAgree()
    ensures |CatalogueFiles| == |Catalogue|
    ensures forall i :: 0 <= i < |Catalogue| ==> Catalogue[i].dataFile == CatalogueFiles[i]
  {
  }

  /** Every entry's data file is named after its id. */
  lemma DataFilesFollowIds()
    ensures forall i :: 0 <= i < |Catalogue| ==> Catalogue[i].dataFile == Catalogue[i].id + ".json"
  {
    CatalogueIdsAgree();
    CatalogueFilesAgree();
    forall i | 0 <= i < |Catalogue| ensures CatalogueFiles[i] == CatalogueIds[i] + ".json" {
      FileNamedAfterId(i);
    }
  }

  lemma FileNamedAfterId(i: nat)
    requires i < |CatalogueIds|
    ensures CatalogueFiles[i] == CatalogueIds[i] + ".json"
  {
    var id, file := CatalogueIds[i], CatalogueFiles[i];
    assert |file| == |id| + 5 by {
      if i == 0 {} else if i == 1 {} else if i == 2 {} else if i == 3 {} else if i == 4 {}
      else if i == 5 {} else if i == 6 {} else if i == 7 {} else if i == 8 {} else {}
    }
    forall k | 0 <= k < |file| ensures file[k] == (id + ".json")[k] {
      if i == 0 {} else if i == 1 {} else if i == 2 {} else if i == 3 {} else if i == 4 {}
      else if i == 5 {} else if i == 6 {} else if i == 7 {} else if i == 8 {} else {}
    }
  }

  /** Looking up the id of any catalogue entry returns that entry. */
  lemma GetTopicByIdOfEntry(t: Topic)
    requires t in Catalogue
    ensures GetTopicById(t.id) == Some(t)
  {
    CatalogueIdsDistinct();
    var i :| 0 <= i < |Catalogue| && Catalogue[i] == t;
    assert forall j :: 0 <= j < i ==> Catalogue[j].id != t.id;
  }

  /** The session's default topic is a catalogue entry. */
  lemma DefaultTopicInCatalogue()
    ensures GetTopicById(DefaultTopicId) == Some(Catalogue[0])
  {
    GetTopicByIdOfEntry(Catalogue[0]);
  }
}
