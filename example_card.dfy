/**
 * The practice-example card: the splitting of a text into plain runs and
 * `$...$` formulas, the badge labels, the option letters, and the two
 * show/hide toggles.
 */
module ExampleCard {
  import opened Wrappers
  import opened Types

  // ---------------------------------------------------------------------------
  // The formula pattern `/\$(.*?)\$/g`
  // ---------------------------------------------------------------------------

  /** The characters a regular-expression `.` does not match (section 22.2.2.9 of ECMA-262). */
  predicate IsLineTerminator(c: char)
  {
    c == '\n' || c == '\r' || c == '\U{2028}' || c == '\U{2029}'
  }

  /** The lazy group closes at `j` when scanning starts at `i`: `s[j]` is the first `$` at or
      after `i`, and no line terminator comes before it. */
  ghost predicate ClosesAt(s: string, i: nat, j: nat)
  {
    i <= j < |s| && s[j] == '$' && forall k :: i <= k < j ==> s[k] != '$' && !IsLineTerminator(s[k])
  }

  /** The pattern matches `s[p..q + 1]`: an opening `$` at `p` whose group closes at `q`. */
  ghost predicate MatchesAt(s: string, p: nat, q: nat)
  {
    p < |s| && s[p] == '$' && ClosesAt(s, p + 1, q)
  }

  /** The lazy `(.*?)\$` from `i`: grow the group one non-terminator at a time until a `$`. */
  function CloseFrom(s: string, i: nat): (r: Option<nat>)
    requires i <= |s|
    decreases |s| - i
    ensures r.Some? ==> i <= r.value < |s| && s[r.value] == '$'
  {
    if i == |s| then None
    else if s[i] == '$' then Some(i)
    else if IsLineTerminator(s[i]) then None
    else CloseFrom(s, i + 1)
  }

  /** The group closes exactly where `ClosesAt` says, and fails exactly when no `$` is reached
      before a line terminator or the end. */
  lemma {:induction false} CloseFromCloses(s: string, i: nat)
    requires i <= |s|
    decreases |s| - i
    ensures CloseFrom(s, i).Some? ==> ClosesAt(s, i, CloseFrom(s, i).value)
    ensures CloseFrom(s, i).None? ==> forall j: nat :: !ClosesAt(s, i, j)
  {
    if i < |s| && s[i] != '$' && !IsLineTerminator(s[i]) {
      CloseFromCloses(s, i + 1);
      assert forall j: nat :: ClosesAt(s, i, j) ==> ClosesAt(s, i + 1, j);
    }
  }

  /** A match: the opening `$` at `index` and the closing `$` at `close`. */
  datatype Match = Match(index: nat, close: nat)

  /** `regex.exec` with `lastIndex == from`: try each start position in turn. */
  function NextMatch(s: string, from: nat): (r: Option<Match>)
    requires from <= |s|
    decreases |s| - from
    ensures r.Some? ==> from <= r.value.index < r.value.close < |s|
    ensures r.Some? ==> s[r.value.index] == '$' && s[r.value.close] == '$'
  {
    if from == |s| then None
    else if s[from] == '$' && CloseFrom(s, from + 1).Some? then Some(Match(from, CloseFrom(s, from + 1).value))
    else NextMatch(s, from + 1)
  }

  /** The match found is the leftmost one at or after `from`, and none is found exactly when
      there is none. */
  lemma {:induction false} NextMatchIsLeftmost(s: string, from: nat)
    requires from <= |s|
    decreases |s| - from
    ensures NextMatch(s, from).Some? ==> MatchesAt(s, NextMatch(s, from).value.index, NextMatch(s, from).value.close)
    ensures NextMatch(s, from).Some? ==> forall p: nat, q: nat :: from <= p < NextMatch(s, from).value.index ==> !MatchesAt(s, p, q)
    ensures NextMatch(s, from).None? ==> forall p: nat, q: nat :: from <= p ==> !MatchesAt(s, p, q)
  {
    if from < |s| {
      CloseFromCloses(s, from + 1);
      if !(s[from] == '$' && CloseFrom(s, from + 1).Some?) {
        NextMatchIsLeftmost(s, from + 1);
        assert forall q: nat :: !MatchesAt(s, from, q);
      }
    }
  }

  // ---------------------------------------------------------------------------
  // renderMathText
  // ---------------------------------------------------------------------------

  /** One rendered span: a plain run, or a formula (rendered by KaTeX) with its content.
      `key` is the running counter the spans' React keys are made of. */
  datatype Segment = Text(key: nat, text: string) | Math(key: nat, content: string)

  /** The plain span before a match at `index`, if the match is not right at `from`. */
  function Lead(s: string, from: nat, index: nat, key: nat): (r: seq<Segment>)
    requires from <= index <= |s|
    ensures |r| <= 1
  {
    if index > from then [Text(key, s[from..index])] else []
  }

  /** The spans one match emits: the plain text since `from` when there is any, then the
      formula, numbered from `key`. */
  function MatchSpans(s: string, from: nat, key: nat, m: Match): seq<Segment>
    requires from <= m.index < m.close < |s|
  {
    var pre := Lead(s, from, m.index, key);
    pre + [Math(key + |pre|, s[m.index + 1..m.close])]
  }

  /** The position just past a match's closing `$`, where `lastIndex` moves to. */
  function After(m: Match): nat
  {
    m.close + 1
  }

  /** The key after a match's spans: one more for its formula, and one more for the plain
      text before it when there is any. */
  function KeyAfter(from: nat, key: nat, m: Match): nat
  {
    if m.index > from then key + 2 else key + 1
  }

  /** The spans the loop produces from `from` on, numbering them from `key`. */
  function Scan(s: string, from: nat, key: nat): seq<Segment>
    requires from <= |s|
    decreases |s| - from
  {
    match NextMatch(s, from)
    case None => if from < |s| then [Text(key, s[from..])] else []
    case Some(m) => MatchSpans(s, from, key, m) + Scan(s, After(m), KeyAfter(from, key, m))
  }

  /** What `renderMathText` returns: the spans, or a single plain span when there are none. */
  function MathSegments(s: string): seq<Segment>
  {
    var parts := Scan(s, 0, 0);
    if |parts| > 0 then parts else [Text(0, s)]
  }

  /** The spans from `from` when a match follows: that match's spans, then the rest. */
  lemma ScanAtMatch(s: string, from: nat, key: nat, m: Match)
    requires from <= |s| && NextMatch(s, from) == Some(m)
    ensures Scan(s, from, key) == MatchSpans(s, from, key, m) + Scan(s, After(m), KeyAfter(from, key, m))
  {
  }

  /** The body of the loop of `renderMathText` at match `m`: push the text since `lastIndex`
      when there is any, then the formula, each under the running key. */
  method EmitMatch(parts: seq<Segment>, text: string, lastIndex: nat, key: nat, m: Match)
    returns (parts': seq<Segment>, key': nat)
    requires lastIndex <= m.index < m.close < |text|
    ensures parts' == parts + MatchSpans(text, lastIndex, key, m)
    ensures key' == KeyAfter(lastIndex, key, m)
  {
    parts', key' := parts, key;
    if m.index > lastIndex {
      parts' := parts' + [Text(key', text[lastIndex..m.index])];
      key' := key' + 1;
    }
    var mathContent := text[m.index + 1..m.close];
    parts' := parts' + [Math(key', mathContent)];
    key' := key' + 1;
  }

  /** The loop's invariant: the spans emitted so far, followed by the spans still to come
      from `from` on, are all the spans of the text. */
  ghost predicate Progress(text: string, before: seq<Segment>, from: nat, key: nat)
  {
    from <= |text| && before + Scan(text, from, key) == Scan(text, 0, 0)
  }

  lemma ProgressStart(text: string)
    ensures Progress(text, [], 0, 0)
  {
    assert [] + Scan(text, 0, 0) == Scan(text, 0, 0);
  }

  /** One turn of the loop keeps "spans so far followed by the spans still to come" fixed. */
  lemma ScanAdvance(text: string, from: nat, key: nat, m: Match, before: seq<Segment>)
    requires Progress(text, before, from, key) && NextMatch(text, from) == Some(m)
    ensures Progress(text, before + MatchSpans(text, from, key, m), After(m), KeyAfter(from, key, m))
  {
    ScanAtMatch(text, from, key, m);
    assert before + MatchSpans(text, from, key, m) + Scan(text, After(m), KeyAfter(from, key, m))
        == before + (MatchSpans(text, from, key, m) + Scan(text, After(m), KeyAfter(from, key, m)));
  }

  /** After the last match: the remaining text, if any, is the last span. */
  lemma ScanFinish(text: string, from: nat, key: nat, before: seq<Segment>)
    requires Progress(text, before, from, key) && NextMatch(text, from).None?
    ensures var done := if from < |text| then before + [Text(key, text[from..])] else before;
      (if |done| > 0 then done else [Text(0, text)]) == MathSegments(text)
  {
    if from == |text| {
      assert before + [] == before;
    }
  }

  /** One turn of the loop of `renderMathText` at match `m`: emit its spans and move `lastIndex`
      past the closing `$`, keeping "spans so far followed by the spans still to come" fixed. */
  method Turn(text: string, parts: seq<Segment>, lastIndex: nat, key: nat, m: Match)
    returns (parts': seq<Segment>, lastIndex': nat, key': nat, found': Option<Match>)
    requires Progress(text, parts, lastIndex, key) && NextMatch(text, lastIndex) == Some(m)
    ensures lastIndex < lastIndex' <= |text|
    ensures found' == NextMatch(text, lastIndex')
    ensures Progress(text, parts', lastIndex', key')
  {
    ScanAdvance(text, lastIndex, key, m, parts);
    parts', key' := EmitMatch(parts, text, lastIndex, key, m);
    lastIndex' := After(m);
    found' := NextMatch(text, lastIndex');
  }

  /** The loop of `renderMathText`: text before each match, then the formula, then the rest. */
  method RenderMathText(text: string) returns (parts: seq<Segment>)
    ensures parts == MathSegments(text)
  {
    parts := [];
    var lastIndex: nat := 0;
    var key: nat := 0;
    var found := NextMatch(text, lastIndex);
    ProgressStart(text);
    while found.Some?
      invariant Progress(text, parts, lastIndex, key)
      invariant found == NextMatch(text, lastIndex)
      decreases |text| - lastIndex
    {
      parts, lastIndex, key, found := Turn(text, parts, lastIndex, key, found.value);
    }
    ScanFinish(text, lastIndex, key, parts);
    if lastIndex < |text| {
      parts := parts + [Text(key, text[lastIndex..])];
      key := key + 1;
    }
    if |parts| == 0 {
      parts := [Text(0, text)];
    }
  }

  /** The source text a span stands for: a formula is its content between two `$`. */
  function SourceOf(seg: Segment): string
  {
    match seg
    case Text(_, t) => t
    case Math(_, c) => "$" + c + "$"
  }

  function Reassemble(parts: seq<Segment>): string
  {
    if parts == [] then "" else SourceOf(parts[0]) + Reassemble(parts[1..])
  }

  lemma {:induction false} ReassembleAppend(a: seq<Segment>, b: seq<Segment>)
    ensures Reassemble(a + b) == Reassemble(a) + Reassemble(b)
  {
    if a != [] {
      assert (a + b)[1..] == a[1..] + b;
      ReassembleAppend(a[1..], b);
    } else {
      assert a + b == b;
    }
  }

  lemma ReassembleOne(seg: Segment)
    ensures Reassemble([seg]) == SourceOf(seg)
  {
    assert [seg][1..] == [];
  }

  /** The plain span before a match stands for exactly the text before it. */
  lemma LeadSource(s: string, from: nat, index: nat, key: nat)
    requires from <= index <= |s|
    ensures Reassemble(Lead(s, from, index, key)) == s[from..index]
  {
    if index > from {
      ReassembleOne(Text(key, s[from..index]));
    }
  }

  /** The spans of one match stand for the text from `from` up to and including its closing `$`. */
  lemma SpansSource(s: string, from: nat, key: nat, m: Match)
    requires from <= m.index < m.close < |s|
    ensures Reassemble(MatchSpans(s, from, key, m)) == s[from..m.index] + ("$" + s[m.index + 1..m.close] + "$")
  {
    if m.index > from {
      ReassembleAppend([Text(key, s[from..m.index])], [Math(key + 1, s[m.index + 1..m.close])]);
      ReassembleOne(Text(key, s[from..m.index]));
      ReassembleOne(Math(key + 1, s[m.index + 1..m.close]));
    } else {
      ReassembleOne(Math(key, s[m.index + 1..m.close]));
      assert s[from..m.index] == "";
    }
  }

  /** The spans emitted so far stand for the text before `from`. */
  ghost predicate Restores(s: string, before: seq<Segment>, from: nat)
  {
    from <= |s| && Reassemble(before) == s[..from]
  }

  /** The text up to `from`, then the text up to a match and the match itself, is the text up
      to and including the match's closing `$`. */
  lemma PrefixAtMatch(s: string, from: nat, m: Match)
    requires from <= m.index < m.close < |s| && s[m.index] == '$' && s[m.close] == '$'
    ensures s[..from] + (s[from..m.index] + ("$" + s[m.index + 1..m.close] + "$")) == s[..m.close + 1]
  {
    var t := s[..from] + (s[from..m.index] + ("$" + s[m.index + 1..m.close] + "$"));
    assert |t| == m.close + 1;
    forall k | 0 <= k < |t| ensures t[k] == s[k] {
      if k < from {
      } else if k < m.index {
      } else if k < m.close + 1 {
      }
    }
  }

  /** One turn: if the spans so far stand for the text before `from`, adding a match's spans
      makes them stand for the text up to its closing `$`. */
  lemma TurnReassembles(s: string, before: seq<Segment>, from: nat, key: nat, m: Match)
    requires Restores(s, before, from) && NextMatch(s, from) == Some(m)
    ensures Restores(s, before + MatchSpans(s, from, key, m), After(m))
  {
    ReassembleAppend(before, MatchSpans(s, from, key, m));
    SpansSource(s, from, key, m);
    PrefixAtMatch(s, from, m);
  }

  /** After the last match the remaining text, or the fallback span, completes the text. */
  lemma RoundTripFinish(s: string, before: seq<Segment>, from: nat, key: nat)
    requires Progress(s, before, from, key) && Restores(s, before, from) && NextMatch(s, from).None?
    ensures Reassemble(MathSegments(s)) == s
  {
    if from < |s| {
      ReassembleAppend(before, [Text(key, s[from..])]);
      ReassembleOne(Text(key, s[from..]));
      assert s[..from] + s[from..] == s;
    } else {
      assert before + [] == before;
      assert s[..from] == s;
      if |before| == 0 {
        ReassembleOne(Text(0, s));
      }
    }
  }

  /** No character is lost or added: putting the spans back together, a formula between its
      two `$`, gives the input text. The proof walks the matches as the loop does. */
  lemma RoundTrip(s: string)
    ensures Reassemble(MathSegments(s)) == s
  {
    var from: nat, key: nat, before: seq<Segment> := 0, 0, [];
    ProgressStart(s);
    assert s[..0] == "";
    while NextMatch(s, from).Some?
      invariant Progress(s, before, from, key) && Restores(s, before, from)
      decreases |s| - from
    {
      var m := NextMatch(s, from).value;
      TurnReassembles(s, before, from, key, m);
      ScanAdvance(s, from, key, m, before);
      before, from, key := before + MatchSpans(s, from, key, m), After(m), KeyAfter(from, key, m);
    }
    RoundTripFinish(s, before, from, key);
  }

  /** The shape of a run of spans numbered from `key`: consecutive keys, formulas free of `$`
      and line breaks, no empty plain span, and no two plain spans in a row. */
  ghost predicate Shaped(r: seq<Segment>, key: nat)
  {
    && (forall i :: 0 <= i < |r| ==> r[i].key == key + i)
    && (forall i :: 0 <= i < |r| && r[i].Math? ==>
          '$' !in r[i].content && forall c :: c in r[i].content ==> !IsLineTerminator(c))
    && (forall i :: 0 <= i < |r| && r[i].Text? ==> r[i].text != [])
    && (forall i :: 0 <= i < |r| - 1 && r[i].Text? ==> r[i + 1].Math?)
  }

  lemma ShapedAppend(a: seq<Segment>, b: seq<Segment>, key: nat)
    requires Shaped(a, key) && Shaped(b, key + |a|)
    requires |a| > 0 && a[|a| - 1].Math?
    ensures Shaped(a + b, key)
  {
    var r := a + b;
    forall i | 0 <= i < |r| - 1 && r[i].Text? ensures r[i + 1].Math? {
      if i + 1 < |a| {
        assert r[i + 1] == a[i + 1];
      } else {
        assert r[i] == b[i - |a|];
        assert r[i + 1] == b[i + 1 - |a|];
      }
    }
  }

  /** The text between the two `$` of a match has neither a `$` nor a line break. */
  lemma ContentIsClean(s: string, m: Match)
    requires MatchesAt(s, m.index, m.close)
    ensures '$' !in s[m.index + 1..m.close]
    ensures forall c :: c in s[m.index + 1..m.close] ==> !IsLineTerminator(c)
  {
    var content := s[m.index + 1..m.close];
    forall c | c in content ensures c != '$' && !IsLineTerminator(c) {
      var j :| 0 <= j < |content| && content[j] == c;
      assert s[m.index + 1 + j] == c;
    }
  }

  /** The spans of one match have the shape, end in its formula, and advance the key by their number. */
  lemma MatchSpansShaped(s: string, from: nat, key: nat, m: Match)
    requires from <= |s| && NextMatch(s, from) == Some(m)
    ensures Shaped(MatchSpans(s, from, key, m), key)
    ensures |MatchSpans(s, from, key, m)| == KeyAfter(from, key, m) - key
    ensures MatchSpans(s, from, key, m)[|MatchSpans(s, from, key, m)| - 1].Math?
  {
    NextMatchIsLeftmost(s, from);
    ContentIsClean(s, m);
  }

  /** The spans from `from` on have the shape. */
  ghost predicate ShapedFrom(s: string, from: nat, key: nat)
    requires from <= |s|
  {
    Shaped(Scan(s, from, key), key)
  }

  lemma ShapeAtMatch(s: string, from: nat, key: nat, m: Match)
    requires from <= |s| && NextMatch(s, from) == Some(m)
    ensures After(m) <= |s|
    ensures ShapedFrom(s, After(m), KeyAfter(from, key, m)) ==> ShapedFrom(s, from, key)
  {
    if ShapedFrom(s, After(m), KeyAfter(from, key, m)) {
      ScanAtMatch(s, from, key, m);
      MatchSpansShaped(s, from, key, m);
      ShapedAppend(MatchSpans(s, from, key, m), Scan(s, After(m), KeyAfter(from, key, m)), key);
    }
  }

  lemma {:induction false} ScanShape(s: string, from: nat, key: nat)
    requires from <= |s|
    decreases |s| - from
    ensures ShapedFrom(s, from, key)
  {
    match NextMatch(s, from)
    case None =>
    case Some(m) =>
      ShapeAtMatch(s, from, key, m);
      ScanShape(s, After(m), KeyAfter(from, key, m));
  }

  /** The spans are numbered 0, 1, 2, ... in order, so no two share a key. */
  lemma KeysArePositions(s: string)
    ensures forall i :: 0 <= i < |MathSegments(s)| ==> MathSegments(s)[i].key == i
  {
    ScanShape(s, 0, 0);
  }

  /** A formula never contains a `$` or a line break; a plain span is empty only when the whole
      input is; two plain spans are never adjacent. */
  lemma SegmentsAreMaximal(s: string)
    ensures forall i :: 0 <= i < |MathSegments(s)| && MathSegments(s)[i].Math? ==>
              '$' !in MathSegments(s)[i].content && forall c :: c in MathSegments(s)[i].content ==> !IsLineTerminator(c)
    ensures forall i :: 0 <= i < |MathSegments(s)| && MathSegments(s)[i].Text? ==> MathSegments(s)[i].text != [] || s == []
    ensures forall i :: 0 <= i < |MathSegments(s)| - 1 && MathSegments(s)[i].Text? ==> MathSegments(s)[i + 1].Math?
  {
    ScanShape(s, 0, 0);
  }

  // ---------------------------------------------------------------------------
  // Where the spans sit: the pattern's own cutting, and that it is the only one
  // ---------------------------------------------------------------------------

  /** Span `seg` sits at position `p` of `s` as the pattern cuts: a formula is the match that
      opens at `p` (its group closing at the first `$`), and no match opens inside a plain run. */
  ghost predicate SitsAt(s: string, seg: Segment, p: nat)
  {
    match seg
    case Math(_, c) => MatchesAt(s, p, p + |c| + 1)
    case Text(_, t) => p + |t| <= |s| && forall q: nat, r: nat :: p <= q < p + |t| ==> !MatchesAt(s, q, r)
  }

  /** No match opens anywhere in `s[p..e]`: no `$` there whose lazy group closes. */
  predicate NoneOpensIn(s: string, p: nat, e: nat)
    requires e <= |s|
    decreases e - p
  {
    p >= e || (!(s[p] == '$' && CloseFrom(s, p + 1).Some?) && NoneOpensIn(s, p + 1, e))
  }

  /** The same in terms of the code's own steps: a formula opens at `p` and its group closes at
      its end, and no match opens inside a plain run. */
  predicate FoundAt(s: string, seg: Segment, p: nat)
  {
    match seg
    case Math(_, c) => p < |s| && s[p] == '$' && CloseFrom(s, p + 1) == Some(p + |c| + 1)
    case Text(_, t) => p + |t| <= |s| && NoneOpensIn(s, p, p + |t|)
  }

  /** The search from the start of a stretch where no match opens finds what the search from
      its end finds. */
  lemma {:induction false} NoneOpensSkip(s: string, p: nat, e: nat)
    requires p <= e <= |s| && NoneOpensIn(s, p, e)
    decreases e - p
    ensures NextMatch(s, p) == NextMatch(s, e)
  {
    if p < e {
      NoneOpensSkip(s, p + 1, e);
    }
  }

  /** No match opens before the match found from `p`. */
  lemma {:induction false} SkipNoneOpens(s: string, p: nat, e: nat)
    requires p <= e <= |s|
    requires NextMatch(s, p).None? || e <= NextMatch(s, p).value.index
    decreases e - p
    ensures NoneOpensIn(s, p, e)
  {
    if p < e {
      SkipNoneOpens(s, p + 1, e);
    }
  }

  /** The match found opens with a `$` whose lazy group closes at its end. */
  lemma {:induction false} NextMatchOpens(s: string, from: nat)
    requires from <= |s| && NextMatch(s, from).Some?
    decreases |s| - from
    ensures s[NextMatch(s, from).value.index] == '$'
    ensures CloseFrom(s, NextMatch(s, from).value.index + 1) == Some(NextMatch(s, from).value.close)
  {
    if !(s[from] == '$' && CloseFrom(s, from + 1).Some?) {
      NextMatchOpens(s, from + 1);
    }
  }

  /** `NoneOpensIn` says that no match of the pattern starts in `s[p..e]`. */
  lemma {:induction false} NoneOpensMeansNoMatch(s: string, p: nat, e: nat)
    requires e <= |s|
    decreases e - p
    ensures NoneOpensIn(s, p, e) <==> forall q: nat, r: nat :: p <= q < e ==> !MatchesAt(s, q, r)
  {
    if p < e {
      NoneOpensMeansNoMatch(s, p + 1, e);
      CloseFromCloses(s, p + 1);
      if s[p] == '$' && CloseFrom(s, p + 1).Some? {
        assert MatchesAt(s, p, CloseFrom(s, p + 1).value);
      } else {
        assert forall r: nat :: !MatchesAt(s, p, r);
      }
    }
  }

  /** Two group ends from the same start are the same position. */
  lemma ClosesAtUnique(s: string, i: nat, j: nat, k: nat)
    requires ClosesAt(s, i, j) && ClosesAt(s, i, k)
    ensures j == k
  {
  }

  /** Sitting where the pattern cuts is what the code's own search steps observe. */
  lemma {:induction false} SitsAtIsFoundAt(s: string, seg: Segment, p: nat)
    ensures SitsAt(s, seg, p) <==> FoundAt(s, seg, p)
  {
    match seg
    case Text(_, t) =>
      if p + |t| <= |s| {
        NoneOpensMeansNoMatch(s, p, p + |t|);
      }
    case Math(_, c) =>
      if p < |s| {
        CloseFromCloses(s, p + 1);
        if CloseFrom(s, p + 1).Some? && MatchesAt(s, p, p + |c| + 1) {
          ClosesAtUnique(s, p + 1, CloseFrom(s, p + 1).value, p + |c| + 1);
        }
      }
  }

  /** Where the source of a span that starts at `p` ends. */
  function EndOf(seg: Segment, p: nat): nat
  {
    match seg
    case Text(_, t) => p + |t|
    case Math(_, c) => p + |c| + 2
  }

  /** The source of spans `parts` that start at `p` ends where the first one's does, and then
      the others' source follows. */
  lemma EndOfSource(parts: seq<Segment>, p: nat)
    requires parts != []
    ensures p + |Reassemble(parts)| == EndOf(parts[0], p) + |Reassemble(parts[1..])|
  {
  }

  /** Every span of `parts`, laid out one after another from `from`, passes `fits` where its
      source starts. */
  ghost predicate Chain(fits: (Segment, nat) -> bool, parts: seq<Segment>, from: nat)
    decreases |parts|
  {
    parts == [] || (fits(parts[0], from) && Chain(fits, parts[1..], EndOf(parts[0], from)))
  }

  lemma {:induction false} ChainAppend(fits: (Segment, nat) -> bool, a: seq<Segment>, b: seq<Segment>, from: nat)
    requires Chain(fits, a, from) && Chain(fits, b, from + |Reassemble(a)|)
    decreases |a|
    ensures Chain(fits, a + b, from)
  {
    if a == [] {
      assert a + b == b;
    } else {
      assert (a + b)[1..] == a[1..] + b;
      assert (a + b)[0] == a[0];
      EndOfSource(a, from);
      ChainAppend(fits, a[1..], b, EndOf(a[0], from));
    }
  }

  /** Where the source of the first `k + 1` spans ends, the source of span `k` ends. */
  lemma PrefixEnd(parts: seq<Segment>, k: nat, from: nat)
    requires k < |parts|
    ensures from + |Reassemble(parts[..k + 1])| == EndOf(parts[k], from + |Reassemble(parts[..k])|)
  {
    assert parts[..k + 1] == parts[..k] + [parts[k]];
    ReassembleAppend(parts[..k], [parts[k]]);
    ReassembleOne(parts[k]);
  }

  /** A chain from span `k` on gives one from span `k + 1` on. */
  lemma ChainStep(fits: (Segment, nat) -> bool, parts: seq<Segment>, from: nat, k: nat)
    requires k < |parts| && Chain(fits, parts[k..], from + |Reassemble(parts[..k])|)
    ensures Chain(fits, parts[k + 1..], from + |Reassemble(parts[..k + 1])|)
  {
    PrefixEnd(parts, k, from);
    assert parts[k..][0] == parts[k];
  }

  /** The spans of a chain from span `k` on are a chain from where their source starts. */
  lemma {:induction false} ChainSuffix(fits: (Segment, nat) -> bool, parts: seq<Segment>, from: nat, k: nat)
    requires Chain(fits, parts, from) && k <= |parts|
    decreases k
    ensures Chain(fits, parts[k..], from + |Reassemble(parts[..k])|)
  {
    if k > 0 {
      ChainSuffix(fits, parts, from, k - 1);
      ChainStep(fits, parts, from, k - 1);
    }
  }

  /** Span `i` of a chain passes where its source starts. */
  lemma ChainAt(fits: (Segment, nat) -> bool, parts: seq<Segment>, from: nat, i: nat)
    requires Chain(fits, parts, from) && i < |parts|
    ensures fits(parts[i], from + |Reassemble(parts[..i])|)
  {
    ChainSuffix(fits, parts, from, i);
    assert parts[i..][0] == parts[i];
  }

  /** Spans from span `k` on, each passing where its source starts, form a chain. */
  lemma {:induction false} ChainOfEachFrom(fits: (Segment, nat) -> bool, parts: seq<Segment>, from: nat, k: nat)
    requires forall i :: 0 <= i < |parts| ==> fits(parts[i], from + |Reassemble(parts[..i])|)
    requires k <= |parts|
    decreases |parts| - k
    ensures Chain(fits, parts[k..], from + |Reassemble(parts[..k])|)
  {
    if k < |parts| {
      ChainOfEachFrom(fits, parts, from, k + 1);
      PrefixEnd(parts, k, from);
      assert parts[k..][1..] == parts[k + 1..];
      assert parts[k..][0] == parts[k];
    } else {
      assert parts[k..] == [];
    }
  }

  /** Spans that each pass where their source starts form a chain. */
  lemma ChainOfEach(fits: (Segment, nat) -> bool, parts: seq<Segment>, from: nat)
    requires forall i :: 0 <= i < |parts| ==> fits(parts[i], from + |Reassemble(parts[..i])|)
    ensures Chain(fits, parts, from)
  {
    ChainOfEachFrom(fits, parts, from, 0);
    assert parts[..0] == [] && parts[0..] == parts;
  }

  /** Sitting where the pattern cuts in `s`, as a test on a span and its start. */
  function FitsIn(s: string): (Segment, nat) -> bool
  {
    (seg: Segment, p: nat) => FoundAt(s, seg, p)
  }

  /** Every span of `parts`, laid out one after another from `from`, sits where the pattern cuts. */
  ghost predicate CutsFrom(s: string, parts: seq<Segment>, from: nat)
  {
    Chain(FitsIn(s), parts, from)
  }

  /** The spans of one match sit where the pattern cuts. */
  lemma {:induction false} MatchSpansCut(s: string, from: nat, key: nat, m: Match)
    requires from <= |s| && NextMatch(s, from) == Some(m)
    ensures CutsFrom(s, MatchSpans(s, from, key, m), from)
  {
    SkipNoneOpens(s, from, m.index);
    NextMatchOpens(s, from);
    var f := Math(KeyAfter(from, key, m) - 1, s[m.index + 1..m.close]);
    assert FoundAt(s, f, m.index);
    assert [f][1..] == [];
    assert CutsFrom(s, [f], m.index);
    if m.index > from {
      var t := Text(key, s[from..m.index]);
      assert MatchSpans(s, from, key, m) == [t, f];
      assert [t, f][1..] == [f];
      assert EndOf(t, from) == m.index;
    } else {
      assert MatchSpans(s, from, key, m) == [f];
    }
  }

  /** The spans of one match end just past its closing `$`. */
  lemma SpansEnd(s: string, from: nat, key: nat, m: Match)
    requires from <= m.index < m.close < |s|
    ensures from + |Reassemble(MatchSpans(s, from, key, m))| == After(m)
  {
    SpansSource(s, from, key, m);
  }

  /** The spans the loop produces from `from` on sit where the pattern cuts. */
  lemma {:induction false} ScanCuts(s: string, from: nat, key: nat)
    requires from <= |s|
    decreases |s| - from
    ensures CutsFrom(s, Scan(s, from, key), from)
  {
    match NextMatch(s, from)
    case None =>
      if from < |s| {
        SkipNoneOpens(s, from, |s|);
        assert [Text(key, s[from..])][1..] == [];
      }
    case Some(m) =>
      ScanCuts(s, After(m), KeyAfter(from, key, m));
      MatchSpansCut(s, from, key, m);
      SpansEnd(s, from, key, m);
      ChainAppend(FitsIn(s), MatchSpans(s, from, key, m), Scan(s, After(m), KeyAfter(from, key, m)), from);
  }

  /** What `renderMathText` returns sits where the pattern cuts. */
  lemma {:induction false} MathSegmentsCut(s: string)
    ensures CutsFrom(s, MathSegments(s), 0)
  {
    ScanCuts(s, 0, 0);
    if NextMatch(s, 0).Some? {
      ScanAtMatch(s, 0, 0, NextMatch(s, 0).value);
    } else {
      assert [Text(0, s)][1..] == [];
    }
  }

  /** Every span sits where the pattern cuts, at the position its source starts: each formula is
      the shortest match opening there, and no match opens inside a plain run, so a `$` without a
      partner stays plain and each formula is the first match after the span before it. */
  lemma {:induction false} SegmentsFollowPattern(s: string)
    ensures forall i :: 0 <= i < |MathSegments(s)| ==> SitsAt(s, MathSegments(s)[i], |Reassemble(MathSegments(s)[..i])|)
  {
    MathSegmentsCut(s);
    forall i | 0 <= i < |MathSegments(s)|
      ensures SitsAt(s, MathSegments(s)[i], |Reassemble(MathSegments(s)[..i])|)
    {
      ChainAt(FitsIn(s), MathSegments(s), 0, i);
      SitsAtIsFoundAt(s, MathSegments(s)[i], |Reassemble(MathSegments(s)[..i])|);
    }
  }

  /** A text `a + b` that is `s[from..]` splits `s` at `from + |a|`. */
  lemma SourceSplit(s: string, from: nat, a: string, b: string)
    requires from <= |s| && a + b == s[from..]
    ensures from + |a| <= |s| && a == s[from..from + |a|] && b == s[from + |a|..]
  {
    assert forall k :: 0 <= k < |a| ==> a[k] == (a + b)[k];
    assert forall k :: 0 <= k < |b| ==> b[k] == (a + b)[|a| + k];
  }

  lemma ShapedTail(parts: seq<Segment>, key: nat)
    requires parts != [] && Shaped(parts, key)
    ensures Shaped(parts[1..], key + 1)
  {
    assert forall i :: 0 <= i < |parts| - 1 ==> parts[1..][i] == parts[i + 1];
  }

  /** The text of span `seg` is what `s` holds where its source starts at `p`: the whole run, or
      what lies between the formula's two `$`. */
  predicate Spells(s: string, seg: Segment, p: nat)
  {
    match seg
    case Text(_, t) => p + |t| <= |s| && t == s[p..p + |t|]
    case Math(_, c) => p + |c| + 2 <= |s| && c == s[p + 1..p + |c| + 1]
  }

  /** The content of a formula whose source is `s[p..p + |c| + 2]`. */
  lemma FormulaContent(s: string, p: nat, c: string)
    requires p + |c| + 2 <= |s| && "$" + c + "$" == s[p..p + |c| + 2]
    ensures c == s[p + 1..p + |c| + 1]
  {
    assert forall k :: 0 <= k < |c| ==> c[k] == ("$" + c + "$")[k + 1];
  }
  /** The first span of spans that give back `s[from..]` spells the text where it starts. */
  lemma {:induction false} PeelHead(s: string, parts: seq<Segment>, from: nat)
    requires from <= |s| && parts != [] && Reassemble(parts) == s[from..]
    ensures Spells(s, parts[0], from)
  {
    SourceSplit(s, from, SourceOf(parts[0]), Reassemble(parts[1..]));
    SourceSpells(s, parts[0], from);
  }

  /** The other spans give back what follows the first. */
  lemma {:induction false} PeelTail(s: string, parts: seq<Segment>, from: nat)
    requires from <= |s| && parts != [] && Reassemble(parts) == s[from..]
    ensures EndOf(parts[0], from) <= |s| && Reassemble(parts[1..]) == s[EndOf(parts[0], from)..]
  {
    SourceSplit(s, from, SourceOf(parts[0]), Reassemble(parts[1..]));
    assert from + |SourceOf(parts[0])| == EndOf(parts[0], from);
  }

  lemma SourceSpells(s: string, seg: Segment, p: nat)
    requires p + |SourceOf(seg)| <= |s| && SourceOf(seg) == s[p..p + |SourceOf(seg)|]
    ensures Spells(s, seg, p)
  {
    match seg
    case Text(_, t) =>
    case Math(_, c) => FormulaContent(s, p, c);
  }

  /** What of the output's shape pins a cutting down: keys in order from `key`, no empty plain
      run, and never two plain runs in a row. */
  ghost predicate Runs(parts: seq<Segment>, key: nat)
    decreases |parts|
  {
    parts == [] ||
    (parts[0].key == key &&
     (parts[0].Text? ==> parts[0].text != [] && (|parts| > 1 ==> parts[1].Math?)) &&
     Runs(parts[1..], key + 1))
  }

  lemma {:induction false} ShapedRuns(parts: seq<Segment>, key: nat)
    requires Shaped(parts, key)
    decreases |parts|
    ensures Runs(parts, key)
  {
    if parts != [] {
      ShapedTail(parts, key);
      ShapedRuns(parts[1..], key + 1);
    }
  }

  /** A cutting of `s[from..]` span by span, with keys from `key`: each span's source is the text
      where it starts, it sits where the pattern cuts, and it has the output's shape (no empty plain
      run, never two plain runs in a row). */
  ghost predicate Cuts(s: string, parts: seq<Segment>, from: nat, key: nat)
    decreases |parts|
  {
    if parts == [] then from == |s|
    else
      && Spells(s, parts[0], from)
      && FoundAt(s, parts[0], from)
      && parts[0].key == key
      && (parts[0].Text? ==> parts[0].text != [] && (|parts| > 1 ==> parts[1].Math?))
      && Cuts(s, parts[1..], EndOf(parts[0], from), key + 1)
  }

  /** Spans that give back `s[from..]`, have the output's shape and sit where the pattern cuts
      are a cutting span by span. */
  lemma {:induction false} CutsOfWhole(s: string, parts: seq<Segment>, from: nat, key: nat)
    requires from <= |s| && Reassemble(parts) == s[from..]
    requires Runs(parts, key) && CutsFrom(s, parts, from)
    decreases |parts|
    ensures Cuts(s, parts, from, key)
  {
    if parts != [] {
      PeelHead(s, parts, from);
      PeelTail(s, parts, from);
      CutsOfWhole(s, parts[1..], EndOf(parts[0], from), key + 1);
    }
  }

  /** A cutting that starts with a formula needs a match where it starts. */
  lemma FormulaNeedsMatch(s: string, parts: seq<Segment>, p: nat, key: nat)
    ensures Cuts(s, parts, p, key) && parts != [] && parts[0].Math? ==> p <= |s| && NextMatch(s, p).Some?
  {
  }

  /** With no match left, a cutting of `s[from..]` is the single plain run, if any. */
  lemma {:induction false} CutsWithoutMatch(s: string, parts: seq<Segment>, from: nat, key: nat)
    requires from <= |s| && NextMatch(s, from).None? && Cuts(s, parts, from, key)
    ensures parts == Scan(s, from, key)
  {
    FormulaNeedsMatch(s, parts, from, key);
    if parts != [] {
      var mid := EndOf(parts[0], from);
      NoneOpensSkip(s, from, mid);
      FormulaNeedsMatch(s, parts[1..], mid, key + 1);
      assert |parts| == 1;
      assert parts[1..] == [];
      assert parts[0] == Text(key, s[from..]);
      assert parts == [parts[0]];
    }
  }

  /** The spans of a match right at `from`: the formula alone. */
  lemma MatchSpansHere(s: string, from: nat, key: nat, m: Match)
    requires from == m.index < m.close < |s|
    ensures MatchSpans(s, from, key, m) == [Math(key, s[m.index + 1..m.close])]
  {
    assert Lead(s, from, m.index, key) == [];
  }

  /** The spans of a match after `from`: the plain text before it, then the formula. */
  lemma MatchSpansAfter(s: string, from: nat, key: nat, m: Match)
    requires from < m.index < m.close < |s|
    ensures MatchSpans(s, from, key, m) == [Text(key, s[from..m.index]), Math(key + 1, s[m.index + 1..m.close])]
  {
  }

  lemma SplitHead(parts: seq<Segment>, n: nat)
    requires n <= |parts|
    ensures parts == parts[..n] + parts[n..]
  {
  }

  /** A cutting of `s[from..]` that starts with a formula starts with the match found from `from`. */
  lemma {:induction false} CutsFormulaFirst(s: string, parts: seq<Segment>, from: nat, key: nat, m: Match)
    requires from <= |s| && NextMatch(s, from) == Some(m) && parts != [] && parts[0].Math?
    requires Cuts(s, parts, from, key)
    ensures m.index == from && After(m) == EndOf(parts[0], from) && KeyAfter(from, key, m) == key + 1
    ensures MatchSpans(s, from, key, m) == parts[..1]
  {
    var c := parts[0].content;
    assert m == Match(from, from + |c| + 1);
    assert parts[0] == Math(key, s[m.index + 1..m.close]);
    MatchSpansHere(s, from, key, m);
    assert parts[..1] == [parts[0]];
  }

  /** A cutting of `s[from..]` that starts with a plain run continues with the match found from `from`. */
  lemma {:induction false} CutsTextFirst(s: string, parts: seq<Segment>, from: nat, key: nat, m: Match)
    requires from <= |s| && NextMatch(s, from) == Some(m) && parts != [] && parts[0].Text?
    requires Cuts(s, parts, from, key)
    ensures 2 <= |parts| && After(m) == EndOf(parts[1], EndOf(parts[0], from)) && KeyAfter(from, key, m) == key + 2
    ensures MatchSpans(s, from, key, m) == parts[..2]
    ensures Cuts(s, parts[2..], EndOf(parts[1], EndOf(parts[0], from)), key + 2)
  {
    var mid := EndOf(parts[0], from);
    NoneOpensSkip(s, from, mid);
    assert |parts| > 1;
    var tail := parts[1..];
    assert tail[0] == parts[1] && tail[1..] == parts[2..];
    CutsFormulaFirst(s, tail, mid, key + 1, m);
    MatchSpansAfter(s, from, key, m);
    assert parts[..2] == [parts[0], parts[1]];
  }

  /** A cutting of `s[from..]` is the loop's output from `from`. */
  lemma {:induction false} CutsDetermineScan(s: string, parts: seq<Segment>, from: nat, key: nat)
    requires from <= |s| && Cuts(s, parts, from, key)
    decreases |s| - from
    ensures parts == Scan(s, from, key)
  {
    match NextMatch(s, from)
    case None =>
      CutsWithoutMatch(s, parts, from, key);
    case Some(m) =>
      assert parts != [];
      ScanAtMatch(s, from, key, m);
      if parts[0].Math? {
        CutsFormulaFirst(s, parts, from, key, m);
        CutsDetermineScan(s, parts[1..], After(m), KeyAfter(from, key, m));
        SplitHead(parts, 1);
      } else {
        CutsTextFirst(s, parts, from, key, m);
        CutsDetermineScan(s, parts[2..], After(m), KeyAfter(from, key, m));
        SplitHead(parts, 2);
      }
  }

  /** Spans that sit where the pattern cuts pass the search-based test. */
  lemma {:induction false} EachFound(s: string, parts: seq<Segment>)
    requires forall i :: 0 <= i < |parts| ==> SitsAt(s, parts[i], |Reassemble(parts[..i])|)
    ensures forall i :: 0 <= i < |parts| ==> FoundAt(s, parts[i], 0 + |Reassemble(parts[..i])|)
  {
    forall i | 0 <= i < |parts| ensures FoundAt(s, parts[i], 0 + |Reassemble(parts[..i])|) {
      SitsAtIsFoundAt(s, parts[i], |Reassemble(parts[..i])|);
    }
  }

  /** Spans that each sit where the pattern cuts, laid out from position 0, form a chain. */
  lemma SitsChain(s: string, parts: seq<Segment>)
    requires forall i :: 0 <= i < |parts| ==> SitsAt(s, parts[i], |Reassemble(parts[..i])|)
    ensures CutsFrom(s, parts, 0)
  {
    EachFound(s, parts);
    ChainOfEach(FitsIn(s), parts, 0);
  }

  /** Spans as `CuttingIsUnique` takes them are a cutting of the whole text. */
  lemma CutsOfPattern(s: string, parts: seq<Segment>)
    requires Reassemble(parts) == s && Shaped(parts, 0)
    requires forall i :: 0 <= i < |parts| ==> SitsAt(s, parts[i], |Reassemble(parts[..i])|)
    ensures Cuts(s, parts, 0, 0)
  {
    SitsChain(s, parts);
    ShapedRuns(parts, 0);
    assert s[0..] == s;
    CutsOfWhole(s, parts, 0, 0);
  }

  /** The pattern's cutting is the only one: spans that give back the text, have the shape (keys
      by position, clean formulas, non-empty plain runs, never two runs in a row) and each sit
      where the pattern cuts are exactly what `renderMathText` returns (none at all for the empty
      text, which it renders as one empty run). */
  lemma {:induction false} CuttingIsUnique(s: string, parts: seq<Segment>)
    requires Reassemble(parts) == s && Shaped(parts, 0)
    requires forall i :: 0 <= i < |parts| ==> SitsAt(s, parts[i], |Reassemble(parts[..i])|)
    ensures s != [] ==> parts == MathSegments(s)
    ensures s == [] ==> parts == []
  {
    CutsOfPattern(s, parts);
    CutsDetermineScan(s, parts, 0, 0);
  }

  /** A text with no `$...$` pair renders as one plain span holding all of it, and only such a text does. */
  lemma PlainTextIsOneSpan(s: string)
    ensures NextMatch(s, 0).None? <==> MathSegments(s) == [Text(0, s)]
  {
    var found := NextMatch(s, 0);
    if found.Some? {
      var m := found.value;
      ScanAtMatch(s, 0, 0, m);
      MatchSpansShaped(s, 0, 0, m);
      var spans := MatchSpans(s, 0, 0, m);
      assert Scan(s, 0, 0)[|spans| - 1] == spans[|spans| - 1];
    }
  }

  /** The lazy group that can close at `j` does close there. */
  lemma {:induction false} CloseFromAt(s: string, i: nat, j: nat)
    requires ClosesAt(s, i, j)
    decreases j - i
    ensures CloseFrom(s, i) == Some(j)
  {
    if i < j {
      CloseFromAt(s, i + 1, j);
    }
  }

  /** A single formula wrapped in `$` renders as that formula alone. */
  lemma DelimitedFormula(c: string)
    requires '$' !in c && forall ch :: ch in c ==> !IsLineTerminator(ch)
    ensures MathSegments("$" + c + "$") == [Math(0, c)]
  {
    var s := "$" + c + "$";
    var m := Match(0, |c| + 1);
    assert ClosesAt(s, 1, |c| + 1) by {
      forall k | 1 <= k < |c| + 1 ensures s[k] != '$' && !IsLineTerminator(s[k]) {
        assert s[k] == c[k - 1];
      }
    }
    CloseFromAt(s, 1, |c| + 1);
    assert NextMatch(s, 0) == Some(m);
    ScanAtMatch(s, 0, 0, m);
    assert s[1..|c| + 1] == c;
    assert MatchSpans(s, 0, 0, m) == [Math(0, c)];
    assert Scan(s, |s|, 1) == [];
  }

  /** A line break inside a would-be formula stops it: the `$` before the break stays plain text
      and the next `$...$` pair on one line is the formula. */
  lemma LineBreakStopsFormula()
    ensures MathSegments("$a\n$b$") == [Text(0, "$a\n"), Math(1, "b")]
  {
    var s := "$a\n$b$";
    assert CloseFrom(s, 1) == None;
    assert CloseFrom(s, 4) == Some(5);
    assert NextMatch(s, 0) == Some(Match(3, 5));
    assert s[0..3] == "$a\n" && s[4..5] == "b";
    assert Scan(s, 6, 2) == [];
  }

  // ---------------------------------------------------------------------------
  // Badges and option letters
  // ---------------------------------------------------------------------------

  const UnknownDifficultyColor: string := "bg-gray-100 text-gray-700"
  const UnknownDifficultyText: string := "⚪ 未知"
  const UnknownTypeText: string := "❓ 其他"

  /** `getDifficultyColor`: the badge classes of a difficulty label, grey for any other string. */
  function DifficultyColor(difficulty: string): (c: string)
    ensures c == UnknownDifficultyColor <==> ParseDifficulty(difficulty).None?
  {
    match difficulty
    case "easy" => "bg-green-100 text-green-700"
    case "medium" => "bg-yellow-100 text-yellow-700"
    case "hard" => "bg-red-100 text-red-700"
    case _ => UnknownDifficultyColor
  }

  /** `getDifficultyText`: the badge text of a difficulty label, "unknown" for any other string. */
  function DifficultyText(difficulty: string): (t: string)
    ensures t == UnknownDifficultyText <==> ParseDifficulty(difficulty).None?
  {
    match difficulty
    case "easy" => "🟢 基礎"
    case "medium" => "🟡 中等"
    case "hard" => "🔴 進階"
    case _ => UnknownDifficultyText
  }

  /** `getTypeText`: the badge text of a question-type label, "other" for any other string. */
  function TypeText(kind: string): (t: string)
    ensures t == UnknownTypeText <==> ParseQuestionType(kind).None?
  {
    match kind
    case "choice" => "📝 選擇題"
    case "calc" => "🔢 計算題"
    case "proof" => "📐 證明題"
    case _ => UnknownTypeText
  }

  /** Different difficulties get different badges, and so do different question types. */
  lemma BadgesDistinguish(d1: Difficulty, d2: Difficulty, t1: QuestionType, t2: QuestionType)
    ensures d1 != d2 ==> DifficultyColor(DifficultyName(d1)) != DifficultyColor(DifficultyName(d2))
    ensures d1 != d2 ==> DifficultyText(DifficultyName(d1)) != DifficultyText(DifficultyName(d2))
    ensures t1 != t2 ==> TypeText(QuestionTypeName(t1)) != TypeText(QuestionTypeName(t2))
  {
  }

  /** `String.fromCharCode(65 + index)`: the UTF-16 code unit, reduced modulo 2^16. */
  function OptionCodeUnit(index: nat): (u: nat)
    ensures u < 0x1_0000
    ensures index < 0x1_0000 - 65 ==> u == 65 + index
    ensures index >= 0x1_0000 - 65 ==> u == (65 + index) - 0x1_0000 * ((65 + index) / 0x1_0000)
  {
    (65 + index) % 0x1_0000
  }

  /** The first 26 options are lettered A to Z. */
  lemma OptionLetters(index: nat)
    requires index < 26
    ensures OptionCodeUnit(index) == "ABCDEFGHIJKLMNOPQRSTUVWXYZ"[index] as int
  {
  }

  // ---------------------------------------------------------------------------
  // The card
  // ---------------------------------------------------------------------------

  /** One option line: its letter's code unit and its rendered text. */
  datatype OptionLine = OptionLine(letter: nat, text: seq<Segment>)

  function OptionLines(options: seq<string>): (r: seq<OptionLine>)
    ensures |r| == |options|
    ensures forall i :: 0 <= i < |options| ==> r[i].letter == OptionCodeUnit(i) && r[i].text == MathSegments(options[i])
  {
    seq(|options|, i requires 0 <= i < |options| => OptionLine(OptionCodeUnit(i), MathSegments(options[i])))
  }

  /** The hint block: the toggle's label and, when toggled on, the rendered hint. */
  datatype HintView = HintView(buttonLabel: string, body: Option<seq<Segment>>)

  /** Everything the card shows. Absent blocks are None. */
  datatype CardView = CardView(
    title: string,
    difficultyClass: string,
    difficultyText: string,
    typeText: string,
    question: seq<Segment>,
    options: Option<seq<OptionLine>>,
    hint: Option<HintView>,
    answerButtonLabel: string,
    answerAndSolution: Option<(seq<Segment>, seq<Segment>)>,
    tags: Option<seq<string>>
  )

  /** JavaScript truthiness of the optional hint: present and non-empty. */
  predicate HasHint(e: Example)
  {
    e.hint.Some? && e.hint.value != ""
  }

  /** The card component: the example it shows and its two toggles. */
  class ExampleCardView {
    const example: Example
    var showAnswer: bool
    var showHint: bool

    constructor (example: Example)
      ensures this.example == example && !showAnswer && !showHint
    {
      this.example := example;
      showAnswer := false;
      showHint := false;
    }

    /** The hint button's click handler. */
    method ToggleHint()
      modifies this
      ensures showHint == !old(showHint) && showAnswer == old(showAnswer)
    {
      showHint := !showHint;
    }

    /** The answer button's click handler. */
    method ToggleAnswer()
      modifies this
      ensures showAnswer == !old(showAnswer) && showHint == old(showHint)
    {
      showAnswer := !showAnswer;
    }

    /** What the card renders in the current state. */
    function Render(): (v: CardView)
      reads this
      ensures v.title == example.title && v.question == MathSegments(example.question)
      ensures v.difficultyClass == DifficultyColor(DifficultyName(example.difficulty))
      ensures v.difficultyText == DifficultyText(DifficultyName(example.difficulty))
      ensures v.typeText == TypeText(QuestionTypeName(example.kind))
      ensures v.options.Some? <==> example.options.Some? && |example.options.value| > 0
      ensures v.options.Some? ==> v.options.value == OptionLines(example.options.value)
      ensures v.hint.Some? <==> HasHint(example)
      ensures v.hint.Some? ==> (v.hint.value.body.Some? <==> showHint)
      ensures v.hint.Some? && showHint ==> v.hint.value.body == Some(MathSegments(example.hint.value))
      ensures v.hint.Some? ==> v.hint.value.buttonLabel == if showHint then "🙈 隱藏提示" else "💡 顯示提示"
      ensures v.answerButtonLabel == if showAnswer then "📖 隱藏解答" else "✅ 查看解答"
      ensures v.answerAndSolution.Some? <==> showAnswer
      ensures showAnswer ==> v.answerAndSolution == Some((MathSegments(example.answer), MathSegments(example.solution)))
      ensures v.tags.Some? <==> |example.tags| > 0
      ensures v.tags.Some? ==> v.tags.value == example.tags
    {
      var e := example;
      CardView(
        e.title,
        DifficultyColor(DifficultyName(e.difficulty)),
        DifficultyText(DifficultyName(e.difficulty)),
        TypeText(QuestionTypeName(e.kind)),
        MathSegments(e.question),
        if e.options.Some? && |e.options.value| > 0 then Some(OptionLines(e.options.value)) else None,
        if HasHint(e)
        then Some(HintView(if showHint then "🙈 隱藏提示" else "💡 顯示提示",
                           if showHint then Some(MathSegments(e.hint.value)) else None))
        else None,
        if showAnswer then "📖 隱藏解答" else "✅ 查看解答",
        if showAnswer then Some((MathSegments(e.answer), MathSegments(e.solution))) else None,
        if |e.tags| > 0 then Some(e.tags) else None
      )
    }
  }
}
