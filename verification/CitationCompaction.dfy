/** Adjacent references to consecutive originals become one reference
    (internal/investigator/article_delivery_citations.go). */
module CitationCompaction {
  import opened Lists
  import opened Wrappers
  import opened ArticleBlocks

  /** Where a segment stands in the transcript, and the identity of a group by its content. */
  datatype Index = Index(ordinal: map<string, int>, hash: Citation -> string)

  const GROUP := "sources_"

  function Ordinals(transcript: seq<string>, n: nat): map<string, int>
    requires n <= |transcript|
  {
    if n == 0 then map[] else Ordinals(transcript, n - 1)[transcript[n - 1] := n - 1]
  }

  // ----- which citations may be joined

  /** The segments follow each other, the first one after position `last`. */
  predicate Consecutive(x: Index, segments: seq<string>, last: int) {
    forall j | 0 <= j < |segments| :: segments[j] in x.ordinal && x.ordinal[segments[j]] == last + 1 + j
  }

  predicate Paraphrase(c: Citation) {
    c.VideoText? && c.quote == None && c.range.Some? && c.segmentIds != []
  }

  /** A citation that can start a group. */
  predicate Eligible(x: Index, c: Citation) {
    Paraphrase(c) && c.segmentIds[0] in x.ordinal && Consecutive(x, c.segmentIds, x.ordinal[c.segmentIds[0]] - 1)
  }

  function LastOrdinal(x: Index, c: Citation): int
    requires Eligible(x, c)
  {
    x.ordinal[c.segmentIds[0]] + |c.segmentIds| - 1
  }

  predicate Joins(x: Index, g: Citation, c: Citation)
    requires Eligible(x, g)
  {
    && Paraphrase(c) && c.snapshotId == g.snapshotId && c.textOrigin == g.textOrigin && c.display == g.display
    && Consecutive(x, c.segmentIds, LastOrdinal(x, g))
  }

  function Hull(r: Range, s: Range): Range {
    Range(if s.startMs < r.startMs then s.startMs else r.startMs, if s.endMs > r.endMs then s.endMs else r.endMs)
  }

  function Append(g: Citation, c: Citation): Citation
    requires Paraphrase(g) && Paraphrase(c)
  {
    VideoText(g.id, g.display, g.snapshotId, g.segmentIds + c.segmentIds, Some(Hull(g.range.value, c.range.value)), None, g.textOrigin)
  }

  lemma JoinedIsEligible(x: Index, g: Citation, c: Citation)
    requires Eligible(x, g) && Joins(x, g, c)
    ensures Eligible(x, c) && Eligible(x, Append(g, c)) && LastOrdinal(x, Append(g, c)) == LastOrdinal(x, c)
  {
  }

  // ----- one reference list

  datatype Grouped = Grouped(group: Citation, end: nat)

  function Extend(x: Index, m: map<string, Citation>, ids: seq<string>, g: Citation, end: nat): (r: Grouped)
    requires Eligible(x, g) && end <= |ids|
    ensures end <= r.end <= |ids| && Eligible(x, r.group) && r.group.VideoText?
    decreases |ids| - end
  {
    if end < |ids| && ids[end] in m && Joins(x, g, m[ids[end]]) then
      JoinedIsEligible(x, g, m[ids[end]]);
      Extend(x, m, ids, Append(g, m[ids[end]]), end + 1)
    else Grouped(g, end)
  }

  function WithId(g: Citation, id: string): Citation
    requires g.VideoText?
  {
    VideoText(id, g.display, g.snapshotId, g.segmentIds, g.range, g.quote, g.textOrigin)
  }

  /** A group is identified by its content without the identity. */
  function GroupId(x: Index, g: Citation): string
    requires g.VideoText?
  {
    GROUP + x.hash(WithId(g, ""))
  }

  function Named(x: Index, g: Citation): Citation
    requires g.VideoText?
  {
    WithId(g, GroupId(x, g))
  }

  datatype Listed = Listed(citations: map<string, Citation>, ids: seq<string>)

  /** The list from position `i` on, compacted. */
  function CompactFrom(x: Index, m: map<string, Citation>, ids: seq<string>, i: nat): Listed
    requires i <= |ids|
    decreases |ids| - i
  {
    if i == |ids| then Listed(m, [])
    else if ids[i] !in m || !Eligible(x, m[ids[i]]) then
      var rest := CompactFrom(x, m, ids, i + 1);
      Listed(rest.citations, [ids[i]] + rest.ids)
    else
      var r := Extend(x, m, ids, m[ids[i]], i + 1);
      if r.end == i + 1 then
        var rest := CompactFrom(x, m, ids, i + 1);
        Listed(rest.citations, [ids[i]] + rest.ids)
      else
        var g := Named(x, r.group);
        var rest := CompactFrom(x, m[g.id := g], ids, r.end);
        Listed(rest.citations, [g.id] + rest.ids)
  }

  /** `refs`. */
  function CompactIds(x: Index, m: map<string, Citation>, ids: seq<string>): Listed {
    CompactFrom(x, m, ids, 0)
  }

  // ----- inline content

  /** The citations of the run of references that starts at position `i`. */
  function RunAt(items: seq<Inline>, i: nat): (ids: seq<string>)
    requires i <= |items|
    ensures i + |ids| <= |items| && forall k | 0 <= k < |ids| :: items[i + k] == Cite(ids[k])
    ensures i + |ids| < |items| ==> !items[i + |ids|].Cite?
    decreases |items| - i
  {
    if i == |items| || !items[i].Cite? then [] else [items[i].id] + RunAt(items, i + 1)
  }

  function References(ids: seq<string>): seq<Inline> {
    seq(|ids|, k requires 0 <= k < |ids| => Cite(ids[k]))
  }

  datatype Inlined = Inlined(citations: map<string, Citation>, items: seq<Inline>)

  function CompactInlinesFrom(x: Index, m: map<string, Citation>, items: seq<Inline>, i: nat): Inlined
    requires i <= |items|
    decreases |items| - i
  {
    if i == |items| then Inlined(m, [])
    else if !items[i].Cite? then
      var rest := CompactInlinesFrom(x, m, items, i + 1);
      Inlined(rest.citations, [items[i]] + rest.items)
    else
      var run := RunAt(items, i);
      var made := CompactIds(x, m, run);
      var rest := CompactInlinesFrom(x, made.citations, items, i + |run|);
      Inlined(rest.citations, References(made.ids) + rest.items)
  }

  function CompactInlines(x: Index, m: map<string, Citation>, items: seq<Inline>): Inlined {
    CompactInlinesFrom(x, m, items, 0)
  }

  // ----- blocks and articles, first to last

  datatype Compacted<T> = Compacted(citations: map<string, Citation>, parts: seq<T>)

  function CompactItems(x: Index, m: map<string, Citation>, items: seq<Item>, n: nat): Compacted<Item>
    requires n <= |items|
  {
    if n == 0 then Compacted(m, [])
    else
      var front := CompactItems(x, m, items, n - 1);
      var made := CompactInlines(x, front.citations, items[n - 1].content);
      Compacted(made.citations, front.parts + [items[n - 1].(content := made.items)])
  }

  function CompactRows(x: Index, m: map<string, Citation>, rows: seq<Row>, n: nat): Compacted<Row>
    requires n <= |rows|
  {
    if n == 0 then Compacted(m, [])
    else
      var front := CompactRows(x, m, rows, n - 1);
      var made := CompactIds(x, front.citations, rows[n - 1].citationIds);
      Compacted(made.citations, front.parts + [rows[n - 1].(citationIds := made.ids)])
  }

  datatype Made = Made(citations: map<string, Citation>, block: Block)

  function CompactBlock(x: Index, m: map<string, Citation>, b: Block): Made {
    match b
    case Paragraph(id, origin, content) =>
      var made := CompactInlines(x, m, content);
      Made(made.citations, Paragraph(id, origin, made.items))
    case Quotation(id, content) =>
      var made := CompactInlines(x, m, content);
      Made(made.citations, Quotation(id, made.items))
    case Listing(id, ordered, items) =>
      var made := CompactItems(x, m, items, |items|);
      Made(made.citations, Listing(id, ordered, made.parts))
    case Code(id, language, text, citationIds) =>
      var made := CompactIds(x, m, citationIds);
      Made(made.citations, Code(id, language, text, made.ids))
    case Table(id, columns, rows) =>
      var made := CompactRows(x, m, rows, |rows|);
      Made(made.citations, Table(id, columns, made.parts))
    case Figure(id, frameIds, layout, caption, citationIds) =>
      var made := CompactIds(x, m, citationIds);
      Made(made.citations, Figure(id, frameIds, layout, caption, made.ids))
  }

  function CompactBlocks(x: Index, m: map<string, Citation>, bs: seq<Block>, n: nat): Compacted<Block>
    requires n <= |bs|
  {
    if n == 0 then Compacted(m, [])
    else
      var front := CompactBlocks(x, m, bs, n - 1);
      var made := CompactBlock(x, front.citations, bs[n - 1]);
      Compacted(made.citations, front.parts + [made.block])
  }

  function CompactSections(x: Index, m: map<string, Citation>, ss: seq<Section>, n: nat): Compacted<Section>
    requires n <= |ss|
  {
    if n == 0 then Compacted(m, [])
    else
      var front := CompactSections(x, m, ss, n - 1);
      var made := CompactBlocks(x, front.citations, ss[n - 1].blocks, |ss[n - 1].blocks|);
      Compacted(made.citations, front.parts + [ss[n - 1].(blocks := made.parts)])
  }

  function CompactLimitations(x: Index, m: map<string, Citation>, ls: seq<Limitation>, n: nat): Compacted<Limitation>
    requires n <= |ls|
  {
    if n == 0 then Compacted(m, [])
    else
      var front := CompactLimitations(x, m, ls, n - 1);
      var made := CompactIds(x, front.citations, ls[n - 1].citationIds);
      Compacted(made.citations, front.parts + [ls[n - 1].(citationIds := made.ids)])
  }

  /** `compactDeliveryCitations`. */
  function Compact(x: Index, a: Article): Article {
    var sections := CompactSections(x, a.citations, a.sections, |a.sections|);
    var limitations := CompactLimitations(x, sections.citations, a.limitations, |a.limitations|);
    a.(sections := sections.parts, limitations := limitations.parts, citations := limitations.citations)
  }

  // ----- the compaction as it is performed

  method GroupRefs(x: Index, m: map<string, Citation>, ids: seq<string>, i: nat) returns (group: Citation, end: nat)
    requires i < |ids| && ids[i] in m && Eligible(x, m[ids[i]])
    ensures Extend(x, m, ids, m[ids[i]], i + 1) == Grouped(group, end) && group.VideoText?
  {
    hide Append, LastOrdinal, Consecutive;
    group, end := m[ids[i]], i + 1;
    while end < |ids| && ids[end] in m && Joins(x, group, m[ids[end]])
      invariant i + 1 <= end <= |ids| && Eligible(x, group)
      invariant Extend(x, m, ids, group, end) == Extend(x, m, ids, m[ids[i]], i + 1)
    {
      JoinedIsEligible(x, group, m[ids[end]]);
      group := Append(group, m[ids[end]]);
      end := end + 1;
    }
  }

  /** What remains of a list completes what was put out. */
  ghost predicate Continues(x: Index, whole: Listed, ids: seq<string>, m: map<string, Citation>, out: seq<string>, i: nat)
    requires i <= |ids|
  {
    whole == Listed(CompactFrom(x, m, ids, i).citations, out + CompactFrom(x, m, ids, i).ids)
  }

  lemma KeepsOne(x: Index, whole: Listed, ids: seq<string>, m: map<string, Citation>, out: seq<string>, i: nat)
    requires i < |ids| && Continues(x, whole, ids, m, out, i)
    requires (ids[i] in m && Eligible(x, m[ids[i]])) ==> Extend(x, m, ids, m[ids[i]], i + 1).end == i + 1
    ensures Continues(x, whole, ids, m, out + [ids[i]], i + 1)
  {
    hide Eligible, Extend;
    var rest := CompactFrom(x, m, ids, i + 1);
    assert out + ([ids[i]] + rest.ids) == (out + [ids[i]]) + rest.ids;
  }

  lemma JoinsSome(x: Index, whole: Listed, ids: seq<string>, m: map<string, Citation>, out: seq<string>, i: nat)
    requires i < |ids| && Continues(x, whole, ids, m, out, i) && ids[i] in m && Eligible(x, m[ids[i]])
    requires Extend(x, m, ids, m[ids[i]], i + 1).end > i + 1
    ensures var r := Extend(x, m, ids, m[ids[i]], i + 1); var g := Named(x, r.group); Continues(x, whole, ids, m[g.id := g], out + [g.id], r.end)
  {
    hide Eligible, Extend, Named;
    var r := Extend(x, m, ids, m[ids[i]], i + 1);
    var g := Named(x, r.group);
    var rest := CompactFrom(x, m[g.id := g], ids, r.end);
    assert out + ([g.id] + rest.ids) == (out + [g.id]) + rest.ids;
  }

  method CompactRefs(x: Index, citations: map<string, Citation>, ids: seq<string>) returns (r: Listed)
    ensures r == CompactIds(x, citations, ids)
  {
    hide Extend, Named, CompactFrom, Continues, Eligible;
    var m, out: seq<string> := citations, [];
    var i := 0;
    ghost var whole := CompactIds(x, citations, ids);
    assert Continues(x, whole, ids, m, out, 0) by { AtStart(x, citations, ids); }
    while i < |ids|
      invariant 0 <= i <= |ids| && Continues(x, whole, ids, m, out, i)
    {
      if ids[i] !in m || !Eligible(x, m[ids[i]]) {
        KeepsOne(x, whole, ids, m, out, i);
        out := out + [ids[i]];
        i := i + 1;
      } else {
        var group, end := GroupRefs(x, m, ids, i);
        if end > i + 1 {
          JoinsSome(x, whole, ids, m, out, i);
          var g := Named(x, group);
          m := m[g.id := g];
          out := out + [g.id];
        } else {
          KeepsOne(x, whole, ids, m, out, i);
          out := out + [ids[i]];
        }
        i := end;
      }
    }
    AtEnd(x, whole, ids, m, out);
    r := Listed(m, out);
  }

  lemma AtStart(x: Index, m: map<string, Citation>, ids: seq<string>)
    ensures Continues(x, CompactIds(x, m, ids), ids, m, [], 0)
  {
    hide CompactFrom;
    assert [] + CompactFrom(x, m, ids, 0).ids == CompactFrom(x, m, ids, 0).ids;
  }

  lemma AtEnd(x: Index, whole: Listed, ids: seq<string>, m: map<string, Citation>, out: seq<string>)
    requires Continues(x, whole, ids, m, out, |ids|)
    ensures whole == Listed(m, out)
  {
  }

  ghost predicate InlinesContinue(x: Index, whole: Inlined, items: seq<Inline>, m: map<string, Citation>, out: seq<Inline>, i: nat)
    requires i <= |items|
  {
    whole == Inlined(CompactInlinesFrom(x, m, items, i).citations, out + CompactInlinesFrom(x, m, items, i).items)
  }

  lemma InlineKept(x: Index, whole: Inlined, items: seq<Inline>, m: map<string, Citation>, out: seq<Inline>, i: nat)
    requires i < |items| && InlinesContinue(x, whole, items, m, out, i) && !items[i].Cite?
    ensures InlinesContinue(x, whole, items, m, out + [items[i]], i + 1)
  {
    var rest := CompactInlinesFrom(x, m, items, i + 1);
    assert out + ([items[i]] + rest.items) == (out + [items[i]]) + rest.items;
  }

  lemma RunCompacted(x: Index, whole: Inlined, items: seq<Inline>, m: map<string, Citation>, out: seq<Inline>, i: nat)
    requires i < |items| && InlinesContinue(x, whole, items, m, out, i) && items[i].Cite?
    ensures var run := RunAt(items, i); var made := CompactIds(x, m, run); InlinesContinue(x, whole, items, made.citations, out + References(made.ids), i + |run|)
  {
    hide CompactIds, References;
    var run := RunAt(items, i);
    var made := CompactIds(x, m, run);
    var rest := CompactInlinesFrom(x, made.citations, items, i + |run|);
    assert out + (References(made.ids) + rest.items) == (out + References(made.ids)) + rest.items;
  }

  method TakeRun(items: seq<Inline>, start: nat) returns (ids: seq<string>)
    requires start <= |items|
    ensures ids == RunAt(items, start)
  {
    ids := [];
    var i := start;
    while i < |items| && items[i].Cite?
      invariant start <= i <= |items| && ids + RunAt(items, i) == RunAt(items, start)
    {
      ids := ids + [items[i].id];
      i := i + 1;
    }
  }

  method CompactContent(x: Index, citations: map<string, Citation>, items: seq<Inline>) returns (r: Inlined)
    ensures r == CompactInlines(x, citations, items)
  {
    hide CompactIds, References, CompactInlinesFrom, InlinesContinue, RunAt;
    var m, out: seq<Inline> := citations, [];
    var i := 0;
    ghost var whole := CompactInlines(x, citations, items);
    InlinesAtStart(x, citations, items);
    while i < |items|
      invariant 0 <= i <= |items| && InlinesContinue(x, whole, items, m, out, i)
    {
      if !items[i].Cite? {
        InlineKept(x, whole, items, m, out, i);
        out := out + [items[i]];
        i := i + 1;
      } else {
        RunCompacted(x, whole, items, m, out, i);
        RunIsSome(items, i);
        var ids := TakeRun(items, i);
        var made := CompactRefs(x, m, ids);
        m, out, i := made.citations, out + References(made.ids), i + |ids|;
      }
    }
    InlinesAtEnd(x, whole, items, m, out);
    r := Inlined(m, out);
  }

  lemma InlinesAtStart(x: Index, m: map<string, Citation>, items: seq<Inline>)
    ensures InlinesContinue(x, CompactInlines(x, m, items), items, m, [], 0)
  {
    hide CompactInlinesFrom;
    assert [] + CompactInlinesFrom(x, m, items, 0).items == CompactInlinesFrom(x, m, items, 0).items;
  }

  lemma InlinesAtEnd(x: Index, whole: Inlined, items: seq<Inline>, m: map<string, Citation>, out: seq<Inline>)
    requires InlinesContinue(x, whole, items, m, out, |items|)
    ensures whole == Inlined(m, out)
  {
  }

  lemma RunIsSome(items: seq<Inline>, i: nat)
    requires i < |items| && items[i].Cite?
    ensures RunAt(items, i) != []
  {
  }

  method CompactOne(x: Index, citations: map<string, Citation>, b: Block) returns (r: Made)
    ensures r == CompactBlock(x, citations, b)
  {
    hide CompactInlines, CompactIds;
    match b {
      case Paragraph(id, origin, content) =>
        var made := CompactContent(x, citations, content);
        r := Made(made.citations, Paragraph(id, origin, made.items));
      case Quotation(id, content) =>
        var made := CompactContent(x, citations, content);
        r := Made(made.citations, Quotation(id, made.items));
      case Listing(id, ordered, items) =>
        var m, out: seq<Item> := citations, [];
        for n := 0 to |items|
          invariant CompactItems(x, citations, items, n) == Compacted(m, out)
        {
          var made := CompactContent(x, m, items[n].content);
          m, out := made.citations, out + [items[n].(content := made.items)];
        }
        r := Made(m, Listing(id, ordered, out));
      case Code(id, language, text, citationIds) =>
        var made := CompactRefs(x, citations, citationIds);
        r := Made(made.citations, Code(id, language, text, made.ids));
      case Table(id, columns, rows) =>
        var m, out: seq<Row> := citations, [];
        for n := 0 to |rows|
          invariant CompactRows(x, citations, rows, n) == Compacted(m, out)
        {
          var made := CompactRefs(x, m, rows[n].citationIds);
          m, out := made.citations, out + [rows[n].(citationIds := made.ids)];
        }
        r := Made(m, Table(id, columns, out));
      case Figure(id, frameIds, layout, caption, citationIds) =>
        var made := CompactRefs(x, citations, citationIds);
        r := Made(made.citations, Figure(id, frameIds, layout, caption, made.ids));
    }
  }

  method CompactArticle(x: Index, a: Article) returns (r: Article)
    ensures r == Compact(x, a)
  {
    hide CompactBlock, CompactIds;
    var m, sections: seq<Section> := a.citations, [];
    for n := 0 to |a.sections|
      invariant CompactSections(x, a.citations, a.sections, n) == Compacted(m, sections)
    {
      ghost var before := m;
      var bs, blocks: seq<Block> := a.sections[n].blocks, [];
      for k := 0 to |bs|
        invariant CompactBlocks(x, before, bs, k) == Compacted(m, blocks)
      {
        var made := CompactOne(x, m, bs[k]);
        m, blocks := made.citations, blocks + [made.block];
      }
      sections := sections + [a.sections[n].(blocks := blocks)];
    }
    ghost var before := m;
    var limitations: seq<Limitation> := [];
    for n := 0 to |a.limitations|
      invariant CompactLimitations(x, before, a.limitations, n) == Compacted(m, limitations)
    {
      var made := CompactRefs(x, m, a.limitations[n].citationIds);
      m, limitations := made.citations, limitations + [a.limitations[n].(citationIds := made.ids)];
    }
    r := a.(sections := sections, limitations := limitations, citations := m);
  }
}
