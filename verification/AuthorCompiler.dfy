/** The compiler and the projection as the engine runs them: loops that stop at the first problem. */
module AuthorCompiler {
  import opened Lists
  import opened Text
  import opened Wrappers
  import opened ArticleBlocks
  import opened AuthorLanguage

  lemma FirstUndeliveredAt(cat: map<string, Citation>, ids: seq<string>, k: nat)
    requires k < |ids| && ids[k] !in cat && forall j | 0 <= j < k :: ids[j] in cat
    ensures FirstUndelivered(cat, ids) == ids[k]
  {
    if k > 0 {
      FirstUndeliveredAt(cat, ids[1..], k - 1);
      assert ids[1..][k - 1] == ids[k];
    }
  }

  /** Collects the citations of the sources of one unit. */
  method Refs(cat: map<string, Citation>, ids: seq<string>) returns (r: Result<map<string, Citation>>)
    ensures r == Sourced(cat, ids)
  {
    if ids == [] {
      return Fail(NoSources);
    }
    var citations: map<string, Citation> := map[];
    var k := 0;
    while k < |ids|
      invariant 0 <= k <= |ids| && forall j | 0 <= j < k :: ids[j] in cat
      invariant forall id :: id in citations <==> id in ids[..k]
      invariant forall id | id in citations :: id in cat && citations[id] == cat[id]
    {
      if ids[k] !in cat {
        FirstUndeliveredAt(cat, ids, k);
        assert ids[k] in ids;
        return Fail(Undelivered(ids[k]));
      }
      citations := citations[ids[k] := cat[ids[k]]];
      TakeOneMore(ids, k + 1);
      k := k + 1;
    }
    assert ids[..k] == ids;
    assert citations == CitationsOf(cat, ids);
    r := Ok(citations);
  }

  method GatherRun(w: World, cat: map<string, Citation>, sources: seq<string>) returns (r: Result<seq<Segment>>)
    requires forall id | id in sources :: id in cat
    ensures r == Gather(w, cat, sources, |sources|)
  {
    var got: seq<Segment> := [];
    var n := 0;
    while n < |sources|
      invariant 0 <= n <= |sources| && Gather(w, cat, sources, n) == Ok(got)
    {
      var c := cat[sources[n]];
      if !c.VideoText? {
        FailureStays(w, cat, sources, n + 1, |sources|);
        return Fail(QuoteNeedsText);
      }
      var before, found, m := got, false, 0;
      while m < |w.transcript|
        invariant 0 <= m <= |w.transcript| && GatherSource(w.transcript, m, c.segmentIds, n == 0, before) == Ok(got)
        invariant found <==> got != before
        invariant |before| <= |got|
      {
        if w.transcript[m].id in c.segmentIds {
          if n > 0 && w.transcript[m].ordinal != LastOrdinal(got) + 1 {
            GatherFailureStays(w.transcript, m + 1, |w.transcript|, c.segmentIds, n == 0, before);
            FailureStays(w, cat, sources, n + 1, |sources|);
            return Fail(QuoteNotContinuous);
          }
          got := got + [w.transcript[m]];
          found := true;
        }
        m := m + 1;
      }
      if !found {
        FailureStays(w, cat, sources, n + 1, |sources|);
        return Fail(QuoteUnavailable);
      }
      n := n + 1;
    }
    r := Ok(got);
  }

  lemma {:induction false} FailureStays(w: World, cat: map<string, Citation>, sources: seq<string>, n: nat, end: nat)
    requires n <= end <= |sources| && (forall id | id in sources :: id in cat) && Gather(w, cat, sources, n).Fail?
    ensures Gather(w, cat, sources, end) == Gather(w, cat, sources, n)
  {
    if n < end {
      FailureStays(w, cat, sources, n, end - 1);
    }
  }

  lemma {:induction false} GatherFailureStays(ts: seq<Segment>, m: nat, end: nat, ids: seq<string>, first: bool, got: seq<Segment>)
    requires m <= end <= |ts| && GatherSource(ts, m, ids, first, got).Fail?
    ensures GatherSource(ts, end, ids, first, got) == GatherSource(ts, m, ids, first, got)
  {
    if m < end {
      GatherFailureStays(ts, m, end - 1, ids, first, got);
    }
  }

  method CanonicalQuote(w: World, cat: map<string, Citation>, blockId: string, text: string, sources: seq<string>) returns (r: Result<Unit>)
    ensures r == CompileQuote(w, cat, blockId, text, sources)
  {
    if Blank(text) {
      return Fail(EmptyText);
    }
    var citations := Refs(cat, sources);
    if citations.Fail? {
      return Fail(citations.reason);
    }
    var got := GatherRun(w, cat, sources);
    if got.Fail? {
      return Fail(got.reason);
    }
    if !Occurs(Normalize(Lines(got.value)), Normalize(text)) {
      return Fail(QuoteNotVerbatim);
    }
    GatheredIsText(w, cat, sources, |sources|);
    var q := QuoteCitation(w, cat, text, sources, got.value);
    r := Ok(Unit(Quotation(blockId, Inlines(text, [q.id])), citations.value[q.id := q], map[]));
  }

  lemma {:induction false} ItemFailureStays(cat: map<string, Citation>, b: string, items: seq<SourcedText>, n: nat, end: nat)
    requires n <= end <= |items| && CompileItems(cat, b, items, n).Fail?
    ensures CompileItems(cat, b, items, end) == CompileItems(cat, b, items, n)
  {
    if n < end {
      ItemFailureStays(cat, b, items, n, end - 1);
    }
  }

  method CanonicalList(cat: map<string, Citation>, blockId: string, list: Bullets, sources: seq<string>) returns (r: Result<Unit>)
    ensures r == CompileList(cat, blockId, list, sources)
  {
    hide Sourced, Inlines, TrimSpace, ItemId;
    if list.items == [] || sources != [] {
      return Fail(ListNeedsItems);
    }
    var items: seq<Item>, citations: map<string, Citation> := [], map[];
    var j := 0;
    while j < |list.items|
      invariant 0 <= j <= |list.items| && CompileItems(cat, blockId, list.items, j) == Ok(Parts(items, citations))
    {
      var item := list.items[j];
      if Blank(item.text) {
        ItemFailureStays(cat, blockId, list.items, j + 1, |list.items|);
        return Fail(EmptyItem);
      }
      var more := Refs(cat, item.sources);
      if more.Fail? {
        ItemFailureStays(cat, blockId, list.items, j + 1, |list.items|);
        return Fail(more.reason);
      }
      items := items + [Item(ItemId(blockId, j), Inlines(item.text, item.sources))];
      citations := citations + more.value;
      j := j + 1;
    }
    r := Ok(Unit(Listing(blockId, list.ordered, items), citations, map[]));
  }

  lemma {:induction false} RowFailureStays(cat: map<string, Citation>, width: nat, rows: seq<SourcedRow>, n: nat, end: nat)
    requires n <= end <= |rows| && CompileRows(cat, width, rows, n).Fail?
    ensures CompileRows(cat, width, rows, end) == CompileRows(cat, width, rows, n)
  {
    if n < end {
      RowFailureStays(cat, width, rows, n, end - 1);
    }
  }

  method CanonicalTable(cat: map<string, Citation>, blockId: string, table: Grid, sources: seq<string>) returns (r: Result<Unit>)
    ensures r == CompileTable(cat, blockId, table, sources)
  {
    hide Sourced;
    if table.columns == [] || table.rows == [] || sources != [] {
      return Fail(TableNeedsRows);
    }
    var rows: seq<Row>, citations: map<string, Citation> := [], map[];
    var width, j := |table.columns|, 0;
    while j < |table.rows|
      invariant 0 <= j <= |table.rows| && CompileRows(cat, width, table.rows, j) == Ok(Parts(rows, citations))
    {
      var row := table.rows[j];
      if |row.cells| != width {
        RowFailureStays(cat, width, table.rows, j + 1, |table.rows|);
        return Fail(ColumnMismatch);
      }
      var more := Refs(cat, row.sources);
      if more.Fail? {
        RowFailureStays(cat, width, table.rows, j + 1, |table.rows|);
        return Fail(more.reason);
      }
      rows := rows + [Row(row.cells, row.sources)];
      citations := citations + more.value;
      j := j + 1;
    }
    r := Ok(Unit(Table(blockId, table.columns, rows), citations, map[]));
  }

  /** The frames of a figure in time order, each shown once. */
  method FigureFrames(cat: map<string, Citation>, frames: seq<string>) returns (r: Option<seq<string>>)
    requires forall id | id in frames :: id in cat
    ensures r == if FramesFollow(cat, frames) then Some(FrameIds(cat, frames)) else None
  {
    var last, seen: set<string>, frameIds: seq<string> := -1, {}, [];
    var k := 0;
    while k < |frames|
      invariant 0 <= k <= |frames| && |frameIds| == k
      invariant forall j | 0 <= j < k :: FrameFollows(cat, frames, j) && frameIds[j] == cat[frames[j]].frameId
      invariant seen == Elements(frames[..k])
      invariant last == if k == 0 then -1 else cat[frames[k - 1]].timeMs
    {
      var c := cat[frames[k]];
      if !c.VideoFrame? || c.timeMs < last || frames[k] in seen {
        assert !FrameFollows(cat, frames, k);
        return None;
      }
      last, seen := c.timeMs, seen + {frames[k]};
      frameIds := frameIds + [c.frameId];
      TakeOneMore(frames, k + 1);
      k := k + 1;
    }
    assert frameIds == FrameIds(cat, frames);
    r := Some(frameIds);
  }

  method CanonicalFigure(cat: map<string, Citation>, blockId: string, f: Picture, sources: seq<string>) returns (r: Result<Unit>)
    ensures r == CompileFigure(cat, blockId, f, sources)
  {
    hide Sourced, TrimSpace, FramesFollow, FrameIds;
    if f.frames == [] || Blank(f.caption) || f.note.visibleFacts == [] || sources != [] {
      return Fail(FigureIncomplete);
    }
    var citations := Refs(cat, f.frames);
    if citations.Fail? {
      return Fail(citations.reason);
    }
    assert forall id | id in f.frames :: id in cat by {
      SourcedIsDelivered(cat, f.frames);
    }
    var frameIds := FigureFrames(cat, f.frames);
    if frameIds.None? {
      return Fail(FigureInvalid);
    }
    var notes: map<string, Note> := map[];
    for k := 0 to |frameIds.value|
      invariant notes == map id | id in frameIds.value[..k] :: f.note
    {
      notes := notes[frameIds.value[k] := f.note];
      TakeOneMore(frameIds.value, k + 1);
    }
    assert frameIds.value[..|frameIds.value|] == frameIds.value;
    r := Ok(Unit(Figure(blockId, frameIds.value, if |f.frames| > 1 then Sequence else Single, f.caption, f.frames), citations.value, notes));
  }

  lemma SourcedIsDelivered(cat: map<string, Citation>, ids: seq<string>)
    requires Sourced(cat, ids).Ok?
    ensures forall id | id in ids :: id in cat
  {
  }

  /** One entry of the content of a section, by its only constructor. */
  method CanonicalUnit(w: World, cat: map<string, Citation>, blockId: string, c: Content) returns (r: Result<Unit>)
    ensures r == CompileUnit(w, cat, blockId, c)
  {
    hide CompileQuote, CompileList, CompileTable, CompileFigure, Sourced, TrimSpace, Inlines;
    if Constructors(c) != 1 {
      return Fail(NotOneConstructor);
    }
    if c.text.Some? {
      r := Ok(Unit(Paragraph(blockId, FromVideo, Inlines(c.text.value, c.sources)), map[], map[]));
      if Blank(c.text.value) {
        return Fail(EmptyText);
      }
      var citations := Refs(cat, c.sources);
      if citations.Fail? {
        return Fail(citations.reason);
      }
      r := Ok(r.value.(citations := citations.value));
    } else if c.quote.Some? {
      r := CanonicalQuote(w, cat, blockId, c.quote.value, c.sources);
    } else if c.background.Some? {
      r := CompileBackground(blockId, c.background.value, c.sources);
    } else if c.list.Some? {
      r := CanonicalList(cat, blockId, c.list.value, c.sources);
    } else if c.code.Some? {
      var code := c.code.value;
      var citations := Refs(cat, c.sources);
      if citations.Fail? {
        return Fail(citations.reason);
      }
      if Blank(code.text) {
        return Fail(EmptyCode);
      }
      r := Ok(Unit(Code(blockId, code.language, code.text, c.sources), citations.value, map[]));
    } else if c.table.Some? {
      r := CanonicalTable(cat, blockId, c.table.value, c.sources);
    } else {
      r := CanonicalFigure(cat, blockId, c.figure.value, c.sources);
    }
  }

  lemma {:induction false} UnitFailureStays(w: World, cat: map<string, Citation>, id: string, content: seq<Content>, n: nat, end: nat)
    requires n <= end <= |content| && CompileUnits(w, cat, id, content, n).Fail?
    ensures CompileUnits(w, cat, id, content, end) == CompileUnits(w, cat, id, content, n)
  {
    hide CompileUnit;
    if n < end {
      UnitFailureStays(w, cat, id, content, n, end - 1);
    }
  }

  lemma {:induction false} LimitationFailureStays(cat: map<string, Citation>, id: string, ls: seq<ScopedLimitation>, n: nat, end: nat)
    requires n <= end <= |ls| && CompileLimitations(cat, id, ls, n).Fail?
    ensures CompileLimitations(cat, id, ls, end) == CompileLimitations(cat, id, ls, n)
  {
    hide LimitationProblem;
    if n < end {
      LimitationFailureStays(cat, id, ls, n, end - 1);
    }
  }

  /** `loopCanonicalSection`. */
  method CanonicalSection(w: World, cat: map<string, Citation>, s: AuthorSection, id: string) returns (r: Result<Compiled>)
    ensures r == CompileSection(w, cat, s, id)
  {
    hide CompileUnit, LimitationProblem, TrimSpace, BlockId;
    if s.rejected != "" {
      return Fail(Malformed(s.rejected));
    }
    if Blank(s.title) || s.content == [] || |s.content| > MAX_BLOCKS {
      return Fail(NoTitleOrContent);
    }
    var blocks: seq<Block>, citations: map<string, Citation>, notes: map<string, Note> := [], map[], map[];
    var i := 0;
    while i < |s.content|
      invariant 0 <= i <= |s.content| && CompileUnits(w, cat, id, s.content, i) == Ok(Units(blocks, citations, notes))
    {
      var unit := CanonicalUnit(w, cat, BlockId(id, i), s.content[i]);
      if unit.Fail? {
        UnitFailureStays(w, cat, id, s.content, i + 1, |s.content|);
        return Fail(unit.reason);
      }
      blocks, citations, notes := blocks + [unit.value.block], citations + unit.value.citations, notes + unit.value.notes;
      i := i + 1;
    }
    ghost var made := notes;
    i := 0;
    while i < |s.observations|
      invariant 0 <= i <= |s.observations| && forall k | 0 <= k < i :: Observed(cat, s.observations[k])
      invariant notes == Observe(cat, made, s.observations, i)
    {
      var o := s.observations[i];
      if !Observed(cat, o) {
        return Fail(ObservationInvalid);
      }
      notes := notes[cat[o.frame].frameId := o.note];
      i := i + 1;
    }
    var limitations: seq<Limitation>, cited: map<string, Citation> := [], map[];
    i := 0;
    while i < |s.limitations|
      invariant 0 <= i <= |s.limitations| && CompileLimitations(cat, id, s.limitations, i) == Ok(Parts(limitations, cited))
    {
      var l := s.limitations[i];
      var problem := LimitationProblem(cat, l);
      if problem.Some? {
        LimitationFailureStays(cat, id, s.limitations, i + 1, |s.limitations|);
        return Fail(problem.value);
      }
      ProblemFree(cat, l);
      limitations, cited := limitations + [Limitation(l.code, l.message, [id], l.sources)], cited + CitationsOf(cat, l.sources);
      i := i + 1;
    }
    r := Ok(Compiled(Section(id, TrimSpace(s.title), blocks), citations + cited, notes, limitations));
  }

  lemma ProblemFree(cat: map<string, Citation>, l: ScopedLimitation)
    requires LimitationProblem(cat, l).None?
    ensures forall ref | ref in l.sources :: ref in cat
  {
    hide TrimSpace;
  }

  // ----- the projection

  /** The aliases of some citations, or none when one of them has no alias. */
  method AuthorRefs(w: World, citations: map<string, Citation>, ids: seq<string>) returns (r: Option<seq<string>>)
    ensures r == AllNames(w, citations, ids)
  {
    hide NameFrame, NameSegment;
    var out: seq<string> := [];
    var n := 0;
    while n < |ids|
      invariant 0 <= n <= |ids| && Names(w, citations, ids, n) == Some(out)
    {
      if ids[n] !in citations {
        NamelessStays(w, citations, ids, n + 1, |ids|);
        return None;
      }
      var c := citations[ids[n]];
      if c.VideoFrame? {
        var name := NameFrame(w, c.frameId);
        if name.None? {
          NamelessStays(w, citations, ids, n + 1, |ids|);
          return None;
        }
        out := AppendUnique(out, name.value);
      } else if c.VideoText? {
        ghost var before := out;
        var k := 0;
        while k < |c.segmentIds|
          invariant 0 <= k <= |c.segmentIds| && NameSegments(w, c.segmentIds, k, before) == Some(out)
        {
          var name := NameSegment(w, c.segmentIds[k]);
          if name.None? {
            NamelessSegmentsStay(w, c.segmentIds, k + 1, |c.segmentIds|, before);
            NamelessStays(w, citations, ids, n + 1, |ids|);
            return None;
          }
          out := AppendUnique(out, name.value);
          k := k + 1;
        }
      }
      n := n + 1;
    }
    r := Some(out);
  }

  lemma {:induction false} NamelessStays(w: World, citations: map<string, Citation>, ids: seq<string>, n: nat, end: nat)
    requires n <= end <= |ids| && Names(w, citations, ids, n).None?
    ensures Names(w, citations, ids, end).None?
  {
    hide NameCitation;
    if n < end {
      NamelessStays(w, citations, ids, n, end - 1);
    }
  }

  lemma {:induction false} NamelessSegmentsStay(w: World, ids: seq<string>, n: nat, end: nat, out: seq<string>)
    requires n <= end <= |ids| && NameSegments(w, ids, n, out).None?
    ensures NameSegments(w, ids, end, out).None?
  {
    hide NameSegment;
    if n < end {
      NamelessSegmentsStay(w, ids, n, end - 1, out);
    }
  }

  method AuthorItems(w: World, citations: map<string, Citation>, items: seq<Item>) returns (r: Option<seq<SourcedText>>)
    ensures r == ProjectItems(w, citations, items, |items|)
  {
    hide AllNames, PlainText, InlineCitations;
    var out: seq<SourcedText> := [];
    var n := 0;
    while n < |items|
      invariant 0 <= n <= |items| && ProjectItems(w, citations, items, n) == Some(out)
    {
      var content := items[n].content;
      var sources := AuthorRefs(w, citations, InlineCitations([], content, |content|));
      if sources.None? {
        UnprojectedItemsStay(w, citations, items, n + 1, |items|);
        return None;
      }
      out := out + [SourcedText(PlainText(content), sources.value)];
      n := n + 1;
    }
    r := Some(out);
  }

  lemma {:induction false} UnprojectedItemsStay(w: World, citations: map<string, Citation>, items: seq<Item>, n: nat, end: nat)
    requires n <= end <= |items| && ProjectItems(w, citations, items, n).None?
    ensures ProjectItems(w, citations, items, end).None?
  {
    hide AllNames, PlainText, InlineCitations;
    if n < end {
      UnprojectedItemsStay(w, citations, items, n, end - 1);
    }
  }

  method AuthorRows(w: World, citations: map<string, Citation>, rows: seq<Row>) returns (r: Option<seq<SourcedRow>>)
    ensures r == ProjectRows(w, citations, rows, |rows|)
  {
    hide AllNames;
    var out: seq<SourcedRow> := [];
    var n := 0;
    while n < |rows|
      invariant 0 <= n <= |rows| && ProjectRows(w, citations, rows, n) == Some(out)
    {
      var sources := AuthorRefs(w, citations, rows[n].citationIds);
      if sources.None? {
        UnprojectedRowsStay(w, citations, rows, n + 1, |rows|);
        return None;
      }
      out := out + [SourcedRow(rows[n].cells, sources.value)];
      n := n + 1;
    }
    r := Some(out);
  }

  lemma {:induction false} UnprojectedRowsStay(w: World, citations: map<string, Citation>, rows: seq<Row>, n: nat, end: nat)
    requires n <= end <= |rows| && ProjectRows(w, citations, rows, n).None?
    ensures ProjectRows(w, citations, rows, end).None?
  {
    hide AllNames;
    if n < end {
      UnprojectedRowsStay(w, citations, rows, n, end - 1);
    }
  }

  method AuthorFigure(w: World, notes: map<string, Note>, frameIds: seq<string>, caption: string) returns (r: Option<Picture>)
    ensures var frames := NameFrames(w, frameIds, |frameIds|); r == if frames.None? then None else Some(Picture(frames.value, caption, Gathered(notes, frameIds, |frameIds|)))
  {
    hide NameFrame, NoteOf, Merge, MergeFirst, FrameAliases;
    var frames: seq<string>, note := [], Note([], []);
    var n := 0;
    while n < |frameIds|
      invariant 0 <= n <= |frameIds| && NameFrames(w, frameIds, n) == Some(frames) && note == Gathered(notes, frameIds, n)
    {
      var name := NameFrame(w, frameIds[n]);
      if name.None? {
        NamelessFramesStay(w, frameIds, n + 1, |frameIds|);
        return None;
      }
      frames := frames + [name.value];
      var seen := NoteOf(notes, frameIds[n]);
      note := Note(Merge(note.visibleFacts, seen.visibleFacts), Merge(note.uncertainty, seen.uncertainty));
      n := n + 1;
    }
    r := Some(Picture(frames, caption, note));
  }

  lemma {:induction false} NamelessFramesStay(w: World, frameIds: seq<string>, n: nat, end: nat)
    requires n <= end <= |frameIds| && NameFrames(w, frameIds, n).None?
    ensures NameFrames(w, frameIds, end).None?
  {
    hide NameFrame;
    if n < end {
      NamelessFramesStay(w, frameIds, n, end - 1);
    }
  }

  method AuthorBlock(w: World, citations: map<string, Citation>, notes: map<string, Note>, b: Block) returns (r: Option<Content>)
    ensures r == ProjectBlock(w, citations, notes, b)
  {
    hide AllNames, BlockCitations, PlainText, ProjectItems, ProjectRows, NameFrames, Gathered;
    var sources := AuthorRefs(w, citations, BlockCitations(b));
    if sources.None? {
      return None;
    }
    match b {
      case Paragraph(_, origin, content) =>
        r := Some(if origin == Background then NOTHING.(background := Some(PlainText(content)))
                  else NOTHING.(text := Some(PlainText(content)), sources := sources.value));
      case Quotation(_, content) =>
        r := Some(NOTHING.(quote := Some(PlainText(content)), sources := sources.value));
      case Listing(_, ordered, items) =>
        var parts := AuthorItems(w, citations, items);
        r := if parts.None? then None else Some(NOTHING.(list := Some(Bullets(ordered, parts.value))));
      case Code(_, language, text, _) =>
        r := Some(NOTHING.(code := Some(Snippet(text, language)), sources := sources.value));
      case Table(_, columns, rows) =>
        var parts := AuthorRows(w, citations, rows);
        r := if parts.None? then None else Some(NOTHING.(table := Some(Grid(columns, parts.value))));
      case Figure(_, frameIds, _, caption, _) =>
        var figure := AuthorFigure(w, notes, frameIds, caption);
        r := if figure.None? then None else Some(NOTHING.(figure := figure));
    }
  }

  lemma {:induction false} UnprojectedBlocksStay(w: World, citations: map<string, Citation>, notes: map<string, Note>, bs: seq<Block>, n: nat, end: nat)
    requires n <= end <= |bs| && ProjectBlocks(w, citations, notes, bs, n).None?
    ensures ProjectBlocks(w, citations, notes, bs, end).None?
  {
    hide ProjectBlock;
    if n < end {
      UnprojectedBlocksStay(w, citations, notes, bs, n, end - 1);
    }
  }

  lemma {:induction false} UnprojectedLimitationsStay(w: World, a: Article, id: string, n: nat, end: nat)
    requires n <= end <= |a.limitations| && ProjectLimitations(w, a, id, n).None?
    ensures ProjectLimitations(w, a, id, end).None?
  {
    hide AllNames;
    if n < end {
      UnprojectedLimitationsStay(w, a, id, n, end - 1);
    }
  }

  /** One chapter in the author language, with what is known about the frames it cites. */
  method AuthorChapter(w: World, a: Article, notes: map<string, Note>, s: Section) returns (r: Option<AuthorSection>)
    ensures r == ProjectSection(w, a, notes, s)
  {
    hide AllNames, BlockCitations, ProjectBlock, ProjectPixels, Pixels;
    var content: seq<Content>, pixels: seq<string> := [], [];
    var n := 0;
    while n < |s.blocks|
      invariant 0 <= n <= |s.blocks| && ProjectBlocks(w, a.citations, notes, s.blocks, n) == Some(content)
      invariant pixels == SectionPixels(a.citations, s.blocks, n)
    {
      var c := AuthorBlock(w, a.citations, notes, s.blocks[n]);
      if c.None? {
        UnprojectedBlocksStay(w, a.citations, notes, s.blocks, n + 1, |s.blocks|);
        return None;
      }
      content := content + [c.value];
      pixels := SeenPixels(a.citations, BlockCitations(s.blocks[n]), pixels);
      n := n + 1;
    }
    var limitations: seq<ScopedLimitation> := [];
    n := 0;
    while n < |a.limitations|
      invariant 0 <= n <= |a.limitations| && ProjectLimitations(w, a, s.id, n) == Some(limitations)
    {
      var l := a.limitations[n];
      if ConcernsSection(l, s.id) {
        var sources := AuthorRefs(w, a.citations, l.citationIds);
        if sources.None? {
          UnprojectedLimitationsStay(w, a, s.id, n + 1, |a.limitations|);
          return None;
        }
        limitations := limitations + [ScopedLimitation(l.code, l.message, sources.value)];
      }
      n := n + 1;
    }
    r := Some(AuthorSection("", s.id, s.title, content, ProjectPixels(w, notes, pixels), limitations, ""));
  }

  method SeenPixels(citations: map<string, Citation>, ids: seq<string>, before: seq<string>) returns (pixels: seq<string>)
    ensures pixels == Pixels(citations, ids, |ids|, before)
  {
    pixels := before;
    for n := 0 to |ids|
      invariant pixels == Pixels(citations, ids, n, before)
    {
      if ids[n] in citations && citations[ids[n]].VideoFrame? {
        pixels := AppendUnique(pixels, citations[ids[n]].frameId);
      }
    }
  }

  lemma {:induction false} UnprojectedSectionsStay(w: World, a: Article, notes: map<string, Note>, n: nat, end: nat)
    requires n <= end <= |a.sections| && ProjectSections(w, a, notes, n).None?
    ensures ProjectSections(w, a, notes, end).None?
  {
    hide ProjectSection;
    if n < end {
      UnprojectedSectionsStay(w, a, notes, n, end - 1);
    }
  }

  /** `loopAuthorDraft`: the chapters of a draft in the author language. */
  method AuthorDraft(w: World, a: Article, notes: map<string, Note>) returns (r: Option<seq<AuthorSection>>)
    ensures r == ProjectSections(w, a, notes, |a.sections|)
  {
    hide ProjectSection;
    var out: seq<AuthorSection> := [];
    var n := 0;
    while n < |a.sections|
      invariant 0 <= n <= |a.sections| && ProjectSections(w, a, notes, n) == Some(out)
    {
      var s := AuthorChapter(w, a, notes, a.sections[n]);
      if s.None? {
        UnprojectedSectionsStay(w, a, notes, n + 1, |a.sections|);
        return None;
      }
      out := out + [s.value];
      n := n + 1;
    }
    r := Some(out);
  }
}
