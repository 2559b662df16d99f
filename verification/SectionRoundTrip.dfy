/** A saved section survives being shown to the model and being sent back unchanged. */
module SectionRoundTrip {
  import opened Lists
  import opened Text
  import opened Wrappers
  import opened ArticleBlocks
  import opened AuthorLanguage
  import opened AuthorRoundTrip

  // ----- exactly when a unit survives

  lemma InlinesDetermineSources(text: string, ids: seq<string>, ids': seq<string>)
    requires Inlines(text, ids) == Inlines(text, ids')
    ensures ids == ids'
  {
    assert |Inlines(text, ids)| == |ids| + 1 && |Inlines(text, ids')| == |ids'| + 1;
    forall k | 0 <= k < |ids| ensures ids[k] == ids'[k] {
      assert Inlines(text, ids)[k + 1] == Cite(ids[k]) && Inlines(text, ids')[k + 1] == Cite(ids'[k]);
    }
  }

  lemma MergeFixed(ids: seq<string>)
    requires Merge([], ids) == ids
    ensures Distinct(ids)
  {
    MergeAgain(ids);
  }

  lemma ItemsDistinct(w: World, w': World, b: string, items: seq<SourcedText>)
    requires CompileItems(Catalog(w), b, items, |items|).Ok? && CompileItems(Catalog(w'), b, TidyItems(items), |items|).Ok?
    requires CompileItems(Catalog(w), b, items, |items|).value.parts == CompileItems(Catalog(w'), b, TidyItems(items), |items|).value.parts
    ensures forall k | 0 <= k < |items| :: Distinct(items[k].sources)
  {
    hide Catalog, CompileItems, Inlines, Distinct, MergeFirst, Merge, FromCatalog;
    ItemsMade(w, b, items, |items|);
    ItemsMade(w', b, TidyItems(items), |items|);
    forall k | 0 <= k < |items| ensures Distinct(items[k].sources) {
      assert TidyItems(items)[k] == items[k].(sources := Merge([], items[k].sources));
      InlinesDetermineSources(items[k].text, items[k].sources, Merge([], items[k].sources));
      MergeFixed(items[k].sources);
    }
  }

  lemma RowsDistinct(w: World, w': World, width: nat, rows: seq<SourcedRow>)
    requires CompileRows(Catalog(w), width, rows, |rows|).Ok? && CompileRows(Catalog(w'), width, TidyRows(rows), |rows|).Ok?
    requires CompileRows(Catalog(w), width, rows, |rows|).value.parts == CompileRows(Catalog(w'), width, TidyRows(rows), |rows|).value.parts
    ensures forall k | 0 <= k < |rows| :: Distinct(rows[k].sources)
  {
    hide Catalog, CompileRows, Distinct, MergeFirst, Merge, FromCatalog;
    RowsMade(w, width, rows, |rows|);
    RowsMade(w', width, TidyRows(rows), |rows|);
    forall k | 0 <= k < |rows| ensures Distinct(rows[k].sources) {
      assert TidyRows(rows)[k] == rows[k].(sources := Merge([], rows[k].sources));
      MergeFixed(rows[k].sources);
    }
  }

  lemma QuoteIsDistinct(w: World, b: string, text: string, sources: seq<string>)
    requires WellFormed(w) && CompileQuote(w, Catalog(w), b, text, sources).Ok?
    ensures Distinct(sources)
  {
    hide Catalog, Sourced, Gather, WellFormed, MergeFirst, Inlines, TrimSpace, Occurs, Normalize, Lines, Distinct;
    SourcedAre(Catalog(w), sources);
    GatherFollows(w, sources, |sources|);
    QuoteSourcesAreDistinct(w, sources, Gather(w, Catalog(w), sources, |sources|).value);
  }

  lemma SameBlockIsDistinct(w: World, w': World, b: string, c: Content, note: Note)
    requires WellFormed(w) && CompileUnit(w, Catalog(w), b, c).Ok? && CompileUnit(w', Catalog(w'), b, Tidy(c, note)).Ok?
    requires CompileUnit(w, Catalog(w), b, c).value.block == CompileUnit(w', Catalog(w'), b, Tidy(c, note)).value.block
    ensures DistinctSources(c)
  {
    hide Catalog, WellFormed, CompileItems, CompileRows, CompileFigure, CompileQuote, Sourced, TrimSpace, Inlines, TidyItems, TidyRows, Distinct, Merge;
    assert Distinct<string>([]) by { EmptyIsDistinct(); }
    if c.text.Some? {
      InlinesDetermineSources(c.text.value, c.sources, Merge([], c.sources));
      MergeFixed(c.sources);
    } else if c.quote.Some? {
      QuoteIsDistinct(w, b, c.quote.value, c.sources);
    } else if c.background.Some? {
    } else if c.list.Some? {
      assert |TidyItems(c.list.value.items)| == |c.list.value.items| by { TidyLengths(c); }
      ItemsDistinct(w, w', b, c.list.value.items);
    } else if c.code.Some? {
      MergeFixed(c.sources);
    } else if c.table.Some? {
      assert |TidyRows(c.table.value.rows)| == |c.table.value.rows| by { TidyLengths(c); }
      RowsDistinct(w, w', |c.table.value.columns|, c.table.value.rows);
    } else {
      PartsHaveOwnSources(w, b, c);
    }
  }

  lemma EmptyIsDistinct()
    ensures Distinct<string>([])
  {
  }

  lemma TidyLengths(c: Content)
    ensures c.list.Some? ==> |TidyItems(c.list.value.items)| == |c.list.value.items|
    ensures c.table.Some? ==> |TidyRows(c.table.value.rows)| == |c.table.value.rows|
  {
  }

  lemma OwnPosition(w: World, b: string, c: Content)
    requires CompileUnit(w, Catalog(w), b, c).Ok?
    ensures Renumber(CompileUnit(w, Catalog(w), b, c).value.block, b) == CompileUnit(w, Catalog(w), b, c).value.block
  {
    hide Catalog, CompileItems, CompileRows, CompileQuote, CompileText, CompileCode, CompileTable, CompileBackground, Sourced, TrimSpace;
    var note := if c.figure.Some? then c.figure.value.note else Note([], []);
    CompileAgain(w, w, b, b, c, note);
    assert WithNote(c, note) == c;
  }

  /** Projected and compiled again, a unit gives the same block at any position exactly when it names
      every source once. A figure also needs something to have been noted about its frames. */
  lemma UnitRoundTrip(w: World, w': World, citations: map<string, Citation>, notes: map<string, Note>, b: string, b': string, c: Content)
    requires WellFormed(w) && WellFormed(w') && Extends(w, w') && CompileUnit(w, Catalog(w), b, c).Ok?
    requires var u := CompileUnit(w, Catalog(w), b, c).value; Kept(citations, u.citations, BlockCitations(u.block)) && (u.block.Figure? ==> FigureNote(notes, u.block).visibleFacts != [])
    ensures ProjectBlock(w', citations, notes, CompileUnit(w, Catalog(w), b, c).value.block).Some?
    ensures var u := CompileUnit(w, Catalog(w), b, c).value; var r := CompileUnit(w', Catalog(w'), b', ProjectBlock(w', citations, notes, u.block).value); DistinctSources(c) <==> r.Ok? && r.value.block == Renumber(u.block, b')
  {
    hide Catalog, WellFormed, Extends, CompileUnit, Kept, ProjectBlock, Tidy, Gathered, DistinctSources, RenumberItems;
    var u := CompileUnit(w, Catalog(w), b, c).value;
    var note := FigureNote(notes, u.block);
    ProjectUnit(w, w', citations, notes, b, c);
    FigureIsFigure(w, b, c);
    if DistinctSources(c) {
      TidyOfDistinct(c, note);
      CompileAgain(w, w', b, b', c, note);
    }
    var r := CompileUnit(w', Catalog(w'), b', Tidy(c, note));
    if r.Ok? && r.value.block == Renumber(u.block, b') {
      MovedIsDistinct(w, w', b, b', c, note);
    }
  }

  lemma FigureIsFigure(w: World, b: string, c: Content)
    requires CompileUnit(w, Catalog(w), b, c).Ok?
    ensures c.figure.Some? <==> CompileUnit(w, Catalog(w), b, c).value.block.Figure?
  {
    hide Catalog, CompileItems, CompileRows, Gather, Sourced, TrimSpace, Inlines, Occurs;
  }

  lemma MovedIsDistinct(w: World, w': World, b: string, b': string, c: Content, note: Note)
    requires WellFormed(w) && Extends(w, w') && CompileUnit(w, Catalog(w), b, c).Ok? && CompileUnit(w', Catalog(w'), b', Tidy(c, note)).Ok?
    requires CompileUnit(w', Catalog(w'), b', Tidy(c, note)).value.block == Renumber(CompileUnit(w, Catalog(w), b, c).value.block, b')
    ensures DistinctSources(c)
  {
    hide Catalog, WellFormed, Extends, CompileUnit, Tidy, DistinctSources, Renumber;
    var own := if c.figure.Some? then c.figure.value.note else Note([], []);
    FigureFacts(w, b, c);
    CompileAgain(w, w, b, b', c, own);
    assert WithNote(c, own) == c;
    SameBlockIsDistinct(w, w', b', c, note);
  }

  lemma FigureFacts(w: World, b: string, c: Content)
    requires CompileUnit(w, Catalog(w), b, c).Ok?
    ensures c.figure.Some? ==> c.figure.value.note.visibleFacts != []
    ensures Extends(w, w)
  {
    hide Catalog, CompileItems, CompileRows, Gather, Sourced, TrimSpace, Inlines, Occurs;
  }

  // ----- what a stored citation means

  /** The citation of a quotation of delivered, continuous original text. */
  ghost predicate QuoteOf(w: World, id: string, text: string, sources: seq<string>, c: Citation) {
    && id == QuoteId(w, text, sources)
    && sources != [] && (forall ref | ref in sources :: ref in Catalog(w) && Catalog(w)[ref].VideoText?)
    && var got := Gather(w, Catalog(w), sources, |sources|);
    && got.Ok? && c == QuoteCitation(w, Catalog(w), text, sources, got.value)
  }

  ghost predicate IsSource(w: World, id: string, c: Citation) {
    id in Catalog(w) && c == Catalog(w)[id]
  }

  ghost predicate Meaning(w: World, id: string, c: Citation) {
    IsSource(w, id, c) || exists text, sources :: QuoteOf(w, id, text, sources, c)
  }

  ghost predicate Meaningful(w: World, citations: map<string, Citation>) {
    forall id | id in citations :: Meaning(w, id, citations[id])
  }

  lemma AliasStarts(i: nat)
    ensures Alias(i)[..1] == "t" && FrameAlias(i)[..1] == "f"
  {
    hide Decimal;
  }

  lemma QuotesAreNoSources(w: World, text: string, sources: seq<string>)
    ensures QuoteId(w, text, sources) !in Catalog(w)
  {
    hide Catalog, Alias, FrameAlias;
    var id := QuoteId(w, text, sources);
    assert id[..1] == "q";
    CatalogEntry(w, id);
    forall i: nat ensures !IsText(w, id, i) && !IsFrame(w, id, i) {
      AliasStarts(i);
    }
  }

  lemma QuoteIdIsUnique(w: World, text: string, sources: seq<string>, text': string, sources': seq<string>)
    requires WellFormed(w) && QuoteId(w, text, sources) == QuoteId(w, text', sources')
    ensures text == text' && sources == sources'
  {
    assert QuoteId(w, text, sources)[2..] == w.quoteHash(text, sources);
    assert QuoteId(w, text', sources')[2..] == w.quoteHash(text', sources');
  }

  /** An identity means one citation. */
  lemma MeaningIsUnique(w: World, id: string, c: Citation, c': Citation)
    requires WellFormed(w) && Meaning(w, id, c) && Meaning(w, id, c')
    ensures c == c'
  {
    hide Catalog, WellFormed, QuoteId, Gather, QuoteCitation;
    if text, sources :| QuoteOf(w, id, text, sources, c) {
      QuotesAreNoSources(w, text, sources);
      var text', sources' :| QuoteOf(w, id, text', sources', c');
      QuoteIdIsUnique(w, text, sources, text', sources');
    } else if text, sources :| QuoteOf(w, id, text, sources, c') {
      QuotesAreNoSources(w, text, sources);
    }
  }

  lemma MeaningGrows(w: World, w': World, id: string, c: Citation)
    requires Extends(w, w') && Meaning(w, id, c)
    ensures Meaning(w', id, c)
  {
    hide Catalog, Gather;
    if IsSource(w, id, c) {
      CatalogGrows(w, w', id);
      assert IsSource(w', id, c);
    } else {
      var text, sources :| QuoteOf(w, id, text, sources, c);
      forall ref | ref in sources ensures ref in Catalog(w') && Catalog(w')[ref] == Catalog(w)[ref] {
        CatalogGrows(w, w', ref);
      }
      GatherAgain(w, w', sources, |sources|);
      assert QuoteOf(w', id, text, sources, c);
    }
  }

  /** The citations of a unit mean something, and its block and its notes refer to them only. */
  ghost predicate Consistent(w: World, u: Unit) {
    && Meaningful(w, u.citations)
    && (forall id | id in BlockCitations(u.block) :: id in u.citations)
    && (forall f | f in u.notes :: Shows(u, f))
  }

  ghost predicate Shows(u: Unit, f: string) {
    exists id :: id in BlockCitations(u.block) && id in u.citations && u.citations[id].VideoFrame? && u.citations[id].frameId == f
  }

  lemma CatalogMeans(w: World, made: map<string, Citation>)
    requires FromCatalog(w, made)
    ensures Meaningful(w, made)
  {
    hide Catalog;
    forall id | id in made ensures Meaning(w, id, made[id]) {
      assert IsSource(w, id, made[id]);
    }
  }

  lemma QuoteIsConsistent(w: World, b: string, text: string, sources: seq<string>)
    requires CompileQuote(w, Catalog(w), b, text, sources).Ok?
    ensures Consistent(w, CompileQuote(w, Catalog(w), b, text, sources).value)
  {
    hide Catalog, Sourced, Gather, TrimSpace, Inlines, Occurs, Normalize, Lines, InlineCitations, MergeFirst, FromCatalog;
    SourcedAre(Catalog(w), sources);
    SourcedFromCatalog(w, sources);
    CatalogMeans(w, Sourced(Catalog(w), sources).value);
    GatheredIsText(w, Catalog(w), sources, |sources|);
    var q := QuoteCitation(w, Catalog(w), text, sources, Gather(w, Catalog(w), sources, |sources|).value);
    assert QuoteOf(w, q.id, text, sources, q);
    InlinesReadBack(text, [q.id]);
  }

  lemma FigureIsConsistent(w: World, b: string, f: Picture, sources: seq<string>)
    requires CompileFigure(Catalog(w), b, f, sources).Ok?
    ensures Consistent(w, CompileFigure(Catalog(w), b, f, sources).value)
  {
    hide Catalog, Sourced, TrimSpace;
    SourcedAre(Catalog(w), f.frames);
    SourcedFromCatalog(w, f.frames);
    var u := CompileFigure(Catalog(w), b, f, sources).value;
    CatalogMeans(w, u.citations);
    forall fid | fid in u.notes ensures Shows(u, fid) {
      var k :| 0 <= k < |f.frames| && FrameIds(Catalog(w), f.frames)[k] == fid;
      assert FrameFollows(Catalog(w), f.frames, k);
      assert f.frames[k] in BlockCitations(u.block) && u.citations[f.frames[k]].frameId == fid;
    }
  }

  lemma PartsAreConsistent(w: World, b: string, c: Content)
    requires CompileUnit(w, Catalog(w), b, c).Ok? && c.quote.None? && c.figure.None?
    ensures var u := CompileUnit(w, Catalog(w), b, c).value; FromCatalog(w, u.citations) && u.notes == map[] && forall id | id in BlockCitations(u.block) :: id in u.citations
  {
    hide Catalog, CompileItems, CompileRows, CompileQuote, Sourced, TrimSpace, Inlines, InlineCitations, ItemCitations, RowCitations, MergeFirst, FromCatalog;
    if c.text.Some? {
      SourcedFromCatalog(w, c.sources);
      InlinesReadBack(c.text.value, c.sources);
    } else if c.background.Some? {
      InlinesReadBack(c.background.value, []);
      assert FromCatalog(w, map[]) by { NothingFromCatalog(w); }
    } else if c.list.Some? {
      ItemsConsistent(w, b, c.list.value.items);
    } else if c.code.Some? {
      SourcedFromCatalog(w, c.sources);
    } else {
      RowsConsistent(w, |c.table.value.columns|, c.table.value.rows);
    }
  }

  lemma NothingFromCatalog(w: World)
    ensures FromCatalog(w, map[])
  {
  }

  lemma {:induction false} ItemSourcesMade(w: World, b: string, items: seq<SourcedText>, n: nat)
    requires n <= |items| && CompileItems(Catalog(w), b, items, n).Ok?
    ensures forall k, id | 0 <= k < n && id in items[k].sources :: id in CompileItems(Catalog(w), b, items, n).value.citations
  {
    hide Catalog, Sourced, TrimSpace, Inlines, ItemId;
    if n > 0 {
      ItemSourcesMade(w, b, items, n - 1);
      SourcedFromCatalog(w, items[n - 1].sources);
    }
  }

  lemma ItemsConsistent(w: World, b: string, items: seq<SourcedText>)
    requires CompileItems(Catalog(w), b, items, |items|).Ok?
    ensures var made := CompileItems(Catalog(w), b, items, |items|).value; FromCatalog(w, made.citations) && forall id | id in ItemCitations(made.parts, |made.parts|) :: id in made.citations
  {
    hide Catalog, CompileItems, Inlines, FromCatalog, ItemCitations;
    ItemsMade(w, b, items, |items|);
    ItemSourcesMade(w, b, items, |items|);
    ItemCitationsAre(items, CompileItems(Catalog(w), b, items, |items|).value.parts, |items|);
  }

  lemma {:induction false} RowSourcesMade(w: World, width: nat, rows: seq<SourcedRow>, n: nat)
    requires n <= |rows| && CompileRows(Catalog(w), width, rows, n).Ok?
    ensures forall k, id | 0 <= k < n && id in rows[k].sources :: id in CompileRows(Catalog(w), width, rows, n).value.citations
  {
    hide Catalog, Sourced;
    if n > 0 {
      RowSourcesMade(w, width, rows, n - 1);
      SourcedFromCatalog(w, rows[n - 1].sources);
    }
  }

  lemma RowsConsistent(w: World, width: nat, rows: seq<SourcedRow>)
    requires CompileRows(Catalog(w), width, rows, |rows|).Ok?
    ensures var made := CompileRows(Catalog(w), width, rows, |rows|).value; FromCatalog(w, made.citations) && forall id | id in RowCitations(made.parts, |made.parts|) :: id in made.citations
  {
    hide Catalog, CompileRows, FromCatalog, RowCitations;
    RowsMade(w, width, rows, |rows|);
    RowSourcesMade(w, width, rows, |rows|);
    RowCitationsAre(CompileRows(Catalog(w), width, rows, |rows|).value.parts, |rows|);
  }

  lemma UnitIsConsistent(w: World, b: string, c: Content)
    requires CompileUnit(w, Catalog(w), b, c).Ok?
    ensures Consistent(w, CompileUnit(w, Catalog(w), b, c).value)
  {
    hide Catalog, CompileText, CompileBackground, CompileList, CompileCode, CompileTable, CompileFigure, CompileQuote, BlockCitations, Meaningful;
    if c.quote.Some? {
      QuoteIsConsistent(w, b, c.quote.value, c.sources);
    } else if c.figure.Some? {
      FigureIsConsistent(w, b, c.figure.value, c.sources);
    } else {
      PartsAreConsistent(w, b, c);
      CatalogMeans(w, CompileUnit(w, Catalog(w), b, c).value.citations);
    }
  }

  // ----- the units of a section

  /** The compiled units of a section, taken together. */
  ghost predicate UnitsAre(w: World, id: string, content: seq<Content>, n: nat, us: Units) {
    && n <= |content| && |us.blocks| == n
    && (forall k | 0 <= k < n :: UnitAt(w, id, content, us, k))
    && Meaningful(w, us.citations)
    && (forall f | f in us.notes :: exists k :: 0 <= k < n && BlockShows(us, k, f))
  }

  ghost predicate UnitAt(w: World, id: string, content: seq<Content>, us: Units, k: nat) {
    && k < |content| && k < |us.blocks|
    && var r := CompileUnit(w, Catalog(w), BlockId(id, k), content[k]);
    && r.Ok? && r.value.block == us.blocks[k] && r.value.citations.Keys <= us.citations.Keys
  }

  ghost predicate BlockShows(us: Units, k: nat, f: string)
    requires k < |us.blocks|
  {
    exists id :: id in BlockCitations(us.blocks[k]) && id in us.citations && us.citations[id].VideoFrame? && us.citations[id].frameId == f
  }

  lemma {:induction false} CompiledUnits(w: World, id: string, content: seq<Content>, n: nat)
    requires WellFormed(w) && n <= |content| && CompileUnits(w, Catalog(w), id, content, n).Ok?
    ensures UnitsAre(w, id, content, n, CompileUnits(w, Catalog(w), id, content, n).value)
  {
    hide Catalog, WellFormed, CompileUnit, BlockCitations, Meaning, BlockId;
    if n > 0 {
      CompiledUnits(w, id, content, n - 1);
      var front, us := CompileUnits(w, Catalog(w), id, content, n - 1).value, CompileUnits(w, Catalog(w), id, content, n).value;
      var u := CompileUnit(w, Catalog(w), BlockId(id, n - 1), content[n - 1]).value;
      UnitIsConsistent(w, BlockId(id, n - 1), content[n - 1]);
      forall k | 0 <= k < n ensures UnitAt(w, id, content, us, k) {
        assert k < n - 1 ==> UnitAt(w, id, content, front, k);
      }
      forall f | f in us.notes ensures exists k :: 0 <= k < n && BlockShows(us, k, f) {
        if f in u.notes {
          assert Shows(u, f);
          assert BlockShows(us, n - 1, f);
        } else {
          var k :| 0 <= k < n - 1 && BlockShows(front, k, f);
          StillShows(w, front, us, u, k, f);
        }
      }
    }
  }

  lemma StillShows(w: World, front: Units, us: Units, u: Unit, k: nat, f: string)
    requires WellFormed(w) && Meaningful(w, front.citations) && Meaningful(w, us.citations)
    requires k < |front.blocks| && us.blocks == front.blocks + [u.block] && us.citations == front.citations + u.citations
    requires BlockShows(front, k, f)
    ensures BlockShows(us, k, f)
  {
    hide WellFormed, BlockCitations, Meaning;
    var id :| id in BlockCitations(front.blocks[k]) && id in front.citations && front.citations[id].VideoFrame? && front.citations[id].frameId == f;
    MeaningIsUnique(w, id, front.citations[id], us.citations[id]);
  }

  /** Everything a block refers to is stored. */
  ghost predicate Refers(citations: map<string, Citation>, b: Block) {
    forall id | id in BlockCitations(b) :: id in citations
  }

  lemma UnitIsKept(w: World, w': World, citations: map<string, Citation>, b: string, c: Content)
    requires WellFormed(w') && Extends(w, w') && Meaningful(w', citations) && CompileUnit(w, Catalog(w), b, c).Ok?
    requires Refers(citations, CompileUnit(w, Catalog(w), b, c).value.block)
    ensures var u := CompileUnit(w, Catalog(w), b, c).value; Kept(citations, u.citations, BlockCitations(u.block))
  {
    hide Catalog, WellFormed, Extends, CompileUnit, BlockCitations, Meaning;
    UnitIsConsistent(w, b, c);
    var u := CompileUnit(w, Catalog(w), b, c).value;
    forall id | id in BlockCitations(u.block) ensures citations[id] == u.citations[id] {
      MeaningGrows(w, w', id, u.citations[id]);
      MeaningIsUnique(w', id, citations[id], u.citations[id]);
    }
  }

  function TidyUnits(content: seq<Content>, notes: map<string, Note>, bs: seq<Block>, n: nat): seq<Content>
    requires n <= |content| && n <= |bs|
  {
    seq(n, k requires 0 <= k < n => Tidy(content[k], FigureNote(notes, bs[k])))
  }

  lemma {:induction false} BlocksProjected(
      w: World, w': World, id: string, content: seq<Content>, us: Units, citations: map<string, Citation>, notes: map<string, Note>, n: nat)
    requires WellFormed(w) && WellFormed(w') && Extends(w, w') && UnitsAre(w, id, content, |content|, us) && n <= |content|
    requires Meaningful(w', citations) && forall b | b in us.blocks :: Refers(citations, b)
    ensures ProjectBlocks(w', citations, notes, us.blocks, n) == Some(TidyUnits(content, notes, us.blocks, n))
  {
    hide Catalog, WellFormed, Extends, CompileUnit, Kept, BlockCitations, ProjectBlock, Tidy, FigureNote, Meaningful, Refers, BlockId;
    if n > 0 {
      BlocksProjected(w, w', id, content, us, citations, notes, n - 1);
      assert UnitAt(w, id, content, us, n - 1);
      assert us.blocks[n - 1] in us.blocks;
      UnitIsKept(w, w', citations, BlockId(id, n - 1), content[n - 1]);
      ProjectUnit(w, w', citations, notes, BlockId(id, n - 1), content[n - 1]);
      assert TidyUnits(content, notes, us.blocks, n) == TidyUnits(content, notes, us.blocks, n - 1) + [Tidy(content[n - 1], FigureNote(notes, us.blocks[n - 1]))];
    } else {
      assert TidyUnits(content, notes, us.blocks, 0) == [];
    }
  }

  ghost predicate AllDistinct(content: seq<Content>) {
    forall c | c in content :: DistinctSources(c)
  }

  /** Something was noted about the frames of a figure. */
  ghost predicate FigureNoted(notes: map<string, Note>, b: Block) {
    b.Figure? ==> FigureNote(notes, b).visibleFacts != []
  }

  lemma UnitCompiledAgain(w: World, w': World, b: string, c: Content, notes: map<string, Note>)
    requires Extends(w, w') && CompileUnit(w, Catalog(w), b, c).Ok? && DistinctSources(c)
    requires FigureNoted(notes, CompileUnit(w, Catalog(w), b, c).value.block)
    ensures var u := CompileUnit(w, Catalog(w), b, c).value; var r := CompileUnit(w', Catalog(w'), b, Tidy(c, FigureNote(notes, u.block))); r.Ok? && r.value.block == u.block && r.value.citations == u.citations && r.value.notes.Keys == u.notes.Keys
  {
    hide Catalog, Extends, CompileUnit, Tidy, FigureNote, Renumber, DistinctSources;
    var u := CompileUnit(w, Catalog(w), b, c).value;
    FigureIsFigure(w, b, c);
    TidyOfDistinct(c, FigureNote(notes, u.block));
    CompileAgain(w, w', b, b, c, FigureNote(notes, u.block));
    OwnPosition(w, b, c);
  }

  lemma {:induction false} UnitsCompiledAgain(w: World, w': World, id: string, content: seq<Content>, bs: seq<Block>, notes: map<string, Note>, n: nat)
    requires Extends(w, w') && n <= |content| == |bs| && CompileUnits(w, Catalog(w), id, content, n).Ok?
    requires CompileUnits(w, Catalog(w), id, content, n).value.blocks == bs[..n]
    requires AllDistinct(content) && forall b | b in bs :: FigureNoted(notes, b)
    ensures var us := CompileUnits(w, Catalog(w), id, content, n).value; var r := CompileUnits(w', Catalog(w'), id, TidyUnits(content, notes, bs, |bs|), n); r.Ok? && r.value.blocks == us.blocks && r.value.citations == us.citations && r.value.notes.Keys == us.notes.Keys
  {
    hide Catalog, Extends, CompileUnit, Tidy, FigureNote, DistinctSources, FigureNoted, BlockId;
    if n > 0 {
      var front := CompileUnits(w, Catalog(w), id, content, n - 1).value;
      var us := CompileUnits(w, Catalog(w), id, content, n).value;
      assert us.blocks[n - 1] == bs[n - 1] && bs[n - 1] in bs;
      assert front.blocks == bs[..n - 1] by {
        assert us.blocks[..n - 1] == front.blocks && bs[..n][..n - 1] == bs[..n - 1];
      }
      UnitsCompiledAgain(w, w', id, content, bs, notes, n - 1);
      UnitCompiledAgain(w, w', BlockId(id, n - 1), content[n - 1], notes);
    }
  }

  // ----- the frames of a section

  ghost predicate PixelOf(citations: map<string, Citation>, b: Block, f: string) {
    exists id :: id in BlockCitations(b) && id in citations && citations[id].VideoFrame? && citations[id].frameId == f
  }

  lemma {:induction false} PixelsAre(citations: map<string, Citation>, ids: seq<string>, n: nat, pixels: seq<string>)
    requires n <= |ids|
    ensures forall f :: f in Pixels(citations, ids, n, pixels) <==> f in pixels || exists k | 0 <= k < n :: ids[k] in citations && citations[ids[k]].VideoFrame? && citations[ids[k]].frameId == f
  {
    if n > 0 {
      PixelsAre(citations, ids, n - 1, pixels);
    }
  }

  lemma BlockPixelsAre(citations: map<string, Citation>, b: Block, pixels: seq<string>, f: string)
    ensures f in Pixels(citations, BlockCitations(b), |BlockCitations(b)|, pixels) <==> f in pixels || PixelOf(citations, b, f)
  {
    hide BlockCitations, Pixels;
    var ids := BlockCitations(b);
    PixelsAre(citations, ids, |ids|, pixels);
    if PixelOf(citations, b, f) {
      var id :| id in ids && id in citations && citations[id].VideoFrame? && citations[id].frameId == f;
      var k :| 0 <= k < |ids| && ids[k] == id;
    }
  }

  lemma {:induction false} SectionPixelsAre(citations: map<string, Citation>, bs: seq<Block>, n: nat, f: string)
    requires n <= |bs|
    ensures f in SectionPixels(citations, bs, n) <==> exists k | 0 <= k < n :: PixelOf(citations, bs[k], f)
  {
    hide BlockCitations, Pixels, PixelOf;
    if n > 0 {
      SectionPixelsAre(citations, bs, n - 1, f);
      BlockPixelsAre(citations, bs[n - 1], SectionPixels(citations, bs, n - 1), f);
    }
  }

  lemma FrameMeansSource(w: World, id: string, c: Citation)
    requires Meaning(w, id, c) && c.VideoFrame?
    ensures IsSource(w, id, c)
  {
    hide Catalog, Gather;
  }

  /** A cited frame is a delivered one. */
  lemma PixelIsDelivered(w: World, citations: map<string, Citation>, b: Block, f: string)
    requires WellFormed(w) && Meaningful(w, citations) && PixelOf(citations, b, f)
    ensures NameFrame(w, f).Some? && NameFrame(w, f).value in Catalog(w)
    ensures var c := Catalog(w)[NameFrame(w, f).value]; c.VideoFrame? && c.frameId == f
  {
    hide Catalog, WellFormed, NameFrame, Meaning, BlockCitations;
    var id :| id in BlockCitations(b) && id in citations && citations[id].VideoFrame? && citations[id].frameId == f;
    FrameMeansSource(w, id, citations[id]);
    CitationIsNamed(w, id, []);
  }

  /** Something is known about every frame that a section cites. */
  ghost predicate Noted(citations: map<string, Citation>, notes: map<string, Note>, bs: seq<Block>) {
    forall f | f in SectionPixels(citations, bs, |bs|) :: NoteOf(notes, f).visibleFacts != []
  }

  lemma {:induction false} GatheredGrows(notes: map<string, Note>, frameIds: seq<string>, k: nat, n: nat)
    requires k < n <= |frameIds| && NoteOf(notes, frameIds[k]).visibleFacts != []
    ensures Gathered(notes, frameIds, n).visibleFacts != []
  {
    hide MergeFirst, NoteOf;
    if k < n - 1 {
      GatheredGrows(notes, frameIds, k, n - 1);
    } else {
      assert NoteOf(notes, frameIds[k]).visibleFacts[0] in Gathered(notes, frameIds, n).visibleFacts;
    }
  }

  lemma FigureCitesItsFrames(w: World, b: string, c: Content)
    requires CompileUnit(w, Catalog(w), b, c).Ok? && c.figure.Some?
    ensures var u := CompileUnit(w, Catalog(w), b, c).value; u.block.Figure? && u.block.frameIds != [] && u.block.frameIds[0] in u.notes
  {
    hide Catalog, Sourced, TrimSpace;
    SourcedAre(Catalog(w), c.figure.value.frames);
  }

  lemma NotedFigure(w: World, w': World, citations: map<string, Citation>, notes: map<string, Note>, b: string, c: Content)
    requires WellFormed(w') && Extends(w, w') && Meaningful(w', citations) && CompileUnit(w, Catalog(w), b, c).Ok?
    requires var u := CompileUnit(w, Catalog(w), b, c).value; Refers(citations, u.block) && forall f | PixelOf(citations, u.block, f) :: NoteOf(notes, f).visibleFacts != []
    ensures FigureNoted(notes, CompileUnit(w, Catalog(w), b, c).value.block)
  {
    hide Catalog, WellFormed, Extends, CompileUnit, BlockCitations, Meaning, NoteOf, Gathered;
    var u := CompileUnit(w, Catalog(w), b, c).value;
    FigureIsFigure(w, b, c);
    if u.block.Figure? {
      FigureCitesItsFrames(w, b, c);
      UnitIsConsistent(w, b, c);
      UnitIsKept(w, w', citations, b, c);
      var f := u.block.frameIds[0];
      assert Shows(u, f);
      assert PixelOf(citations, u.block, f);
      GatheredGrows(notes, u.block.frameIds, 0, |u.block.frameIds|);
    }
  }

  // ----- observations

  lemma {:induction false} ObservedAgain(
      cat: map<string, Citation>, w: World, notes: map<string, Note>, base: map<string, Note>, pixels: seq<string>, n: nat)
    requires n <= |pixels|
    requires forall k | 0 <= k < |pixels| :: Observed(cat, ProjectPixels(w, notes, pixels)[k]) && cat[ProjectPixels(w, notes, pixels)[k].frame].frameId == pixels[k]
    ensures var made := Observe(cat, base, ProjectPixels(w, notes, pixels), n); made.Keys == base.Keys + Elements(pixels[..n]) && forall k | 0 <= k < n :: made[pixels[k]] == NoteOf(notes, pixels[k])
  {
    hide NameFrame, NoteOf;
    if n > 0 {
      ObservedAgain(cat, w, notes, base, pixels, n - 1);
      TakeOneMore(pixels, n);
    }
  }

  lemma PixelObserved(w: World, citations: map<string, Citation>, notes: map<string, Note>, bs: seq<Block>, pixels: seq<string>, k: nat)
    requires WellFormed(w) && Meaningful(w, citations) && pixels == SectionPixels(citations, bs, |bs|) && k < |pixels|
    ensures var o := ProjectPixels(w, notes, pixels)[k]; o.frame in Catalog(w) && Catalog(w)[o.frame].VideoFrame? && Catalog(w)[o.frame].frameId == pixels[k] && o.note == NoteOf(notes, pixels[k])
  {
    hide Catalog, WellFormed, NameFrame, Meaningful, SectionPixels, PixelOf, NoteOf;
    SectionPixelsAre(citations, bs, |bs|, pixels[k]);
    var m :| 0 <= m < |bs| && PixelOf(citations, bs[m], pixels[k]);
    PixelIsDelivered(w, citations, bs[m], pixels[k]);
  }

  // ----- limitations

  function ScopedTo(ls: seq<Limitation>, id: string, n: nat): seq<Limitation>
    requires n <= |ls|
  {
    if n == 0 then []
    else if ConcernsSection(ls[n - 1], id) then ScopedTo(ls, id, n - 1) + [ls[n - 1]]
    else ScopedTo(ls, id, n - 1)
  }

  function Rescope(ls: seq<Limitation>): seq<ScopedLimitation> {
    seq(|ls|, k requires 0 <= k < |ls| => ScopedLimitation(ls[k].code, ls[k].message, ls[k].citationIds))
  }

  lemma {:induction false} LimitationsMade(w: World, id: string, ls: seq<ScopedLimitation>, n: nat)
    requires n <= |ls| && CompileLimitations(Catalog(w), id, ls, n).Ok?
    ensures var made := CompileLimitations(Catalog(w), id, ls, n).value; |made.parts| == n && Rescope(made.parts) == ls[..n] && FromCatalog(w, made.citations)
    ensures var made := CompileLimitations(Catalog(w), id, ls, n).value; forall k | 0 <= k < n :: made.parts[k].sectionIds == [id] && forall ref | ref in made.parts[k].citationIds :: ref in made.citations
  {
    hide Catalog, TrimSpace;
    if n > 0 {
      LimitationsMade(w, id, ls, n - 1);
      var made := CompileLimitations(Catalog(w), id, ls, n).value;
      assert Rescope(made.parts) == Rescope(made.parts[..n - 1]) + [ls[n - 1]];
      assert ls[..n] == ls[..n - 1] + [ls[n - 1]];
    }
  }

  lemma {:induction false} LimitationsAgain(w: World, w': World, id: string, ls: seq<ScopedLimitation>, n: nat)
    requires Extends(w, w') && n <= |ls| && CompileLimitations(Catalog(w), id, ls, n).Ok?
    ensures CompileLimitations(Catalog(w'), id, ls, n) == CompileLimitations(Catalog(w), id, ls, n)
  {
    hide Catalog, TrimSpace, Extends;
    if n > 0 {
      LimitationsAgain(w, w', id, ls, n - 1);
      forall ref | ref in ls[n - 1].sources ensures ref in Catalog(w') && Catalog(w')[ref] == Catalog(w)[ref] {
        CatalogGrows(w, w', ref);
      }
      assert CitationsOf(Catalog(w'), ls[n - 1].sources) == CitationsOf(Catalog(w), ls[n - 1].sources);
    }
  }

  /** A stored limitation whose sources are delivered and named once. */
  ghost predicate Showable(w: World, citations: map<string, Citation>, l: Limitation) {
    Distinct(l.citationIds) && Stored(w, citations, l.citationIds)
  }

  lemma {:induction false} LimitationsProjected(w: World, a: Article, id: string, n: nat)
    requires WellFormed(w) && n <= |a.limitations|
    requires forall l | l in ScopedTo(a.limitations, id, |a.limitations|) :: Showable(w, a.citations, l)
    requires forall l | l in ScopedTo(a.limitations, id, n) :: l in ScopedTo(a.limitations, id, |a.limitations|)
    ensures ProjectLimitations(w, a, id, n) == Some(Rescope(ScopedTo(a.limitations, id, n)))
  {
    hide AllNames, WellFormed, ConcernsSection, Stored, Distinct, MergeFirst;
    if n > 0 {
      var l, front := a.limitations[n - 1], ScopedTo(a.limitations, id, n - 1);
      LimitationsProjected(w, a, id, n - 1);
      if ConcernsSection(l, id) {
        assert l in ScopedTo(a.limitations, id, n);
        AllSourcesAreNamed(w, a.citations, l.citationIds);
        MergeOfDistinct(l.citationIds);
        assert Rescope(front + [l]) == Rescope(front) + [ScopedLimitation(l.code, l.message, l.citationIds)];
      }
    }
  }

  // ----- a whole section there and back

  /** The section was compiled from `s`, and the article holds what it refers to. */
  ghost predicate SavedFrom(w: World, a: Article, s: AuthorSection, section: Section) {
    var r := CompileSection(w, Catalog(w), s, section.id);
    && r.Ok? && r.value.section == section
    && ScopedTo(a.limitations, section.id, |a.limitations|) == r.value.limitations
    && (forall b | b in section.blocks :: Refers(a.citations, b))
    && (forall l, ref | l in r.value.limitations && ref in l.citationIds :: ref in a.citations)
  }

  ghost predicate DistinctSection(s: AuthorSection) {
    AllDistinct(s.content) && forall l | l in s.limitations :: Distinct(l.sources)
  }

  lemma {:induction false} TrimAgain(s: string)
    ensures TrimSpace(TrimSpace(s)) == TrimSpace(s)
    decreases |s|
  {
    if s != "" && IsSpace(s[0]) {
      TrimAgain(s[1..]);
    } else if s != "" && IsSpace(s[|s| - 1]) {
      TrimAgain(s[..|s| - 1]);
    }
  }

  lemma SectionParts(w: World, s: AuthorSection, id: string)
    requires CompileSection(w, Catalog(w), s, id).Ok?
    ensures s.rejected == "" && !Blank(s.title) && 0 < |s.content| <= MAX_BLOCKS
    ensures forall k | 0 <= k < |s.observations| :: Observed(Catalog(w), s.observations[k])
    ensures CompileUnits(w, Catalog(w), id, s.content, |s.content|).Ok? && CompileLimitations(Catalog(w), id, s.limitations, |s.limitations|).Ok?
    ensures var us := CompileUnits(w, Catalog(w), id, s.content, |s.content|).value; var ls := CompileLimitations(Catalog(w), id, s.limitations, |s.limitations|).value; CompileSection(w, Catalog(w), s, id).value == Compiled(Section(id, TrimSpace(s.title), us.blocks), us.citations + ls.citations, Observe(Catalog(w), us.notes, s.observations, |s.observations|), ls.parts)
  {
    hide Catalog, CompileUnits, CompileLimitations, TrimSpace;
  }

  lemma SourceMeans(w: World, ref: string, c: Citation)
    requires WellFormed(w) && ref in Catalog(w) && Meaning(w, ref, c)
    ensures c == Catalog(w)[ref]
  {
    hide Catalog, WellFormed;
    assert IsSource(w, ref, Catalog(w)[ref]);
    MeaningIsUnique(w, ref, c, Catalog(w)[ref]);
  }

  lemma SavedLimitations(w: World, w': World, a: Article, s: AuthorSection, section: Section)
    requires WellFormed(w) && WellFormed(w') && Extends(w, w') && SavedFrom(w, a, s, section) && Meaningful(w', a.citations)
    requires DistinctSection(s)
    ensures ProjectLimitations(w', a, section.id, |a.limitations|) == Some(s.limitations)
  {
    hide Catalog, WellFormed, Extends, CompileSection, CompileLimitations, ScopedTo, ProjectLimitations, Meaning, Refers;
    SectionParts(w, s, section.id);
    LimitationsMade(w, section.id, s.limitations, |s.limitations|);
    var made := CompileLimitations(Catalog(w), section.id, s.limitations, |s.limitations|).value;
    assert s.limitations[..|s.limitations|] == s.limitations;
    forall l | l in made.parts ensures Showable(w', a.citations, l) {
      var k :| 0 <= k < |made.parts| && made.parts[k] == l;
      assert Rescope(made.parts)[k] == s.limitations[k] && s.limitations[k] in s.limitations;
      forall ref | ref in l.citationIds ensures ref in Catalog(w') && a.citations[ref] == Catalog(w')[ref] {
        CatalogGrows(w, w', ref);
        SourceMeans(w', ref, a.citations[ref]);
      }
    }
    LimitationsProjected(w', a, section.id, |a.limitations|);
  }

  lemma SavedProjects(w: World, w': World, a: Article, notes: map<string, Note>, s: AuthorSection, section: Section)
    requires WellFormed(w) && WellFormed(w') && Extends(w, w') && SavedFrom(w, a, s, section) && Meaningful(w', a.citations)
    requires DistinctSection(s)
    ensures |section.blocks| == |s.content| && UnitsAre(w, section.id, s.content, |s.content|, CompileUnits(w, Catalog(w), section.id, s.content, |s.content|).value)
    ensures ProjectSection(w', a, notes, section) == Some(AuthorSection("", section.id, section.title, TidyUnits(s.content, notes, section.blocks, |section.blocks|), ProjectPixels(w', notes, SectionPixels(a.citations, section.blocks, |section.blocks|)), s.limitations, ""))
  {
    hide Catalog, WellFormed, Extends, CompileUnits, CompileLimitations, ScopedTo, ProjectLimitations, Meaning, Refers, ProjectBlocks, UnitsAre, ProjectPixels, TidyUnits, SectionPixels, TrimSpace, Observe;
    SectionParts(w, s, section.id);
    SavedLimitations(w, w', a, s, section);
    CompiledUnits(w, section.id, s.content, |s.content|);
    var us := CompileUnits(w, Catalog(w), section.id, s.content, |s.content|).value;
    BlocksProjected(w, w', section.id, s.content, us, a.citations, notes, |s.content|);
  }

  lemma NotedFigures(w: World, w': World, id: string, content: seq<Content>, us: Units, citations: map<string, Citation>, notes: map<string, Note>)
    requires WellFormed(w') && Extends(w, w') && Meaningful(w', citations) && UnitsAre(w, id, content, |content|, us)
    requires (forall b | b in us.blocks :: Refers(citations, b)) && Noted(citations, notes, us.blocks)
    ensures forall b | b in us.blocks :: FigureNoted(notes, b)
  {
    hide Catalog, WellFormed, Extends, CompileUnit, Meaningful, NoteOf, FigureNoted, SectionPixels, PixelOf, Refers;
    forall b | b in us.blocks ensures FigureNoted(notes, b) {
      var k :| 0 <= k < |us.blocks| && us.blocks[k] == b;
      assert UnitAt(w, id, content, us, k);
      forall f | PixelOf(citations, b, f) ensures NoteOf(notes, f).visibleFacts != [] {
        SectionPixelsAre(citations, us.blocks, |us.blocks|, f);
      }
      NotedFigure(w, w', citations, notes, BlockId(id, k), content[k]);
    }
  }

  lemma NotesArePixels(w: World, w': World, id: string, content: seq<Content>, us: Units, citations: map<string, Citation>, f: string)
    requires WellFormed(w') && Extends(w, w') && Meaningful(w', citations) && UnitsAre(w, id, content, |content|, us)
    requires (forall b | b in us.blocks :: Refers(citations, b)) && f in us.notes
    ensures f in SectionPixels(citations, us.blocks, |us.blocks|)
  {
    hide Catalog, WellFormed, Extends, CompileUnit, Meaning, SectionPixels, BlockCitations;
    var k :| 0 <= k < |content| && BlockShows(us, k, f);
    var ref :| ref in BlockCitations(us.blocks[k]) && ref in us.citations && us.citations[ref].VideoFrame? && us.citations[ref].frameId == f;
    assert Refers(citations, us.blocks[k]);
    MeaningGrows(w, w', ref, us.citations[ref]);
    MeaningIsUnique(w', ref, us.citations[ref], citations[ref]);
    assert PixelOf(citations, us.blocks[k], f);
    SectionPixelsAre(citations, us.blocks, |us.blocks|, f);
  }

  /** A section that names every source of a unit once, projected and compiled again, is the same
      section with the same citations, limitations and frame notes; this fails exactly when nothing
      is known about a frame that it cites. */
  lemma SectionRoundTrips(w: World, w': World, a: Article, notes: map<string, Note>, s: AuthorSection, section: Section)
    requires WellFormed(w) && WellFormed(w') && Extends(w, w') && SavedFrom(w, a, s, section) && Meaningful(w', a.citations)
    requires DistinctSection(s)
    ensures ProjectSection(w', a, notes, section).Some?
    ensures CompileSection(w', Catalog(w'), ProjectSection(w', a, notes, section).value, section.id).Ok? <==> Noted(a.citations, notes, section.blocks)
    ensures var r := CompileSection(w', Catalog(w'), ProjectSection(w', a, notes, section).value, section.id); r.Ok? ==> r.value.section == section && r.value.limitations == ScopedTo(a.limitations, section.id, |a.limitations|) && r.value.citations == CompileSection(w, Catalog(w), s, section.id).value.citations && notes + r.value.notes == notes
  {
    hide Catalog, WellFormed, Extends, CompileUnits, CompileLimitations, Meaning, Refers, UnitsAre, ProjectPixels, SectionPixels, TidyUnits, TrimSpace, Observe, ScopedTo, ProjectSection, NoteOf, AllDistinct;
    SectionParts(w, s, section.id);
    SavedProjects(w, w', a, notes, s, section);
    var us := CompileUnits(w, Catalog(w), section.id, s.content, |s.content|).value;
    var pixels := SectionPixels(a.citations, section.blocks, |section.blocks|);
    var p := ProjectSection(w', a, notes, section).value;
    SectionTitle(s.title);
    assert |ProjectPixels(w', notes, pixels)| == |pixels| && |p.content| == |s.content| by { PixelCount(w', notes, pixels, s.content, section.blocks); }
    forall k | 0 <= k < |pixels| ensures var o := p.observations[k]; o.frame in Catalog(w') && Catalog(w')[o.frame].VideoFrame? && Catalog(w')[o.frame].frameId == pixels[k] && o.note == NoteOf(notes, pixels[k]) {
      PixelObserved(w', a.citations, notes, section.blocks, pixels, k);
    }
    if Noted(a.citations, notes, section.blocks) {
      NotedFigures(w, w', section.id, s.content, us, a.citations, notes);
      assert us.blocks == us.blocks[..|s.content|];
      UnitsCompiledAgain(w, w', section.id, s.content, us.blocks, notes, |s.content|);
      LimitationsAgain(w, w', section.id, s.limitations, |s.limitations|);
      var us' := CompileUnits(w', Catalog(w'), section.id, p.content, |p.content|).value;
      forall k | 0 <= k < |pixels| ensures Observed(Catalog(w'), p.observations[k]) {
      }
      ObservedAgain(Catalog(w'), w', notes, us'.notes, pixels, |pixels|);
      assert pixels[..|pixels|] == pixels;
      var made := Observe(Catalog(w'), us'.notes, p.observations, |pixels|);
      forall f | f in made ensures f in notes && notes[f] == made[f] {
        if f in us'.notes {
          NotesArePixels(w, w', section.id, s.content, us, a.citations, f);
        }
        KnownFrame(notes, f);
      }
      assert notes + made == notes;
    } else {
      var f :| f in pixels && NoteOf(notes, f).visibleFacts == [];
      var k :| 0 <= k < |pixels| && pixels[k] == f;
      assert !Observed(Catalog(w'), p.observations[k]);
    }
  }

  lemma KnownFrame(notes: map<string, Note>, f: string)
    ensures NoteOf(notes, f).visibleFacts != [] ==> f in notes && NoteOf(notes, f) == notes[f]
  {
  }

  lemma SectionTitle(title: string)
    ensures TrimSpace(TrimSpace(title)) == TrimSpace(title) && (Blank(TrimSpace(title)) <==> Blank(title))
  {
    TrimAgain(title);
  }

  lemma PixelCount(w: World, notes: map<string, Note>, pixels: seq<string>, content: seq<Content>, bs: seq<Block>)
    ensures |ProjectPixels(w, notes, pixels)| == |pixels|
    ensures |bs| <= |content| ==> |TidyUnits(content, notes, bs, |bs|)| == |bs|
  {
  }

  /** A chapter whose only text cites a frame without describing it. */
  function Undescribed(frame: string): AuthorSection {
    AuthorSection("k", "", "T", [NOTHING.(text := Some("x"), sources := [frame])], [], [], "")
  }

  lemma UndescribedUnits(w: World, id: string, ref: string)
    requires ref in Catalog(w)
    ensures CompileUnits(w, Catalog(w), id, Undescribed(ref).content, 1) == Ok(Units([Paragraph(BlockId(id, 0), FromVideo, Inlines("x", [ref]))], CitationsOf(Catalog(w), [ref]), map[]))
  {
    hide Catalog, Inlines, BlockId;
    var made := CitationsOf(Catalog(w), [ref]);
    var unit := Unit(Paragraph(BlockId(id, 0), FromVideo, Inlines("x", [ref])), made, map[]);
    assert !Blank("x");
    assert CompileUnit(w, Catalog(w), BlockId(id, 0), Undescribed(ref).content[0]) == Ok(unit);
    assert CompileUnits(w, Catalog(w), id, Undescribed(ref).content, 0) == Ok(Units([], map[], map[]));
    var none: Units := Units([], map[], map[]);
    assert none.blocks + [unit.block] == [unit.block] && none.citations + made == made && none.notes + unit.notes == map[];
  }

  /** Such a chapter is accepted, but what it brings does not let it be sent back. */
  lemma UndescribedFrameIsAccepted(w: World, id: string)
    requires |w.frames| > 0 && w.frames[0].id in w.seen
    ensures var r := CompileSection(w, Catalog(w), Undescribed(FrameAlias(0)), id); r.Ok? && !Noted(r.value.citations, r.value.notes, r.value.section.blocks)
  {
    hide Catalog, FrameAlias, CompileUnits, Inlines, InlineCitations, MergeFirst, SectionPixels;
    var ref := FrameAlias(0);
    CatalogEntry(w, ref);
    assert IsFrame(w, ref, 0);
    UndescribedUnits(w, id, ref);
    assert !Blank("T");
    var c := CompileSection(w, Catalog(w), Undescribed(ref), id).value;
    InlinesReadBack("x", [ref]);
    MergeOfDistinct([ref]);
    assert BlockCitations(c.section.blocks[0]) == [ref];
    assert PixelOf(c.citations, c.section.blocks[0], w.frames[0].id) by {
      assert ref in BlockCitations(c.section.blocks[0]) && ref in c.citations;
    }
    SectionPixelsAre(c.citations, c.section.blocks, 1, w.frames[0].id);
  }
}
