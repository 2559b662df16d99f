/** Projecting a compiled section to the author language and compiling it again gives back the
    persisted section. */
module AuthorRoundTrip {
  import opened Lists
  import opened Text
  import opened Wrappers
  import opened ArticleBlocks
  import opened AuthorLanguage

  ghost predicate WellFormed(w: World) {
    && (forall i, j | 0 <= i < j < |w.transcript| :: w.transcript[i].id != w.transcript[j].id)
    && (forall i, j | 0 <= i < j < |w.frames| :: w.frames[i].id != w.frames[j].id)
    && (forall t, t', s, s' | w.quoteHash(t, s) == w.quoteHash(t', s') :: t == t' && s == s')
  }

  /** Later in the same run: more may have been delivered, nothing is withdrawn. */
  ghost predicate Extends(w: World, w': World) {
    && w'.snapshotId == w.snapshotId && w'.durationMs == w.durationMs && w'.transcript == w.transcript
    && w'.quoteHash == w.quoteHash && w.frames <= w'.frames && w.read <= w'.read && w.seen <= w'.seen
  }

  // ----- the catalog

  lemma AliasKinds(i: nat, j: nat)
    ensures Alias(i) != FrameAlias(j)
    ensures FrameAlias(i) == FrameAlias(j) ==> i == j
  {
    hide Decimal;
    assert Alias(i)[0] == 't' && FrameAlias(j)[0] == 'f';
    assert FrameAlias(i)[1..] == Decimal(i + 1) && FrameAlias(j)[1..] == Decimal(j + 1);
    if FrameAlias(i) == FrameAlias(j) {
      DecimalInjective(i + 1, j + 1);
    }
  }

  lemma {:induction false} TextCatalogEntries(w: World, n: nat, ref: string)
    requires n <= |w.transcript|
    ensures ref in TextCatalog(w, n) <==> exists i | 0 <= i < n :: ref == Alias(i) && TextDelivered(w, i)
    ensures forall i | 0 <= i < n && ref == Alias(i) && TextDelivered(w, i) :: TextCatalog(w, n)[ref] == TextCitation(w, i)
  {
    hide Alias, TextDelivered, TextCitation;
    if n > 0 {
      TextCatalogEntries(w, n - 1, ref);
      if ref == Alias(n - 1) {
        forall i | 0 <= i < n - 1 ensures ref != Alias(i) {
          if ref == Alias(i) {
            AliasInjective(i, n - 1);
          }
        }
      }
    }
  }

  lemma {:induction false} FrameCatalogEntries(w: World, n: nat, ref: string)
    requires n <= |w.frames|
    ensures ref in FrameCatalog(w, n) <==> exists i | 0 <= i < n :: ref == FrameAlias(i) && w.frames[i].id in w.seen
    ensures forall i | 0 <= i < n && ref == FrameAlias(i) && w.frames[i].id in w.seen :: FrameCatalog(w, n)[ref] == FrameCitation(w, i)
  {
    hide FrameAlias, FrameCitation;
    if n > 0 {
      FrameCatalogEntries(w, n - 1, ref);
      if ref == FrameAlias(n - 1) {
        forall i | 0 <= i < n - 1 ensures ref != FrameAlias(i) {
          if ref == FrameAlias(i) {
            AliasKinds(i, n - 1);
          }
        }
      }
    }
  }

  /** A delivered source is one segment of the transcript or one frame. */
  ghost predicate IsText(w: World, ref: string, i: nat) {
    i < |w.transcript| && ref == Alias(i) && TextDelivered(w, i)
  }

  ghost predicate IsFrame(w: World, ref: string, i: nat) {
    i < |w.frames| && ref == FrameAlias(i) && w.frames[i].id in w.seen
  }

  lemma CatalogEntry(w: World, ref: string)
    ensures ref in Catalog(w) <==> (exists i: nat :: IsText(w, ref, i)) || exists i: nat :: IsFrame(w, ref, i)
    ensures forall i: nat | IsText(w, ref, i) :: Catalog(w)[ref] == TextCitation(w, i)
    ensures forall i: nat | IsFrame(w, ref, i) :: Catalog(w)[ref] == FrameCitation(w, i)
  {
    hide Alias, FrameAlias, TextDelivered, TextCitation, FrameCitation, TextCatalog, FrameCatalog;
    TextCatalogEntries(w, |w.transcript|, ref);
    FrameCatalogEntries(w, |w.frames|, ref);
    forall i: nat | IsText(w, ref, i) ensures ref in Catalog(w) && Catalog(w)[ref] == TextCitation(w, i) {
      if ref in FrameCatalog(w, |w.frames|) {
        var j :| 0 <= j < |w.frames| && ref == FrameAlias(j) && w.frames[j].id in w.seen;
        AliasKinds(i, j);
      }
    }
    forall i: nat | IsFrame(w, ref, i) ensures ref in Catalog(w) && Catalog(w)[ref] == FrameCitation(w, i) {
    }
    if ref in TextCatalog(w, |w.transcript|) {
      var i :| 0 <= i < |w.transcript| && ref == Alias(i) && TextDelivered(w, i);
      assert IsText(w, ref, i);
    }
    if ref in FrameCatalog(w, |w.frames|) {
      var i :| 0 <= i < |w.frames| && ref == FrameAlias(i) && w.frames[i].id in w.seen;
      assert IsFrame(w, ref, i);
    }
  }

  /** What was delivered keeps its citation. */
  lemma CatalogGrows(w: World, w': World, ref: string)
    requires Extends(w, w') && ref in Catalog(w)
    ensures ref in Catalog(w') && Catalog(w')[ref] == Catalog(w)[ref]
  {
    hide Alias, FrameAlias, Catalog;
    CatalogEntry(w, ref);
    CatalogEntry(w', ref);
    if i: nat :| IsText(w, ref, i) {
      assert IsText(w', ref, i);
    } else {
      var i: nat :| IsFrame(w, ref, i);
      assert IsFrame(w', ref, i);
    }
  }

  // ----- names

  lemma {:induction false} TextAliasesAt(ts: seq<Segment>, n: nat, i: nat)
    requires i < n <= |ts| && forall i, j | 0 <= i < j < |ts| :: ts[i].id != ts[j].id
    ensures ts[i].id in TextAliases(ts, n) && TextAliases(ts, n)[ts[i].id] == Alias(i)
  {
    hide Alias;
    if i < n - 1 {
      TextAliasesAt(ts, n - 1, i);
    }
  }

  lemma {:induction false} FrameAliasesAt(frames: seq<Frame>, n: nat, i: nat)
    requires i < n <= |frames| && forall i, j | 0 <= i < j < |frames| :: frames[i].id != frames[j].id
    ensures frames[i].id in FrameAliases(frames, n) && FrameAliases(frames, n)[frames[i].id] == FrameAlias(i)
  {
    hide FrameAlias;
    if i < n - 1 {
      FrameAliasesAt(frames, n - 1, i);
    }
  }

  lemma SegmentHasName(w: World, i: nat)
    requires WellFormed(w) && i < |w.transcript|
    ensures NameSegment(w, w.transcript[i].id) == Some(Alias(i))
  {
    hide Alias, TextAliases;
    TextAliasesAt(w.transcript, |w.transcript|, i);
  }

  lemma FrameHasName(w: World, i: nat)
    requires WellFormed(w) && i < |w.frames|
    ensures NameFrame(w, w.frames[i].id) == Some(FrameAlias(i))
  {
    hide FrameAlias, FrameAliases;
    FrameAliasesAt(w.frames, |w.frames|, i);
  }

  /** The catalog citation of a source is projected to this source. */
  lemma CitationIsNamed(w: World, ref: string, out: seq<string>)
    requires WellFormed(w) && ref in Catalog(w)
    ensures NameCitation(w, Catalog(w)[ref], out) == Some(AppendUnique(out, ref))
    ensures Catalog(w)[ref].VideoFrame? ==> NameFrame(w, Catalog(w)[ref].frameId) == Some(ref)
  {
    hide Alias, FrameAlias, Catalog, NameFrame, NameSegment, TextDelivered;
    CatalogEntry(w, ref);
    if i: nat :| IsText(w, ref, i) {
      SegmentHasName(w, i);
      assert Catalog(w)[ref].segmentIds == [w.transcript[i].id];
      assert NameSegments(w, Catalog(w)[ref].segmentIds, 0, out) == Some(out);
    } else {
      var i: nat :| IsFrame(w, ref, i);
      FrameHasName(w, i);
    }
  }

  /** The stored citations of some sources are those of the catalog. */
  ghost predicate Stored(w: World, citations: map<string, Citation>, ids: seq<string>) {
    forall id | id in ids :: id in Catalog(w) && id in citations && citations[id] == Catalog(w)[id]
  }

  lemma {:induction false} SourcesAreNamed(w: World, citations: map<string, Citation>, ids: seq<string>, n: nat)
    requires WellFormed(w) && n <= |ids| && Stored(w, citations, ids)
    ensures Names(w, citations, ids, n) == Some(MergeFirst([], ids, n))
  {
    hide Catalog, NameCitation, AppendUnique;
    if n > 0 {
      SourcesAreNamed(w, citations, ids, n - 1);
      CitationIsNamed(w, ids[n - 1], MergeFirst([], ids, n - 1));
    }
  }

  lemma AllSourcesAreNamed(w: World, citations: map<string, Citation>, ids: seq<string>)
    requires WellFormed(w) && Stored(w, citations, ids)
    ensures AllNames(w, citations, ids) == Some(Merge([], ids))
  {
    hide Catalog, Names, MergeFirst;
    SourcesAreNamed(w, citations, ids, |ids|);
  }

  lemma MergeAgain(ids: seq<string>)
    ensures Merge([], Merge([], ids)) == Merge([], ids) && Distinct(Merge([], ids))
  {
    hide MergeFirst;
    MergeFirstDistinct([], ids, |ids|);
    MergeIntoNothing(Merge([], ids), |Merge([], ids)|);
    assert Merge([], ids)[..|Merge([], ids)|] == Merge([], ids);
  }

  lemma MergeOfDistinct(ids: seq<string>)
    requires Distinct(ids)
    ensures Merge([], ids) == ids
  {
    hide MergeFirst;
    MergeIntoNothing(ids, |ids|);
    assert ids[..|ids|] == ids;
  }

  // ----- inline content

  lemma {:induction false} InlineText(text: string, ids: seq<string>, n: nat)
    requires n <= |ids|
    ensures PlainText(Inlines(text, ids)[..n + 1]) == text
  {
    var content := Inlines(text, ids);
    assert content[0] == Prose(text);
    if n == 0 {
      assert content[..1] == [Prose(text)];
      assert PlainText([Prose(text)][..0]) == "";
    } else {
      InlineText(text, ids, n - 1);
      assert content[..n + 1][..n] == content[..n] && content[n] == Cite(ids[n - 1]);
    }
  }

  lemma {:induction false} InlineIds(text: string, ids: seq<string>, n: nat)
    requires n <= |ids|
    ensures InlineCitations([], Inlines(text, ids), n + 1) == MergeFirst([], ids, n)
  {
    var content := Inlines(text, ids);
    if n == 0 {
      assert InlineCitations([], content, 0) == [];
    } else {
      InlineIds(text, ids, n - 1);
      assert content[n] == Cite(ids[n - 1]);
    }
  }

  lemma InlinesReadBack(text: string, ids: seq<string>)
    ensures PlainText(Inlines(text, ids)) == text
    ensures InlineCitations([], Inlines(text, ids), |Inlines(text, ids)|) == Merge([], ids)
  {
    hide PlainText, InlineCitations, MergeFirst;
    InlineText(text, ids, |ids|);
    InlineIds(text, ids, |ids|);
    assert Inlines(text, ids)[..|ids| + 1] == Inlines(text, ids);
  }

  // ----- recompiling the same unit

  function RenumberItems(items: seq<Item>, blockId: string): seq<Item> {
    seq(|items|, k requires 0 <= k < |items| => Item(ItemId(blockId, k), items[k].content))
  }

  /** The block at another position: only identities change. */
  function Renumber(b: Block, blockId: string): Block {
    match b
    case Listing(_, ordered, items) => Listing(blockId, ordered, RenumberItems(items, blockId))
    case Paragraph(_, origin, content) => Paragraph(blockId, origin, content)
    case Quotation(_, content) => Quotation(blockId, content)
    case Code(_, language, text, citationIds) => Code(blockId, language, text, citationIds)
    case Table(_, columns, rows) => Table(blockId, columns, rows)
    case Figure(_, frameIds, layout, caption, citationIds) => Figure(blockId, frameIds, layout, caption, citationIds)
  }

  lemma SourcedGrows(w: World, w': World, ids: seq<string>)
    requires Extends(w, w') && Sourced(Catalog(w), ids).Ok?
    ensures Sourced(Catalog(w'), ids) == Sourced(Catalog(w), ids)
  {
    hide Catalog, FirstUndelivered;
    forall id | id in ids ensures id in Catalog(w') && Catalog(w')[id] == Catalog(w)[id] {
      CatalogGrows(w, w', id);
    }
    assert CitationsOf(Catalog(w'), ids) == CitationsOf(Catalog(w), ids);
  }

  lemma {:induction false} ItemsAgain(w: World, w': World, b: string, b': string, items: seq<SourcedText>, n: nat)
    requires Extends(w, w') && n <= |items| && CompileItems(Catalog(w), b, items, n).Ok?
    ensures var parts := CompileItems(Catalog(w), b, items, n).value; |parts.parts| == n && CompileItems(Catalog(w'), b', items, n) == Ok(Parts(RenumberItems(parts.parts, b'), parts.citations))
  {
    hide Catalog, Sourced, ItemId, TrimSpace, Inlines, Extends;
    if n > 0 {
      ItemsAgain(w, w', b, b', items, n - 1);
      SourcedGrows(w, w', items[n - 1].sources);
      var front, parts := CompileItems(Catalog(w), b, items, n - 1).value.parts, CompileItems(Catalog(w), b, items, n).value.parts;
      var item := Item(ItemId(b', n - 1), Inlines(items[n - 1].text, items[n - 1].sources));
      assert parts == front + [Item(ItemId(b, n - 1), item.content)];
      assert RenumberItems(parts, b') == RenumberItems(front, b') + [item];
    } else {
      assert RenumberItems([], b') == [];
    }
  }

  lemma {:induction false} RowsAgain(w: World, w': World, width: nat, rows: seq<SourcedRow>, n: nat)
    requires Extends(w, w') && n <= |rows| && CompileRows(Catalog(w), width, rows, n).Ok?
    ensures CompileRows(Catalog(w'), width, rows, n) == CompileRows(Catalog(w), width, rows, n)
  {
    hide Catalog, Sourced, Extends;
    if n > 0 {
      RowsAgain(w, w', width, rows, n - 1);
      SourcedGrows(w, w', rows[n - 1].sources);
    }
  }

  lemma {:induction false} GatherAgain(w: World, w': World, sources: seq<string>, n: nat)
    requires Extends(w, w') && n <= |sources|
    requires forall id | id in sources :: id in Catalog(w) && id in Catalog(w')
    ensures Gather(w', Catalog(w'), sources, n) == Gather(w, Catalog(w), sources, n)
  {
    hide Catalog, GatherSource;
    if n > 0 {
      GatherAgain(w, w', sources, n - 1);
      CatalogGrows(w, w', sources[n - 1]);
    }
  }

  lemma SourcedAre(cat: map<string, Citation>, ids: seq<string>)
    requires Sourced(cat, ids).Ok?
    ensures ids != [] && (forall id | id in ids :: id in cat) && Sourced(cat, ids).value == CitationsOf(cat, ids)
  {
  }

  lemma QuoteAgain(w: World, w': World, b: string, b': string, text: string, sources: seq<string>)
    requires Extends(w, w') && CompileQuote(w, Catalog(w), b, text, sources).Ok?
    ensures var u := CompileQuote(w, Catalog(w), b, text, sources).value; CompileQuote(w', Catalog(w'), b', text, sources) == Ok(u.(block := Renumber(u.block, b')))
  {
    hide Catalog, Gather, Sourced, TrimSpace, Inlines, Occurs, Normalize, Lines;
    SourcedGrows(w, w', sources);
    SourcedAre(Catalog(w), sources);
    SourcedAre(Catalog(w'), sources);
    GatherAgain(w, w', sources, |sources|);
    CatalogGrows(w, w', sources[0]);
    CatalogGrows(w, w', sources[|sources| - 1]);
  }

  /** Only the presence of facts matters to a figure's block. */
  lemma FigureAgain(w: World, w': World, b: string, b': string, f: Picture, note: Note, sources: seq<string>)
    requires Extends(w, w') && CompileFigure(Catalog(w), b, f, sources).Ok? && note.visibleFacts != []
    ensures var u := CompileFigure(Catalog(w), b, f, sources).value; var r := CompileFigure(Catalog(w'), b', f.(note := note), sources); r.Ok? && r.value.block == Renumber(u.block, b') && r.value.citations == u.citations && r.value.notes.Keys == u.notes.Keys && forall id | id in r.value.notes :: r.value.notes[id] == note
  {
    hide Catalog, Sourced, TrimSpace;
    SourcedGrows(w, w', f.frames);
    SourcedAre(Catalog(w), f.frames);
    SourcedAre(Catalog(w'), f.frames);
    FramesAgain(w, w', f.frames);
  }

  lemma FramesAgain(w: World, w': World, frames: seq<string>)
    requires Extends(w, w') && forall id | id in frames :: id in Catalog(w) && id in Catalog(w')
    requires FramesFollow(Catalog(w), frames)
    ensures FramesFollow(Catalog(w'), frames) && FrameIds(Catalog(w'), frames) == FrameIds(Catalog(w), frames)
  {
    hide Catalog;
    forall id | id in frames ensures Catalog(w')[id] == Catalog(w)[id] {
      CatalogGrows(w, w', id);
    }
    forall k | 0 <= k < |frames| ensures FrameFollows(Catalog(w'), frames, k) {
      assert FrameFollows(Catalog(w), frames, k);
    }
  }

  // ----- the sources of a quotation

  lemma {:induction false} GatherOne(ts: seq<Segment>, m: nat, i: nat, first: bool, got: seq<Segment>)
    requires i < |ts| && m <= |ts| && forall i, j | 0 <= i < j < |ts| :: ts[i].id != ts[j].id
    ensures GatherSource(ts, m, [ts[i].id], first, got)
         == if m <= i then Ok(got) else if !first && ts[i].ordinal != LastOrdinal(got) + 1 then Fail(QuoteNotContinuous) else Ok(got + [ts[i]])
  {
    if m > 0 {
      GatherOne(ts, m - 1, i, first, got);
      assert m - 1 != i ==> ts[m - 1].id != ts[i].id;
    }
  }

  /** The gathered segments are those of the sources, with consecutive ordinals. */
  ghost predicate Follows(w: World, sources: seq<string>, got: seq<Segment>) {
    && |got| <= |sources|
    && (forall k | 0 <= k < |got| :: SegmentOf(w, sources[k], got[k]))
    && (forall k | 0 <= k < |got| :: got[k].ordinal == got[0].ordinal + k)
  }

  ghost predicate SegmentOf(w: World, ref: string, t: Segment) {
    exists i: nat :: IsText(w, ref, i) && w.transcript[i] == t
  }

  lemma {:induction false} GatherFollows(w: World, sources: seq<string>, n: nat)
    requires WellFormed(w) && n <= |sources| && forall id | id in sources :: id in Catalog(w)
    requires Gather(w, Catalog(w), sources, n).Ok?
    ensures Follows(w, sources, Gather(w, Catalog(w), sources, n).value) && |Gather(w, Catalog(w), sources, n).value| == n
  {
    hide Catalog, GatherSource, Alias, FrameAlias, TextDelivered;
    if n > 0 {
      var cat := Catalog(w);
      GatherFollows(w, sources, n - 1);
      var ref, got := sources[n - 1], Gather(w, cat, sources, n - 1).value;
      CatalogEntry(w, ref);
      var i: nat :| IsText(w, ref, i);
      assert cat[ref].segmentIds == [w.transcript[i].id];
      GatherOne(w.transcript, |w.transcript|, i, n == 1, got);
      assert Gather(w, cat, sources, n) == Ok(got + [w.transcript[i]]);
      assert SegmentOf(w, ref, w.transcript[i]);
    }
  }

  lemma QuoteSourcesAreDistinct(w: World, sources: seq<string>, got: seq<Segment>)
    requires WellFormed(w) && Follows(w, sources, got) && |got| == |sources|
    ensures Distinct(sources)
  {
    hide Alias, TextDelivered;
    forall k, m | 0 <= k < m < |sources| ensures sources[k] != sources[m] {
      assert SegmentOf(w, sources[k], got[k]) && SegmentOf(w, sources[m], got[m]);
      var i: nat :| IsText(w, sources[k], i) && w.transcript[i] == got[k];
      var j: nat :| IsText(w, sources[m], j) && w.transcript[j] == got[m];
      if sources[k] == sources[m] {
        AliasInjective(i, j);
      }
    }
  }

  lemma SegmentOfIsNamed(w: World, w': World, ref: string, t: Segment)
    requires WellFormed(w') && Extends(w, w') && SegmentOf(w, ref, t)
    ensures NameSegment(w', t.id) == Some(ref)
  {
    hide Alias, TextDelivered, NameSegment;
    var i: nat :| IsText(w, ref, i) && w.transcript[i] == t;
    SegmentHasName(w', i);
  }

  lemma {:induction false} SegmentsAreNamed(w: World, w': World, sources: seq<string>, got: seq<Segment>, n: nat)
    requires WellFormed(w') && Extends(w, w') && n <= |got| <= |sources|
    requires forall k | 0 <= k < |got| :: SegmentOf(w, sources[k], got[k])
    ensures NameSegments(w', SegmentIds(got), n, []) == Some(MergeFirst([], sources, n))
  {
    hide Extends, WellFormed, SegmentOf, NameSegment, AppendUnique, Elements;
    if n > 0 {
      SegmentsAreNamed(w, w', sources, got, n - 1);
      SegmentOfIsNamed(w, w', sources[n - 1], got[n - 1]);
      assert SegmentIds(got)[n - 1] == got[n - 1].id;
    }
  }

  // ----- one unit there and back

  function TidyItems(items: seq<SourcedText>): seq<SourcedText> {
    seq(|items|, k requires 0 <= k < |items| => items[k].(sources := Merge([], items[k].sources)))
  }

  function TidyRows(rows: seq<SourcedRow>): seq<SourcedRow> {
    seq(|rows|, k requires 0 <= k < |rows| => rows[k].(sources := Merge([], rows[k].sources)))
  }

  /** A unit with every source named once, and with `note` for its figure. */
  function Tidy(c: Content, note: Note): Content {
    c.(sources := Merge([], c.sources),
       list := match c.list case None => None case Some(l) => Some(Bullets(l.ordered, TidyItems(l.items))),
       table := match c.table case None => None case Some(t) => Some(Grid(t.columns, TidyRows(t.rows))),
       figure := match c.figure case None => None case Some(f) => Some(f.(note := note)))
  }

  function FigureNote(notes: map<string, Note>, b: Block): Note {
    if b.Figure? then Gathered(notes, b.frameIds, |b.frameIds|) else Note([], [])
  }

  /** The article still holds the citations of a block. */
  ghost predicate Kept(citations: map<string, Citation>, made: map<string, Citation>, ids: seq<string>) {
    forall id | id in ids :: id in citations && id in made && citations[id] == made[id]
  }

  /** Some citations are those of the catalog. */
  ghost predicate FromCatalog(w: World, made: map<string, Citation>) {
    forall id | id in made :: id in Catalog(w) && made[id] == Catalog(w)[id]
  }

  lemma NamesAreSources(w: World, w': World, citations: map<string, Citation>, made: map<string, Citation>, ids: seq<string>)
    requires WellFormed(w') && Extends(w, w') && FromCatalog(w, made) && Kept(citations, made, ids)
    ensures AllNames(w', citations, ids) == Some(Merge([], ids))
  {
    hide Catalog, Names, AllNames, WellFormed, MergeFirst, Extends;
    forall id | id in ids ensures id in Catalog(w') && citations[id] == Catalog(w')[id] {
      CatalogGrows(w, w', id);
    }
    AllSourcesAreNamed(w', citations, ids);
  }

  /** Inline content reads back as its text and its sources, each once. */
  lemma ContentReadsBack(w: World, w': World, citations: map<string, Citation>, made: map<string, Citation>, text: string, sources: seq<string>)
    requires WellFormed(w') && Extends(w, w') && FromCatalog(w, made) && Kept(citations, made, sources)
    ensures var content := Inlines(text, sources); PlainText(content) == text && AllNames(w', citations, InlineCitations([], content, |content|)) == Some(Merge([], sources))
  {
    hide Names, AllNames, WellFormed, Extends, FromCatalog, PlainText, InlineCitations, MergeFirst, Inlines;
    InlinesReadBack(text, sources);
    NamesAreSources(w, w', citations, made, Merge([], sources));
    MergeAgain(sources);
  }

  lemma SourcedFromCatalog(w: World, ids: seq<string>)
    requires Sourced(Catalog(w), ids).Ok?
    ensures FromCatalog(w, Sourced(Catalog(w), ids).value) && forall id | id in ids :: id in Sourced(Catalog(w), ids).value
  {
    hide Catalog, FirstUndelivered;
  }

  lemma ProjectText(w: World, w': World, citations: map<string, Citation>, notes: map<string, Note>, b: string, text: string, sources: seq<string>)
    requires WellFormed(w') && Extends(w, w') && CompileText(Catalog(w), b, text, sources).Ok?
    requires var u := CompileText(Catalog(w), b, text, sources).value; Kept(citations, u.citations, BlockCitations(u.block))
    ensures ProjectBlock(w', citations, notes, CompileText(Catalog(w), b, text, sources).value.block)
         == Some(NOTHING.(text := Some(text), sources := Merge([], sources)))
  {
    hide Catalog, Sourced, AllNames, WellFormed, Extends, FromCatalog, PlainText, InlineCitations, MergeFirst, Inlines, TrimSpace;
    SourcedFromCatalog(w, sources);
    InlinesReadBack(text, sources);
    ContentReadsBack(w, w', citations, Sourced(Catalog(w), sources).value, text, sources);
  }

  lemma ProjectBackground(w: World, citations: map<string, Citation>, notes: map<string, Note>, b: string, text: string, sources: seq<string>)
    requires CompileBackground(b, text, sources).Ok?
    ensures ProjectBlock(w, citations, notes, CompileBackground(b, text, sources).value.block) == Some(NOTHING.(background := Some(text)))
    ensures sources == []
  {
    hide PlainText, InlineCitations, Inlines, TrimSpace;
    InlinesReadBack(text, []);
  }

  lemma ProjectCode(w: World, w': World, citations: map<string, Citation>, notes: map<string, Note>, b: string, code: Snippet, sources: seq<string>)
    requires WellFormed(w') && Extends(w, w') && CompileCode(Catalog(w), b, code, sources).Ok?
    requires var u := CompileCode(Catalog(w), b, code, sources).value; Kept(citations, u.citations, BlockCitations(u.block))
    ensures ProjectBlock(w', citations, notes, CompileCode(Catalog(w), b, code, sources).value.block)
         == Some(NOTHING.(code := Some(code), sources := Merge([], sources)))
  {
    hide Catalog, Sourced, AllNames, WellFormed, Extends, FromCatalog, MergeFirst, TrimSpace;
    SourcedFromCatalog(w, sources);
    NamesAreSources(w, w', citations, Sourced(Catalog(w), sources).value, sources);
  }

  lemma {:induction false} ItemsMade(w: World, b: string, items: seq<SourcedText>, n: nat)
    requires n <= |items| && CompileItems(Catalog(w), b, items, n).Ok?
    ensures var made := CompileItems(Catalog(w), b, items, n).value; FromCatalog(w, made.citations) && |made.parts| == n
    ensures var made := CompileItems(Catalog(w), b, items, n).value; forall k | 0 <= k < n :: made.parts[k].content == Inlines(items[k].text, items[k].sources)
  {
    hide Catalog, Sourced, TrimSpace, Inlines, ItemId;
    if n > 0 {
      ItemsMade(w, b, items, n - 1);
      SourcedFromCatalog(w, items[n - 1].sources);
    }
  }

  lemma {:induction false} InlineCitationsAdd(ids: seq<string>, text: string, sources: seq<string>, n: nat)
    requires n <= |sources|
    ensures forall x :: x in InlineCitations(ids, Inlines(text, sources), n + 1) <==> x in ids || x in sources[..n]
  {
    if n == 0 {
      assert InlineCitations(ids, Inlines(text, sources), 0) == ids;
    } else {
      InlineCitationsAdd(ids, text, sources, n - 1);
      TakeOneMore(sources, n);
      assert Inlines(text, sources)[n] == Cite(sources[n - 1]);
    }
  }

  lemma {:induction false} ItemCitationsAre(items: seq<SourcedText>, parts: seq<Item>, n: nat)
    requires |parts| == |items| && n <= |items|
    requires forall k | 0 <= k < n :: parts[k].content == Inlines(items[k].text, items[k].sources)
    ensures forall x :: x in ItemCitations(parts, n) <==> exists k | 0 <= k < n :: x in items[k].sources
  {
    hide InlineCitations, Inlines;
    if n > 0 {
      ItemCitationsAre(items, parts, n - 1);
      var item := items[n - 1];
      InlineCitationsAdd(ItemCitations(parts, n - 1), item.text, item.sources, |item.sources|);
      InlinesLength(item.text, item.sources);
      assert parts[n - 1].content == Inlines(item.text, item.sources);
      assert item.sources[..|item.sources|] == item.sources;
      forall x ensures x in ItemCitations(parts, n) <==> exists k | 0 <= k < n :: x in items[k].sources {
        assert x in ItemCitations(parts, n) <==> x in ItemCitations(parts, n - 1) || x in item.sources;
      }
    }
  }

  lemma InlinesLength(text: string, sources: seq<string>)
    ensures |Inlines(text, sources)| == |sources| + 1
  {
  }

  lemma {:induction false} ProjectItemsBack(w: World, w': World, citations: map<string, Citation>, made: map<string, Citation>, items: seq<SourcedText>, parts: seq<Item>, n: nat)
    requires WellFormed(w') && Extends(w, w') && FromCatalog(w, made)
    requires |parts| == |items| && n <= |items|
    requires forall k | 0 <= k < |items| :: parts[k].content == Inlines(items[k].text, items[k].sources) && Kept(citations, made, items[k].sources)
    ensures ProjectItems(w', citations, parts, n) == Some(TidyItems(items[..n]))
  {
    hide AllNames, WellFormed, Extends, FromCatalog, PlainText, InlineCitations, MergeFirst, Inlines, Kept;
    if n > 0 {
      ProjectItemsBack(w, w', citations, made, items, parts, n - 1);
      ContentReadsBack(w, w', citations, made, items[n - 1].text, items[n - 1].sources);
      assert items[..n] == items[..n - 1] + [items[n - 1]];
      assert TidyItems(items[..n]) == TidyItems(items[..n - 1]) + [items[n - 1].(sources := Merge([], items[n - 1].sources))];
    }
  }

  lemma ProjectList(w: World, w': World, citations: map<string, Citation>, notes: map<string, Note>, b: string, list: Bullets, sources: seq<string>)
    requires WellFormed(w') && Extends(w, w') && CompileList(Catalog(w), b, list, sources).Ok?
    requires var u := CompileList(Catalog(w), b, list, sources).value; Kept(citations, u.citations, BlockCitations(u.block))
    ensures ProjectBlock(w', citations, notes, CompileList(Catalog(w), b, list, sources).value.block)
         == Some(NOTHING.(list := Some(Bullets(list.ordered, TidyItems(list.items)))))
  {
    hide Catalog, CompileItems, AllNames, WellFormed, Extends, FromCatalog, MergeFirst, ProjectItems, ItemCitations, Inlines;
    var items := list.items;
    ItemsMade(w, b, items, |items|);
    var made := CompileItems(Catalog(w), b, items, |items|).value;
    ItemCitationsAre(items, made.parts, |items|);
    NamesAreSources(w, w', citations, made.citations, ItemCitations(made.parts, |items|));
    ProjectItemsBack(w, w', citations, made.citations, items, made.parts, |items|);
    assert items[..|items|] == items;
  }

  lemma {:induction false} RowsMade(w: World, width: nat, rows: seq<SourcedRow>, n: nat)
    requires n <= |rows| && CompileRows(Catalog(w), width, rows, n).Ok?
    ensures var made := CompileRows(Catalog(w), width, rows, n).value; FromCatalog(w, made.citations) && |made.parts| == n
    ensures var made := CompileRows(Catalog(w), width, rows, n).value; forall k | 0 <= k < n :: made.parts[k] == Row(rows[k].cells, rows[k].sources)
  {
    hide Catalog, Sourced;
    if n > 0 {
      RowsMade(w, width, rows, n - 1);
      SourcedFromCatalog(w, rows[n - 1].sources);
    }
  }

  lemma {:induction false} RowCitationsAre(rows: seq<Row>, n: nat)
    requires n <= |rows|
    ensures forall x :: x in RowCitations(rows, n) <==> exists k | 0 <= k < n :: x in rows[k].citationIds
  {
    if n > 0 {
      RowCitationsAre(rows, n - 1);
    }
  }

  lemma {:induction false} ProjectRowsBack(w: World, w': World, citations: map<string, Citation>, made: map<string, Citation>, rows: seq<SourcedRow>, parts: seq<Row>, n: nat)
    requires WellFormed(w') && Extends(w, w') && FromCatalog(w, made)
    requires |parts| == |rows| && n <= |rows|
    requires forall k | 0 <= k < |rows| :: parts[k] == Row(rows[k].cells, rows[k].sources) && Kept(citations, made, rows[k].sources)
    ensures ProjectRows(w', citations, parts, n) == Some(TidyRows(rows[..n]))
  {
    hide AllNames, WellFormed, Extends, FromCatalog, MergeFirst, Kept;
    if n > 0 {
      ProjectRowsBack(w, w', citations, made, rows, parts, n - 1);
      NamesAreSources(w, w', citations, made, rows[n - 1].sources);
      assert rows[..n] == rows[..n - 1] + [rows[n - 1]];
      assert TidyRows(rows[..n]) == TidyRows(rows[..n - 1]) + [rows[n - 1].(sources := Merge([], rows[n - 1].sources))];
    }
  }

  lemma ProjectTable(w: World, w': World, citations: map<string, Citation>, notes: map<string, Note>, b: string, table: Grid, sources: seq<string>)
    requires WellFormed(w') && Extends(w, w') && CompileTable(Catalog(w), b, table, sources).Ok?
    requires var u := CompileTable(Catalog(w), b, table, sources).value; Kept(citations, u.citations, BlockCitations(u.block))
    ensures ProjectBlock(w', citations, notes, CompileTable(Catalog(w), b, table, sources).value.block)
         == Some(NOTHING.(table := Some(Grid(table.columns, TidyRows(table.rows)))))
  {
    hide Catalog, CompileRows, AllNames, WellFormed, Extends, FromCatalog, MergeFirst, ProjectRows, RowCitations;
    var rows := table.rows;
    RowsMade(w, |table.columns|, rows, |rows|);
    var made := CompileRows(Catalog(w), |table.columns|, rows, |rows|).value;
    RowCitationsAre(made.parts, |rows|);
    NamesAreSources(w, w', citations, made.citations, RowCitations(made.parts, |rows|));
    ProjectRowsBack(w, w', citations, made.citations, rows, made.parts, |rows|);
    assert rows[..|rows|] == rows;
  }

  lemma {:induction false} FramesAreNamed(w: World, w': World, frames: seq<string>, n: nat)
    requires WellFormed(w') && Extends(w, w') && n <= |frames| && (forall id | id in frames :: id in Catalog(w)) && FramesFollow(Catalog(w), frames)
    ensures NameFrames(w', FrameIds(Catalog(w), frames), n) == Some(frames[..n])
  {
    hide Catalog, NameFrame, WellFormed, Extends;
    if n > 0 {
      FramesAreNamed(w, w', frames, n - 1);
      assert FrameFollows(Catalog(w), frames, n - 1);
      CatalogGrows(w, w', frames[n - 1]);
      CitationIsNamed(w', frames[n - 1], []);
      TakeOneMore(frames, n);
    }
  }

  lemma ProjectFigure(w: World, w': World, citations: map<string, Citation>, notes: map<string, Note>, b: string, f: Picture, sources: seq<string>)
    requires WellFormed(w') && Extends(w, w') && CompileFigure(Catalog(w), b, f, sources).Ok?
    requires var u := CompileFigure(Catalog(w), b, f, sources).value; Kept(citations, u.citations, BlockCitations(u.block))
    ensures var u := CompileFigure(Catalog(w), b, f, sources).value; ProjectBlock(w', citations, notes, u.block) == Some(NOTHING.(figure := Some(f.(note := FigureNote(notes, u.block)))))
  {
    hide Catalog, Sourced, AllNames, WellFormed, Extends, FromCatalog, MergeFirst, NameFrames, FramesFollow, TrimSpace, Gathered;
    SourcedAre(Catalog(w), f.frames);
    SourcedFromCatalog(w, f.frames);
    NamesAreSources(w, w', citations, Sourced(Catalog(w), f.frames).value, f.frames);
    FramesAreNamed(w, w', f.frames, |f.frames|);
    assert f.frames[..|f.frames|] == f.frames;
  }

  lemma ProjectQuote(w: World, w': World, citations: map<string, Citation>, notes: map<string, Note>, b: string, text: string, sources: seq<string>)
    requires WellFormed(w) && WellFormed(w') && Extends(w, w') && CompileQuote(w, Catalog(w), b, text, sources).Ok?
    requires var u := CompileQuote(w, Catalog(w), b, text, sources).value; Kept(citations, u.citations, BlockCitations(u.block))
    ensures ProjectBlock(w', citations, notes, CompileQuote(w, Catalog(w), b, text, sources).value.block)
         == Some(NOTHING.(quote := Some(text), sources := sources))
    ensures Distinct(sources)
  {
    hide Catalog, Sourced, Gather, WellFormed, Extends, PlainText, InlineCitations, MergeFirst, Inlines, TrimSpace, Occurs, Normalize, Lines, NameSegments;
    SourcedAre(Catalog(w), sources);
    GatherFollows(w, sources, |sources|);
    var got := Gather(w, Catalog(w), sources, |sources|).value;
    QuoteSourcesAreDistinct(w, sources, got);
    GatheredIsText(w, Catalog(w), sources, |sources|);
    var q := QuoteCitation(w, Catalog(w), text, sources, got);
    InlinesReadBack(text, [q.id]);
    MergeOfDistinct([q.id]);
    assert q.id in BlockCitations(CompileQuote(w, Catalog(w), b, text, sources).value.block);
    SegmentsAreNamed(w, w', sources, got, |got|);
    MergeOfDistinct(sources);
    OneName(w', citations, q.id);
  }

  lemma OneName(w: World, citations: map<string, Citation>, id: string)
    requires id in citations
    ensures AllNames(w, citations, [id]) == NameCitation(w, citations[id], [])
  {
    assert Names(w, citations, [id], 0) == Some([]);
  }

  // ----- any unit there and back

  lemma ProjectUnit(w: World, w': World, citations: map<string, Citation>, notes: map<string, Note>, b: string, c: Content)
    requires WellFormed(w) && WellFormed(w') && Extends(w, w') && CompileUnit(w, Catalog(w), b, c).Ok?
    requires var u := CompileUnit(w, Catalog(w), b, c).value; Kept(citations, u.citations, BlockCitations(u.block))
    ensures var u := CompileUnit(w, Catalog(w), b, c).value; ProjectBlock(w', citations, notes, u.block) == Some(Tidy(c, FigureNote(notes, u.block)))
  {
    hide Catalog, WellFormed, Extends, Kept, ProjectBlock, CompileText, CompileBackground, CompileList, CompileCode, CompileTable, CompileFigure, CompileQuote, TidyItems, TidyRows, MergeFirst, Gathered;
    assert Merge([], []) == [] by { MergeOfDistinct([]); }
    if c.text.Some? {
      ProjectText(w, w', citations, notes, b, c.text.value, c.sources);
    } else if c.quote.Some? {
      ProjectQuote(w, w', citations, notes, b, c.quote.value, c.sources);
      MergeOfDistinct(c.sources);
    } else if c.background.Some? {
      ProjectBackground(w', citations, notes, b, c.background.value, c.sources);
    } else if c.list.Some? {
      ProjectList(w, w', citations, notes, b, c.list.value, c.sources);
      PartsHaveOwnSources(w, b, c);
    } else if c.code.Some? {
      ProjectCode(w, w', citations, notes, b, c.code.value, c.sources);
    } else if c.table.Some? {
      ProjectTable(w, w', citations, notes, b, c.table.value, c.sources);
      PartsHaveOwnSources(w, b, c);
    } else {
      ProjectFigure(w, w', citations, notes, b, c.figure.value, c.sources);
      PartsHaveOwnSources(w, b, c);
    }
  }

  lemma PartsHaveOwnSources(w: World, b: string, c: Content)
    requires CompileUnit(w, Catalog(w), b, c).Ok? && (c.list.Some? || c.table.Some? || c.figure.Some?)
    ensures c.sources == []
  {
    hide Catalog, CompileItems, CompileRows, Sourced, TrimSpace;
  }

  function WithNote(c: Content, note: Note): Content {
    c.(figure := match c.figure case None => None case Some(f) => Some(f.(note := note)))
  }

  /** Compiled later and elsewhere, a unit changes its identities only. */
  lemma CompileAgain(w: World, w': World, b: string, b': string, c: Content, note: Note)
    requires Extends(w, w') && CompileUnit(w, Catalog(w), b, c).Ok? && (c.figure.Some? ==> note.visibleFacts != [])
    ensures var u := CompileUnit(w, Catalog(w), b, c).value; var r := CompileUnit(w', Catalog(w'), b', WithNote(c, note)); r.Ok? && r.value.block == Renumber(u.block, b') && r.value.citations == u.citations && r.value.notes.Keys == u.notes.Keys
  {
    hide Catalog, Extends, CompileItems, CompileRows, CompileFigure, CompileQuote, Sourced, TrimSpace, RenumberItems, Inlines;
    if c.text.Some? {
      SourcedGrows(w, w', c.sources);
    } else if c.quote.Some? {
      QuoteAgain(w, w', b, b', c.quote.value, c.sources);
      QuoteMakesNoNotes(w, b, c.quote.value, c.sources);
      QuoteMakesNoNotes(w', b', c.quote.value, c.sources);
    } else if c.background.Some? {
    } else if c.list.Some? {
      ItemsAgain(w, w', b, b', c.list.value.items, |c.list.value.items|);
    } else if c.code.Some? {
      SourcedGrows(w, w', c.sources);
    } else if c.table.Some? {
      RowsAgain(w, w', |c.table.value.columns|, c.table.value.rows, |c.table.value.rows|);
    } else {
      FigureAgain(w, w', b, b', c.figure.value, note, c.sources);
      FigureMakesFigure(w, b, c.figure.value, c.sources);
    }
  }

  lemma QuoteMakesNoNotes(w: World, b: string, text: string, sources: seq<string>)
    requires CompileQuote(w, Catalog(w), b, text, sources).Ok?
    ensures CompileQuote(w, Catalog(w), b, text, sources).value.notes == map[]
    ensures CompileQuote(w, Catalog(w), b, text, sources).value.block.Quotation?
  {
    hide Catalog, Sourced, Gather, TrimSpace, Inlines, Occurs, Normalize, Lines;
  }

  lemma FigureMakesFigure(w: World, b: string, f: Picture, sources: seq<string>)
    requires CompileFigure(Catalog(w), b, f, sources).Ok?
    ensures CompileFigure(Catalog(w), b, f, sources).value.block.Figure?
  {
    hide Catalog, Sourced, TrimSpace;
  }

  /** Every list of sources in a unit names each source once. */
  ghost predicate DistinctSources(c: Content) {
    && Distinct(c.sources)
    && (c.list.Some? ==> forall k | 0 <= k < |c.list.value.items| :: Distinct(c.list.value.items[k].sources))
    && (c.table.Some? ==> forall k | 0 <= k < |c.table.value.rows| :: Distinct(c.table.value.rows[k].sources))
  }

  lemma TidyOfDistinct(c: Content, note: Note)
    requires DistinctSources(c)
    ensures Tidy(c, note) == WithNote(c, note)
  {
    hide MergeFirst;
    MergeOfDistinct(c.sources);
    if c.list.Some? {
      var items := c.list.value.items;
      forall k | 0 <= k < |items| ensures TidyItems(items)[k] == items[k] {
        MergeOfDistinct(items[k].sources);
      }
      assert TidyItems(items) == items;
    }
    if c.table.Some? {
      var rows := c.table.value.rows;
      forall k | 0 <= k < |rows| ensures TidyRows(rows)[k] == rows[k] {
        MergeOfDistinct(rows[k].sources);
      }
      assert TidyRows(rows) == rows;
    }
  }
}
