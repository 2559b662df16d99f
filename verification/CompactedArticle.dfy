/** Compaction of a whole article. */
module CompactedArticle {
  import opened ArticleBlocks
  import opened CitationCompaction
  import opened CompactionMeaning

  // ----- the parts of a block

  /** The list says the same, nothing in it can be joined, and no reference waits for a group. */
  ghost predicate GoodIds(x: Index, m: map<string, Citation>, ids: seq<string>, m': map<string, Citation>, ids': seq<string>) {
    Settable(m', ids') && Settled(x, m', ids') && ReadAll(x, m', ids') == ReadAll(x, m, ids)
  }

  ghost predicate GoodInlines(x: Index, m: map<string, Citation>, items: seq<Inline>, m': map<string, Citation>, items': seq<Inline>) {
    SettableInlines(m', items') && SettledInlines(x, m', items') && ReadInlines(x, m', items', 0) == ReadInlines(x, m, items, 0)
  }

  ghost predicate GoodBlock(x: Index, m: map<string, Citation>, b: Block, m': map<string, Citation>, b': Block) {
    match b
    case Paragraph(id, origin, content) => b'.Paragraph? && b'.id == id && b'.origin == origin && GoodInlines(x, m, content, m', b'.content)
    case Quotation(id, content) => b'.Quotation? && b'.id == id && GoodInlines(x, m, content, m', b'.content)
    case Listing(id, ordered, items) =>
      && b'.Listing? && b'.id == id && b'.ordered == ordered && |b'.items| == |items|
      && forall k | 0 <= k < |items| :: GoodItem(x, m, items[k], m', b'.items[k])
    case Code(id, language, text, citationIds) =>
      b'.Code? && b'.id == id && b'.language == language && b'.text == text && GoodIds(x, m, citationIds, m', b'.citationIds)
    case Table(id, columns, rows) =>
      && b'.Table? && b'.id == id && b'.columns == columns && |b'.rows| == |rows|
      && forall k | 0 <= k < |rows| :: GoodRow(x, m, rows[k], m', b'.rows[k])
    case Figure(id, frameIds, layout, caption, citationIds) =>
      && b'.Figure? && b'.id == id && b'.frameIds == frameIds && b'.layout == layout && b'.caption == caption
      && GoodIds(x, m, citationIds, m', b'.citationIds)
  }

  ghost predicate GoodItem(x: Index, m: map<string, Citation>, t: Item, m': map<string, Citation>, t': Item) {
    t'.id == t.id && GoodInlines(x, m, t.content, m', t'.content)
  }

  ghost predicate GoodRow(x: Index, m: map<string, Citation>, t: Row, m': map<string, Citation>, t': Row) {
    t'.cells == t.cells && GoodIds(x, m, t.citationIds, m', t'.citationIds)
  }

  ghost predicate GoodSection(x: Index, m: map<string, Citation>, s: Section, m': map<string, Citation>, s': Section) {
    && s'.id == s.id && s'.title == s.title && |s'.blocks| == |s.blocks|
    && forall k | 0 <= k < |s.blocks| :: GoodBlock(x, m, s.blocks[k], m', s'.blocks[k])
  }

  ghost predicate GoodLimitation(x: Index, m: map<string, Citation>, l: Limitation, m': map<string, Citation>, l': Limitation) {
    l' == l.(citationIds := l'.citationIds) && GoodIds(x, m, l.citationIds, m', l'.citationIds)
  }

  // ----- what must be known before

  ghost predicate SettableBlock(m: map<string, Citation>, b: Block) {
    match b
    case Paragraph(_, _, content) => SettableInlines(m, content)
    case Quotation(_, content) => SettableInlines(m, content)
    case Listing(_, _, items) => forall k | 0 <= k < |items| :: SettableInlines(m, items[k].content)
    case Code(_, _, _, citationIds) => Settable(m, citationIds)
    case Table(_, _, rows) => forall k | 0 <= k < |rows| :: Settable(m, rows[k].citationIds)
    case Figure(_, _, _, _, citationIds) => Settable(m, citationIds)
  }

  ghost predicate SettableSection(m: map<string, Citation>, s: Section) {
    forall k | 0 <= k < |s.blocks| :: SettableBlock(m, s.blocks[k])
  }

  /** No reference of the article waits for a group that does not exist. */
  ghost predicate SettableArticle(a: Article) {
    && (forall k | 0 <= k < |a.sections| :: SettableSection(a.citations, a.sections[k]))
    && (forall k | 0 <= k < |a.limitations| :: Settable(a.citations, a.limitations[k].citationIds))
  }

  // ----- growth keeps what is good

  lemma GoodIdsStay(x: Index, m: map<string, Citation>, ids: seq<string>, m': map<string, Citation>, ids': seq<string>, m'': map<string, Citation>)
    requires GoodIds(x, m, ids, m', ids') && Grows(m', m'')
    ensures GoodIds(x, m, ids, m'', ids')
  {
    hide Settable, Settled, Read, Grows;
    SettableStays(m', m'', ids');
    SettledStays(x, m', m'', ids');
    ReadStays(x, m', m'', ids', 0);
  }

  lemma SettledInlinesStay(x: Index, m: map<string, Citation>, m': map<string, Citation>, items: seq<Inline>)
    requires Grows(m, m') && SettledInlines(x, m, items) && SettableInlines(m, items)
    ensures SettledInlines(x, m', items)
  {
    hide Apart, Grows, IsGroupName;
    forall j, k | 0 <= j && k == j + 1 && k < |items| && items[j].Cite? && items[k].Cite? ensures Apart(x, m', items[j].id, items[k].id) {
      assert items[j] in items && items[k] in items;
      ApartStays(x, m, m', items[j].id, items[k].id);
    }
  }

  lemma GoodInlinesStay(x: Index, m: map<string, Citation>, items: seq<Inline>, m': map<string, Citation>, items': seq<Inline>, m'': map<string, Citation>)
    requires GoodInlines(x, m, items, m', items') && Grows(m', m'')
    ensures GoodInlines(x, m, items, m'', items')
  {
    hide SettableInlines, SettledInlines, ReadInlines, Grows;
    InlinesStaySettable(m', m'', items');
    SettledInlinesStay(x, m', m'', items');
    ReadInlinesStay(x, m', m'', items', 0);
  }

  lemma GoodBlockStays(x: Index, m: map<string, Citation>, b: Block, m': map<string, Citation>, b': Block, m'': map<string, Citation>)
    requires GoodBlock(x, m, b, m', b') && Grows(m', m'')
    ensures GoodBlock(x, m, b, m'', b')
  {
    hide GoodIds, GoodInlines, Grows;
    match b {
      case Paragraph(_, _, content) => GoodInlinesStay(x, m, content, m', b'.content, m'');
      case Quotation(_, content) => GoodInlinesStay(x, m, content, m', b'.content, m'');
      case Listing(_, _, items) =>
        forall k | 0 <= k < |items| ensures GoodItem(x, m, items[k], m'', b'.items[k]) {
          assert GoodItem(x, m, items[k], m', b'.items[k]);
          GoodInlinesStay(x, m, items[k].content, m', b'.items[k].content, m'');
        }
      case Code(_, _, _, citationIds) => GoodIdsStay(x, m, citationIds, m', b'.citationIds, m'');
      case Table(_, _, rows) =>
        forall k | 0 <= k < |rows| ensures GoodRow(x, m, rows[k], m'', b'.rows[k]) {
          assert GoodRow(x, m, rows[k], m', b'.rows[k]);
          GoodIdsStay(x, m, rows[k].citationIds, m', b'.rows[k].citationIds, m'');
        }
      case Figure(_, _, _, _, citationIds) => GoodIdsStay(x, m, citationIds, m', b'.citationIds, m'');
    }
  }

  lemma GoodSectionStays(x: Index, m: map<string, Citation>, s: Section, m': map<string, Citation>, s': Section, m'': map<string, Citation>)
    requires GoodSection(x, m, s, m', s') && Grows(m', m'')
    ensures GoodSection(x, m, s, m'', s')
  {
    hide GoodBlock, Grows;
    forall k | 0 <= k < |s.blocks| ensures GoodBlock(x, m, s.blocks[k], m'', s'.blocks[k]) {
      GoodBlockStays(x, m, s.blocks[k], m', s'.blocks[k], m'');
    }
  }

  // ----- each step, started from citations that may already have grown

  /** Compaction so far: `m1` came from `m`, and the groups have their names. */
  ghost predicate Reached(x: Index, m: map<string, Citation>, m1: map<string, Citation>) {
    HashIsInjective(x) && Grows(m, m1) && Keyed(x, m1)
  }

  lemma IdsStep(x: Index, m: map<string, Citation>, m1: map<string, Citation>, ids: seq<string>)
    requires Reached(x, m, m1) && Settable(m, ids)
    ensures var r := CompactIds(x, m1, ids); Reached(x, m, r.citations) && Grows(m1, r.citations) && GoodIds(x, m, ids, r.citations, r.ids)
  {
    hide CompactFrom, Settled, Read, Keyed, HashIsInjective, Grows, Settable;
    SettableStays(m, m1, ids);
    CompactReads(x, m1, ids, 0);
    CompactSettles(x, m1, ids, 0);
    ReadStays(x, m, m1, ids, 0);
    GrowsOn(m, m1, CompactIds(x, m1, ids).citations);
  }

  lemma InlinesStep(x: Index, m: map<string, Citation>, m1: map<string, Citation>, items: seq<Inline>)
    requires Reached(x, m, m1) && SettableInlines(m, items)
    ensures var r := CompactInlines(x, m1, items); Reached(x, m, r.citations) && Grows(m1, r.citations) && GoodInlines(x, m, items, r.citations, r.items)
  {
    hide CompactInlinesFrom, SettledInlines, ReadInlines, Keyed, HashIsInjective, Grows, SettableInlines;
    InlinesStaySettable(m, m1, items);
    InlinesRead(x, m1, items, 0);
    InlinesSettle(x, m1, items, 0);
    ReadInlinesStay(x, m, m1, items, 0);
    GrowsOn(m, m1, CompactInlines(x, m1, items).citations);
  }

  lemma {:induction false} ItemsStep(x: Index, m: map<string, Citation>, m1: map<string, Citation>, items: seq<Item>, n: nat)
    requires Reached(x, m, m1) && n <= |items| && forall k | 0 <= k < |items| :: SettableInlines(m, items[k].content)
    ensures var r := CompactItems(x, m1, items, n); Reached(x, m, r.citations) && Grows(m1, r.citations) && |r.parts| == n && forall k | 0 <= k < n :: GoodItem(x, m, items[k], r.citations, r.parts[k])
  {
    hide CompactInlines, GoodInlines, Reached, Grows, SettableInlines;
    if n > 0 {
      ItemsStep(x, m, m1, items, n - 1);
      var front, r := CompactItems(x, m1, items, n - 1), CompactItems(x, m1, items, n);
      InlinesStep(x, m, front.citations, items[n - 1].content);
      GrowsOn(m1, front.citations, r.citations);
      forall k | 0 <= k < n - 1 ensures GoodItem(x, m, items[k], r.citations, r.parts[k]) {
        assert GoodItem(x, m, items[k], front.citations, front.parts[k]);
        GoodInlinesStay(x, m, items[k].content, front.citations, front.parts[k].content, r.citations);
      }
    } else {
      GrowsSelf(m1);
    }
  }

  lemma {:induction false} RowsStep(x: Index, m: map<string, Citation>, m1: map<string, Citation>, rows: seq<Row>, n: nat)
    requires Reached(x, m, m1) && n <= |rows| && forall k | 0 <= k < |rows| :: Settable(m, rows[k].citationIds)
    ensures var r := CompactRows(x, m1, rows, n); Reached(x, m, r.citations) && Grows(m1, r.citations) && |r.parts| == n && forall k | 0 <= k < n :: GoodRow(x, m, rows[k], r.citations, r.parts[k])
  {
    hide CompactIds, GoodIds, Reached, Grows, Settable;
    if n > 0 {
      RowsStep(x, m, m1, rows, n - 1);
      var front, r := CompactRows(x, m1, rows, n - 1), CompactRows(x, m1, rows, n);
      IdsStep(x, m, front.citations, rows[n - 1].citationIds);
      GrowsOn(m1, front.citations, r.citations);
      forall k | 0 <= k < n - 1 ensures GoodRow(x, m, rows[k], r.citations, r.parts[k]) {
        assert GoodRow(x, m, rows[k], front.citations, front.parts[k]);
        GoodIdsStay(x, m, rows[k].citationIds, front.citations, front.parts[k].citationIds, r.citations);
      }
    } else {
      GrowsSelf(m1);
    }
  }

  lemma BlockStep(x: Index, m: map<string, Citation>, m1: map<string, Citation>, b: Block)
    requires Reached(x, m, m1) && SettableBlock(m, b)
    ensures var r := CompactBlock(x, m1, b); Reached(x, m, r.citations) && Grows(m1, r.citations) && GoodBlock(x, m, b, r.citations, r.block)
  {
    hide CompactInlines, CompactIds, CompactItems, CompactRows, GoodInlines, GoodIds, GoodItem, GoodRow, Reached, Grows, SettableInlines, Settable;
    match b {
      case Paragraph(_, _, content) => InlinesStep(x, m, m1, content);
      case Quotation(_, content) => InlinesStep(x, m, m1, content);
      case Listing(_, _, items) => ItemsStep(x, m, m1, items, |items|);
      case Code(_, _, _, citationIds) => IdsStep(x, m, m1, citationIds);
      case Table(_, _, rows) => RowsStep(x, m, m1, rows, |rows|);
      case Figure(_, _, _, _, citationIds) => IdsStep(x, m, m1, citationIds);
    }
  }

  lemma {:induction false} BlocksStep(x: Index, m: map<string, Citation>, m1: map<string, Citation>, bs: seq<Block>, n: nat)
    requires Reached(x, m, m1) && n <= |bs| && forall k | 0 <= k < |bs| :: SettableBlock(m, bs[k])
    ensures var r := CompactBlocks(x, m1, bs, n); Reached(x, m, r.citations) && Grows(m1, r.citations) && |r.parts| == n && forall k | 0 <= k < n :: GoodBlock(x, m, bs[k], r.citations, r.parts[k])
  {
    hide CompactBlock, GoodBlock, Reached, Grows, SettableBlock;
    if n > 0 {
      BlocksStep(x, m, m1, bs, n - 1);
      var front, r := CompactBlocks(x, m1, bs, n - 1), CompactBlocks(x, m1, bs, n);
      BlockStep(x, m, front.citations, bs[n - 1]);
      GrowsOn(m1, front.citations, r.citations);
      forall k | 0 <= k < n - 1 ensures GoodBlock(x, m, bs[k], r.citations, r.parts[k]) {
        GoodBlockStays(x, m, bs[k], front.citations, front.parts[k], r.citations);
      }
    } else {
      GrowsSelf(m1);
    }
  }

  lemma {:induction false} SectionsStep(x: Index, m: map<string, Citation>, m1: map<string, Citation>, ss: seq<Section>, n: nat)
    requires Reached(x, m, m1) && n <= |ss| && forall k | 0 <= k < |ss| :: SettableSection(m, ss[k])
    ensures var r := CompactSections(x, m1, ss, n); Reached(x, m, r.citations) && Grows(m1, r.citations) && |r.parts| == n && forall k | 0 <= k < n :: GoodSection(x, m, ss[k], r.citations, r.parts[k])
  {
    hide CompactBlocks, GoodBlock, Reached, Grows, SettableBlock;
    if n > 0 {
      SectionsStep(x, m, m1, ss, n - 1);
      var front, r := CompactSections(x, m1, ss, n - 1), CompactSections(x, m1, ss, n);
      assert SettableSection(m, ss[n - 1]);
      BlocksStep(x, m, front.citations, ss[n - 1].blocks, |ss[n - 1].blocks|);
      GrowsOn(m1, front.citations, r.citations);
      forall k | 0 <= k < n - 1 ensures GoodSection(x, m, ss[k], r.citations, r.parts[k]) {
        GoodSectionStays(x, m, ss[k], front.citations, front.parts[k], r.citations);
      }
    } else {
      GrowsSelf(m1);
    }
  }

  lemma {:induction false} LimitationsStep(x: Index, m: map<string, Citation>, m1: map<string, Citation>, ls: seq<Limitation>, n: nat)
    requires Reached(x, m, m1) && n <= |ls| && forall k | 0 <= k < |ls| :: Settable(m, ls[k].citationIds)
    ensures var r := CompactLimitations(x, m1, ls, n); Reached(x, m, r.citations) && Grows(m1, r.citations) && |r.parts| == n && forall k | 0 <= k < n :: GoodLimitation(x, m, ls[k], r.citations, r.parts[k])
  {
    hide CompactIds, GoodIds, Reached, Grows, Settable;
    if n > 0 {
      LimitationsStep(x, m, m1, ls, n - 1);
      var front, r := CompactLimitations(x, m1, ls, n - 1), CompactLimitations(x, m1, ls, n);
      IdsStep(x, m, front.citations, ls[n - 1].citationIds);
      GrowsOn(m1, front.citations, r.citations);
      forall k | 0 <= k < n - 1 ensures GoodLimitation(x, m, ls[k], r.citations, r.parts[k]) {
        assert GoodLimitation(x, m, ls[k], front.citations, front.parts[k]);
        GoodIdsStay(x, m, ls[k].citationIds, front.citations, front.parts[k].citationIds, r.citations);
      }
    } else {
      GrowsSelf(m1);
    }
  }

  // ----- the whole article

  ghost predicate GoodArticle(x: Index, a: Article, a': Article) {
    && Grows(a.citations, a'.citations)
    && a'.title == a.title && a'.quality == a.quality && |a'.sections| == |a.sections| && |a'.limitations| == |a.limitations|
    && (forall k | 0 <= k < |a.sections| :: GoodSection(x, a.citations, a.sections[k], a'.citations, a'.sections[k]))
    && (forall k | 0 <= k < |a.limitations| :: GoodLimitation(x, a.citations, a.limitations[k], a'.citations, a'.limitations[k]))
  }

  /** Compaction keeps what every reference list says, all text, all identities and all existing
      citations. */
  lemma CompactionKeepsMeaning(x: Index, a: Article)
    requires HashIsInjective(x) && Keyed(x, a.citations) && SettableArticle(a)
    ensures GoodArticle(x, a, Compact(x, a)) && Keyed(x, Compact(x, a).citations)
  {
    hide CompactSections, CompactLimitations, GoodSection, GoodLimitation, Grows, Keyed, HashIsInjective, SettableSection, Settable;
    GrowsSelf(a.citations);
    SectionsStep(x, a.citations, a.citations, a.sections, |a.sections|);
    var sections := CompactSections(x, a.citations, a.sections, |a.sections|);
    LimitationsStep(x, a.citations, sections.citations, a.limitations, |a.limitations|);
    var limitations := CompactLimitations(x, sections.citations, a.limitations, |a.limitations|);
    forall k | 0 <= k < |a.sections| ensures GoodSection(x, a.citations, a.sections[k], limitations.citations, sections.parts[k]) {
      GoodSectionStays(x, a.citations, a.sections[k], sections.citations, sections.parts[k], limitations.citations);
    }
  }

  // ----- a second pass

  lemma FixedIds(x: Index, m: map<string, Citation>, ids: seq<string>)
    requires Settled(x, m, ids)
    ensures CompactIds(x, m, ids) == Listed(m, ids)
  {
    hide CompactFrom, Settled;
    SettledIsFixed(x, m, ids, 0);
    assert ids[0..] == ids;
  }

  lemma FixedInlines(x: Index, m: map<string, Citation>, items: seq<Inline>)
    requires SettledInlines(x, m, items)
    ensures CompactInlines(x, m, items) == Inlined(m, items)
  {
    hide CompactInlinesFrom, SettledInlines;
    SettledInlinesAreFixed(x, m, items, 0);
    assert items[0..] == items;
  }

  lemma {:induction false} FixedItems(x: Index, m: map<string, Citation>, items: seq<Item>, n: nat)
    requires n <= |items| && forall k | 0 <= k < |items| :: SettledInlines(x, m, items[k].content)
    ensures CompactItems(x, m, items, n) == Compacted(m, items[..n])
  {
    hide CompactInlines, SettledInlines;
    if n > 0 {
      FixedItems(x, m, items, n - 1);
      FixedInlines(x, m, items[n - 1].content);
      assert items[..n] == items[..n - 1] + [items[n - 1]];
    }
  }

  lemma {:induction false} FixedRows(x: Index, m: map<string, Citation>, rows: seq<Row>, n: nat)
    requires n <= |rows| && forall k | 0 <= k < |rows| :: Settled(x, m, rows[k].citationIds)
    ensures CompactRows(x, m, rows, n) == Compacted(m, rows[..n])
  {
    hide CompactIds, Settled;
    if n > 0 {
      FixedRows(x, m, rows, n - 1);
      FixedIds(x, m, rows[n - 1].citationIds);
      assert rows[..n] == rows[..n - 1] + [rows[n - 1]];
    }
  }

  lemma FixedBlock(x: Index, m: map<string, Citation>, b: Block, m': map<string, Citation>, b': Block)
    requires GoodBlock(x, m, b, m', b')
    ensures CompactBlock(x, m', b') == Made(m', b')
  {
    hide CompactInlines, CompactIds, CompactItems, CompactRows, Settled, SettledInlines, Settable, SettableInlines, ReadInlines, ReadAll;
    match b' {
      case Paragraph(_, _, content) => FixedInlines(x, m', content);
      case Quotation(_, content) => FixedInlines(x, m', content);
      case Listing(_, _, items) =>
        forall k | 0 <= k < |items| ensures SettledInlines(x, m', items[k].content) {
          assert GoodItem(x, m, b.items[k], m', items[k]);
        }
        FixedItems(x, m', items, |items|);
        assert items[..|items|] == items;
      case Code(_, _, _, citationIds) => FixedIds(x, m', citationIds);
      case Table(_, _, rows) =>
        forall k | 0 <= k < |rows| ensures Settled(x, m', rows[k].citationIds) {
          assert GoodRow(x, m, b.rows[k], m', rows[k]);
        }
        FixedRows(x, m', rows, |rows|);
        assert rows[..|rows|] == rows;
      case Figure(_, _, _, _, citationIds) => FixedIds(x, m', citationIds);
    }
  }

  lemma {:induction false} FixedBlocks(x: Index, m: map<string, Citation>, s: Section, m': map<string, Citation>, s': Section, n: nat)
    requires n <= |s'.blocks| && GoodSection(x, m, s, m', s')
    ensures CompactBlocks(x, m', s'.blocks, n) == Compacted(m', s'.blocks[..n])
  {
    hide CompactBlock, GoodBlock;
    if n > 0 {
      FixedBlocks(x, m, s, m', s', n - 1);
      FixedBlock(x, m, s.blocks[n - 1], m', s'.blocks[n - 1]);
      assert s'.blocks[..n] == s'.blocks[..n - 1] + [s'.blocks[n - 1]];
    }
  }

  lemma {:induction false} FixedSections(x: Index, a: Article, a': Article, n: nat)
    requires n <= |a'.sections| && GoodArticle(x, a, a')
    ensures CompactSections(x, a'.citations, a'.sections, n) == Compacted(a'.citations, a'.sections[..n])
  {
    hide CompactBlocks, GoodSection, Grows, GoodLimitation;
    if n > 0 {
      FixedSections(x, a, a', n - 1);
      var s' := a'.sections[n - 1];
      FixedBlocks(x, a.citations, a.sections[n - 1], a'.citations, s', |s'.blocks|);
      assert s'.blocks[..|s'.blocks|] == s'.blocks;
      assert a'.sections[..n] == a'.sections[..n - 1] + [s'];
    }
  }

  lemma {:induction false} FixedLimitations(x: Index, a: Article, a': Article, n: nat)
    requires n <= |a'.limitations| && GoodArticle(x, a, a')
    ensures CompactLimitations(x, a'.citations, a'.limitations, n) == Compacted(a'.citations, a'.limitations[..n])
  {
    hide CompactIds, GoodSection, Grows, Settled, Settable, ReadAll;
    if n > 0 {
      FixedLimitations(x, a, a', n - 1);
      assert GoodLimitation(x, a.citations, a.limitations[n - 1], a'.citations, a'.limitations[n - 1]);
      FixedIds(x, a'.citations, a'.limitations[n - 1].citationIds);
      assert a'.limitations[..n] == a'.limitations[..n - 1] + [a'.limitations[n - 1]];
    }
  }

  /** A second pass changes nothing. */
  lemma CompactionIsIdempotent(x: Index, a: Article)
    requires HashIsInjective(x) && Keyed(x, a.citations) && SettableArticle(a)
    ensures Compact(x, Compact(x, a)) == Compact(x, a)
  {
    hide CompactSections, CompactLimitations, GoodArticle, Keyed, HashIsInjective, SettableArticle;
    CompactionKeepsMeaning(x, a);
    var a' := Compact(x, a);
    FixedSections(x, a, a', |a'.sections|);
    FixedLimitations(x, a, a', |a'.limitations|);
    assert a'.sections[..|a'.sections|] == a'.sections && a'.limitations[..|a'.limitations|] == a'.limitations;
  }
}
