/** A block patch changes the named blocks and nothing else. */
module PatchSafety {
  import opened Lists
  import Text
  import opened Wrappers
  import opened ArticleBlocks
  import opened AuthorLanguage
  import opened AuthorRoundTrip
  import opened SectionRoundTrip
  import opened DraftWrite
  import opened DraftSafety
  import opened BlockPatch

  // ----- a batch of replacements of existing chapters

  ghost predicate OwnEntries(entries: seq<AuthorSection>) {
    forall i, j | 0 <= i < j < |entries| :: entries[i].sectionId != entries[j].sectionId
  }

  /** No entry among the first `n` is for the chapter. */
  ghost predicate Untouched(entries: seq<AuthorSection>, n: nat, id: string)
    requires n <= |entries|
  {
    forall i | 0 <= i < n :: entries[i].sectionId != id
  }

  ghost predicate CompiledInto(rules: Rules, entry: AuthorSection, t: Section) {
    var r := CompileSection(rules.world, Catalog(rules.world), entry, t.id);
    r.Ok? && r.value.section == t
  }

  ghost predicate Swapped(rules: Rules, before: seq<Section>, entries: seq<AuthorSection>, n: nat, after: seq<Section>, k: nat)
    requires n <= |entries| && k < |before| && k < |after|
  {
    && (Untouched(entries, n, before[k].id) ==> after[k] == before[k])
    && (forall i | 0 <= i < n && entries[i].sectionId == before[k].id :: CompiledInto(rules, entries[i], after[k]))
  }

  lemma SameIds(before: seq<Section>, after: seq<Section>, k: nat)
    requires SectionIds(before) == SectionIds(after) && k < |before|
    ensures |before| == |after| && before[k].id == after[k].id
  {
    assert SectionIds(before)[k] == SectionIds(after)[k];
  }

  lemma SwapOne(rules: Rules, before: seq<Section>, entries: seq<AuthorSection>, n: nat, front: seq<Section>, at: nat, c: Compiled, k: nat)
    requires 0 < n <= |entries| && OwnEntries(entries) && SectionIds(before) == SectionIds(front) && Distinct(SectionIds(before))
    requires k < |before| && k < |front| && Swapped(rules, before, entries, n - 1, front, k)
    requires at < |front| && front[at].id == c.section.id == entries[n - 1].sectionId && CompiledInto(rules, entries[n - 1], c.section)
    ensures Swapped(rules, before, entries, n, front[at := c.section], k)
  {
    hide CompiledInto, SectionIds;
    SameIds(before, front, k);
    SameIds(before, front, at);
    var after := front[at := c.section];
    if k == at {
      forall i | 0 <= i < n && entries[i].sectionId == before[k].id ensures CompiledInto(rules, entries[i], after[k]) {
        assert i == n - 1;
      }
    } else {
      assert before[k].id != before[at].id by { OtherId(before, k, at); }
    }
  }

  lemma OtherId(sections: seq<Section>, k: nat, at: nat)
    requires k < |sections| && at < |sections| && k != at && Distinct(SectionIds(sections))
    ensures sections[k].id != sections[at].id
  {
    assert SectionIds(sections)[k] != SectionIds(sections)[at];
  }

  lemma IdsAfterSwap(sections: seq<Section>, at: nat, t: Section)
    requires at < |sections| && sections[at].id == t.id
    ensures SectionIds(sections[at := t]) == SectionIds(sections)
  {
  }

  lemma ExamineExisting(rules: Rules, a: Article, s: AuthorSection)
    requires Examine(rules, Catalog(rules.world), a, s).Ok? && s.key == ""
    ensures var e := Examine(rules, Catalog(rules.world), a, s).value; e.at >= 0 && e.id == s.sectionId && CompiledInto(rules, s, e.compiled.section) && e.compiled.section.id == e.id
  {
    hide Catalog, CompileSection;
  }

  /** Without a rejection, every entry takes the place of its chapter and the others stay. */
  lemma {:induction false} AllSwapped(rules: Rules, d: Draft, entries: seq<AuthorSection>, n: nat)
    requires n <= |entries| && OwnEntries(entries) && (forall s | s in entries :: s.key == "") && d.receipt == NO_RECEIPT
    requires Distinct(SectionIds(d.article.sections)) && ApplyAll(rules, Catalog(rules.world), d, entries, n).receipt.rejected == []
    ensures var d' := ApplyAll(rules, Catalog(rules.world), d, entries, n); SectionIds(d'.article.sections) == SectionIds(d.article.sections) && d'.receipt.created == map[] && forall k | 0 <= k < |d.article.sections| :: Swapped(rules, d.article.sections, entries, n, d'.article.sections, k)
  {
    hide Catalog, CompiledInto, SectionIds, Distinct, Swapped, OwnEntries, Examine, Unscoped;
    if n > 0 {
      var cat := Catalog(rules.world);
      AllSwapped(rules, d, entries, n - 1);
      var front, s := ApplyAll(rules, cat, d, entries, n - 1), entries[n - 1];
      assert s in entries;
      ExamineExisting(rules, front.article, s);
      var e := Examine(rules, cat, front.article, s).value;
      IdsAfterSwap(front.article.sections, e.at, e.compiled.section);
      var after := front.article.sections[e.at := e.compiled.section];
      forall k | 0 <= k < |d.article.sections| ensures Swapped(rules, d.article.sections, entries, n, after, k) {
        SameIds(d.article.sections, front.article.sections, k);
        SwapOne(rules, d.article.sections, entries, n, front.article.sections, e.at, e.compiled, k);
      }
    } else {
      forall k | 0 <= k < |d.article.sections| ensures Swapped(rules, d.article.sections, entries, 0, d.article.sections, k) {
        NothingSwapped(rules, d.article.sections, entries, k);
      }
    }
  }

  lemma NothingSwapped(rules: Rules, sections: seq<Section>, entries: seq<AuthorSection>, k: nat)
    requires k < |sections|
    ensures Swapped(rules, sections, entries, 0, sections, k)
  {
  }

  // ----- the entries of a patch

  lemma {:induction false} TouchedAre(e: Edits, sections: seq<Section>, n: nat)
    requires n <= |sections| && Fits(e, sections) && Touched(e, sections, n).Some?
    ensures var ts := Touched(e, sections, n).value; forall s :: s in ts <==> exists i :: 0 <= i < n && i in e.touched && s == Revised(e, sections, i)
  {
    hide Revise;
    if n > 0 {
      TouchedAre(e, sections, n - 1);
    }
  }

  lemma {:induction false} TouchedOwn(e: Edits, sections: seq<Section>, n: nat)
    requires n <= |sections| && Fits(e, sections) && Touched(e, sections, n).Some? && Distinct(SectionIds(sections))
    requires forall i | 0 <= i < |sections| :: e.sections[i].sectionId == sections[i].id
    ensures OwnEntries(Touched(e, sections, n).value)
  {
    hide Revise;
    if n > 0 {
      TouchedOwn(e, sections, n - 1);
      var front, ts := Touched(e, sections, n - 1).value, Touched(e, sections, n).value;
      TouchedAre(e, sections, n - 1);
      if n - 1 in e.touched {
        forall m | 0 <= m < |front| ensures front[m].sectionId != sections[n - 1].id {
          assert front[m] in front;
          var i :| 0 <= i < n - 1 && i in e.touched && front[m] == Revised(e, sections, i);
          OtherId(sections, i, n - 1);
        }
      }
    }
  }

  /** The edits behind an accepted patch. */
  ghost predicate Edited(rules: Rules, d: Draft, p: PatchInput, save: SaveInput, projected: seq<AuthorSection>, e: Edits) {
    && ProjectSections(rules.world, d.article, d.notes, |d.article.sections|) == Some(projected)
    && AllEdits(d, p, projected) == Some(e) && Fits(e, d.article.sections) && SameShape(e, projected)
    && Touched(e, d.article.sections, |d.article.sections|) == Some(save.sections)
    && save.order == SectionIds(d.article.sections) && save.deleteIds == []
    && (forall i | 0 <= i < |d.article.sections| :: ProjectSection(rules.world, d.article, d.notes, d.article.sections[i]) == Some(projected[i]))
    && (forall i | 0 <= i < |d.article.sections| :: e.sections[i].sectionId == d.article.sections[i].id && e.sections[i].key == "")
  }

  lemma ExpandEdits(rules: Rules, d: Draft, p: PatchInput, save: SaveInput)
    requires Expand(rules, d, p) == Some(save)
    ensures exists projected, e :: Edited(rules, d, p, save, projected, e)
  {
    hide ProjectSections, ProjectSection, AllEdits, Touched, Fits, SectionIds;
    var projected := ProjectSections(rules.world, d.article, d.notes, |d.article.sections|).value;
    var e := AllEdits(d, p, projected).value;
    EditsFit(rules.world, d, p);
    EditsKeepShape(d, p, projected);
    ProjectedFit(rules.world, d.article, d.notes, |d.article.sections|);
    forall i | 0 <= i < |d.article.sections| ensures projected[i].sectionId == d.article.sections[i].id && projected[i].key == "" {
      ProjectionFits(rules.world, d.article, d.notes, d.article.sections[i]);
    }
    assert Edited(rules, d, p, save, projected, e);
  }

  lemma PatchEntries(rules: Rules, d: Draft, p: PatchInput, save: SaveInput, projected: seq<AuthorSection>, e: Edits)
    requires Edited(rules, d, p, save, projected, e) && Distinct(SectionIds(d.article.sections))
    ensures OwnEntries(save.sections) && forall s | s in save.sections :: s.key == ""
  {
    hide ProjectSections, ProjectSection, AllEdits, Touched, Revise, SectionIds, Distinct, OwnEntries, SameShape;
    TouchedOwn(e, d.article.sections, |d.article.sections|);
    TouchedAre(e, d.article.sections, |d.article.sections|);
  }

  // ----- the structural part

  lemma InOrder(sections: seq<Section>, next: seq<Section>, k: nat)
    requires Distinct(SectionIds(sections)) && |next| == |sections| && k < |sections|
    requires (forall t | t in next :: t in sections) && next[k].id == sections[k].id
    ensures next[k] == sections[k]
  {
    assert next[k] in sections;
    var m :| 0 <= m < |sections| && sections[m] == next[k];
    if m != k {
      OtherId(sections, m, k);
    }
  }

  /** A patch that is saved leaves the chapters in their order, each replaced by its entry or kept. */
  lemma PatchSwaps(rules: Rules, d: Draft, save: SaveInput)
    requires Distinct(SectionIds(d.article.sections)) && Edit(rules, d, save).Prepared?
    requires save.deleteIds == [] && save.order == SectionIds(d.article.sections) && save.title == None && d.article.sections != []
    requires OwnEntries(save.sections) && forall s | s in save.sections :: s.key == ""
    ensures var d' := Edit(rules, d, save).draft; |d'.article.sections| == |d.article.sections| && forall k | 0 <= k < |d.article.sections| :: d'.article.sections[k].id == d.article.sections[k].id && Swapped(rules, d.article.sections, save.sections, |save.sections|, d'.article.sections, k)
  {
    hide Catalog, ApplyAll, Restructure, Ambiguous, Prune, SectionIds, Distinct, OwnEntries, Swapped;
    var fresh' := d.(receipt := NO_RECEIPT);
    var written := Written(rules, d, save);
    IdsCount(d.article.sections);
    assert written.receipt.rejected == [] by { RestructureNeedsAcceptance(written, save.deleteIds, save.order); }
    AllSwapped(rules, fresh', save.sections, |save.sections|);
    var placed := Restructure(written, save.deleteIds, save.order).draft;
    RestructurePermutes(written, save.deleteIds, save.order);
    PruneKeepsSections(placed.article);
    var next := placed.article.sections;
    forall k | 0 <= k < |d.article.sections| ensures next[k] == written.article.sections[k] && next[k].id == d.article.sections[k].id {
      SameIds(d.article.sections, written.article.sections, k);
      IdAt(d.article.sections, k);
      InOrder(written.article.sections, next, k);
    }
    assert next == written.article.sections by { IdsLength(d.article.sections, written.article.sections); }
  }

  lemma IdsCount(sections: seq<Section>)
    ensures |SectionIds(sections)| == |sections|
  {
  }

  lemma IdsLength(sections: seq<Section>, sections': seq<Section>)
    requires SectionIds(sections) == SectionIds(sections')
    ensures |sections| == |sections'|
  {
    assert |SectionIds(sections)| == |SectionIds(sections')|;
  }

  lemma IdAt(sections: seq<Section>, k: nat)
    requires k < |sections|
    ensures SectionIds(sections)[k] == sections[k].id
  {
  }

  lemma RestructureNeedsAcceptance(d: Draft, deleteIds: seq<string>, order: seq<string>)
    requires Restructure(d, deleteIds, order).Prepared?
    ensures d.receipt.rejected == []
  {
    hide Delete, Place, Available, Remaining;
  }

  // ----- the blocks

  /** A stored block after a patch. */
  ghost predicate BlockPatched(rules: Rules, p: PatchInput, t: Section, t': Section, j: nat)
    requires j < |t.blocks|
  {
    var id, at := t.blocks[j].id, Position(t.blocks, Elements(p.removed), j);
    id in p.removed || (
      && at < |t'.blocks|
      && (!Replaced(p, id) ==> t'.blocks[at] == Renumber(t.blocks[j], BlockId(t.id, at)))
      && (forall k | 0 <= k < |p.replacements| && p.replacements[k].blockId == id :: NewBlock(rules, BlockId(t.id, at), p.replacements[k].content, t'.blocks[at])))
  }

  ghost predicate NewBlock(rules: Rules, blockId: string, c: Content, b: Block) {
    var r := CompileUnit(rules.world, Catalog(rules.world), blockId, c);
    r.Ok? && r.value.block == b
  }

  ghost predicate SectionPatched(rules: Rules, p: PatchInput, t: Section, t': Section) {
    && t'.id == t.id && t'.title == t.title
    && |t'.blocks| == Position(t.blocks, Elements(p.removed), |t.blocks|)
    && forall j | 0 <= j < |t.blocks| :: BlockPatched(rules, p, t, t', j)
  }

  lemma EditedBlockIsTouched(rules: Rules, d: Draft, p: PatchInput, e: Edits, k: nat, j: nat)
    requires Sound(rules.world, d.article, true) && k < |d.article.sections| && j < |d.article.sections[k].blocks|
    requires var id := d.article.sections[k].blocks[j].id; Amounts(d, p, e, id) && (Replaced(p, id) || id in p.removed)
    ensures k in e.touched
  {
    hide Authored, Meaningful, Distinct, SectionIds, Numbered, Refs, Replaced;
    var id := d.article.sections[k].blocks[j].id;
    var i :| i in e.touched && i < |d.article.sections| && HasBlock(d.article.sections[i], id);
    AuthoredIsNumbered(rules.world, d.article, d.article.sections[i]);
    AuthoredIsNumbered(rules.world, d.article, d.article.sections[k]);
    assert HasBlock(d.article.sections[k], id);
    BlockInOneSection(d.article.sections, i, k, id);
  }

  lemma UntouchedSection(rules: Rules, d: Draft, p: PatchInput, projected: seq<AuthorSection>, e: Edits, k: nat)
    requires WellFormed(rules.world) && Sound(rules.world, d.article, true) && k < |d.article.sections| && k !in e.touched
    requires AllEdits(d, p, projected) == Some(e)
    ensures SectionPatched(rules, p, d.article.sections[k], d.article.sections[k])
  {
    hide Authored, Meaningful, Distinct, SectionIds, Refs, Replaced, AllEdits, NewBlock, Renumber, WellFormed, BlockId, Sound;
    var t := d.article.sections[k];
    forall j | 0 <= j < |t.blocks| ensures t.blocks[j].id !in p.removed && !Replaced(p, t.blocks[j].id) && Renumber(t.blocks[j], BlockId(t.id, j)) == t.blocks[j] {
      EditsAmount(d, p, projected, t.blocks[j].id);
      if Replaced(p, t.blocks[j].id) || t.blocks[j].id in p.removed {
        EditedBlockIsTouched(rules, d, p, e, k, j);
      }
      SoundParts(rules.world, d.article, t);
      BlockSurvives(rules.world, d.article, d.notes, t, j, BlockId(t.id, j));
    }
    forall j | 0 <= j <= |t.blocks| ensures Position(t.blocks, Elements(p.removed), j) == j {
      NothingRemoved(t.blocks, Elements(p.removed), j);
    }
    forall j | 0 <= j < |t.blocks| ensures BlockPatched(rules, p, t, t, j) {
      UnreplacedBlock(rules, p, t, j);
    }
  }

  lemma UnreplacedBlock(rules: Rules, p: PatchInput, t: Section, j: nat)
    requires j < |t.blocks| && Position(t.blocks, Elements(p.removed), j) == j && !Replaced(p, t.blocks[j].id)
    requires Renumber(t.blocks[j], BlockId(t.id, j)) == t.blocks[j]
    ensures BlockPatched(rules, p, t, t, j)
  {
    hide Renumber, NewBlock, BlockId;
  }

  lemma SoundParts(w: World, a: Article, t: Section)
    requires Sound(w, a, true) && t in a.sections
    ensures Meaningful(w, a.citations) && Authored(w, a, t, true)
  {
    hide Authored, Meaningful, Distinct, SectionIds, Refs;
  }

  lemma AuthoredTitle(w: World, a: Article, t: Section)
    requires Authored(w, a, t, true)
    ensures Text.TrimSpace(t.title) == t.title
  {
    hide CompileUnits, CompileLimitations, ScopedTo, Refers, Extends, WellFormed, DistinctSection, Text.TrimSpace;
    var w0, s :| AuthoredAs(w0, w, a, s, t, true);
    SectionParts(w0, s, t.id);
    TrimAgain(s.title);
  }

  /** The removed blocks of an edit are those of its patch. */
  lemma {:induction false} SamePosition(d: Draft, p: PatchInput, projected: seq<AuthorSection>, e: Edits, bs: seq<Block>, n: nat)
    requires AllEdits(d, p, projected) == Some(e) && n <= |bs|
    ensures Position(bs, e.removed, n) == Position(bs, Elements(p.removed), n)
  {
    hide AllEdits, Replaced;
    if n > 0 {
      SamePosition(d, p, projected, e, bs, n - 1);
      EditsAmount(d, p, projected, bs[n - 1].id);
    }
  }

  /** What a revised chapter compiles to. */
  lemma RevisedCompiles(w: World, entry: AuthorSection, t': Section, at: nat)
    requires WellFormed(w) && CompileSection(w, Catalog(w), entry, t'.id).Ok? && CompileSection(w, Catalog(w), entry, t'.id).value.section == t'
    ensures |t'.blocks| == |entry.content| && t'.title == Text.TrimSpace(entry.title)
    ensures at < |entry.content| ==> CompileUnit(w, Catalog(w), BlockId(t'.id, at), entry.content[at]).Ok? && CompileUnit(w, Catalog(w), BlockId(t'.id, at), entry.content[at]).value.block == t'.blocks[at]
  {
    hide Catalog, WellFormed, CompileUnit, CompileUnits, CompileLimitations, Observe, Text.TrimSpace, Meaningful, BlockShows, BlockId;
    SectionParts(w, entry, t'.id);
    CompiledUnits(w, t'.id, entry.content, |entry.content|);
    var us := CompileUnits(w, Catalog(w), t'.id, entry.content, |entry.content|).value;
    if at < |entry.content| {
      assert UnitAt(w, t'.id, entry.content, us, at);
    }
  }

  lemma ProjectedContent(w: World, a: Article, notes: map<string, Note>, t: Section, j: nat)
    requires ProjectSection(w, a, notes, t).Some? && j < |t.blocks|
    ensures |ProjectSection(w, a, notes, t).value.content| == |t.blocks| && ProjectBlock(w, a.citations, notes, t.blocks[j]) == Some(ProjectSection(w, a, notes, t).value.content[j])
    ensures ProjectSection(w, a, notes, t).value.title == t.title
  {
    hide ProjectBlock, ProjectBlocks, ProjectLimitations, ProjectPixels, SectionPixels;
    ProjectedBlocksAt(w, a.citations, notes, t.blocks, |t.blocks|, j);
  }

  lemma {:induction false} ProjectedBlocksAt(w: World, citations: map<string, Citation>, notes: map<string, Note>, bs: seq<Block>, n: nat, j: nat)
    requires j < n <= |bs| && ProjectBlocks(w, citations, notes, bs, n).Some?
    ensures ProjectBlock(w, citations, notes, bs[j]) == Some(ProjectBlocks(w, citations, notes, bs, n).value[j])
  {
    hide ProjectBlock;
    if j < n - 1 {
      ProjectedBlocksAt(w, citations, notes, bs, n - 1, j);
    }
  }

  lemma TouchedBlock(rules: Rules, d: Draft, p: PatchInput, projected: seq<AuthorSection>, e: Edits, k: nat, t': Section, j: nat)
    requires WellFormed(rules.world) && Sound(rules.world, d.article, true) && k < |d.article.sections| && j < |d.article.sections[k].blocks|
    requires AllEdits(d, p, projected) == Some(e) && Fits(e, d.article.sections) && |projected| == |d.article.sections|
    requires ProjectSection(rules.world, d.article, d.notes, d.article.sections[k]) == Some(projected[k]) && e.sections[k].content == projected[k].content
    requires t'.id == d.article.sections[k].id && CompiledInto(rules, Revised(e, d.article.sections, k), t')
    ensures BlockPatched(rules, p, d.article.sections[k], t', j)
  {
    hide Catalog, Sound, WellFormed, CompileUnit, CompileSection, AllEdits, Renumber, BlockId, Replaced, ProjectBlock, ProjectSection, Revise, Position, Elements;
    var t := d.article.sections[k];
    var id, at := t.blocks[j].id, Position(t.blocks, Elements(p.removed), j);
    EditsAmount(d, p, projected, id);
    SamePosition(d, p, projected, e, t.blocks, j);
    if id !in p.removed {
      var entry := Revised(e, d.article.sections, k);
      ProjectedContent(rules.world, d.article, d.notes, t, j);
      RevisedAt(e, e.sections[k].content, t.blocks, |t.blocks|, j);
      RevisedCompiles(rules.world, entry, t', at);
      SoundParts(rules.world, d.article, t);
      BlockSurvives(rules.world, d.article, d.notes, t, j, BlockId(t.id, at));
      forall m | 0 <= m < |p.replacements| && p.replacements[m].blockId == id ensures NewBlock(rules, BlockId(t.id, at), p.replacements[m].content, t'.blocks[at]) {
        ReplacedAt(p, m);
      }
    }
  }

  lemma ReplacedAt(p: PatchInput, m: nat)
    requires m < |p.replacements|
    ensures Replaced(p, p.replacements[m].blockId)
  {
  }

  lemma TouchedSection(rules: Rules, d: Draft, p: PatchInput, projected: seq<AuthorSection>, e: Edits, k: nat, t': Section)
    requires WellFormed(rules.world) && Sound(rules.world, d.article, true) && k < |d.article.sections|
    requires AllEdits(d, p, projected) == Some(e) && Fits(e, d.article.sections) && |projected| == |d.article.sections|
    requires ProjectSection(rules.world, d.article, d.notes, d.article.sections[k]) == Some(projected[k]) && e.sections[k].content == projected[k].content && e.sections[k].title == projected[k].title
    requires t'.id == d.article.sections[k].id && CompiledInto(rules, Revised(e, d.article.sections, k), t')
    ensures SectionPatched(rules, p, d.article.sections[k], t')
  {
    hide Catalog, Sound, WellFormed, CompileSection, AllEdits, ProjectSection, Revise, Position, Elements, BlockPatched, Authored, Text.TrimSpace;
    var t := d.article.sections[k];
    ProjectionFits(rules.world, d.article, d.notes, t);
    SoundParts(rules.world, d.article, t);
    AuthoredTitle(rules.world, d.article, t);
    RevisedLength(e, e.sections[k].content, t.blocks, |t.blocks|);
    SamePosition(d, p, projected, e, t.blocks, |t.blocks|);
    RevisedCompiles(rules.world, Revised(e, d.article.sections, k), t', 0);
    forall j | 0 <= j < |t.blocks| ensures BlockPatched(rules, p, t, t', j) {
      TouchedBlock(rules, d, p, projected, e, k, t', j);
    }
  }

  /** A saved patch keeps the chapters and their order, removes exactly the blocks to remove, puts the
      replacements in place and leaves every other block as it was, renumbered where blocks before it
      are gone. */
  lemma PatchKeepsTheRest(rules: Rules, d: Draft, p: PatchInput, save: SaveInput)
    requires WellFormed(rules.world) && Sound(rules.world, d.article, true)
    requires Expand(rules, d, p) == Some(save) && Edit(rules, d, save).Prepared?
    ensures var d' := Edit(rules, d, save).draft; |d'.article.sections| == |d.article.sections| && forall k | 0 <= k < |d.article.sections| :: SectionPatched(rules, p, d.article.sections[k], d'.article.sections[k])
  {
    hide Catalog, WellFormed, Edit, AllEdits, ProjectSections, ProjectSection, Touched, Revise, SectionPatched, Distinct, SectionIds, Untouched, CompiledInto;
    ExpandEdits(rules, d, p, save);
    var projected, e :| Edited(rules, d, p, save, projected, e);
    PatchEntries(rules, d, p, save, projected, e);
    if d.article.sections == [] {
      assert save.order == [] by { IdsCount(d.article.sections); }
      assert save.sections == [] by { NoneTouched(e, d.article.sections); }
      EmptyWrite(rules, d, save);
    } else {
      PatchSwaps(rules, d, save);
      var d' := Edit(rules, d, save).draft;
      forall k | 0 <= k < |d.article.sections| ensures SectionPatched(rules, p, d.article.sections[k], d'.article.sections[k]) {
        OnePatched(rules, d, p, save, projected, e, k, d'.article.sections[k]);
      }
    }
  }

  lemma NoneTouched(e: Edits, sections: seq<Section>)
    requires sections == [] && Fits(e, sections)
    ensures Touched(e, sections, |sections|) == Some([])
  {
  }

  lemma EmptyWrite(rules: Rules, d: Draft, save: SaveInput)
    requires save.sections == [] && !Structural(save) && save.title == None && Edit(rules, d, save).Prepared?
    ensures Edit(rules, d, save).draft.article.sections == d.article.sections
  {
    hide Catalog, Prune;
    PruneKeepsSections(d.article);
  }

  lemma OnePatched(rules: Rules, d: Draft, p: PatchInput, save: SaveInput, projected: seq<AuthorSection>, e: Edits, k: nat, t': Section)
    requires WellFormed(rules.world) && Sound(rules.world, d.article, true) && Edited(rules, d, p, save, projected, e) && k < |d.article.sections|
    requires t'.id == d.article.sections[k].id
    requires Untouched(save.sections, |save.sections|, d.article.sections[k].id) ==> t' == d.article.sections[k]
    requires forall i | 0 <= i < |save.sections| && save.sections[i].sectionId == d.article.sections[k].id :: CompiledInto(rules, save.sections[i], t')
    ensures SectionPatched(rules, p, d.article.sections[k], t')
  {
    hide Catalog, WellFormed, AllEdits, ProjectSections, ProjectSection, Touched, Revise, SectionPatched, Distinct, SectionIds, CompiledInto, Sound;
    TouchedAre(e, d.article.sections, |d.article.sections|);
    if k in e.touched {
      var entry := Revised(e, d.article.sections, k);
      assert entry in save.sections;
      var i :| 0 <= i < |save.sections| && save.sections[i] == entry;
      TouchedSection(rules, d, p, projected, e, k, t');
    } else {
      forall i | 0 <= i < |save.sections| ensures save.sections[i].sectionId != d.article.sections[k].id {
        assert save.sections[i] in save.sections;
        var m :| 0 <= m < |d.article.sections| && m in e.touched && save.sections[i] == Revised(e, d.article.sections, m);
        SoundDistinct(rules.world, d.article);
        OtherId(d.article.sections, m, k);
      }
      UntouchedSection(rules, d, p, projected, e, k);
    }
  }

  lemma SoundDistinct(w: World, a: Article)
    requires Sound(w, a, true)
    ensures Distinct(SectionIds(a.sections))
  {
  }

  /** Without a removal, every block that is not replaced keeps its identity and its content. */
  lemma ReplacementsKeepIdentities(rules: Rules, d: Draft, p: PatchInput, save: SaveInput, k: nat, j: nat)
    requires WellFormed(rules.world) && Sound(rules.world, d.article, true)
    requires Expand(rules, d, p) == Some(save) && Edit(rules, d, save).Prepared? && p.removed == []
    requires k < |d.article.sections| && j < |d.article.sections[k].blocks| && !Replaced(p, d.article.sections[k].blocks[j].id)
    ensures var d' := Edit(rules, d, save).draft; k < |d'.article.sections| && |d'.article.sections[k].blocks| == |d.article.sections[k].blocks| && d'.article.sections[k].blocks[j] == d.article.sections[k].blocks[j]
  {
    hide WellFormed, Edit, Expand, Renumber, Sound, Replaced, NewBlock, BlockId;
    PatchKeepsTheRest(rules, d, p, save);
    var t, t' := d.article.sections[k], Edit(rules, d, save).draft.article.sections[k];
    assert SectionPatched(rules, p, t, t');
    assert BlockPatched(rules, p, t, t', j);
    NothingRemoved(t.blocks, Elements(p.removed), j);
    NothingRemoved(t.blocks, Elements(p.removed), |t.blocks|);
    SoundParts(rules.world, d.article, t);
    BlockSurvives(rules.world, d.article, d.notes, t, j, BlockId(t.id, j));
  }
}
