/** What a block patch does not name it leaves alone, whatever the draft holds: chapters without a named
    block, with their limitations and the citations of both. */
module PatchFrame {
  import opened Lists
  import opened Wrappers
  import opened ArticleBlocks
  import opened AuthorLanguage
  import opened AuthorRoundTrip
  import opened SectionRoundTrip
  import opened DraftWrite
  import opened DraftSafety
  import opened BlockPatch
  import opened PatchSafety

  // ----- which chapters a patch touches

  /** The patch names the chapter or one of its blocks. */
  ghost predicate Names(p: PatchInput, t: Section) {
    || (exists j :: 0 <= j < |t.blocks| && (Replaced(p, t.blocks[j].id) || t.blocks[j].id in p.removed))
    || (exists u :: u in p.limitations && u.sectionId == t.id)
    || (exists u :: u in p.observations && u.sectionId == t.id)
  }

  lemma {:induction false} ReplaceTouches(sections: seq<Section>, e: Edits, rs: seq<Replacement>, n: nat, k: nat)
    requires n <= |rs| && Replace(Locate(sections, |sections|), e, rs, n).Some? && k !in e.touched
    requires k in Replace(Locate(sections, |sections|), e, rs, n).value.touched
    ensures k < |sections| && exists m :: 0 <= m < n && HasBlock(sections[k], rs[m].blockId)
  {
    hide Locate, HasBlock;
    if n > 0 {
      Located(sections, |sections|, rs[n - 1].blockId);
      if k in Replace(Locate(sections, |sections|), e, rs, n - 1).value.touched {
        ReplaceTouches(sections, e, rs, n - 1, k);
      }
    }
  }

  lemma {:induction false} RemoveTouches(sections: seq<Section>, e: Edits, ids: seq<string>, n: nat, k: nat)
    requires n <= |ids| && Remove(Locate(sections, |sections|), e, ids, n).Some? && k !in e.touched
    requires k in Remove(Locate(sections, |sections|), e, ids, n).value.touched
    ensures k < |sections| && exists m :: 0 <= m < n && HasBlock(sections[k], ids[m])
  {
    hide Locate, HasBlock;
    if n > 0 {
      Located(sections, |sections|, ids[n - 1]);
      if k in Remove(Locate(sections, |sections|), e, ids, n - 1).value.touched {
        RemoveTouches(sections, e, ids, n - 1, k);
      }
    }
  }

  lemma {:induction false} LimitTouchesOnly(e: Edits, us: seq<LimitationUpdate>, n: nat, k: nat)
    requires n <= |us| && Limit(e, us, n).Some? && k !in e.touched && k in Limit(e, us, n).value.touched
    ensures k < |e.sections| && exists m :: 0 <= m < n && us[m].sectionId == e.sections[k].sectionId
  {
    if n > 0 {
      LimitKeepsShape(e, us, n - 1);
      if k in Limit(e, us, n - 1).value.touched {
        LimitTouchesOnly(e, us, n - 1, k);
      }
    }
  }

  lemma {:induction false} ObserveTouchesOnly(e: Edits, us: seq<ObservationUpdate>, n: nat, k: nat)
    requires n <= |us| && ObserveFrames(e, us, n).Some? && k !in e.touched && k in ObserveFrames(e, us, n).value.touched
    ensures k < |e.sections| && exists m :: 0 <= m < n && us[m].sectionId == e.sections[k].sectionId
  {
    hide UpsertAll;
    if n > 0 {
      ObserveKeepsShape(e, us, n - 1);
      if k in ObserveFrames(e, us, n - 1).value.touched {
        ObserveTouchesOnly(e, us, n - 1, k);
      }
    }
  }

  /** Only named chapters are touched. */
  lemma UnnamedIsUntouched(d: Draft, p: PatchInput, projected: seq<AuthorSection>, k: nat)
    requires AllEdits(d, p, projected).Some? && k < |d.article.sections| && |projected| == |d.article.sections|
    requires projected[k].sectionId == d.article.sections[k].id && !Names(p, d.article.sections[k])
    ensures k !in AllEdits(d, p, projected).value.touched
  {
    hide Locate, Replace, Remove, Limit, ObserveFrames;
    var sections := d.article.sections;
    var found, e0 := Locate(sections, |sections|), Edits(map[], {}, {}, projected);
    var e1 := Replace(found, e0, p.replacements, |p.replacements|).value;
    var e2 := Remove(found, e1, p.removed, |p.removed|).value;
    var e3 := Limit(e2, p.limitations, |p.limitations|).value;
    ReplaceKeepsShape(found, e0, p.replacements, |p.replacements|);
    RemoveKeepsShape(found, e1, p.removed, |p.removed|);
    LimitKeepsShape(e2, p.limitations, |p.limitations|);
    if k in e1.touched {
      ReplaceTouches(sections, e0, p.replacements, |p.replacements|, k);
    } else if k in e2.touched {
      RemoveTouches(sections, e1, p.removed, |p.removed|, k);
    } else if k in e3.touched {
      LimitTouchesOnly(e2, p.limitations, |p.limitations|, k);
    } else if k in AllEdits(d, p, projected).value.touched {
      ObserveTouchesOnly(e3, p.observations, |p.observations|, k);
    }
  }

  // ----- what a batch leaves alone

  /** The entry is not for the chapter with this identity. */
  predicate Elsewhere(s: AuthorSection, id: string) {
    s.key == "" && s.sectionId != id
  }

  /** Every citation is still there. */
  ghost predicate KeepsCitations(a: Article, a': Article) {
    forall ref | ref in a.citations :: ref in a'.citations && a'.citations[ref] == a.citations[ref]
  }

  function LimitationsOf(a: Article, id: string): seq<Limitation> {
    ScopedTo(a.limitations, id, |a.limitations|)
  }

  lemma InstallLeaves(w: World, a: Article, at: int, s: AuthorSection, own: string, id: string)
    requires WellFormed(w) && Coherent(w, a, false) && at < |a.sections| && CompileSection(w, Catalog(w), s, own).Ok? && own != id
    ensures var a' := Install(a, at, CompileSection(w, Catalog(w), s, own).value); LimitationsOf(a', id) == LimitationsOf(a, id) && KeepsCitations(a, a')
  {
    hide Catalog, WellFormed, CompileSection, ScopedTo, Unscoped, Meaning, SectionIds, Put, Distinct, Authored;
    var c := CompileSection(w, Catalog(w), s, own).value;
    CompiledRefers(w, s, own);
    UnscopedKeeps(a.limitations, own, id, |a.limitations|);
    ScopedToAppend(Unscoped(a.limitations, own, |a.limitations|), c.limitations, id, |c.limitations|);
    ScopedToOther(c.limitations, own, id, |c.limitations|);
    forall ref | ref in a.citations && ref in c.citations ensures a.citations[ref] == c.citations[ref] {
      MeaningIsUnique(w, ref, a.citations[ref], c.citations[ref]);
    }
  }

  lemma {:induction false} BatchLeaves(rules: Rules, d: Draft, entries: seq<AuthorSection>, n: nat, id: string)
    requires WellFormed(rules.world) && Coherent(rules.world, d.article, false) && n <= |entries|
    requires forall s | s in entries :: Elsewhere(s, id)
    ensures var d' := ApplyAll(rules, Catalog(rules.world), d, entries, n); LimitationsOf(d'.article, id) == LimitationsOf(d.article, id) && KeepsCitations(d.article, d'.article)
  {
    hide Catalog, WellFormed, Coherent, CompileSection, Install, LimitationsOf;
    if n > 0 {
      BatchLeaves(rules, d, entries, n - 1, id);
      ApplyAllKeeps(rules, d, entries, n - 1, false);
      var cat := Catalog(rules.world);
      var front := ApplyAll(rules, cat, d, entries, n - 1);
      var s := entries[n - 1];
      var e := Examine(rules, cat, front.article, s);
      if e.Ok? {
        assert Elsewhere(s, id);
        ExamineCompiles(rules, front.article, s);
        InstallLeaves(rules.world, front.article, e.value.at, s, e.value.id, id);
      }
    }
  }

  /** The references of a chapter and of its limitations. */
  ghost predicate RefersTo(a: Article, t: Section, ref: string) {
    (exists b :: b in t.blocks && ref in BlockCitations(b)) || exists l :: l in LimitationsOf(a, t.id) && ref in l.citationIds
  }

  /** Pruning drops nothing that a chapter of the article needs. */
  lemma PruneLeaves(w: World, a: Article, t: Section)
    requires Coherent(w, a, false) && t in a.sections
    ensures LimitationsOf(Prune(a), t.id) == LimitationsOf(a, t.id)
    ensures forall ref | RefersTo(a, t, ref) && ref in a.citations :: ref in Prune(a).citations && Prune(a).citations[ref] == a.citations[ref]
  {
    hide Authored, Meaningful, Distinct, ScopedTo, Relevant, Refs, BlockCitations;
    var ids, a' := SectionIds(a.sections), Prune(a);
    var k :| 0 <= k < |a.sections| && a.sections[k] == t;
    assert ids[k] == t.id;
    RelevantKeeps(a.limitations, ids, t.id, |a.limitations|);
    forall ref | RefersTo(a, t, ref) && ref in a.citations ensures ref in a'.citations {
      ScopedToAre(a'.limitations, t.id, |a'.limitations|);
      RefsAre(a.sections, a'.limitations, ref);
    }
  }

  lemma RestructureLeaves(d: Draft, deleteIds: seq<string>, order: seq<string>)
    requires Restructure(d, deleteIds, order).Prepared?
    ensures var a' := Restructure(d, deleteIds, order).draft.article; a'.limitations == d.article.limitations && a'.citations == d.article.citations
  {
    hide Delete, Place, Available, Remaining;
  }

  /** A chapter as it was, with its limitations and what both refer to. */
  ghost predicate LeftAlone(a: Article, a': Article, k: nat)
    requires k < |a.sections|
  {
    var t := a.sections[k];
    && k < |a'.sections| && a'.sections[k] == t && LimitationsOf(a', t.id) == LimitationsOf(a, t.id)
    && forall ref | RefersTo(a, t, ref) && ref in a.citations :: ref in a'.citations && a'.citations[ref] == a.citations[ref]
  }

  lemma WriteLeaves(rules: Rules, d: Draft, save: SaveInput, k: nat)
    requires WellFormed(rules.world) && Sound(rules.world, d.article, false) && k < |d.article.sections| && Edit(rules, d, save).Prepared?
    requires save.title == None && Structural(save) && forall s | s in save.sections :: Elsewhere(s, d.article.sections[k].id)
    requires var a' := Edit(rules, d, save).draft.article; k < |a'.sections| && a'.sections[k] == d.article.sections[k]
    ensures LeftAlone(d.article, Edit(rules, d, save).draft.article, k)
  {
    hide Catalog, WellFormed, Coherent, ApplyAll, Restructure, Ambiguous, Prune, ScopedTo, BlockCitations;
    var w, t := rules.world, d.article.sections[k];
    var clean := d.(receipt := NO_RECEIPT);
    var written := ApplyAll(rules, Catalog(w), clean, save.sections, |save.sections|);
    BatchLeaves(rules, clean, save.sections, |save.sections|, t.id);
    ApplyAllKeeps(rules, clean, save.sections, |save.sections|, false);
    RestructureLeaves(written, save.deleteIds, save.order);
    RestructureKeeps(w, written, save.deleteIds, save.order, false);
    var placed := Restructure(written, save.deleteIds, save.order).draft.article;
    PruneKeepsSections(placed);
    PruneLeaves(w, placed, t);
    forall ref | RefersTo(d.article, t, ref) && ref in d.article.citations ensures RefersTo(placed, t, ref) && ref in placed.citations && placed.citations[ref] == d.article.citations[ref] {
    }
  }

  /** MAIN RESULT: a saved patch leaves every chapter that it does not name as it was, with its
      limitations and the citations of both, in every draft that the store can hold. */
  lemma PatchLeavesChapters(rules: Rules, d: Draft, p: PatchInput, save: SaveInput, k: nat)
    requires WellFormed(rules.world) && Sound(rules.world, d.article, false)
    requires Expand(rules, d, p) == Some(save) && Edit(rules, d, save).Prepared?
    requires k < |d.article.sections| && !Names(p, d.article.sections[k])
    ensures LeftAlone(d.article, Edit(rules, d, save).draft.article, k)
  {
    hide Catalog, WellFormed, Edit, AllEdits, ProjectSections, ProjectSection, Touched, Revise, Distinct, SectionIds, LeftAlone, Swapped, Coherent, Names, OwnEntries;
    SoundIds(rules.world, d.article);
    ExpandEdits(rules, d, p, save);
    var projected, e :| Edited(rules, d, p, save, projected, e);
    PatchEntries(rules, d, p, save, projected, e);
    ProjectedId(rules, d, p, save, projected, e, k);
    UnnamedIsUntouched(d, p, projected, k);
    EntriesElsewhere(rules, d, p, save, projected, e, k);
    IdsCount(d.article.sections);
    PatchSwaps(rules, d, save);
    UntouchedIsKept(rules, d.article.sections, save.sections, Edit(rules, d, save).draft.article.sections, k);
    WriteLeaves(rules, d, save, k);
  }

  lemma SoundIds(w: World, a: Article)
    requires Sound(w, a, false)
    ensures Distinct(SectionIds(a.sections))
  {
  }

  lemma ProjectedId(rules: Rules, d: Draft, p: PatchInput, save: SaveInput, projected: seq<AuthorSection>, e: Edits, k: nat)
    requires Edited(rules, d, p, save, projected, e) && k < |d.article.sections|
    ensures |projected| == |d.article.sections| && projected[k].sectionId == d.article.sections[k].id
  {
    hide AllEdits, ProjectSections, ProjectSection, Touched, SectionIds;
  }

  lemma EntriesElsewhere(rules: Rules, d: Draft, p: PatchInput, save: SaveInput, projected: seq<AuthorSection>, e: Edits, k: nat)
    requires Distinct(SectionIds(d.article.sections)) && Edited(rules, d, p, save, projected, e) && k < |d.article.sections| && k !in e.touched
    ensures forall s | s in save.sections :: Elsewhere(s, d.article.sections[k].id)
  {
    hide Catalog, AllEdits, ProjectSections, ProjectSection, Touched, Revise, Distinct, SectionIds;
    TouchedAre(e, d.article.sections, |d.article.sections|);
    forall s | s in save.sections ensures Elsewhere(s, d.article.sections[k].id) {
      var m :| 0 <= m < |d.article.sections| && m in e.touched && s == Revised(e, d.article.sections, m);
      OtherId(d.article.sections, m, k);
    }
  }

  lemma UntouchedIsKept(rules: Rules, before: seq<Section>, entries: seq<AuthorSection>, after: seq<Section>, k: nat)
    requires k < |before| && k < |after| && Swapped(rules, before, entries, |entries|, after, k)
    requires forall s | s in entries :: Elsewhere(s, before[k].id)
    ensures after[k] == before[k]
  {
    hide CompiledInto;
    forall i | 0 <= i < |entries| ensures entries[i].sectionId != before[k].id {
      assert Elsewhere(entries[i], before[k].id);
    }
  }
}
