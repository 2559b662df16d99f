/** Editing single blocks of a draft (internal/investigator/article_loop_patch.go, `patchLoopBlocks`):
    the touched chapters are projected, edited and sent through the ordinary write as one structural
    edit that keeps the order. */
module BlockPatch {
  import opened Lists
  import opened Text
  import opened Wrappers
  import opened ArticleBlocks
  import opened AuthorLanguage
  import opened AuthorCompiler
  import opened AuthorRoundTrip
  import opened SectionRoundTrip
  import opened DraftWrite
  import opened DraftSafety

  datatype Replacement = Replacement(blockId: string, content: Content)
  datatype LimitationUpdate = LimitationUpdate(sectionId: string, limitations: seq<ScopedLimitation>)
  datatype ObservationUpdate = ObservationUpdate(sectionId: string, observations: seq<Observation>)

  datatype PatchInput = PatchInput(
    expected: nat, finish: bool, replacements: seq<Replacement>, removed: seq<string>, limitations: seq<LimitationUpdate>,
    observations: seq<ObservationUpdate>)

  // ----- where the blocks are

  function LocateBlocks(found: map<string, nat>, section: nat, bs: seq<Block>, n: nat): map<string, nat>
    requires n <= |bs|
  {
    if n == 0 then found else LocateBlocks(found, section, bs, n - 1)[bs[n - 1].id := section]
  }

  function Locate(sections: seq<Section>, n: nat): map<string, nat>
    requires n <= |sections|
  {
    if n == 0 then map[] else LocateBlocks(Locate(sections, n - 1), n - 1, sections[n - 1].blocks, |sections[n - 1].blocks|)
  }

  function FirstSection(sections: seq<AuthorSection>, id: string): (at: int)
    ensures -1 <= at < |sections|
    ensures at >= 0 ==> sections[at].sectionId == id
  {
    if sections == [] then -1
    else if sections[0].sectionId == id then 0
    else var rest := FirstSection(sections[1..], id); if rest < 0 then -1 else rest + 1
  }

  // ----- the edit, part by part

  datatype Edits = Edits(changes: map<string, Content>, removed: set<string>, touched: set<nat>, sections: seq<AuthorSection>)

  function Replace(found: map<string, nat>, e: Edits, rs: seq<Replacement>, n: nat): Option<Edits>
    requires n <= |rs|
  {
    if n == 0 then Some(e)
    else
      var front, r := Replace(found, e, rs, n - 1), rs[n - 1];
      if front.None? || r.blockId !in found || r.blockId in front.value.changes then None
      else Some(front.value.(changes := front.value.changes[r.blockId := r.content], touched := front.value.touched + {found[r.blockId]}))
  }

  function Remove(found: map<string, nat>, e: Edits, ids: seq<string>, n: nat): Option<Edits>
    requires n <= |ids|
  {
    if n == 0 then Some(e)
    else
      var front, id := Remove(found, e, ids, n - 1), ids[n - 1];
      if front.None? || id !in found || id in front.value.changes || id in front.value.removed then None
      else Some(front.value.(removed := front.value.removed + {id}, touched := front.value.touched + {found[id]}))
  }

  function Limit(e: Edits, us: seq<LimitationUpdate>, n: nat): Option<Edits>
    requires n <= |us|
  {
    if n == 0 then Some(e)
    else
      var front, u := Limit(e, us, n - 1), us[n - 1];
      if front.None? then None
      else
        var at := FirstSection(front.value.sections, u.sectionId);
        if at < 0 || exists k | 0 <= k < n - 1 :: us[k].sectionId == u.sectionId then None
        else Some(front.value.(touched := front.value.touched + {at},
                               sections := front.value.sections[at := front.value.sections[at].(limitations := u.limitations)]))
  }

  /** A new observation of a frame replaces the first one that is there. */
  function Upsert(known: seq<Observation>, o: Observation): seq<Observation> {
    if known == [] then [o]
    else if known[0].frame == o.frame then [o] + known[1..]
    else [known[0]] + Upsert(known[1..], o)
  }

  function UpsertAll(known: seq<Observation>, more: seq<Observation>, n: nat): seq<Observation>
    requires n <= |more|
  {
    if n == 0 then known else Upsert(UpsertAll(known, more, n - 1), more[n - 1])
  }

  function ObserveFrames(e: Edits, us: seq<ObservationUpdate>, n: nat): Option<Edits>
    requires n <= |us|
  {
    if n == 0 then Some(e)
    else
      var front, u := ObserveFrames(e, us, n - 1), us[n - 1];
      if front.None? then None
      else
        var at := FirstSection(front.value.sections, u.sectionId);
        if at < 0 || u.observations == [] || (exists k | 0 <= k < n - 1 :: us[k].sectionId == u.sectionId)
           || (exists j, k | 0 <= j < k < |u.observations| :: u.observations[j].frame == u.observations[k].frame) then None
        else
          var s := front.value.sections[at];
          Some(front.value.(touched := front.value.touched + {at},
                            sections := front.value.sections[at := s.(observations := UpsertAll(s.observations, u.observations, |u.observations|))]))
  }

  /** The content of a touched chapter. */
  function Revise(e: Edits, content: seq<Content>, bs: seq<Block>, n: nat): seq<Content>
    requires n <= |content| && n <= |bs|
  {
    if n == 0 then []
    else
      var front, id := Revise(e, content, bs, n - 1), bs[n - 1].id;
      if id in e.removed then front
      else front + [if id in e.changes then e.changes[id] else content[n - 1]]
  }

  function Revised(e: Edits, sections: seq<Section>, i: nat): AuthorSection
    requires i < |sections| && |e.sections| == |sections| && |e.sections[i].content| == |sections[i].blocks|
  {
    e.sections[i].(content := Revise(e, e.sections[i].content, sections[i].blocks, |sections[i].blocks|))
  }

  ghost predicate Fits(e: Edits, sections: seq<Section>) {
    |e.sections| == |sections| && forall i | 0 <= i < |sections| :: |e.sections[i].content| == |sections[i].blocks|
  }

  /** The touched chapters in article order; none when one would become empty. */
  function Touched(e: Edits, sections: seq<Section>, n: nat): Option<seq<AuthorSection>>
    requires n <= |sections| && Fits(e, sections)
  {
    if n == 0 then Some([])
    else
      var front := Touched(e, sections, n - 1);
      if front.None? || n - 1 !in e.touched then front
      else
        var s := Revised(e, sections, n - 1);
        if s.content == [] then None else Some(front.value + [s])
  }

  predicate EmptyPatch(p: PatchInput) {
    p.replacements == [] && p.removed == [] && p.limitations == [] && p.observations == []
  }

  function AllEdits(d: Draft, p: PatchInput, sections: seq<AuthorSection>): Option<Edits> {
    var found := Locate(d.article.sections, |d.article.sections|);
    match Replace(found, Edits(map[], {}, {}, sections), p.replacements, |p.replacements|)
    case None => None
    case Some(e) =>
      match Remove(found, e, p.removed, |p.removed|)
      case None => None
      case Some(e) =>
        match Limit(e, p.limitations, |p.limitations|)
        case None => None
        case Some(e) => ObserveFrames(e, p.observations, |p.observations|)
  }

  /** Every edit leaves the shape of the chapters alone. */
  ghost predicate SameShape(e: Edits, sections: seq<AuthorSection>) {
    && |e.sections| == |sections|
    && forall i | 0 <= i < |sections| ::
         e.sections[i].content == sections[i].content && e.sections[i].sectionId == sections[i].sectionId
         && e.sections[i].title == sections[i].title && e.sections[i].key == sections[i].key
         && e.sections[i].rejected == sections[i].rejected
  }

  lemma {:induction false} ReplaceKeepsShape(found: map<string, nat>, e: Edits, rs: seq<Replacement>, n: nat)
    requires n <= |rs|
    ensures var r := Replace(found, e, rs, n); r.Some? ==> r.value.sections == e.sections && r.value.removed == e.removed
  {
    if n > 0 {
      ReplaceKeepsShape(found, e, rs, n - 1);
    }
  }

  lemma {:induction false} RemoveKeepsShape(found: map<string, nat>, e: Edits, ids: seq<string>, n: nat)
    requires n <= |ids|
    ensures var r := Remove(found, e, ids, n); r.Some? ==> r.value.sections == e.sections && r.value.changes == e.changes
  {
    if n > 0 {
      RemoveKeepsShape(found, e, ids, n - 1);
    }
  }

  lemma {:induction false} LimitKeepsShape(e: Edits, us: seq<LimitationUpdate>, n: nat)
    requires n <= |us|
    ensures var r := Limit(e, us, n); r.Some? ==> SameShape(r.value, e.sections) && r.value.changes == e.changes && r.value.removed == e.removed
  {
    if n > 0 {
      LimitKeepsShape(e, us, n - 1);
    }
  }

  lemma {:induction false} ObserveKeepsShape(e: Edits, us: seq<ObservationUpdate>, n: nat)
    requires n <= |us|
    ensures var r := ObserveFrames(e, us, n); r.Some? ==> SameShape(r.value, e.sections) && r.value.changes == e.changes && r.value.removed == e.removed
  {
    if n > 0 {
      ObserveKeepsShape(e, us, n - 1);
    }
  }

  lemma EditsKeepShape(d: Draft, p: PatchInput, sections: seq<AuthorSection>)
    ensures var r := AllEdits(d, p, sections); r.Some? ==> SameShape(r.value, sections)
  {
    hide Locate, Replace, Remove, Limit, ObserveFrames;
    var found := Locate(d.article.sections, |d.article.sections|);
    var e0 := Edits(map[], {}, {}, sections);
    ReplaceKeepsShape(found, e0, p.replacements, |p.replacements|);
    var e1 := Replace(found, e0, p.replacements, |p.replacements|);
    if e1.Some? {
      RemoveKeepsShape(found, e1.value, p.removed, |p.removed|);
      var e2 := Remove(found, e1.value, p.removed, |p.removed|);
      if e2.Some? {
        LimitKeepsShape(e2.value, p.limitations, |p.limitations|);
        var e3 := Limit(e2.value, p.limitations, |p.limitations|);
        if e3.Some? {
          ObserveKeepsShape(e3.value, p.observations, |p.observations|);
        }
      }
    }
  }

  lemma {:induction false} ProjectedFit(w: World, a: Article, notes: map<string, Note>, n: nat)
    requires n <= |a.sections| && ProjectSections(w, a, notes, n).Some?
    ensures forall i | 0 <= i < n :: ProjectSection(w, a, notes, a.sections[i]) == Some(ProjectSections(w, a, notes, n).value[i])
  {
    hide ProjectSection;
    if n > 0 {
      ProjectedFit(w, a, notes, n - 1);
    }
  }

  lemma ProjectionFits(w: World, a: Article, notes: map<string, Note>, s: Section)
    requires ProjectSection(w, a, notes, s).Some?
    ensures var p := ProjectSection(w, a, notes, s).value; |p.content| == |s.blocks| && p.sectionId == s.id && p.title == s.title && p.key == "" && p.rejected == ""
  {
    hide ProjectBlocks, ProjectLimitations, ProjectPixels, SectionPixels;
  }

  lemma EditsFit(w: World, d: Draft, p: PatchInput)
    ensures var s := ProjectSections(w, d.article, d.notes, |d.article.sections|); s.Some? && AllEdits(d, p, s.value).Some? ==> Fits(AllEdits(d, p, s.value).value, d.article.sections)
  {
    hide ProjectSections, ProjectSection, AllEdits;
    var s := ProjectSections(w, d.article, d.notes, |d.article.sections|);
    if s.Some? && AllEdits(d, p, s.value).Some? {
      ProjectedFit(w, d.article, d.notes, |d.article.sections|);
      EditsKeepShape(d, p, s.value);
      forall i | 0 <= i < |d.article.sections| ensures |s.value[i].content| == |d.article.sections[i].blocks| {
        ProjectionFits(w, d.article, d.notes, d.article.sections[i]);
      }
    }
  }

  /** The write that a patch amounts to; none when the patch is refused. */
  function Expand(rules: Rules, d: Draft, p: PatchInput): Option<SaveInput> {
    if EmptyPatch(p) then None
    else
      match ProjectSections(rules.world, d.article, d.notes, |d.article.sections|)
      case None => None
      case Some(sections) =>
        match AllEdits(d, p, sections)
        case None => None
        case Some(e) =>
          EditsFit(rules.world, d, p);
          match Touched(e, d.article.sections, |d.article.sections|)
          case None => None
          case Some(touched) => Some(SaveInput(p.finish, p.expected, None, touched, [], SectionIds(d.article.sections), false))
  }

  // ----- block identities

  lemma BlockIdInjective(a: string, i: nat, b: string, j: nat)
    requires BlockId(a, i) == BlockId(b, j)
    ensures a == b && i == j
  {
    hide Decimal;
    DecimalCounts(i + 1);
    DecimalCounts(j + 1);
    SuffixInjective(a, Decimal(i + 1), b, Decimal(j + 1));
    DecimalInjective(i + 1, j + 1);
  }

  lemma MarkBeforeNumeral(a: string, m: string, b: string, n: string)
    requires IsNumeral(n) && |m| < |n| && |a| + |m| == |b| + |n|
    ensures a + "_b" + m != b + "_b" + n
  {
    var left, right := a + "_b" + m, b + "_b" + n;
    assert left[|a| + 1] == 'b' && right[|a| + 1] == n[|a| - |b| - 1];
  }

  lemma SuffixInjective(a: string, m: string, b: string, n: string)
    requires IsNumeral(m) && IsNumeral(n) && a + "_b" + m == b + "_b" + n
    ensures a == b && m == n
  {
    var left, right := a + "_b" + m, b + "_b" + n;
    assert |left| == |a| + 2 + |m| && |right| == |b| + 2 + |n|;
    assert |m| == |n| by {
      if |m| < |n| {
        MarkBeforeNumeral(a, m, b, n);
      } else if |n| < |m| {
        MarkBeforeNumeral(b, n, a, m);
      }
    }
    assert left[..|a|] == a && right[..|b|] == b;
    assert left[|a| + 2..] == m && right[|b| + 2..] == n;
  }

  /** Blocks are numbered within their chapter. */
  ghost predicate Numbered(t: Section) {
    forall j | 0 <= j < |t.blocks| :: t.blocks[j].id == BlockId(t.id, j)
  }

  lemma UnitHasId(w: World, b: string, c: Content)
    requires CompileUnit(w, Catalog(w), b, c).Ok?
    ensures CompileUnit(w, Catalog(w), b, c).value.block.id == b
  {
    hide Catalog, CompileItems, CompileRows, Gather, Sourced, TrimSpace, Inlines, Occurs;
  }

  /** A stored block and the unit that it was compiled from. */
  ghost predicate MadeFrom(w0: World, w: World, c: Content, t: Section, j: nat) {
    && WellFormed(w0) && Extends(w0, w) && DistinctSources(c) && j < |t.blocks|
    && CompileUnit(w0, Catalog(w0), BlockId(t.id, j), c).Ok?
    && CompileUnit(w0, Catalog(w0), BlockId(t.id, j), c).value.block == t.blocks[j]
  }

  lemma AuthoredBlock(w: World, a: Article, t: Section, j: nat)
    requires Authored(w, a, t, true) && j < |t.blocks|
    ensures exists w0, c :: MadeFrom(w0, w, c, t, j)
    ensures Refers(a.citations, t.blocks[j])
  {
    hide Catalog, CompileUnit, CompileUnits, CompileLimitations, ScopedTo, Refers, Observe, TrimSpace, Meaningful, DistinctSources, BlockShows;
    var w0, s :| AuthoredAs(w0, w, a, s, t, true);
    SectionParts(w0, s, t.id);
    CompiledUnits(w0, t.id, s.content, |s.content|);
    var us := CompileUnits(w0, Catalog(w0), t.id, s.content, |s.content|).value;
    assert UnitAt(w0, t.id, s.content, us, j);
    assert s.content[j] in s.content;
    assert MadeFrom(w0, w, s.content[j], t, j);
  }

  lemma AuthoredIsNumbered(w: World, a: Article, t: Section)
    requires Authored(w, a, t, true)
    ensures Numbered(t)
  {
    hide Catalog, CompileUnit, Authored, Refers, DistinctSources, WellFormed, Extends, BlockId;
    forall j | 0 <= j < |t.blocks| ensures t.blocks[j].id == BlockId(t.id, j) {
      AuthoredBlock(w, a, t, j);
      var w0, c :| MadeFrom(w0, w, c, t, j);
      UnitHasId(w0, BlockId(t.id, j), c);
    }
  }

  lemma FigureNeedsFacts(w: World, b: string, c: Content, note: Note)
    requires c.figure.Some? && note.visibleFacts == []
    ensures !CompileUnit(w, Catalog(w), b, Tidy(c, note)).Ok?
  {
    hide Catalog, CompileText, CompileQuote, CompileItems, CompileRows, Sourced, TrimSpace, CompileCode, CompileBackground, CompileList, CompileTable;
  }

  /** A block that is sent back as it was shown is the same block, at any position. */
  lemma BlockSurvives(w: World, a: Article, notes: map<string, Note>, t: Section, j: nat, b': string)
    requires WellFormed(w) && Meaningful(w, a.citations) && Authored(w, a, t, true) && j < |t.blocks|
    ensures ProjectBlock(w, a.citations, notes, t.blocks[j]).Some?
    ensures var r := CompileUnit(w, Catalog(w), b', ProjectBlock(w, a.citations, notes, t.blocks[j]).value); r.Ok? ==> r.value.block == Renumber(t.blocks[j], b')
    ensures Renumber(t.blocks[j], BlockId(t.id, j)) == t.blocks[j]
  {
    hide Catalog, CompileUnit, ProjectBlock, Authored, Refers, DistinctSources, WellFormed, Extends, BlockId, Renumber, Gathered, Tidy, BlockCitations, Meaningful, Kept;
    AuthoredBlock(w, a, t, j);
    var w0, c :| MadeFrom(w0, w, c, t, j);
    UnitIsKept(w0, w, a.citations, BlockId(t.id, j), c);
    OwnPosition(w0, BlockId(t.id, j), c);
    FigureIsFigure(w0, BlockId(t.id, j), c);
    ProjectUnit(w0, w, a.citations, notes, BlockId(t.id, j), c);
    var note := FigureNote(notes, t.blocks[j]);
    if t.blocks[j].Figure? && note.visibleFacts == [] {
      FigureNeedsFacts(w, b', c, note);
    } else {
      UnitRoundTrip(w0, w, a.citations, notes, BlockId(t.id, j), b', c);
    }
  }

  // ----- what the parts of a patch amount to

  lemma {:induction false} LocatedBlocks(found: map<string, nat>, section: nat, bs: seq<Block>, n: nat, id: string)
    requires n <= |bs|
    ensures var m := LocateBlocks(found, section, bs, n); (id in m <==> id in found || exists j | 0 <= j < n :: bs[j].id == id) && (id in m ==> m[id] == if exists j | 0 <= j < n :: bs[j].id == id then section else found[id])
  {
    if n > 0 {
      LocatedBlocks(found, section, bs, n - 1, id);
    }
  }

  ghost predicate HasBlock(t: Section, id: string) {
    exists j :: 0 <= j < |t.blocks| && t.blocks[j].id == id
  }

  lemma {:induction false} Located(sections: seq<Section>, n: nat, id: string)
    requires n <= |sections|
    ensures var m := Locate(sections, n); (id in m <==> exists k | 0 <= k < n :: HasBlock(sections[k], id)) && (id in m ==> m[id] < n && HasBlock(sections[m[id]], id))
  {
    if n > 0 {
      Located(sections, n - 1, id);
      LocatedBlocks(Locate(sections, n - 1), n - 1, sections[n - 1].blocks, |sections[n - 1].blocks|, id);
    }
  }

  /** A block lies in one chapter. */
  lemma BlockInOneSection(sections: seq<Section>, i: nat, k: nat, id: string)
    requires i < |sections| && k < |sections| && Distinct(SectionIds(sections))
    requires Numbered(sections[i]) && Numbered(sections[k]) && HasBlock(sections[i], id) && HasBlock(sections[k], id)
    ensures i == k
  {
    hide BlockId;
    var m :| 0 <= m < |sections[i].blocks| && sections[i].blocks[m].id == id;
    var n :| 0 <= n < |sections[k].blocks| && sections[k].blocks[n].id == id;
    BlockIdInjective(sections[i].id, m, sections[k].id, n);
    assert SectionIds(sections)[i] == SectionIds(sections)[k];
  }

  predicate Replaced(p: PatchInput, id: string) {
    exists k :: 0 <= k < |p.replacements| && p.replacements[k].blockId == id
  }

  lemma {:induction false} ReplacedAre(found: map<string, nat>, e: Edits, rs: seq<Replacement>, n: nat, id: string)
    requires n <= |rs| && Replace(found, e, rs, n).Some? && id !in e.changes
    ensures var r := Replace(found, e, rs, n).value; (id in r.changes <==> exists k :: 0 <= k < n && rs[k].blockId == id) && e.touched <= r.touched && (id in r.changes ==> id in found && found[id] in r.touched)
    ensures var r := Replace(found, e, rs, n).value; forall k | 0 <= k < n && rs[k].blockId == id :: r.changes[id] == rs[k].content
  {
    if n > 0 {
      ReplacedAre(found, e, rs, n - 1, id);
    }
  }

  lemma {:induction false} RemovedAre(found: map<string, nat>, e: Edits, ids: seq<string>, n: nat, id: string)
    requires n <= |ids| && Remove(found, e, ids, n).Some? && id !in e.removed
    ensures var r := Remove(found, e, ids, n).value; (id in r.removed <==> exists k :: 0 <= k < n && ids[k] == id) && e.touched <= r.touched && (id in r.removed ==> id in found && found[id] in r.touched && id !in r.changes)
  {
    if n > 0 {
      RemovedAre(found, e, ids, n - 1, id);
    }
  }

  lemma {:induction false} LimitTouches(e: Edits, us: seq<LimitationUpdate>, n: nat)
    requires n <= |us| && Limit(e, us, n).Some?
    ensures e.touched <= Limit(e, us, n).value.touched
  {
    if n > 0 {
      LimitTouches(e, us, n - 1);
    }
  }

  lemma {:induction false} ObserveTouches(e: Edits, us: seq<ObservationUpdate>, n: nat)
    requires n <= |us| && ObserveFrames(e, us, n).Some?
    ensures e.touched <= ObserveFrames(e, us, n).value.touched
  {
    hide UpsertAll;
    if n > 0 {
      ObserveTouches(e, us, n - 1);
    }
  }

  /** Every edited block is in a touched chapter, and no block is both replaced and removed. */
  ghost predicate Amounts(d: Draft, p: PatchInput, e: Edits, id: string) {
    && (id in e.changes <==> Replaced(p, id)) && (id in e.removed <==> id in p.removed)
    && (forall k | 0 <= k < |p.replacements| && p.replacements[k].blockId == id :: e.changes[id] == p.replacements[k].content)
    && (id in e.changes || id in e.removed ==> exists k :: k in e.touched && k < |d.article.sections| && HasBlock(d.article.sections[k], id))
  }

  lemma EditsAmount(d: Draft, p: PatchInput, sections: seq<AuthorSection>, id: string)
    requires AllEdits(d, p, sections).Some?
    ensures Amounts(d, p, AllEdits(d, p, sections).value, id)
  {
    hide Locate, Replace, Remove, Limit, ObserveFrames, HasBlock;
    var found := Locate(d.article.sections, |d.article.sections|);
    Located(d.article.sections, |d.article.sections|, id);
    var e0 := Edits(map[], {}, {}, sections);
    ReplacedAre(found, e0, p.replacements, |p.replacements|, id);
    ReplaceKeepsShape(found, e0, p.replacements, |p.replacements|);
    var e1 := Replace(found, e0, p.replacements, |p.replacements|).value;
    RemovedAre(found, e1, p.removed, |p.removed|, id);
    RemoveKeepsShape(found, e1, p.removed, |p.removed|);
    var e2 := Remove(found, e1, p.removed, |p.removed|).value;
    LimitKeepsShape(e2, p.limitations, |p.limitations|);
    LimitTouches(e2, p.limitations, |p.limitations|);
    var e3 := Limit(e2, p.limitations, |p.limitations|).value;
    ObserveKeepsShape(e3, p.observations, |p.observations|);
    ObserveTouches(e3, p.observations, |p.observations|);
    if id in e1.changes || id in e2.removed {
      assert found[id] in AllEdits(d, p, sections).value.touched;
    }
  }

  /** Where a kept block goes: before it, the removed blocks are gone. */
  function Position(bs: seq<Block>, removed: set<string>, j: nat): nat
    requires j <= |bs|
  {
    if j == 0 then 0 else Position(bs, removed, j - 1) + if bs[j - 1].id in removed then 0 else 1
  }

  lemma {:induction false} RevisedLength(e: Edits, content: seq<Content>, bs: seq<Block>, n: nat)
    requires n <= |content| && n <= |bs|
    ensures |Revise(e, content, bs, n)| == Position(bs, e.removed, n)
  {
    if n > 0 {
      RevisedLength(e, content, bs, n - 1);
    }
  }

  lemma {:induction false} RevisedAt(e: Edits, content: seq<Content>, bs: seq<Block>, n: nat, j: nat)
    requires j < n <= |content| && n <= |bs| && bs[j].id !in e.removed
    ensures var r := Revise(e, content, bs, n); Position(bs, e.removed, j) < |r| && r[Position(bs, e.removed, j)] == if bs[j].id in e.changes then e.changes[bs[j].id] else content[j]
  {
    RevisedLength(e, content, bs, n - 1);
    if j < n - 1 {
      RevisedAt(e, content, bs, n - 1, j);
    }
  }

  lemma {:induction false} NothingRemoved(bs: seq<Block>, removed: set<string>, n: nat)
    requires n <= |bs| && forall j | 0 <= j < n :: bs[j].id !in removed
    ensures Position(bs, removed, n) == n
  {
    if n > 0 {
      NothingRemoved(bs, removed, n - 1);
    }
  }
}
