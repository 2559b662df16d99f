/** What a review call must be given: the originals and blocks that belong to a scope, and the
    work they amount to (internal/investigator/article_loop_convergence.go, article_loop_projection.go). */
module ReviewMaterial {
  import opened Lists

  /** A block with the transcript segments and frames that its citations resolve to, and its own frames. */
  datatype Block = Block(id: string, segmentIds: seq<string>, citedFrames: seq<string>, frameIds: seq<string>)
  datatype Section = Section(id: string, blocks: seq<Block>)
  datatype Limitation = Limitation(sectionIds: seq<string>, segmentIds: seq<string>, citedFrames: seq<string>)

  /** `citationFrames` are the frames of all citations, in the order of the citation keys. */
  datatype Article = Article(sections: seq<Section>, limitations: seq<Limitation>, citationFrames: seq<string>)

  datatype Scope = Scope(
    id: string, sectionIds: seq<string>, sourceIds: seq<string>, contextSourceIds: seq<string>, frameIds: seq<string>,
    global: bool, boundedContext: bool, contextBlockIds: seq<string>,
    coverageBatch: bool, coverageQuestionIds: seq<string>, fullRelations: bool)

  /** What a scope answers for; its identity, frames and delivered context may differ. */
  predicate SameDuties(a: Scope, b: Scope) {
    && a.global == b.global && a.sectionIds == b.sectionIds && a.sourceIds == b.sourceIds
    && a.coverageBatch == b.coverageBatch && a.coverageQuestionIds == b.coverageQuestionIds && a.fullRelations == b.fullRelations
  }

  /** Two descriptions of one work unit. */
  predicate SameWork(a: Scope, b: Scope) {
    a.id == b.id && SameDuties(a, b)
  }

  const EMPTY := Scope("", [], [], [], [], false, false, [], false, [], false)

  /** The frozen inputs of planning. `challenged` are the originals quoted by a standing challenge;
      `prose` and `cost` weigh the delivered text, and `hash` identifies a scope by its content. */
  datatype Reading = Reading(
    article: Article, transcript: seq<string>, challenged: seq<string>,
    prose: (seq<string>, seq<string>) -> nat, cost: string -> nat, hash: Scope -> string)

  // ----- which segments the chapters and limitations of a scope cite

  function BlocksCite(blocks: seq<Block>, n: nat): set<string>
    requires n <= |blocks|
  {
    if n == 0 then {} else BlocksCite(blocks, n - 1) + Elements(blocks[n - 1].segmentIds)
  }

  function SectionsCite(sections: seq<Section>, chosen: seq<string>, n: nat): set<string>
    requires n <= |sections|
  {
    if n == 0 then {}
    else
      SectionsCite(sections, chosen, n - 1)
      + if sections[n - 1].id in chosen then BlocksCite(sections[n - 1].blocks, |sections[n - 1].blocks|) else {}
  }

  predicate Concerns(l: Limitation, chosen: seq<string>) {
    l.sectionIds == [] || exists id | id in l.sectionIds :: id in chosen
  }

  function LimitationsCite(limitations: seq<Limitation>, chosen: seq<string>, n: nat): set<string>
    requires n <= |limitations|
  {
    if n == 0 then {}
    else
      LimitationsCite(limitations, chosen, n - 1)
      + if Concerns(limitations[n - 1], chosen) then Elements(limitations[n - 1].segmentIds) else {}
  }

  function Cited(a: Article, chosen: seq<string>): set<string> {
    SectionsCite(a.sections, chosen, |a.sections|) + LimitationsCite(a.limitations, chosen, |a.limitations|)
  }

  /** `collect`: append what is neither a source of the scope nor collected yet. */
  method Collect(context: seq<string>, sourceIds: seq<string>, segmentIds: seq<string>) returns (out: seq<string>)
    ensures Elements(out) == Elements(context) + (Elements(segmentIds) - Elements(sourceIds))
  {
    out := context;
    for i := 0 to |segmentIds|
      invariant forall x :: x in out <==> x in context || (x in segmentIds[..i] && x !in sourceIds)
    {
      TakeOneMore(segmentIds, i + 1);
      if segmentIds[i] !in sourceIds {
        out := AppendUnique(out, segmentIds[i]);
      }
    }
    assert segmentIds[..|segmentIds|] == segmentIds;
  }

  method ScopeEvidence(scope: Scope, a: Article) returns (out: Scope)
    ensures out == scope.(contextSourceIds := out.contextSourceIds)
    ensures Elements(out.contextSourceIds)
      == Elements(scope.contextSourceIds) + (Cited(a, scope.sectionIds) - Elements(scope.sourceIds))
  {
    var context := scope.contextSourceIds;
    ghost var before, sources := Elements(context), Elements(scope.sourceIds);
    for i := 0 to |a.sections|
      invariant Elements(context) == before + (SectionsCite(a.sections, scope.sectionIds, i) - sources)
    {
      if a.sections[i].id in scope.sectionIds {
        var blocks := a.sections[i].blocks;
        for j := 0 to |blocks|
          invariant Elements(context)
            == before + (SectionsCite(a.sections, scope.sectionIds, i) + BlocksCite(blocks, j) - sources)
        {
          context := Collect(context, scope.sourceIds, blocks[j].segmentIds);
        }
      }
    }
    ghost var cited := SectionsCite(a.sections, scope.sectionIds, |a.sections|);
    for i := 0 to |a.limitations|
      invariant Elements(context)
        == before + (cited + LimitationsCite(a.limitations, scope.sectionIds, i) - sources)
    {
      if Concerns(a.limitations[i], scope.sectionIds) {
        context := Collect(context, scope.sourceIds, a.limitations[i].segmentIds);
      }
    }
    out := scope.(contextSourceIds := context);
  }

  // ----- the context delivered with a scope

  /** The segment at `j` lies beside one of the first `n`, and that one is selected. */
  predicate IsAround(transcript: seq<string>, selected: set<string>, n: nat, j: int) {
    && 0 <= j < |transcript| && n <= |transcript|
    && ((0 < j <= n && transcript[j - 1] in selected) || (j + 1 < n && transcript[j + 1] in selected))
  }

  function Around(transcript: seq<string>, selected: set<string>, n: nat): set<string>
    requires n <= |transcript|
  {
    set j | 0 <= j < |transcript| && IsAround(transcript, selected, n, j) :: transcript[j]
  }

  /** What the chapters cite and what a challenge quotes, with the speech around all of it. */
  function ContextSources(r: Reading, chosen: seq<string>, sourceIds: seq<string>): set<string> {
    var sources := Elements(sourceIds);
    var needed := Cited(r.article, chosen) + Elements(r.challenged) - sources;
    needed + (Around(r.transcript, sources + needed, |r.transcript|) - sources)
  }

  /** Blocks of other chapters that rest on a delivered original. */
  function CrossBlocks(sections: seq<Section>, chosen: seq<string>, delivered: set<string>, n: nat): seq<string>
    requires n <= |sections|
  {
    if n == 0 then []
    else
      CrossBlocks(sections, chosen, delivered, n - 1)
      + if sections[n - 1].id in chosen then [] else Touching(sections[n - 1].blocks, delivered, |sections[n - 1].blocks|)
  }

  function Touching(blocks: seq<Block>, delivered: set<string>, n: nat): seq<string>
    requires n <= |blocks|
  {
    if n == 0 then []
    else
      var front := Touching(blocks, delivered, n - 1);
      if Elements(blocks[n - 1].segmentIds) * delivered != {} then front + [blocks[n - 1].id] else front
  }

  function CrossChapterBlocks(a: Article, scope: Scope): seq<string> {
    CrossBlocks(a.sections, scope.sectionIds, Elements(scope.sourceIds) + Elements(scope.contextSourceIds), |a.sections|)
  }

  predicate IsRelations(scope: Scope) {
    scope.global && scope.sourceIds == []
  }

  /** `loopScopeContext`. */
  function InContext(r: Reading, scope: Scope): Scope {
    if IsRelations(scope) then scope
    else
      var out := scope.(contextSourceIds := InOrder(r.transcript, ContextSources(r, scope.sectionIds, scope.sourceIds)));
      if scope.global then out else out.(contextBlockIds := CrossChapterBlocks(r.article, out))
  }

  method CrossChapter(a: Article, scope: Scope) returns (ids: seq<string>)
    ensures ids == CrossChapterBlocks(a, scope)
  {
    ids := [];
    var delivered := Elements(scope.sourceIds) + Elements(scope.contextSourceIds);
    for i := 0 to |a.sections|
      invariant ids == CrossBlocks(a.sections, scope.sectionIds, delivered, i)
    {
      if a.sections[i].id in scope.sectionIds {
        continue;
      }
      var blocks, before := a.sections[i].blocks, ids;
      for j := 0 to |blocks|
        invariant ids == before + Touching(blocks, delivered, j)
      {
        if Elements(blocks[j].segmentIds) * delivered != {} {
          ids := ids + [blocks[j].id];
        }
      }
    }
  }

  /** The originals on either side of a selected one, unless the scope owns them. */
  method AroundSelected(transcript: seq<string>, sourceIds: seq<string>, selected: seq<string>, start: seq<string>)
    returns (context: seq<string>)
    ensures Elements(context) == Elements(start) + (Around(transcript, Elements(selected), |transcript|) - Elements(sourceIds))
  {
    hide IsAround, Around;
    context := start;
    ghost var from, sources := Elements(selected), Elements(sourceIds);
    AroundNone(transcript, from);
    for i := 0 to |transcript|
      invariant Elements(context) == Elements(start) + (Around(transcript, from, i) - sources)
    {
      AroundGrows(transcript, from, i);
      if transcript[i] in selected {
        if i > 0 && transcript[i - 1] !in sourceIds {
          context := AppendUnique(context, transcript[i - 1]);
        }
        if i + 1 < |transcript| && transcript[i + 1] !in sourceIds {
          context := AppendUnique(context, transcript[i + 1]);
        }
      }
    }
  }

  lemma AroundNone(transcript: seq<string>, selected: set<string>)
    ensures Around(transcript, selected, 0) == {}
  {
  }

  lemma AroundGrows(transcript: seq<string>, selected: set<string>, i: nat)
    requires i < |transcript|
    ensures Around(transcript, selected, i + 1) == Around(transcript, selected, i)
      + (if transcript[i] in selected && i > 0 then {transcript[i - 1]} else {})
      + (if transcript[i] in selected && i + 1 < |transcript| then {transcript[i + 1]} else {})
  {
    forall j ensures IsAround(transcript, selected, i + 1, j) <==>
      IsAround(transcript, selected, i, j) || (transcript[i] in selected && 0 <= j < |transcript| && (j == i - 1 || j == i + 1))
    {
    }
    assert i > 0 && transcript[i] in selected ==> IsAround(transcript, selected, i + 1, i - 1);
    assert i + 1 < |transcript| && transcript[i] in selected ==> IsAround(transcript, selected, i + 1, i + 1);
  }

  /** A disputed passage reaches the reviewer wherever it lies. */
  method Challenge(r: Reading, sourceIds: seq<string>, evidence: seq<string>) returns (context: seq<string>, selected: seq<string>)
    ensures Elements(context) == Elements(evidence) + (Elements(r.challenged) - Elements(sourceIds))
    ensures Elements(selected) == Elements(sourceIds) + Elements(context)
  {
    context, selected := evidence, sourceIds + evidence;
    ghost var sources := Elements(sourceIds);
    for i := 0 to |r.challenged|
      invariant Elements(context) == Elements(evidence) + (Elements(r.challenged[..i]) - sources)
      invariant Elements(selected) == sources + Elements(context)
    {
      TakeOneMore(r.challenged, i + 1);
      if r.challenged[i] !in sourceIds {
        context, selected := AppendUnique(context, r.challenged[i]), AppendUnique(selected, r.challenged[i]);
      }
    }
    assert r.challenged[..|r.challenged|] == r.challenged;
  }

  method ScopeContext(r: Reading, scope: Scope) returns (out: Scope)
    ensures out == InContext(r, scope)
  {
    hide Cited, Around, CrossChapterBlocks;
    if IsRelations(scope) {
      return scope;
    }
    out := ScopeEvidence(scope.(contextSourceIds := []), r.article);
    var context, selected := Challenge(r, scope.sourceIds, out.contextSourceIds);
    ghost var sources := Elements(scope.sourceIds);
    ghost var needed := Cited(r.article, scope.sectionIds) + Elements(r.challenged) - sources;
    assert Elements(context) == needed;
    assert Elements(selected) == sources + needed;
    context := AroundSelected(r.transcript, scope.sourceIds, selected, context);
    var kept := [];
    for i := 0 to |r.transcript|
      invariant kept == InOrderFirst(r.transcript, Elements(context), i)
    {
      if r.transcript[i] in context {
        kept := kept + [r.transcript[i]];
      }
    }
    out := scope.(contextSourceIds := kept);
    if !scope.global {
      var blocks := CrossChapter(r.article, out);
      out := out.(contextBlockIds := blocks);
    }
  }

  // ----- work

  function Weigh(r: Reading, delivered: set<string>, n: nat): nat
    requires n <= |r.transcript|
  {
    if n == 0 then 0
    else Weigh(r, delivered, n - 1) + if r.transcript[n - 1] in delivered then r.cost(r.transcript[n - 1]) else 0
  }

  /** `loopScopeWork`: the delivered prose and originals. */
  function Work(r: Reading, scope: Scope): nat {
    var s := InContext(r, scope);
    r.prose(s.sectionIds, s.contextBlockIds) + Weigh(r, Elements(s.sourceIds) + Elements(s.contextSourceIds), |r.transcript|)
  }

  /** Seals a scope with its context and its identity. */
  function Sealed(r: Reading, scope: Scope): Scope {
    var s := InContext(r, scope);
    s.(id := r.hash(s.(id := "")))
  }

  /** Putting a scope into context again changes nothing, whatever its identity. */
  lemma ContextIsIdempotent(r: Reading, scope: Scope, id: string)
    ensures InContext(r, InContext(r, scope).(id := id)) == InContext(r, scope).(id := id)
  {
    hide Cited, InOrder, CrossBlocks, ContextSources;
  }

  /** The work measured before sealing is the work of the sealed scope. */
  lemma SealingKeepsWork(r: Reading, scope: Scope)
    ensures Work(r, Sealed(r, scope)) == Work(r, scope)
    ensures Sealed(r, Sealed(r, scope)) == Sealed(r, scope)
  {
    hide InContext, Weigh;
    var s := InContext(r, scope);
    ContextIsIdempotent(r, scope, r.hash(s.(id := "")));
    assert s.(id := r.hash(s.(id := ""))).(id := "") == s.(id := "");
  }

  // ----- the frames of a chapter

  function BlockFrames(blocks: seq<Block>, n: nat): seq<string>
    requires n <= |blocks|
  {
    if n == 0 then [] else Merge(BlockFrames(blocks, n - 1), blocks[n - 1].frameIds)
  }

  /** `ContentFrameIDs` of one section: its own frames, then those of all citations. */
  function ContentFrames(a: Article, section: Section): seq<string> {
    Merge(BlockFrames(section.blocks, |section.blocks|), a.citationFrames)
  }

  lemma {:induction false} BlockFramesDistinct(blocks: seq<Block>, n: nat)
    requires n <= |blocks|
    ensures Distinct(BlockFrames(blocks, n))
  {
    if n > 0 {
      BlockFramesDistinct(blocks, n - 1);
      MergeFirstDistinct(BlockFrames(blocks, n - 1), blocks[n - 1].frameIds, |blocks[n - 1].frameIds|);
    }
  }

  lemma ContentFramesDistinct(a: Article, section: Section)
    ensures Distinct(ContentFrames(a, section))
  {
    BlockFramesDistinct(section.blocks, |section.blocks|);
    MergeFirstDistinct(BlockFrames(section.blocks, |section.blocks|), a.citationFrames, |a.citationFrames|);
  }
}
