/** What a review call is given, position by position: the originals of its context, the blocks of other
    chapters, the questions it decides and the originals that these need
    (internal/investigator/article_loop_convergence.go, article_loop_work.go; internal/domain/article_source_requirements.go). */
module ReviewEvidence {
  import opened Lists
  import opened ReviewMaterial
  import opened Text
  import CoverageWork

  // ----- values picked by position

  ghost predicate AreAt<T>(all: seq<T>, out: seq<T>, at: seq<nat>) {
    |at| == |out| && (forall m | 0 <= m < |at| :: at[m] < |all| && out[m] == all[at[m]]) && forall l, m | 0 <= l < m < |at| :: at[l] < at[m]
  }

  ghost predicate IsPick<T>(all: seq<T>, wanted: set<nat>, out: seq<T>, at: seq<nat>) {
    AreAt(all, out, at) && forall i: nat | i < |all| :: i in wanted <==> i in at
  }

  /** Exactly the values at the wanted positions, in order. */
  ghost predicate Picks<T>(all: seq<T>, wanted: set<nat>, out: seq<T>) {
    exists at: seq<nat> :: IsPick(all, wanted, out, at)
  }

  lemma NothingPicked<T>(wanted: set<nat>)
    ensures Picks<T>([], wanted, [])
  {
    assert IsPick<T>([], wanted, [], []);
  }

  lemma AreAtMore<T>(all: seq<T>, out: seq<T>, at: seq<nat>, x: T)
    requires AreAt(all, out, at)
    ensures AreAt(all + [x], out, at) && AreAt(all + [x], out + [x], at + [|all|]) && |all| !in at
  {
  }

  lemma PickedMore<T>(all: seq<T>, wanted: set<nat>, out: seq<T>, x: T)
    requires Picks(all, wanted, out)
    ensures Picks(all + [x], wanted, if |all| in wanted then out + [x] else out)
  {
    hide AreAt;
    var at: seq<nat> :| IsPick(all, wanted, out, at);
    AreAtMore(all, out, at, x);
    var more := if |all| in wanted then at + [|all|] else at;
    forall i: nat | i < |all + [x]| ensures i in wanted <==> i in more {
      assert i in at + [|all|] <==> i in at || i == |all|;
    }
    assert IsPick(all + [x], wanted, if |all| in wanted then out + [x] else out, more);
  }

  lemma PicksAlike<T>(all: seq<T>, wanted: set<nat>, wanted': set<nat>, out: seq<T>)
    requires Picks(all, wanted, out) && forall i: nat | i < |all| :: i in wanted <==> i in wanted'
    ensures Picks(all, wanted', out)
  {
    var at: seq<nat> :| IsPick(all, wanted, out, at);
    assert IsPick(all, wanted', out, at);
  }

  lemma {:induction false} InOrderPicks(all: seq<string>, keep: set<string>, n: nat)
    requires n <= |all|
    ensures Picks(all[..n], PositionsIn(all, keep), InOrderFirst(all, keep, n))
  {
    hide Picks;
    if n == 0 {
      NothingPicked<string>(PositionsIn(all, keep));
      assert all[..0] == [];
    } else {
      InOrderPicks(all, keep, n - 1);
      PickedMore(all[..n - 1], PositionsIn(all, keep), InOrderFirst(all, keep, n - 1), all[n - 1]);
      assert all[..n] == all[..n - 1] + [all[n - 1]];
    }
  }

  ghost function PositionsIn(all: seq<string>, keep: set<string>): set<nat> {
    set i: nat | i < |all| && all[i] in keep
  }

  // ----- what a scope cites

  ghost predicate IsCitedInBlock(a: Article, chosen: seq<string>, id: string) {
    exists k, j :: 0 <= k < |a.sections| && a.sections[k].id in chosen && 0 <= j < |a.sections[k].blocks| && id in a.sections[k].blocks[j].segmentIds
  }

  /** A limitation that names no chapter concerns every one. */
  ghost predicate IsCitedInLimitation(a: Article, chosen: seq<string>, id: string) {
    exists k :: 0 <= k < |a.limitations| && id in a.limitations[k].segmentIds
      && (a.limitations[k].sectionIds == [] || exists x :: x in a.limitations[k].sectionIds && x in chosen)
  }

  lemma {:induction false} BlocksCiteExactly(blocks: seq<Block>, n: nat, id: string)
    requires n <= |blocks|
    ensures id in BlocksCite(blocks, n) <==> exists j :: 0 <= j < n && id in blocks[j].segmentIds
  {
    if n > 0 {
      BlocksCiteExactly(blocks, n - 1, id);
    }
  }

  lemma {:induction false} SectionsCiteExactly(sections: seq<Section>, chosen: seq<string>, n: nat, id: string)
    requires n <= |sections|
    ensures id in SectionsCite(sections, chosen, n) <==> exists k, j :: 0 <= k < n && sections[k].id in chosen && 0 <= j < |sections[k].blocks| && id in sections[k].blocks[j].segmentIds
  {
    if n > 0 {
      SectionsCiteExactly(sections, chosen, n - 1, id);
      BlocksCiteExactly(sections[n - 1].blocks, |sections[n - 1].blocks|, id);
    }
  }

  lemma {:induction false} LimitationsCiteExactly(limitations: seq<Limitation>, chosen: seq<string>, n: nat, id: string)
    requires n <= |limitations|
    ensures id in LimitationsCite(limitations, chosen, n) <==>
            exists k :: 0 <= k < n && id in limitations[k].segmentIds && (limitations[k].sectionIds == [] || exists x :: x in limitations[k].sectionIds && x in chosen)
  {
    if n > 0 {
      LimitationsCiteExactly(limitations, chosen, n - 1, id);
    }
  }

  /** What the chosen chapters and their limitations rest on. */
  lemma CitedExactly(a: Article, chosen: seq<string>, id: string)
    ensures id in Cited(a, chosen) <==> IsCitedInBlock(a, chosen, id) || IsCitedInLimitation(a, chosen, id)
  {
    SectionsCiteExactly(a.sections, chosen, |a.sections|, id);
    LimitationsCiteExactly(a.limitations, chosen, |a.limitations|, id);
  }

  // ----- the context of a scope

  /** The scope judges it, rests on it, or has to answer a challenge with it. */
  ghost predicate IsNear(r: Reading, scope: Scope, id: string) {
    id in scope.sourceIds || IsCitedInBlock(r.article, scope.sectionIds, id) || IsCitedInLimitation(r.article, scope.sectionIds, id) || id in r.challenged
  }

  /** Context is what is near but not judged, and the speech beside everything near. */
  ghost predicate IsContext(r: Reading, scope: Scope, id: string) {
    && id !in scope.sourceIds
    && (IsNear(r, scope, id) || exists j, k :: 0 <= j < |r.transcript| && 0 <= k < |r.transcript| && (k == j + 1 || j == k + 1) && r.transcript[j] == id && IsNear(r, scope, r.transcript[k]))
  }

  lemma ContextIs(r: Reading, scope: Scope, id: string)
    requires id in r.transcript
    ensures id in ContextSources(r, scope.sectionIds, scope.sourceIds) <==> IsContext(r, scope, id)
  {
    hide Cited, IsCitedInBlock, IsCitedInLimitation;
    forall x ensures IsNear(r, scope, x) <==> x in Elements(scope.sourceIds) + (Cited(r.article, scope.sectionIds) + Elements(r.challenged) - Elements(scope.sourceIds)) {
      CitedExactly(r.article, scope.sectionIds, x);
    }
  }

  ghost function ContextPositions(r: Reading, scope: Scope): set<nat> {
    set i: nat | i < |r.transcript| && IsContext(r, scope, r.transcript[i])
  }

  /** MAIN RESULT: a review is given, besides what it judges, exactly the originals that its chapters and
      their limitations cite, those of a challenge, and the speech beside all of these, as they were spoken;
      the rest of its task is untouched. */
  lemma ContextExactly(r: Reading, scope: Scope)
    requires !IsRelations(scope)
    ensures var out := InContext(r, scope);
      && Picks(r.transcript, ContextPositions(r, scope), out.contextSourceIds)
      && out == scope.(contextSourceIds := out.contextSourceIds, contextBlockIds := out.contextBlockIds) && (scope.global ==> out.contextBlockIds == scope.contextBlockIds)
  {
    hide Picks, ContextSources, IsContext, CrossBlocks;
    var keep := ContextSources(r, scope.sectionIds, scope.sourceIds);
    InOrderPicks(r.transcript, keep, |r.transcript|);
    assert r.transcript[..|r.transcript|] == r.transcript;
    forall i: nat | i < |r.transcript| ensures i in PositionsIn(r.transcript, keep) <==> i in ContextPositions(r, scope) {
      ContextIs(r, scope, r.transcript[i]);
    }
    PicksAlike(r.transcript, PositionsIn(r.transcript, keep), ContextPositions(r, scope), InContext(r, scope).contextSourceIds);
  }

  // ----- the blocks of other chapters

  /** The identities of all blocks of the other chapters, in article order. */
  function OtherBlocks(sections: seq<Section>, chosen: seq<string>): seq<Block> {
    if sections == [] then []
    else (if sections[0].id in chosen then [] else sections[0].blocks) + OtherBlocks(sections[1..], chosen)
  }

  lemma {:induction false} OtherBlocksMore(sections: seq<Section>, chosen: seq<string>, s: Section)
    ensures OtherBlocks(sections + [s], chosen) == OtherBlocks(sections, chosen) + if s.id in chosen then [] else s.blocks
  {
    if sections == [] {
      assert ([] + [s])[1..] == [];
    } else {
      OtherBlocksMore(sections[1..], chosen, s);
      assert (sections + [s])[1..] == sections[1..] + [s];
    }
  }

  function BlockIds(blocks: seq<Block>): (ids: seq<string>)
    ensures |ids| == |blocks|
  {
    seq(|blocks|, i requires 0 <= i < |blocks| => blocks[i].id)
  }

  ghost function TouchingPositions(blocks: seq<Block>, delivered: set<string>): set<nat> {
    set i: nat | i < |blocks| && exists id :: id in blocks[i].segmentIds && id in delivered
  }

  lemma {:induction false} TouchingPicks(before: seq<Block>, blocks: seq<Block>, delivered: set<string>, out: seq<string>, wanted: set<nat>, n: nat)
    requires n <= |blocks| && Picks(BlockIds(before), wanted, out)
    requires forall i: nat | i < n :: |before| + i in wanted <==> exists id :: id in blocks[i].segmentIds && id in delivered
    ensures Picks(BlockIds(before + blocks[..n]), wanted, out + Touching(blocks, delivered, n))
  {
    hide Picks;
    if n == 0 {
      assert before + blocks[..0] == before && out + [] == out;
    } else {
      TouchingPicks(before, blocks, delivered, out, wanted, n - 1);
      var all, front, b := before + blocks[..n - 1], out + Touching(blocks, delivered, n - 1), blocks[n - 1];
      PickedMore(BlockIds(all), wanted, front, b.id);
      assert BlockIds(before + blocks[..n]) == BlockIds(all) + [b.id];
      Touches(b, delivered);
      assert out + Touching(blocks, delivered, n) == if |all| in wanted then front + [b.id] else front;
    }
  }

  lemma Touches(b: Block, delivered: set<string>)
    ensures Elements(b.segmentIds) * delivered != {} <==> exists id :: id in b.segmentIds && id in delivered
  {
    if id :| id in b.segmentIds && id in delivered {
      assert id in Elements(b.segmentIds) * delivered;
    }
  }

  lemma {:induction false} CrossPicks(sections: seq<Section>, chosen: seq<string>, delivered: set<string>, n: nat, wanted: set<nat>)
    requires n <= |sections|
    requires forall i: nat | i < |OtherBlocks(sections[..n], chosen)| ::
      i in wanted <==> exists id :: id in OtherBlocks(sections[..n], chosen)[i].segmentIds && id in delivered
    ensures Picks(BlockIds(OtherBlocks(sections[..n], chosen)), wanted, CrossBlocks(sections, chosen, delivered, n))
  {
    hide Picks;
    if n == 0 {
      NothingPicked<string>(wanted);
      assert BlockIds(OtherBlocks(sections[..0], chosen)) == [];
    } else {
      var s, before := sections[n - 1], OtherBlocks(sections[..n - 1], chosen);
      assert sections[..n] == sections[..n - 1] + [s];
      OtherBlocksMore(sections[..n - 1], chosen, s);
      var all := OtherBlocks(sections[..n], chosen);
      forall i: nat | i < |before| ensures i in wanted <==> exists id :: id in before[i].segmentIds && id in delivered {
        assert before[i] == all[i];
      }
      CrossPicks(sections, chosen, delivered, n - 1, wanted);
      if s.id !in chosen {
        forall i: nat | i < |s.blocks| ensures |before| + i in wanted <==> exists id :: id in s.blocks[i].segmentIds && id in delivered {
          assert s.blocks[i] == all[|before| + i];
        }
        TouchingPicks(before, s.blocks, delivered, CrossBlocks(sections, chosen, delivered, n - 1), wanted, |s.blocks|);
        assert s.blocks[..|s.blocks|] == s.blocks;
      } else {
        assert all == before;
        assert CrossBlocks(sections, chosen, delivered, n) == CrossBlocks(sections, chosen, delivered, n - 1);
      }
    }
  }

  /** A local review is given exactly the blocks of other chapters that cite what it is delivered, in
      article order. */
  lemma CrossChapterExactly(a: Article, scope: Scope)
    ensures var others := OtherBlocks(a.sections, scope.sectionIds);
      Picks(BlockIds(others), TouchingPositions(others, Elements(scope.sourceIds) + Elements(scope.contextSourceIds)), CrossChapterBlocks(a, scope))
  {
    hide Picks, CrossBlocks, OtherBlocks;
    var delivered := Elements(scope.sourceIds) + Elements(scope.contextSourceIds);
    assert a.sections[..|a.sections|] == a.sections;
    CrossPicks(a.sections, scope.sectionIds, delivered, |a.sections|, TouchingPositions(OtherBlocks(a.sections, scope.sectionIds), delivered));
  }

  // ----- questions and the originals that they need

  ghost function AskedPositions(c: CoverageWork.Survey, scope: Scope): set<nat> {
    set i: nat | i < |c.questions| && (!scope.coverageBatch || c.questions[i].id in scope.coverageQuestionIds)
  }

  lemma {:induction false} QuestionsPick(c: CoverageWork.Survey, scope: Scope, n: nat)
    requires n <= |c.questions|
    ensures Picks(c.questions[..n], AskedPositions(c, scope), CoverageWork.QuestionsFirst(c, scope, n))
  {
    hide Picks;
    if n == 0 {
      NothingPicked<CoverageWork.Question>(AskedPositions(c, scope));
      assert c.questions[..0] == [];
    } else {
      QuestionsPick(c, scope, n - 1);
      PickedMore(c.questions[..n - 1], AskedPositions(c, scope), CoverageWork.QuestionsFirst(c, scope, n - 1), c.questions[n - 1]);
      assert c.questions[..n] == c.questions[..n - 1] + [c.questions[n - 1]];
      assert CoverageWork.QuestionsFirst(c, scope, n - 1) + [] == CoverageWork.QuestionsFirst(c, scope, n - 1);
    }
  }

  /** A batch asks the questions that it names, any other task all of them, in survey order. */
  lemma QuestionsExactly(c: CoverageWork.Survey, scope: Scope)
    ensures Picks(c.questions, AskedPositions(c, scope), CoverageWork.Questions(c, scope))
  {
    hide Picks;
    QuestionsPick(c, scope, |c.questions|);
    assert c.questions[..|c.questions|] == c.questions;
  }

  /** A question of the task refers to segment `i`. */
  ghost predicate RefersTo(c: CoverageWork.Survey, scope: Scope, i: int) {
    && 0 <= i < |c.transcript|
    && exists k :: 0 <= k < |c.questions| && k in AskedPositions(c, scope) && Alias(i) in c.questions[k].evidenceRefs
  }

  /** Or to the speech beside it. */
  ghost predicate Needs(c: CoverageWork.Survey, scope: Scope, i: int) {
    RefersTo(c, scope, i) || RefersTo(c, scope, i - 1) || RefersTo(c, scope, i + 1)
  }

  ghost function NeededPositions(c: CoverageWork.Survey, scope: Scope): set<nat> {
    set i: nat | i < |c.transcript| && Needs(c, scope, i)
  }

  lemma {:induction false} RefsExactly(questions: seq<CoverageWork.Question>, n: nat, ref: string)
    requires n <= |questions|
    ensures ref in CoverageWork.RefsOf(questions, n) <==> exists k :: 0 <= k < n && ref in questions[k].evidenceRefs
  {
    if n > 0 {
      RefsExactly(questions, n - 1, ref);
    }
  }

  lemma PickedRefs(c: CoverageWork.Survey, scope: Scope, ref: string)
    ensures var questions := CoverageWork.Questions(c, scope);
      ref in CoverageWork.RefsOf(questions, |questions|) <==> exists k :: 0 <= k < |c.questions| && k in AskedPositions(c, scope) && ref in c.questions[k].evidenceRefs
  {
    hide CoverageWork.Questions, CoverageWork.RefsOf;
    var questions := CoverageWork.Questions(c, scope);
    QuestionsExactly(c, scope);
    RefsExactly(questions, |questions|, ref);
    var at: seq<nat> :| IsPick(c.questions, AskedPositions(c, scope), questions, at);
    if m :| 0 <= m < |questions| && ref in questions[m].evidenceRefs {
      assert at[m] in at;
    }
    if k :| 0 <= k < |c.questions| && k in AskedPositions(c, scope) && ref in c.questions[k].evidenceRefs {
      var m :| 0 <= m < |at| && at[m] == k;
      assert ref in questions[m].evidenceRefs;
    }
  }

  function OriginalIds(transcript: seq<CoverageWork.Original>): (ids: seq<string>)
    ensures |ids| == |transcript|
  {
    seq(|transcript|, i requires 0 <= i < |transcript| => transcript[i].id)
  }

  lemma {:induction false} NeededPick(transcript: seq<CoverageWork.Original>, refs: set<string>, wanted: set<nat>, n: nat)
    requires n <= |transcript| && forall i: nat | i < n :: i in wanted <==> CoverageWork.IsNeeded(refs, |transcript|, i)
    ensures Picks(OriginalIds(transcript)[..n], wanted, CoverageWork.NeededFirst(transcript, refs, n))
  {
    hide Picks, CoverageWork.IsNeeded;
    var ids := OriginalIds(transcript);
    if n == 0 {
      NothingPicked<string>(wanted);
      assert ids[..0] == [];
    } else {
      NeededPick(transcript, refs, wanted, n - 1);
      PickedMore(ids[..n - 1], wanted, CoverageWork.NeededFirst(transcript, refs, n - 1), ids[n - 1]);
      assert ids[..n] == ids[..n - 1] + [ids[n - 1]];
      assert CoverageWork.NeededFirst(transcript, refs, n - 1) + [] == CoverageWork.NeededFirst(transcript, refs, n - 1);
    }
  }

  lemma ReferredIs(c: CoverageWork.Survey, scope: Scope, i: nat)
    requires i < |c.transcript|
    ensures var questions := CoverageWork.Questions(c, scope);
      Alias(i) in CoverageWork.RefsOf(questions, |questions|) <==> RefersTo(c, scope, i)
  {
    hide CoverageWork.Questions, CoverageWork.RefsOf, Alias, AskedPositions;
    PickedRefs(c, scope, Alias(i));
  }

  lemma OutsideIsNotReferred(c: CoverageWork.Survey, scope: Scope, i: int)
    requires i < 0 || i >= |c.transcript|
    ensures !RefersTo(c, scope, i)
  {
  }

  lemma NeededIs(c: CoverageWork.Survey, scope: Scope, i: nat)
    requires i < |c.transcript|
    ensures var questions := CoverageWork.Questions(c, scope);
      CoverageWork.IsNeeded(CoverageWork.RefsOf(questions, |questions|), |c.transcript|, i) <==> i in NeededPositions(c, scope)
  {
    hide CoverageWork.Questions, CoverageWork.RefsOf, Alias, RefersTo;
    ReferredIs(c, scope, i);
    if i > 0 {
      ReferredIs(c, scope, i - 1);
    } else {
      OutsideIsNotReferred(c, scope, i - 1);
    }
    if i + 1 < |c.transcript| {
      ReferredIs(c, scope, i + 1);
    } else {
      OutsideIsNotReferred(c, scope, i + 1);
    }
  }

  /** MAIN RESULT: a coverage task is given exactly the originals that its questions refer to and the speech
      beside each of them, as they were spoken. */
  lemma SourcesExactly(c: CoverageWork.Survey, scope: Scope)
    ensures Picks(OriginalIds(c.transcript), NeededPositions(c, scope), CoverageWork.CoverageSources(c, scope))
  {
    hide Picks, CoverageWork.IsNeeded, CoverageWork.NeededFirst, CoverageWork.Questions, NeededPositions, CoverageWork.RefsOf;
    var questions := CoverageWork.Questions(c, scope);
    forall i: nat | i < |c.transcript| ensures i in NeededPositions(c, scope) <==> CoverageWork.IsNeeded(CoverageWork.RefsOf(questions, |questions|), |c.transcript|, i) {
      NeededIs(c, scope, i);
    }
    NeededPick(c.transcript, CoverageWork.RefsOf(questions, |questions|), NeededPositions(c, scope), |c.transcript|);
    assert OriginalIds(c.transcript)[..|c.transcript|] == OriginalIds(c.transcript);
  }

  // ----- what a task weighs

  function Total(ids: seq<string>, weight: string -> nat): nat {
    if ids == [] then 0 else Total(ids[..|ids| - 1], weight) + weight(ids[|ids| - 1])
  }

  lemma {:induction false} WeighsPicked(r: Reading, delivered: set<string>, n: nat)
    requires n <= |r.transcript|
    ensures Weigh(r, delivered, n) == Total(InOrderFirst(r.transcript, delivered, n), r.cost)
  {
    if n > 0 {
      WeighsPicked(r, delivered, n - 1);
      var front := InOrderFirst(r.transcript, delivered, n - 1);
      assert (front + [r.transcript[n - 1]])[..|front|] == front;
    }
  }

  ghost function JudgedOrContext(r: Reading, scope: Scope): set<nat> {
    set i: nat | i < |r.transcript| && (r.transcript[i] in scope.sourceIds || IsContext(r, scope, r.transcript[i]))
  }

  /** A task weighs its prose, with the blocks of other chapters, and each original that is delivered with it. */
  lemma WorkExactly(r: Reading, scope: Scope)
    requires !IsRelations(scope)
    ensures exists ids ::
              Picks(r.transcript, JudgedOrContext(r, scope), ids)
              && Work(r, scope) == r.prose(scope.sectionIds, InContext(r, scope).contextBlockIds) + Total(ids, r.cost)
  {
    hide Picks, ContextSources, IsContext, CrossBlocks;
    var s := InContext(r, scope);
    var delivered := Elements(s.sourceIds) + Elements(s.contextSourceIds);
    WeighsPicked(r, delivered, |r.transcript|);
    InOrderPicks(r.transcript, delivered, |r.transcript|);
    assert r.transcript[..|r.transcript|] == r.transcript;
    forall i: nat | i < |r.transcript| ensures i in PositionsIn(r.transcript, delivered) <==> i in JudgedOrContext(r, scope) {
      ContextIs(r, scope, r.transcript[i]);
    }
    PicksAlike(r.transcript, PositionsIn(r.transcript, delivered), JudgedOrContext(r, scope), InOrderFirst(r.transcript, delivered, |r.transcript|));
  }

  function TotalRunes(texts: seq<string>): nat {
    if texts == [] then 0 else TotalRunes(texts[..|texts| - 1]) + |texts[|texts| - 1]|
  }

  function Topics(questions: seq<CoverageWork.Question>): (topics: seq<string>)
    ensures |topics| == |questions|
  {
    seq(|questions|, i requires 0 <= i < |questions| => questions[i].topic)
  }

  function Texts(transcript: seq<CoverageWork.Original>): (texts: seq<string>)
    ensures |texts| == |transcript|
  {
    seq(|transcript|, i requires 0 <= i < |transcript| => transcript[i].text)
  }

  lemma {:induction false} TopicsWeigh(questions: seq<CoverageWork.Question>, n: nat)
    requires n <= |questions|
    ensures CoverageWork.TopicRunes(questions, n) == TotalRunes(Topics(questions)[..n])
  {
    if n > 0 {
      TopicsWeigh(questions, n - 1);
      assert Topics(questions)[..n][..n - 1] == Topics(questions)[..n - 1];
    }
  }

  /** The originals of a task, with those already in its context. */
  ghost function DeliveredPositions(c: CoverageWork.Survey, scope: Scope): set<nat> {
    set i: nat | i < |c.transcript| && (c.transcript[i].id in CoverageWork.CoverageSources(c, scope) || c.transcript[i].id in scope.contextSourceIds)
  }

  lemma {:induction false} TextsWeigh(transcript: seq<CoverageWork.Original>, ids: set<string>, wanted: set<nat>, n: nat) returns (texts: seq<string>)
    requires n <= |transcript| && forall i: nat | i < n :: i in wanted <==> transcript[i].id in ids
    ensures Picks(Texts(transcript)[..n], wanted, texts) && CoverageWork.TextRunes(transcript, ids, n) == TotalRunes(texts)
  {
    hide Picks;
    var all := Texts(transcript);
    if n == 0 {
      texts := [];
      NothingPicked<string>(wanted);
      assert all[..0] == [];
    } else {
      texts := TextsWeigh(transcript, ids, wanted, n - 1);
      PickedMore(all[..n - 1], wanted, texts, all[n - 1]);
      assert all[..n] == all[..n - 1] + [all[n - 1]];
      if n - 1 in wanted {
        assert (texts + [all[n - 1]])[..|texts|] == texts;
        texts := texts + [all[n - 1]];
      }
    }
  }

  /** A coverage task weighs the topics that it decides and each of its originals, once. */
  lemma QuestionWorkExactly(c: CoverageWork.Survey, scope: Scope) returns (texts: seq<string>)
    ensures Picks(Texts(c.transcript), DeliveredPositions(c, scope), texts)
    ensures CoverageWork.QuestionWork(c, scope) == TotalRunes(Topics(CoverageWork.Questions(c, scope))) + TotalRunes(texts)
  {
    hide Picks, CoverageWork.Questions, CoverageWork.CoverageSources;
    var questions := CoverageWork.Questions(c, scope);
    TopicsWeigh(questions, |questions|);
    assert Topics(questions)[..|questions|] == Topics(questions);
    var ids := Elements(CoverageWork.CoverageSources(c, scope)) + Elements(scope.contextSourceIds);
    texts := TextsWeigh(c.transcript, ids, DeliveredPositions(c, scope), |c.transcript|);
    assert Texts(c.transcript)[..|c.transcript|] == Texts(c.transcript);
  }
}
