/** When a local review scope can be halved: what its halves are, and that they weigh the same however
    they are found (`splitLoopReviewAt`, internal/investigator/article_loop_input.go). */
module ReviewHalving {
  import opened Lists
  import opened ReviewMaterial
  import opened ReviewSplits
  import ReviewScopes

  /** One chapter, one original and one frame at most. */
  predicate NothingToHalve(s: Scope) {
    |s.sectionIds| <= 1 && |s.sourceIds| <= 1 && |s.frameIds| <= 1
  }

  function FirstSources(s: Scope): Scope {
    s.(sourceIds := s.sourceIds[..|s.sourceIds| / 2])
  }

  function LastSources(s: Scope): Scope {
    s.(sourceIds := s.sourceIds[|s.sourceIds| / 2..])
  }

  /** A frame of the scope stays unless only chapters that its sources leave out have it. */
  ghost predicate KeepsFrame(a: Article, s: Scope, id: string) {
    id in s.frameIds && (IsKnownFrame(a, s, false, |a.sections|, id) ==> IsKnownFrame(a, s, true, |a.sections|, id))
  }

  /** The scope with the chapters and frames that belong to its sources. */
  ghost predicate IsProjected(a: Article, s: Scope, out: Scope) {
    && out.sourceIds == s.sourceIds && out.sectionIds == ChaptersFirst(a, s, |a.sections|)
    && forall id :: id in out.frameIds <==> KeepsFrame(a, s, id)
  }

  /** Halving the sources would lose a chapter or a frame. */
  ghost predicate LosesDuties(r: Reading, s: Scope) {
    && |s.sectionIds| <= 1 && |s.sourceIds| > 1
    && ((exists id | id in s.sectionIds :: id !in ChaptersFirst(r.article, FirstSources(s), |r.article.sections|) && id !in ChaptersFirst(r.article, LastSources(s), |r.article.sections|))
        || exists id | id in s.frameIds :: !KeepsFrame(r.article, FirstSources(s), id) && !KeepsFrame(r.article, LastSources(s), id))
  }

  /** The halves of a scope: chapter by chapter, else source by source, else frame by frame. */
  ghost predicate AreHalvesOf(r: Reading, s: Scope, left: Scope, right: Scope) {
    if |s.sectionIds| > 1 then AreHalves(r, s, left, right)
    else if |s.sourceIds| > 1 then IsProjected(r.article, FirstSources(s), left) && IsProjected(r.article, LastSources(s), right)
    else
      && left.sectionIds == right.sectionIds == s.sectionIds && left.sourceIds == right.sourceIds == s.sourceIds
      && left.frameIds == s.frameIds[..|s.frameIds| / 2] && right.frameIds == s.frameIds[|s.frameIds| / 2..]
  }

  /** Both halves are less work than the scope. */
  ghost predicate AreLess(r: Reading, s: Scope, left: Scope, right: Scope) {
    Work(r, left) < Work(r, s) && Work(r, right) < Work(r, s)
  }

  /** Nothing is left to halve, or a half, put into its own context, weighs at least as much as the scope. */
  ghost predicate CannotShrink(r: Reading, s: Scope) {
    || NothingToHalve(s)
    || (!LosesDuties(r, s) && exists left: Scope, right: Scope :: !left.global && !right.global && AreHalvesOf(r, s, left, right) && !AreLess(r, s, left, right))
  }

  // ----- the halves are determined, as far as they weigh

  lemma {:induction false} SameWeight(r: Reading, a: set<string>, b: set<string>, n: nat)
    requires n <= |r.transcript| && forall x | x in r.transcript :: x in a <==> x in b
    ensures Weigh(r, a, n) == Weigh(r, b, n)
  {
    if n > 0 {
      SameWeight(r, a, b, n - 1);
    }
  }

  /** Work depends on the chapters and on which originals are reviewed. */
  lemma WorkIsOfDuties(r: Reading, s: Scope, t: Scope)
    requires !s.global && !t.global && s.sectionIds == t.sectionIds && Elements(s.sourceIds) == Elements(t.sourceIds)
    ensures Work(r, s) == Work(r, t)
  {
    hide Cited, Around, InOrder, Weigh, CrossBlocks;
  }

  lemma DealtAlike(transcript: seq<string>, left: set<string>, right: set<string>, i: nat, inLeft: bool, inRight: bool, inLeft': bool, inRight': bool)
    requires i < |transcript| && IsDealt(transcript, left, right, i, inLeft, inRight) && IsDealt(transcript, left, right, i, inLeft', inRight')
    ensures inLeft == inLeft' && inRight == inRight'
  {
    if transcript[i] !in left && transcript[i] !in right && !CitesNone(transcript, left + right, |transcript|) {
      var j :| IsClosest(transcript, left + right, i, j, |transcript|) && inLeft == (transcript[j] in left) && inRight == (transcript[j] in right);
      var k :| IsClosest(transcript, left + right, i, k, |transcript|) && inLeft' == (transcript[k] in left) && inRight' == (transcript[k] in right);
      assert transcript[j] in left + right && transcript[k] in left + right;
    }
  }

  lemma ChapterHalvesAlike(r: Reading, s: Scope, left: Scope, right: Scope, left': Scope, right': Scope)
    requires Distinct(r.transcript) && AreHalves(r, s, left, right) && AreHalves(r, s, left', right')
    ensures left.sectionIds == left'.sectionIds && right.sectionIds == right'.sectionIds
    ensures Elements(left.sourceIds) == Elements(left'.sourceIds) && Elements(right.sourceIds) == Elements(right'.sourceIds)
  {
    hide Cited, AreFramesDealt, KeepsOrder, IsDealt;
    var mid := |s.sectionIds| / 2;
    assert left.sectionIds == s.sectionIds[..mid] == left'.sectionIds;
    assert right.sectionIds == s.sectionIds[mid..] == right'.sectionIds;
    forall id | id in r.transcript && id in s.sourceIds
      ensures (id in left.sourceIds <==> id in left'.sourceIds) && (id in right.sourceIds <==> id in right'.sourceIds) {
      var i: nat :| i < |r.transcript| && r.transcript[i] == id;
      DealtAlike(r.transcript, Cited(r.article, left.sectionIds), Cited(r.article, right.sectionIds), i,
                 id in left.sourceIds, id in right.sourceIds, id in left'.sourceIds, id in right'.sourceIds);
    }
  }

  /** All halves of a scope weigh the same. */
  lemma HalvesWeighAlike(r: Reading, s: Scope, left: Scope, right: Scope, left': Scope, right': Scope)
    requires Distinct(r.transcript) && AreHalvesOf(r, s, left, right) && AreHalvesOf(r, s, left', right')
    requires !left.global && !right.global && !left'.global && !right'.global
    ensures Work(r, left) == Work(r, left') && Work(r, right) == Work(r, right')
  {
    hide Work, AreHalves, ChaptersFirst, KeepsFrame;
    if |s.sectionIds| > 1 {
      ChapterHalvesAlike(r, s, left, right, left', right');
    }
    WorkIsOfDuties(r, left, left');
    WorkIsOfDuties(r, right, right');
  }

  /** So one pair of halves tells whether a scope can shrink. */
  lemma HalvesTell(r: Reading, s: Scope, left: Scope, right: Scope)
    requires !NothingToHalve(s) && !LosesDuties(r, s) && AreHalvesOf(r, s, left, right) && !left.global && !right.global
    ensures !AreLess(r, s, left, right) ==> CannotShrink(r, s)
    ensures Distinct(r.transcript) && AreLess(r, s, left, right) ==> !CannotShrink(r, s)
  {
    hide Work, AreHalvesOf, LosesDuties;
    if Distinct(r.transcript) && CannotShrink(r, s) {
      var left': Scope, right': Scope :| !left'.global && !right'.global && AreHalvesOf(r, s, left', right') && !AreLess(r, s, left', right');
      HalvesWeighAlike(r, s, left, right, left', right');
    }
  }
}
