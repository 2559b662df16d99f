/** Planning the local review scopes of an article, chapter by chapter
    (`buildLoopScopes`, internal/investigator/article_loop_convergence.go). */
module ReviewScopes {
  import opened Lists
  import opened ReviewMaterial

  const FRAME_LIMIT := 4

  function SectionIds(a: Article): (ids: seq<string>)
    ensures |ids| == |a.sections|
  {
    seq(|a.sections|, i requires 0 <= i < |a.sections| => a.sections[i].id)
  }

  // ----- which chapter answers for a segment

  ghost predicate Cites(r: Reading, k: nat, id: string) {
    k < |r.article.sections| && id in Cited(r.article, [r.article.sections[k].id])
  }

  ghost predicate IsCited(r: Reading, id: string) {
    exists k :: Cites(r, k, id)
  }

  ghost predicate CitesFirst(r: Reading, k: nat, id: string) {
    Cites(r, k, id) && forall m: nat | m < k :: !Cites(r, m, id)
  }

  function Distance(i: int, j: int): nat {
    if i < j then j - i else i - j
  }

  /** Position `j` is the closest one to `i` with a cited segment; the earlier one on a tie. */
  ghost predicate IsNearest(r: Reading, i: int, j: int) {
    && 0 <= j < |r.transcript| && IsCited(r, r.transcript[j])
    && forall m {:trigger r.transcript[m]} | 0 <= m < |r.transcript| && IsCited(r, r.transcript[m]) ::
      Distance(i, j) < Distance(i, m) || (Distance(i, j) == Distance(i, m) && j <= m)
  }

  ghost predicate NothingCited(r: Reading) {
    forall m | 0 <= m < |r.transcript| :: !IsCited(r, r.transcript[m])
  }

  /** The chapter nearest in time adopts an uncited segment; the first chapter if nothing is cited. */
  ghost predicate Adopts(r: Reading, k: nat, i: int) {
    && 0 <= i < |r.transcript| && !IsCited(r, r.transcript[i])
    && if NothingCited(r) then k == 0 else exists j :: IsNearest(r, i, j) && CitesFirst(r, k, r.transcript[j])
  }

  ghost predicate Owns(r: Reading, k: nat, id: string) {
    Cites(r, k, id) || exists i :: Adopts(r, k, i) && r.transcript[i] == id
  }

  // ----- the scope of a range of chapters

  ghost function OwnedBy(r: Reading, lo: nat, hi: nat): set<string> {
    set i | 0 <= i < |r.transcript| && (exists k: nat :: lo <= k < hi && Owns(r, k, r.transcript[i])) :: r.transcript[i]
  }

  function RangeFrames(a: Article, lo: nat, hi: nat): seq<string>
    requires lo <= hi <= |a.sections|
    decreases hi
  {
    if lo == hi then [] else Merge(RangeFrames(a, lo, hi - 1), ContentFrames(a, a.sections[hi - 1]))
  }

  ghost function RangeScope(r: Reading, lo: nat, hi: nat): Scope
    requires lo <= hi <= |r.article.sections|
  {
    EMPTY.(sectionIds := SectionIds(r.article)[lo..hi],
           sourceIds := InOrder(r.transcript, OwnedBy(r, lo, hi)),
           frameIds := RangeFrames(r.article, lo, hi))
  }

  /** The one scope of an article without chapters: every original, and every cited frame. */
  function Whole(r: Reading): Scope {
    EMPTY.(sourceIds := r.transcript, frameIds := Merge([], r.article.citationFrames), global := true)
  }

  function Relations(r: Reading): Scope {
    EMPTY.(sectionIds := SectionIds(r.article), global := true)
  }

  // ----- first pass: every chapter owns what it cites

  ghost predicate IsChapter(r: Reading, k: nat, chapter: Scope)
    requires k < |r.article.sections|
  {
    chapter == EMPTY.(sectionIds := [r.article.sections[k].id], sourceIds := chapter.sourceIds,
                      frameIds := ContentFrames(r.article, r.article.sections[k]))
  }

  ghost predicate OwnersKnown(r: Reading, owners: map<string, seq<nat>>, n: nat) {
    && (forall id, k: nat | k < n && Cites(r, k, id) :: id in owners)
    && (forall id | id in owners :: owners[id] != [] && CitesFirst(r, owners[id][0], id))
  }

  method Register(r: Reading, owners: map<string, seq<nat>>, i: nat, sourceIds: seq<string>) returns (out: map<string, seq<nat>>)
    requires OwnersKnown(r, owners, i) && forall id :: id in sourceIds <==> Cites(r, i, id)
    ensures OwnersKnown(r, out, i + 1)
  {
    out := owners;
    for j := 0 to |sourceIds|
      invariant OwnersKnown(r, out, i)
      invariant forall id | id in sourceIds[..j] :: id in out
    {
      TakeOneMore(sourceIds, j + 1);
      var id := sourceIds[j];
      assert Cites(r, i, id);
      out := out[id := (if id in out then out[id] else []) + [i]];
    }
    assert sourceIds[..|sourceIds|] == sourceIds;
  }

  method Chapters(r: Reading) returns (chapters: seq<Scope>, owners: map<string, seq<nat>>)
    ensures |chapters| == |r.article.sections|
    ensures forall k | 0 <= k < |chapters| :: IsChapter(r, k, chapters[k]) && forall id :: id in chapters[k].sourceIds <==> Cites(r, k, id)
    ensures OwnersKnown(r, owners, |chapters|)
  {
    hide Cited, ContentFrames;
    chapters, owners := [], map[];
    for i := 0 to |r.article.sections|
      invariant |chapters| == i
      invariant forall k | 0 <= k < i :: IsChapter(r, k, chapters[k]) && forall id :: id in chapters[k].sourceIds <==> Cites(r, k, id)
      invariant OwnersKnown(r, owners, i)
    {
      var section := r.article.sections[i];
      var scope := ScopeEvidence(EMPTY.(sectionIds := [section.id]), r.article);
      scope := scope.(sourceIds := scope.contextSourceIds, contextSourceIds := [], frameIds := ContentFrames(r.article, section));
      assert forall id :: id in scope.sourceIds <==> id in Elements(scope.sourceIds);
      owners := Register(r, owners, i, scope.sourceIds);
      chapters := chapters + [scope];
    }
  }

  // ----- second pass: uncited originals go to the nearest chapter

  lemma AdoptedOnce(r: Reading, k: nat, k': nat, i: int)
    requires Adopts(r, k, i) && Adopts(r, k', i)
    ensures k == k'
  {
    hide IsCited, Cites;
    if !NothingCited(r) {
      var j :| IsNearest(r, i, j) && CitesFirst(r, k, r.transcript[j]);
      var j' :| IsNearest(r, i, j') && CitesFirst(r, k', r.transcript[j']);
      assert j == j';
    }
  }

  method NearestOwner(r: Reading, owners: map<string, seq<nat>>, i: nat) returns (owner: nat)
    requires OwnersKnown(r, owners, |r.article.sections|)
    requires i < |r.transcript| && r.transcript[i] !in owners
    ensures Adopts(r, owner, i)
  {
    owner := 0;
    var best := |r.transcript| + 1;
    ghost var at := -1;
    for j := 0 to |r.transcript|
      invariant if at < 0
        then owner == 0 && best == |r.transcript| + 1 && forall m | 0 <= m < j :: !IsCited(r, r.transcript[m])
        else at < j && IsNearestSoFar(r, i, at, j) && best == Distance(i, at) && CitesFirst(r, owner, r.transcript[at])
    {
      var id := r.transcript[j];
      if id !in owners {
        continue;
      }
      assert IsCited(r, id);
      if Distance(i, j) < best {
        best, owner, at := Distance(i, j), owners[id][0], j;
      }
    }
    if at >= 0 {
      assert IsNearest(r, i, at);
    }
  }

  ghost predicate IsNearestSoFar(r: Reading, i: int, at: int, n: nat) {
    && 0 <= at < n <= |r.transcript| && IsCited(r, r.transcript[at])
    && forall m {:trigger r.transcript[m]} | 0 <= m < n && IsCited(r, r.transcript[m]) ::
      Distance(i, at) < Distance(i, m) || (Distance(i, at) == Distance(i, m) && at <= m)
  }

  ghost predicate OwnsSoFar(r: Reading, k: nat, id: string, n: nat) {
    Cites(r, k, id) || exists i :: 0 <= i < n && Adopts(r, k, i) && r.transcript[i] == id
  }

  ghost predicate AreAssigned(r: Reading, chapters: seq<Scope>, n: nat) {
    && |chapters| == |r.article.sections|
    && forall k | 0 <= k < |chapters| :: IsChapter(r, k, chapters[k]) && forall id :: id in chapters[k].sourceIds <==> OwnsSoFar(r, k, id, n)
  }

  lemma AssignedNext(r: Reading, before: seq<Scope>, after: seq<Scope>, i: nat, owner: nat)
    requires i < |r.transcript| && AreAssigned(r, before, i) && Adopts(r, owner, i) && owner < |before|
    requires after == before[owner := before[owner].(sourceIds := AppendUnique(before[owner].sourceIds, r.transcript[i]))]
    ensures AreAssigned(r, after, i + 1)
  {
    hide Adopts, Cites, OwnsSoFar, ContentFrames;
    forall k: nat, id | k < |after| ensures OwnsSoFar(r, k, id, i + 1) <==> OwnsSoFar(r, k, id, i) || (k == owner && id == r.transcript[i]) {
      OwnedNext(r, k, id, i, owner);
    }
    var grown := after[owner].sourceIds;
    assert forall id :: id in grown <==> id in Elements(grown);
    forall k | 0 <= k < |after| ensures IsChapter(r, k, after[k]) && forall id :: id in after[k].sourceIds <==> OwnsSoFar(r, k, id, i + 1) {
      assert IsChapter(r, k, before[k]);
    }
  }

  lemma OwnedNext(r: Reading, k: nat, id: string, i: nat, owner: nat)
    requires i < |r.transcript| && Adopts(r, owner, i)
    ensures OwnsSoFar(r, k, id, i + 1) <==> OwnsSoFar(r, k, id, i) || (k == owner && id == r.transcript[i])
  {
    hide Adopts, Cites;
    if k != owner && Adopts(r, k, i) {
      AdoptedOnce(r, k, owner, i);
    }
  }

  lemma NothingAssigned(r: Reading, chapters: seq<Scope>)
    requires |chapters| == |r.article.sections|
    requires forall k | 0 <= k < |chapters| :: IsChapter(r, k, chapters[k]) && forall id :: id in chapters[k].sourceIds <==> Cites(r, k, id)
    ensures AreAssigned(r, chapters, 0)
  {
    hide Cites, IsChapter, Adopts;
  }

  lemma OwnedIsCited(r: Reading, owners: map<string, seq<nat>>, n: nat, id: string)
    requires OwnersKnown(r, owners, n) && id in owners
    ensures IsCited(r, id)
  {
    hide Cited;
    assert CitesFirst(r, owners[id][0], id);
  }

  lemma CitedNeedsNoOwner(r: Reading, chapters: seq<Scope>, i: nat)
    requires i < |r.transcript| && IsCited(r, r.transcript[i]) && AreAssigned(r, chapters, i)
    ensures AreAssigned(r, chapters, i + 1)
  {
    hide Cites, IsChapter;
    forall k: nat, id ensures OwnsSoFar(r, k, id, i + 1) <==> OwnsSoFar(r, k, id, i) {
    }
  }

  lemma AdoptersExist(r: Reading, k: nat, i: int)
    requires Adopts(r, k, i) && r.article.sections != []
    ensures k < |r.article.sections|
  {
  }

  method Assign(r: Reading) returns (chapters: seq<Scope>)
    requires r.article.sections != []
    ensures AreAssigned(r, chapters, |r.transcript|)
  {
    hide Cites, IsChapter, Adopts, OwnsSoFar, CitesFirst;
    var owners;
    chapters, owners := Chapters(r);
    NothingAssigned(r, chapters);
    for i := 0 to |r.transcript|
      invariant AreAssigned(r, chapters, i)
    {
      if r.transcript[i] in owners {
        OwnedIsCited(r, owners, |chapters|, r.transcript[i]);
        CitedNeedsNoOwner(r, chapters, i);
        continue;
      }
      var owner := NearestOwner(r, owners, i);
      AdoptersExist(r, owner, i);
      ghost var before := chapters;
      chapters := chapters[owner := chapters[owner].(sourceIds := AppendUnique(chapters[owner].sourceIds, r.transcript[i]))];
      AssignedNext(r, before, chapters, i, owner);
    }
  }

  // ----- joining chapters

  /** `canonical`: the sources in transcript order. */
  method Canonical(r: Reading, scope: Scope) returns (out: Scope)
    ensures out == scope.(sourceIds := InOrder(r.transcript, Elements(scope.sourceIds)))
  {
    var kept := [];
    for i := 0 to |r.transcript|
      invariant kept == InOrderFirst(r.transcript, Elements(scope.sourceIds), i)
    {
      if r.transcript[i] in scope.sourceIds {
        kept := kept + [r.transcript[i]];
      }
    }
    out := scope.(sourceIds := kept);
  }

  method AppendAll(values: seq<string>, more: seq<string>) returns (out: seq<string>)
    ensures out == Merge(values, more)
  {
    out := values;
    for i := 0 to |more|
      invariant out == MergeFirst(values, more, i)
    {
      out := AppendUnique(out, more[i]);
    }
  }

  method Joined(r: Reading, left: Scope, right: Scope) returns (out: Scope)
    ensures out == left.(sectionIds := left.sectionIds + right.sectionIds,
                         sourceIds := InOrder(r.transcript, Elements(left.sourceIds) + Elements(right.sourceIds)),
                         frameIds := Merge(left.frameIds, right.frameIds))
  {
    var sources := AppendAll(left.sourceIds, right.sourceIds);
    var frames := AppendAll(left.frameIds, right.frameIds);
    assert Elements(sources) == Elements(left.sourceIds) + Elements(right.sourceIds);
    out := Canonical(r, left.(sectionIds := left.sectionIds + right.sectionIds, sourceIds := sources, frameIds := frames));
  }

  lemma OwnedOnce(r: Reading, chapters: seq<Scope>, k: nat, i: nat)
    requires AreAssigned(r, chapters, |r.transcript|) && k < |chapters| && i < |r.transcript|
    ensures r.transcript[i] in chapters[k].sourceIds <==> Owns(r, k, r.transcript[i])
  {
    hide Cites, Adopts, IsChapter;
    assert r.transcript[i] in chapters[k].sourceIds <==> OwnsSoFar(r, k, r.transcript[i], |r.transcript|);
    AdoptsInside(r, k);
  }

  lemma AdoptsInside(r: Reading, k: nat)
    ensures forall i | Adopts(r, k, i) :: 0 <= i < |r.transcript|
  {
  }

  /** Joining one more chapter extends the range. */
  lemma RangeGrows(r: Reading, chapters: seq<Scope>, lo: nat, k: nat, next: Scope)
    requires AreAssigned(r, chapters, |r.transcript|) && lo <= k < |chapters|
    requires next == RangeScope(r, lo, k).(sectionIds := RangeScope(r, lo, k).sectionIds + chapters[k].sectionIds,
      sourceIds := InOrder(r.transcript, Elements(RangeScope(r, lo, k).sourceIds) + Elements(chapters[k].sourceIds)),
      frameIds := Merge(RangeFrames(r.article, lo, k), chapters[k].frameIds))
    ensures next == RangeScope(r, lo, k + 1)
  {
    hide Owns, OwnsSoFar, ContentFrames;
    assert IsChapter(r, k, chapters[k]);
    assert SectionIds(r.article)[lo..k + 1] == SectionIds(r.article)[lo..k] + [r.article.sections[k].id];
    var before := InOrder(r.transcript, OwnedBy(r, lo, k));
    var merged := Elements(before) + Elements(chapters[k].sourceIds);
    forall i | 0 <= i < |r.transcript| ensures r.transcript[i] in merged <==> r.transcript[i] in OwnedBy(r, lo, k + 1) {
      OwnedOnce(r, chapters, k, i);
      OwnedStep(r, lo, k, i);
    }
    InOrderCongruence(r.transcript, merged, OwnedBy(r, lo, k + 1), |r.transcript|);
  }

  lemma OwnedStep(r: Reading, lo: nat, k: nat, i: nat)
    requires lo <= k && i < |r.transcript|
    ensures r.transcript[i] in OwnedBy(r, lo, k + 1) <==> r.transcript[i] in OwnedBy(r, lo, k) || Owns(r, k, r.transcript[i])
  {
    hide Owns;
  }

  lemma RangeAlone(r: Reading, chapters: seq<Scope>, k: nat)
    requires AreAssigned(r, chapters, |r.transcript|) && k < |chapters|
    ensures chapters[k].(sourceIds := InOrder(r.transcript, Elements(chapters[k].sourceIds))) == RangeScope(r, k, k + 1)
  {
    hide Owns, OwnsSoFar, ContentFrames, OwnedBy;
    assert IsChapter(r, k, chapters[k]);
    forall i | 0 <= i < |r.transcript| ensures r.transcript[i] in chapters[k].sourceIds <==> r.transcript[i] in OwnedBy(r, k, k + 1) {
      OwnedOnce(r, chapters, k, i);
      OwnedStep(r, k, k, i);
      OwnedNone(r, k);
    }
    InOrderCongruence(r.transcript, Elements(chapters[k].sourceIds), OwnedBy(r, k, k + 1), |r.transcript|);
    ContentFramesDistinct(r.article, r.article.sections[k]);
    var frames := ContentFrames(r.article, r.article.sections[k]);
    MergeIntoNothing(frames, |frames|);
    assert frames[..|frames|] == frames;
    assert RangeFrames(r.article, k, k) == [];
    assert SectionIds(r.article)[k..k + 1] == [r.article.sections[k].id];
  }

  lemma OwnedNone(r: Reading, k: nat)
    ensures OwnedBy(r, k, k) == {}
  {
  }

  lemma RangeEmpty(r: Reading)
    ensures RangeScope(r, 0, 0) == EMPTY
  {
    OwnedNone(r, 0);
    InOrderNothing(r.transcript, |r.transcript|);
  }

  // ----- packing chapters into scopes

  /** `lo` and `hi` bound the chapters of scope `i`. */
  ghost predicate IsLocal(r: Reading, limit: nat, scope: Scope, lo: nat, hi: nat) {
    && lo < hi <= |r.article.sections| && scope == Sealed(r, RangeScope(r, lo, hi))
    && (lo + 1 < hi ==> Work(r, scope) <= limit && |scope.frameIds| <= FRAME_LIMIT)
  }

  /** A scope ends only where the next chapter would make it too much work. */
  ghost predicate EndsFull(r: Reading, limit: nat, lo: nat, hi: nat) {
    lo < hi < |r.article.sections|
    ==> Work(r, RangeScope(r, lo, hi + 1)) > limit || |RangeFrames(r.article, lo, hi + 1)| > FRAME_LIMIT
  }

  function After(cuts: seq<nat>, i: nat): nat
    requires i + 1 < |cuts|
  {
    cuts[i + 1]
  }

  ghost predicate IsPacking(r: Reading, limit: nat, locals: seq<Scope>, cuts: seq<nat>, n: nat) {
    && |cuts| == |locals| + 1 && cuts[0] == 0 && cuts[|locals|] == n
    && forall i | 0 <= i < |locals| :: IsLocal(r, limit, locals[i], cuts[i], After(cuts, i)) && EndsFull(r, limit, cuts[i], After(cuts, i))
  }

  lemma SealedIsLocal(r: Reading, limit: nat, lo: nat, hi: nat)
    requires lo < hi <= |r.article.sections|
    requires lo + 1 < hi ==> Work(r, RangeScope(r, lo, hi)) <= limit && |RangeFrames(r.article, lo, hi)| <= FRAME_LIMIT
    ensures IsLocal(r, limit, Sealed(r, RangeScope(r, lo, hi)), lo, hi)
  {
    hide Work, RangeFrames, ContextSources, CrossChapterBlocks, OwnedBy;
    SealingKeepsWork(r, RangeScope(r, lo, hi));
  }

  lemma PackingGrows(r: Reading, limit: nat, locals: seq<Scope>, cuts: seq<nat>, lo: nat, hi: nat)
    requires IsPacking(r, limit, locals, cuts, lo) && lo < hi <= |r.article.sections| && EndsFull(r, limit, lo, hi)
    requires lo + 1 < hi ==> Work(r, RangeScope(r, lo, hi)) <= limit && |RangeFrames(r.article, lo, hi)| <= FRAME_LIMIT
    ensures IsPacking(r, limit, locals + [Sealed(r, RangeScope(r, lo, hi))], cuts + [hi], hi)
  {
    hide Work, RangeScope, RangeFrames, EndsFull, IsLocal, Sealed;
    var scope := RangeScope(r, lo, hi);
    SealedIsLocal(r, limit, lo, hi);
    var all, ends := locals + [Sealed(r, scope)], cuts + [hi];
    forall i | 0 <= i < |all| ensures IsLocal(r, limit, all[i], ends[i], After(ends, i)) && EndsFull(r, limit, ends[i], After(ends, i)) {
      if i < |locals| {
        assert all[i] == locals[i] && ends[i] == cuts[i] && After(ends, i) == After(cuts, i);
      }
    }
  }

  ghost predicate IsPlan(r: Reading, limit: nat, scopes: seq<Scope>, cuts: seq<nat>) {
    && scopes != [] && scopes[|scopes| - 1] == Sealed(r, Relations(r))
    && IsPacking(r, limit, scopes[..|scopes| - 1], cuts, |r.article.sections|)
  }

  method BuildLoopScopes(r: Reading, limit: nat) returns (scopes: seq<Scope>, ghost cuts: seq<nat>)
    ensures r.article.sections == [] ==> scopes == [Sealed(r, Whole(r))]
    ensures r.article.sections != [] ==> IsPlan(r, limit, scopes, cuts)
  {
    hide RangeScope, RangeFrames, AreAssigned, Work, Sealed, IsPacking, EndsFull, InOrder, Merge;
    scopes, cuts := [], [0];
    if r.article.sections == [] {
      scopes := [Sealed(r, Whole(r))];
      return;
    }
    var chapters := Assign(r);
    var current := EMPTY;
    ghost var lo := 0;
    RangeEmpty(r);
    NothingPacked(r, limit);
    AssignedCount(r, chapters);
    for k := 0 to |chapters|
      invariant lo <= k && (lo == k ==> k == 0)
      invariant current == RangeScope(r, lo, k)
      invariant IsPacking(r, limit, scopes, cuts, lo)
      invariant lo + 1 < k ==> Work(r, current) <= limit && |current.frameIds| <= FRAME_LIMIT
    {
      ghost var range := RangeScope(r, lo, k);
      RangeParts(r, lo, k);
      var next := Joined(r, current, chapters[k]);
      RangeGrows(r, chapters, lo, k, next);
      RangeParts(r, lo, k + 1);
      if |current.sectionIds| > 0 && (Work(r, next) > limit || |next.frameIds| > FRAME_LIMIT) {
        FullHere(r, limit, lo, k);
        PackingGrows(r, limit, scopes, cuts, lo, k);
        scopes, cuts, lo := scopes + [Sealed(r, current)], cuts + [k], k;
        current := Canonical(r, chapters[k]);
        RangeAlone(r, chapters, k);
      } else {
        current := next;
      }
    }
    RangeParts(r, lo, |chapters|);
    if |current.sectionIds| > 0 {
      LastEnds(r, limit, lo);
      PackingGrows(r, limit, scopes, cuts, lo, |chapters|);
      scopes, cuts := scopes + [Sealed(r, current)], cuts + [|chapters|];
    }
    ghost var locals := scopes;
    scopes := scopes + [Sealed(r, Relations(r))];
    assert scopes[..|scopes| - 1] == locals;
  }

  lemma AssignedCount(r: Reading, chapters: seq<Scope>)
    requires AreAssigned(r, chapters, |r.transcript|)
    ensures |chapters| == |r.article.sections|
  {
  }

  lemma NothingPacked(r: Reading, limit: nat)
    ensures IsPacking(r, limit, [], [0], 0)
  {
  }

  lemma RangeParts(r: Reading, lo: nat, hi: nat)
    requires lo <= hi <= |r.article.sections|
    ensures RangeScope(r, lo, hi).frameIds == RangeFrames(r.article, lo, hi)
    ensures |RangeScope(r, lo, hi).sectionIds| == hi - lo
  {
  }

  lemma FullHere(r: Reading, limit: nat, lo: nat, hi: nat)
    requires lo < hi < |r.article.sections|
    requires Work(r, RangeScope(r, lo, hi + 1)) > limit || |RangeFrames(r.article, lo, hi + 1)| > FRAME_LIMIT
    ensures EndsFull(r, limit, lo, hi)
  {
    hide Work, RangeScope, RangeFrames;
  }

  lemma LastEnds(r: Reading, limit: nat, lo: nat)
    ensures EndsFull(r, limit, lo, |r.article.sections|)
  {
  }

  // ----- what a plan guarantees

  lemma {:induction false} FirstCiting(r: Reading, k: nat, id: string) returns (first: nat)
    requires Cites(r, k, id)
    ensures CitesFirst(r, first, id)
  {
    hide Cited;
    if m: nat :| m < k && Cites(r, m, id) {
      first := FirstCiting(r, m, id);
    } else {
      first := k;
    }
  }

  lemma {:induction false} NearestExists(r: Reading, i: int, n: nat) returns (at: int)
    requires n <= |r.transcript| && exists m | 0 <= m < n :: IsCited(r, r.transcript[m])
    ensures IsNearestSoFar(r, i, at, n)
  {
    hide IsCited;
    var last := n - 1;
    if exists m | 0 <= m < last :: IsCited(r, r.transcript[m]) {
      at := NearestExists(r, i, last);
      if IsCited(r, r.transcript[last]) && Distance(i, last) < Distance(i, at) {
        at := last;
      }
    } else {
      at := last;
    }
  }

  /** Every segment, cited or not, has a chapter that answers for it. */
  lemma EverySegmentIsOwned(r: Reading, i: nat) returns (k: nat)
    requires i < |r.transcript| && r.article.sections != []
    ensures k < |r.article.sections| && Owns(r, k, r.transcript[i])
  {
    hide Cited, IsNearestSoFar;
    var id := r.transcript[i];
    if c: nat :| Cites(r, c, id) {
      k := c;
    } else if NothingCited(r) {
      k := 0;
      assert Adopts(r, k, i);
    } else {
      var at := NearestExists(r, i, |r.transcript|);
      NearestIsNearest(r, i, at);
      var c: nat :| Cites(r, c, r.transcript[at]);
      k := FirstCiting(r, c, r.transcript[at]);
      assert Adopts(r, k, i);
    }
  }

  lemma NearestIsNearest(r: Reading, i: int, at: int)
    requires IsNearestSoFar(r, i, at, |r.transcript|)
    ensures IsNearest(r, i, at)
  {
    hide IsCited;
  }

  function SectionLists(scopes: seq<Scope>): (lists: seq<seq<string>>)
    ensures |lists| == |scopes|
  {
    seq(|scopes|, i requires 0 <= i < |scopes| => scopes[i].sectionIds)
  }

  lemma SealedParts(r: Reading, scope: Scope)
    ensures var s := Sealed(r, scope);
      && s.sectionIds == scope.sectionIds && s.sourceIds == scope.sourceIds && s.global == scope.global && s.frameIds == scope.frameIds
      && s.boundedContext == scope.boundedContext && s.coverageQuestionIds == scope.coverageQuestionIds
  {
    hide ContextSources, CrossChapterBlocks;
  }

  lemma {:induction false} LocalsConcatenate(r: Reading, limit: nat, locals: seq<Scope>, cuts: seq<nat>, n: nat)
    requires IsPacking(r, limit, locals, cuts, n)
    ensures n <= |r.article.sections| && Flatten(SectionLists(locals)) == SectionIds(r.article)[..n]
    decreases |locals|
  {
    hide Sealed, RangeScope, EndsFull, Work;
    if locals != [] {
      var front, last := locals[..|locals| - 1], |locals| - 1;
      FrontPacking(r, limit, locals, cuts, n);
      LocalsConcatenate(r, limit, front, cuts[..|locals|], cuts[last]);
      assert IsLocal(r, limit, locals[last], cuts[last], After(cuts, last));
      LocalSections(r, limit, locals[last], cuts[last], n);
      FlattenSnoc(SectionLists(front), locals[last].sectionIds);
      assert SectionLists(locals) == SectionLists(front) + [locals[last].sectionIds];
    }
  }

  lemma LocalSections(r: Reading, limit: nat, scope: Scope, lo: nat, hi: nat)
    requires IsLocal(r, limit, scope, lo, hi)
    ensures scope.sectionIds == SectionIds(r.article)[lo..hi] && !scope.global
    ensures SectionIds(r.article)[..hi] == SectionIds(r.article)[..lo] + scope.sectionIds
  {
    hide Sealed, Work;
    SealedParts(r, RangeScope(r, lo, hi));
  }

  lemma FrontPacking(r: Reading, limit: nat, locals: seq<Scope>, cuts: seq<nat>, n: nat)
    requires IsPacking(r, limit, locals, cuts, n) && locals != []
    ensures IsPacking(r, limit, locals[..|locals| - 1], cuts[..|locals|], cuts[|locals| - 1])
  {
    hide IsLocal, EndsFull;
    var front, ends := locals[..|locals| - 1], cuts[..|locals|];
    forall i | 0 <= i < |front| ensures IsLocal(r, limit, front[i], ends[i], After(ends, i)) && EndsFull(r, limit, ends[i], After(ends, i)) {
      assert front[i] == locals[i] && ends[i] == cuts[i] && After(ends, i) == After(cuts, i);
    }
  }

  lemma {:induction false} ChapterHasLocal(r: Reading, limit: nat, locals: seq<Scope>, cuts: seq<nat>, n: nat, k: nat) returns (i: nat)
    requires IsPacking(r, limit, locals, cuts, n) && k < n
    ensures i < |locals| && cuts[i] <= k < After(cuts, i)
    decreases |locals|
  {
    hide IsLocal, EndsFull;
    var last := |locals| - 1;
    assert |locals| > 0;
    if k >= cuts[last] {
      i := last;
    } else {
      FrontPacking(r, limit, locals, cuts, n);
      i := ChapterHasLocal(r, limit, locals[..last], cuts[..|locals|], cuts[last], k);
    }
  }

  /** The chapters of a local scope are complete: all they cite and all they adopted. */
  lemma LocalOwns(r: Reading, limit: nat, scope: Scope, lo: nat, hi: nat, k: nat, id: string)
    requires IsLocal(r, limit, scope, lo, hi) && lo <= k < hi && Owns(r, k, id) && id in r.transcript
    ensures id in scope.sourceIds
  {
    hide Owns, Work, Sealed;
    SealedParts(r, RangeScope(r, lo, hi));
    assert id in OwnedBy(r, lo, hi);
  }

  ghost predicate IsSourceOf(scopes: seq<Scope>, id: string) {
    exists i :: 0 <= i < |scopes| && id in scopes[i].sourceIds
  }

  /** MAIN RESULT: the local scopes take the chapters in article order, none twice and none left
      out; every transcript segment, cited or not, is a source of a local scope; a scope of several
      chapters is within the work and frame limits; and the relations task comes last. */
  lemma PlanCoversArticle(r: Reading, limit: nat, scopes: seq<Scope>, cuts: seq<nat>)
    requires r.article.sections != [] && IsPlan(r, limit, scopes, cuts)
    ensures var locals := scopes[..|scopes| - 1];
      && Flatten(SectionLists(locals)) == SectionIds(r.article)
      && (forall id | id in r.transcript :: IsSourceOf(locals, id))
      && (forall i | 0 <= i < |locals| :: !locals[i].global && locals[i].sectionIds != []
            && (|locals[i].sectionIds| > 1 ==> Work(r, locals[i]) <= limit && |locals[i].frameIds| <= FRAME_LIMIT))
    ensures IsRelations(scopes[|scopes| - 1]) && scopes[|scopes| - 1].sectionIds == SectionIds(r.article)
  {
    hide Sealed, RangeScope, EndsFull, Work, Owns;
    var locals, n := scopes[..|scopes| - 1], |r.article.sections|;
    LocalsConcatenate(r, limit, locals, cuts, n);
    SealedParts(r, Relations(r));
    forall id | id in r.transcript ensures IsSourceOf(locals, id) {
      var i: nat :| i < |r.transcript| && r.transcript[i] == id;
      var k := EverySegmentIsOwned(r, i);
      var at := ChapterHasLocal(r, limit, locals, cuts, n, k);
      assert IsLocal(r, limit, locals[at], cuts[at], After(cuts, at));
      LocalOwns(r, limit, locals[at], cuts[at], After(cuts, at), k, id);
    }
    forall i | 0 <= i < |locals|
      ensures !locals[i].global && locals[i].sectionIds != []
      ensures |locals[i].sectionIds| > 1 ==> Work(r, locals[i]) <= limit && |locals[i].frameIds| <= FRAME_LIMIT
    {
      assert IsLocal(r, limit, locals[i], cuts[i], After(cuts, i));
      LocalSections(r, limit, locals[i], cuts[i], After(cuts, i));
    }
  }
}
