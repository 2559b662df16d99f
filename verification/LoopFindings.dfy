/** The findings of a review on their way to the author: what one turn does to them
    (internal/investigator/article_loop_input.go). */
module LoopFindings {
  import opened Lists
  import opened Wrappers
  import opened ReviewMaterial
  import opened ReviewTasks
  import opened ReviewPlans
  import opened ReviewWork
  import opened ArticleLoop
  import opened LoopCoverage
  import opened LoopRecovery
  import opened LoopSafety
  import opened LoopSteps
  import CoveragePlan
  import ReviewScopes

  // ----- what reviews found

  ghost predicate FoundBy(s: Store, keys: seq<Key>, i: Issue) {
    exists key | key in keys :: key in s.reviews && i in s.reviews[key].issues
  }

  ghost predicate AreReviewsOf(s: Store, h: ArticleLoop.Article, keys: seq<Key>) {
    forall key | key in keys :: key in s.reviews && s.reviews[key].candidate == h
  }

  /** Exactly what the counted reviews of `h` found. */
  ghost predicate AreFindings(s: Store, h: ArticleLoop.Article, keys: seq<Key>, issues: seq<Issue>) {
    AreReviewsOf(s, h, keys) && forall i :: i in issues <==> FoundBy(s, keys, i)
  }

  /** A complete review of `h` that blocks it, and exactly its blocking findings. */
  ghost predicate IsVerdict(env: Env, s: Store, h: ArticleLoop.Article, keys: seq<Key>, issues: seq<Issue>) {
    && keys != [] && issues != [] && AreReviewsOf(s, h, keys) && (forall i :: i in issues <==> i.blocking && FoundBy(s, keys, i))
    && NothingForgotten(env, s, h, [], keys) && ReviewsRelations(s, keys)
  }

  /** The candidate `h` is withdrawn, and its verdict is with the author. */
  ghost predicate IsJudged(env: Env, s: Store, l: Loop, h: ArticleLoop.Article) {
    l.candidate.None? && h in l.blocked && l.blocked[h] == l.issues && IsVerdict(env, s, h, l.keys, l.issues)
  }

  ghost predicate WasBlocked(env: Env, s: Store, h: ArticleLoop.Article, issues: seq<Issue>) {
    exists keys :: IsVerdict(env, s, h, keys, issues)
  }

  ghost predicate IsOfSome(blocked: map<ArticleLoop.Article, seq<Issue>>, issues: seq<Issue>) {
    exists h :: h in blocked && blocked[h] == issues
  }

  /** A candidate has the findings of its counted reviews; without one, the author has those of a verdict,
      the last one as long as its reviews are counted. */
  ghost predicate FindingsKept(env: Env, s: Store, l: Loop) {
    && (l.candidate.Some? ==> AreFindings(s, l.candidate.value, l.keys, l.issues))
    && (forall h | h in l.blocked :: WasBlocked(env, s, h, l.blocked[h]))
    && (l.candidate.None? && l.issues != [] ==> IsOfSome(l.blocked, l.issues))
    && (l.candidate.None? && l.keys != [] ==> exists h :: IsJudged(env, s, l, h))
  }

  /** Reviews are counted for the draft only. */
  ghost predicate IsUndisturbed(s: Store, l: Loop) {
    l.candidate.None? ==> forall key | key in l.keys && key in s.reviews :: s.current == Draft(l.draftVersion, s.reviews[key].candidate)
  }

  predicate IsRevised(s: Store, slot: nat) {
    slot in s.receipts && !s.receipts[slot].noop
  }

  /** Until call `slot` changes it. */
  ghost predicate IsUndisturbedBut(s: Store, slot: nat, l: Loop) {
    if IsRevised(s, slot) then l.candidate.None? && l.keys != [] ==> s.current.version != l.draftVersion else IsUndisturbed(s, l)
  }

  /** A draft made by the call of this slot is one of these writes. */
  ghost predicate DraftIsOf(s: Store, slot: nat, ws: seq<Write>) {
    slot in s.receipts ==> PutDraft(slot, s.receipts[slot]) in ws
  }

  /** A candidate is given up only by a verdict that counts all its reviews. Without a candidate, no
      finding is dropped while the judged draft stands. */
  ghost predicate Follows(env: Env, s: Store, l: Loop, l': Loop) {
    && (l.candidate.Some? ==>
          && (forall key | key in l.keys :: key in l'.keys)
          && (l'.candidate == l.candidate || IsJudged(env, s, l', l.candidate.value)))
    && (l.candidate.None? && l'.candidate.None? ==>
          && l'.blocked == l.blocked
          && (l'.issues == l.issues || (s.current.article in l.blocked && l'.issues == l.blocked[s.current.article]))
          && (l.keys != [] && s.current.version == l.draftVersion ==> l'.keys == l.keys && l'.issues == l.issues && l'.draftVersion == l.draftVersion))
  }

  /** What a turn has to achieve. */
  ghost predicate GoesOn(env: Env, s: Store, l: Loop, l': Loop) {
    FindingsKept(env, s, l') && IsUndisturbed(s, l') && Follows(env, s, l, l')
  }

  ghost predicate SameFindings(l: Loop, l': Loop) {
    l'.candidate == l.candidate && l'.keys == l.keys && l'.issues == l.issues && l'.blocked == l.blocked && l'.draftVersion == l.draftVersion
  }

  lemma KeptAlike(env: Env, s: Store, l: Loop, l': Loop)
    requires FindingsKept(env, s, l) && SameFindings(l, l')
    ensures FindingsKept(env, s, l')
  {
    hide IsVerdict, AreFindings;
    if l'.candidate.None? && l'.keys != [] {
      var h :| IsJudged(env, s, l, h);
      assert IsJudged(env, s, l', h);
    }
  }

  lemma JudgedAlike(env: Env, s: Store, l: Loop, l': Loop, h: ArticleLoop.Article)
    requires IsJudged(env, s, l, h) && SameFindings(l, l')
    ensures IsJudged(env, s, l', h)
  {
    hide IsVerdict;
  }

  /** Loops that differ elsewhere go on alike. */
  lemma GoesOnAlike(env: Env, s: Store, l: Loop, l1: Loop, l2: Loop, l3: Loop)
    requires GoesOn(env, s, l1, l2) && SameFindings(l, l1) && SameFindings(l2, l3)
    ensures GoesOn(env, s, l, l3)
  {
    hide IsJudged, FindingsKept;
    KeptAlike(env, s, l2, l3);
    if l.candidate.Some? && IsJudged(env, s, l2, l.candidate.value) {
      JudgedAlike(env, s, l2, l3, l.candidate.value);
    }
  }

  lemma StaysPut(env: Env, s: Store, slot: nat, l: Loop, l': Loop)
    requires FindingsKept(env, s, l) && IsUndisturbed(s, l) && SameFindings(l, l')
    ensures GoesOn(env, s, l, l')
  {
    hide FindingsKept, IsJudged;
    KeptAlike(env, s, l, l');
  }

  // ----- accepting a review

  lemma {:induction false} BlockingAre(issues: seq<Issue>)
    ensures forall i :: i in BlockingOnly(issues) <==> i in issues && i.blocking
  {
    if issues != [] {
      BlockingAre(issues[..|issues| - 1]);
      assert issues == issues[..|issues| - 1] + [issues[|issues| - 1]];
    }
  }

  lemma FoundMore(s: Store, keys: seq<Key>, key: Key)
    requires key in s.reviews
    ensures forall i :: FoundBy(s, KeysWith(keys, key), i) <==> FoundBy(s, keys, i) || i in s.reviews[key].issues
  {
    forall i ensures FoundBy(s, KeysWith(keys, key), i) <==> FoundBy(s, keys, i) || i in s.reviews[key].issues {
      assert key in KeysWith(keys, key);
    }
  }

  lemma FindingsMore(s: Store, h: ArticleLoop.Article, keys: seq<Key>, issues: seq<Issue>, key: Key)
    requires AreFindings(s, h, keys, issues) && key in s.reviews && s.reviews[key].candidate == h
    ensures AreFindings(s, h, KeysWith(keys, key), issues + s.reviews[key].issues)
  {
    hide FoundBy;
    FoundMore(s, keys, key);
  }

  lemma FiledFindings(env: Env, s: Store, l: Loop, scope: Scope, report: Report)
    requires IsFiled(env, s, l, scope, report) && FindingsKept(env, s, l)
    ensures var l1, h := LoopWith(env, s, l, scope, report), l.candidate.value;
      AreFindings(s, h, l1.keys, l1.issues) && l1.keys != [] && forall key | key in l.keys :: key in l1.keys
  {
    hide ReviewsFirst, LoopSafe, Asked, IsComplete, AreFindings, IsJudged, WasBlocked, IsOfSome, Merged, Without, Omissions;
    FiledHasCandidate(env, s, l, scope, report);
    FindingsMore(s, l.candidate.value, l.keys, l.issues, Accepted(l.candidate.value, scope.id, s.calls));
  }

  lemma VerdictOf(env: Env, s: Store, h: ArticleLoop.Article, keys: seq<Key>, issues: seq<Issue>)
    requires AreFindings(s, h, keys, issues) && keys != [] && BlockingOnly(issues) != []
    requires NothingForgotten(env, s, h, [], keys) && ReviewsRelations(s, keys)
    ensures IsVerdict(env, s, h, keys, BlockingOnly(issues))
  {
    hide NothingForgotten, ReviewsRelations, FoundBy, AreReviewsOf;
    BlockingAre(issues);
  }

  lemma AcceptFindings(env: Env, s: Store, l: Loop, scope: Scope, report: Report)
    requires IsFiled(env, s, l, scope, report) && FindingsKept(env, s, l)
    requires Accept(env, s, l, scope, report).ok
    ensures GoesOn(env, s, l, Accept(env, s, l, scope, report).loop)
  {
    hide IsWork, PlanSafe, NamedBelow, NothingForgotten, CoveragePlan.Ids, AsksOnce, Asked, IsComplete, DecidedIds, KeysHold, CoveragePlan.IsFinal, HasLocal, BlockingOnly, WithReview, RecordOf, ReviewsRelations, IsFiled, DistinctIds, IsVerdict, AreFindings, WasBlocked, IsOfSome, FoundBy;
    FiledHasCandidate(env, s, l, scope, report);
    var h, l1, a := l.candidate.value, LoopWith(env, s, l, scope, report), Accept(env, s, l, scope, report);
    FiledFindings(env, s, l, scope, report);
    WithReviewStays(l, Accepted(h, scope.id, s.calls), RecordOf(env, s, l, h, scope, report));
    if a.loop.candidate.None? {
      FiledWork(env, s, l, scope, report);
      FiledLast(env, s, l, scope, report);
      VerdictOf(env, s, h, l1.keys, l1.issues);
      assert IsJudged(env, s, a.loop, h);
      JudgedIsKept(env, s, l, a.loop, h);
      FindingsAreReviews(s, h, l1.keys, l1.issues);
    } else {
      assert a.loop == l1;
      StillKept(env, s, l, l1);
    }
  }

  /** More findings of the same candidate. */
  lemma StillKept(env: Env, s: Store, l: Loop, l1: Loop)
    requires FindingsKept(env, s, l) && l.candidate.Some? && l1.candidate == l.candidate && l1.blocked == l.blocked
    requires AreFindings(s, l.candidate.value, l1.keys, l1.issues)
    ensures FindingsKept(env, s, l1)
  {
    hide AreFindings, WasBlocked;
  }

  lemma WithReviewStays(l: Loop, key: Key, record: Record)
    ensures var l1 := WithReview(l, key, record);
      l1.candidate == l.candidate && l1.blocked == l.blocked && l1.draftVersion == l.draftVersion
  {
  }

  lemma JudgedIsKept(env: Env, s: Store, l: Loop, l': Loop, h: ArticleLoop.Article)
    requires FindingsKept(env, s, l) && IsJudged(env, s, l', h) && l'.blocked == l.blocked[h := l'.issues]
    ensures FindingsKept(env, s, l')
  {
    hide IsVerdict, AreFindings;
    assert IsVerdict(env, s, h, l'.keys, l'.issues);
    assert WasBlocked(env, s, h, l'.issues);
  }

  lemma FindingsAreReviews(s: Store, h: ArticleLoop.Article, keys: seq<Key>, issues: seq<Issue>)
    requires AreFindings(s, h, keys, issues)
    ensures AreReviewsOf(s, h, keys)
  {
  }

  // ----- freezing a candidate

  /** Rebound reviews bring the findings of their origins. */
  lemma {:induction false} ReuseFindings(env: Env, s: Store, l: Loop, h: ArticleLoop.Article, scopes: seq<Scope>, n: nat)
    requires n <= |scopes|
    requires var r := ReuseFirst(env, s, l, h, scopes, n); r.ok && AllMade(s, r.writes)
    ensures var r := ReuseFirst(env, s, l, h, scopes, n); AreFindings(s, h, r.keys, r.issues)
  {
    hide IsBlocking, AllMade, AreFindings;
    if n == 0 {
      NothingFound(s, h);
    } else {
      ReuseFront(env, s, l, h, scopes, n);
      ReuseFindings(env, s, l, h, scopes, n - 1);
      var r, front, scope := ReuseFirst(env, s, l, h, scopes, n), ReuseFirst(env, s, l, h, scopes, n - 1), scopes[n - 1];
      var material := Material(env.judged(h, scope), scope);
      if !scope.global && material in l.cache {
        LastIsMade(s, r.writes);
        FindingsMore(s, h, front.keys, front.issues, Reused(h, scope.id));
      }
    }
  }

  lemma NothingFound(s: Store, h: ArticleLoop.Article)
    ensures AreFindings(s, h, [], [])
  {
  }

  lemma LastIsMade(s: Store, ws: seq<Write>)
    requires AllMade(s, ws) && ws != []
    ensures Has(s, ws[|ws| - 1])
  {
  }

  /** Where freezing leads: back to the author, with the findings that block this draft, or to a candidate. */
  lemma FreezeLeads(env: Env, s: Store, l: Loop, expected: nat)
    requires var a := Freeze(env, s, l, expected); a.ok && AllMade(s, a.writes)
    ensures var l', h := Freeze(env, s, l, expected).loop, s.current.article;
      || l' == l
      || (h in l.blocked && l.blocked[h] != [] && l' == l.(issues := l.blocked[h]))
      || (l'.candidate == Some(h) && l'.blocked == l.blocked && l'.draftVersion == s.current.version && AreFindings(s, h, l'.keys, l'.issues))
  {
    hide ReuseFirst, AreFindings;
    var a, h := Freeze(env, s, l, expected), s.current.article;
    var l1 := l.(candidate := Some(h), draftVersion := s.current.version, keys := [], issues := []);
    if a.loop != l && env.plan(l1, h).Some? && a.writes != [] {
      var scopes := env.plan(l1, h).value;
      var r := ReuseFirst(env, s, l1, h, scopes, |scopes|);
      assert a.writes == [PutCandidate(h)] + r.writes;
      forall i | 0 <= i < |r.writes| ensures Has(s, r.writes[i]) {
        assert a.writes[i + 1] == r.writes[i];
      }
      ReuseFindings(env, s, l1, h, scopes, |scopes|);
    }
  }

  /** Coming back to the findings of the draft changes nothing when they are the last ones. */
  lemma BackToAuthor(env: Env, s: Store, l: Loop, l': Loop)
    requires l.candidate.None? && FindingsKept(env, s, l) && IsUndisturbed(s, l)
    requires var h := s.current.article; h in l.blocked && l.blocked[h] != [] && l' == l.(issues := l.blocked[h])
    ensures GoesOn(env, s, l, l')
  {
    hide AreFindings, WasBlocked, NothingForgotten, ReviewsRelations, FoundBy;
    if l.keys != [] {
      var h :| IsJudged(env, s, l, h);
      assert l.keys[0] in l.keys;
      assert s.current.article == h;
      assert l' == l;
    }
  }

  lemma FreezeFindings(env: Env, s: Store, l: Loop, expected: nat)
    requires l.candidate.None? && FindingsKept(env, s, l) && IsUndisturbed(s, l)
    requires var a := Freeze(env, s, l, expected); a.ok && AllMade(s, a.writes)
    ensures GoesOn(env, s, l, Freeze(env, s, l, expected).loop)
  {
    hide Freeze, AreFindings, WasBlocked, IsJudged, AllMade;
    FreezeLeads(env, s, l, expected);
    var l' := Freeze(env, s, l, expected).loop;
    if l' != l && l'.candidate.None? {
      BackToAuthor(env, s, l, l');
    }
  }

  // ----- saving

  /** The turn starts where the findings are kept, and every draft of its slot is its own. */
  ghost predicate StartsAt(env: Env, s: Store, slot: nat, l: Loop, ws: seq<Write>) {
    FindingsKept(env, s, l) && IsUndisturbedBut(s, slot, l) && DraftIsOf(s, slot, ws)
  }

  lemma RevisedFindings(env: Env, s: Store, slot: nat, l: Loop, l1: Loop, l': Loop)
    requires l.candidate.None? && FindingsKept(env, s, l) && IsUndisturbedBut(s, slot, l) && IsRevised(s, slot)
    requires l1.candidate.None? && l1.keys == [] && l1.issues == l.issues && l1.blocked == l.blocked
    requires FindingsKept(env, s, l1) && IsUndisturbed(s, l1) ==> GoesOn(env, s, l1, l')
    ensures GoesOn(env, s, l, l')
  {
    hide AreFindings, WasBlocked, IsJudged, IsOfSome;
  }

  lemma SaveFindings(env: Env, s: Store, l: Loop, slot: nat, save: Save)
    requires var a := SaveAndFinish(env, s, l, slot, save); a.ok && AllMade(s, a.writes) && StartsAt(env, s, slot, l, a.writes)
    requires l.candidate.None?
    ensures GoesOn(env, s, l, SaveAndFinish(env, s, l, slot, save).loop)
  {
    hide Freeze, FindingsKept, GoesOn, IsUndisturbed;
    var w, a := SaveDraft(env, s, slot, save), SaveAndFinish(env, s, l, slot, save);
    if w.receipt.None? {
      StaysPut(env, s, slot, l, l);
    } else {
      var receipt := w.receipt.value;
      assert w.writes == [PutDraft(slot, receipt)];
      assert a.writes[0] == PutDraft(slot, receipt) && Has(s, a.writes[0]);
      assert AfterDraft(s, slot, receipt) == s;
      var l1 := if receipt.noop then l else l.(challenged := None, candidate := None, scopes := [], keys := [], draftVersion := 0);
      var finishes := save.finish && !receipt.rejected;
      var l' := if finishes then Freeze(env, s, l1, s.current.version).loop else l1;
      assert SameFindings(l', a.loop);
      if FindingsKept(env, s, l1) && IsUndisturbed(s, l1) {
        if finishes {
          var f := Freeze(env, s, l1, s.current.version);
          assert a.writes == [PutDraft(slot, receipt)] + f.writes;
          forall i | 0 <= i < |f.writes| ensures Has(s, f.writes[i]) {
            assert a.writes[i + 1] == f.writes[i];
          }
          FreezeFindings(env, s, l1, s.current.version);
        } else {
          StaysPut(env, s, slot, l1, l1);
        }
      }
      if receipt.noop {
        GoesOnAlike(env, s, l, l1, l', a.loop);
      } else {
        RevisedFindings(env, s, slot, l, l1, l');
        GoesOnAlike(env, s, l, l, l', a.loop);
      }
    }
  }

  lemma ReviseFindings(env: Env, s: Store, l: Loop, slot: nat, patch: Patch)
    requires var a := Revise(env, s, l, slot, patch); a.ok && AllMade(s, a.writes) && StartsAt(env, s, slot, l, a.writes)
    requires l.candidate.None?
    ensures GoesOn(env, s, l, Revise(env, s, l, slot, patch).loop)
  {
    hide SaveAndFinish, FindingsKept, GoesOn, IsUndisturbed;
    var planned := if slot in s.plans then Some(s.plans[slot])
                   else if s.current.version != patch.expected then None
                   else env.expand(s.current.article, patch);
    if planned.Some? {
      var a, b := Revise(env, s, l, slot, patch), SaveAndFinish(env, s, l, slot, planned.value);
      assert a.writes == [PutPlan(slot, planned.value)] + b.writes;
      forall i | 0 <= i < |b.writes| ensures Has(s, b.writes[i]) {
        assert a.writes[i + 1] == b.writes[i];
      }
      SaveFindings(env, s, l, slot, planned.value);
    } else {
      StaysPut(env, s, slot, l, l);
    }
  }

  // ----- a whole turn

  /** Only a saved reply makes a draft. */
  lemma NoDraftIsUndisturbed(env: Env, s: Store, slot: nat, l: Loop, ws: seq<Write>)
    requires StartsAt(env, s, slot, l, ws) && forall w | w in ws :: !w.PutDraft?
    ensures FindingsKept(env, s, l) && IsUndisturbed(s, l)
  {
    hide FindingsKept, IsUndisturbed;
  }

  lemma FreezingDraftsNothing(env: Env, s: Store, l: Loop, expected: nat)
    ensures forall w | w in Freeze(env, s, l, expected).writes :: !w.PutDraft?
  {
    hide Freeze;
    FreezeWrites(env, s, l, expected);
  }

  lemma AuthorFindings(env: Env, s: Store, l: Loop, call: Call, reply: Reply)
    requires call.mode.Author? && l.candidate.None?
    requires var a := Act(env, s, l, call, reply); a.ok && AllMade(s, a.writes) && StartsAt(env, s, call.slot, l, a.writes)
    ensures GoesOn(env, s, l, Act(env, s, l, call, reply).loop)
  {
    hide Freeze, SaveAndFinish, Revise, FindingsKept, GoesOn, IsUndisturbed, IsUndisturbedBut, DraftIsOf, AllMade;
    var a := Act(env, s, l, call, reply);
    var l1 := if l.issues != [] && CountsAsRepair(reply) then l.(repairActions := l.repairActions + 1) else l;
    StartsAlike(env, s, call.slot, l, l1, a.writes);
    match reply {
      case SaveSections(save) => SaveFindings(env, s, l1, call.slot, save);
      case ReviseBlocks(patch) => ReviseFindings(env, s, l1, call.slot, patch);
      case Finish(expected) =>
        FreezingDraftsNothing(env, s, l1, expected);
        NoDraftIsUndisturbed(env, s, call.slot, l1, a.writes);
        FreezeFindings(env, s, l1, expected);
      case Challenge(expected, answered) => DisputeFindings(env, s, call.slot, l1, expected, answered);
      case _ =>
        NoDraftIsUndisturbed(env, s, call.slot, l1, a.writes);
        StaysPut(env, s, call.slot, l1, a.loop);
    }
    GoesOnAlike(env, s, l, l1, a.loop, a.loop);
  }

  lemma StartsAlike(env: Env, s: Store, slot: nat, l: Loop, l1: Loop, ws: seq<Write>)
    requires StartsAt(env, s, slot, l, ws)
    requires SameFindings(l, l1)
    ensures StartsAt(env, s, slot, l1, ws) && forall l2 :: SameFindings(l2, l2)
  {
    hide FindingsKept;
    KeptAlike(env, s, l, l1);
  }

  lemma DisputeFindings(env: Env, s: Store, slot: nat, l: Loop, expected: nat, answered: bool)
    requires l.candidate.None?
    requires var a := Dispute(env, s, l, expected, answered); a.ok && AllMade(s, a.writes) && StartsAt(env, s, slot, l, a.writes)
    ensures GoesOn(env, s, l, Dispute(env, s, l, expected, answered).loop)
  {
    hide Freeze, FindingsKept, GoesOn, IsUndisturbed, IsUndisturbedBut, DraftIsOf, AllMade;
    var a := Dispute(env, s, l, expected, answered);
    var l1 := l.(disputes := l.disputes + {s.current.article}, challenged := Some(s.current.article));
    StartsAlike(env, s, slot, l, l1, a.writes);
    FreezingDraftsNothing(env, s, l1, expected);
    NoDraftIsUndisturbed(env, s, slot, l, a.writes);
    NoDraftIsUndisturbed(env, s, slot, l1, a.writes);
    if a == Freeze(env, s, l1, expected) {
      FreezeFindings(env, s, l1, expected);
      GoesOnAlike(env, s, l, l1, a.loop, a.loop);
    } else {
      StaysPut(env, s, slot, l, a.loop);
    }
  }

  lemma ActFindings(env: Env, s: Store, l: Loop, call: Call, reply: Reply)
    requires IsFaithful(env) && RecordsHonest(env, s) && LoopSafe(env, s, l, s.calls) && ActsOn(env, l, call)
    requires var a := Act(env, s, l, call, reply); a.ok && AllMade(s, a.writes) && StartsAt(env, s, call.slot, l, a.writes)
    ensures GoesOn(env, s, l, Act(env, s, l, call, reply).loop)
  {
    hide IsFaithful, RecordsHonest, LoopSafe, Freeze, SaveAndFinish, Revise, Dispute, Accept, AllMade, Asked, IsComplete, FindingsKept, GoesOn, IsUndisturbedBut, DraftIsOf, IsFiled, AsksOnce, HasLocal;
    var a := Act(env, s, l, call, reply);
    match call.mode {
      case Source =>
        NoDraftIsUndisturbed(env, s, call.slot, l, a.writes);
        StaysPut(env, s, call.slot, l, a.loop);
      case Review(scope) =>
        if IsAdmitted(env, l, scope, reply) {
          AcceptFiles(env, s, l, scope, reply.report);
          FirstIsMade(s, a.writes);
          AdmittedIsFiled(env, s, l, scope, reply);
          AcceptFindings(env, s, l, scope, reply.report);
        } else {
          StaysPut(env, s, call.slot, l, a.loop);
        }
      case Author => AuthorFindings(env, s, l, call, reply);
    }
  }

  lemma FirstIsMade(s: Store, ws: seq<Write>)
    requires AllMade(s, ws) && ws != []
    ensures Has(s, ws[0])
  {
  }

  lemma RecoveryKeepsFindings(env: Env, s: Store, l: Loop, call: Call)
    ensures Recover(env, s, l, call).writes == [] && SameFindings(l, Recover(env, s, l, call).loop)
  {
  }

  /** A turn keeps the findings, and withdraws a candidate only by a verdict. */
  lemma TurnFindings(env: Env, s: Store, call: Call, reply: Reply)
    requires IsFaithful(env) && RecordsHonest(env, s) && LoopSafe(env, s, s.loop, s.calls) && ActsOn(env, s.loop, call)
    requires var a := Turn(env, s, call, reply); a.ok && AllMade(s, a.writes) && StartsAt(env, s, call.slot, s.loop, a.writes)
    ensures GoesOn(env, s, s.loop, Turn(env, s, call, reply).loop)
  {
    hide IsFaithful, RecordsHonest, LoopSafe, Act, Recover, ActsOn, AllMade, StartsAt, GoesOn;
    var a, l := Turn(env, s, call, reply), Informed(s.loop, call);
    if reply.Truncated? || reply.TooLarge? {
      RecoveryKeepsFindings(env, s, s.loop, call);
      NoDraftIsUndisturbed(env, s, call.slot, s.loop, a.writes);
      StaysPut(env, s, call.slot, s.loop, a.loop);
    } else {
      InformedIsSafe(env, s, call, s.calls);
      StartsAlike(env, s, call.slot, s.loop, l, a.writes);
      ActFindings(env, s, l, call, reply);
      GoesOnAlike(env, s, s.loop, l, Act(env, s, l, call, reply).loop, a.loop);
    }
  }

  // ----- growing stores

  lemma VerdictGrows(env: Env, s: Store, t: Store, h: ArticleLoop.Article, keys: seq<Key>, issues: seq<Issue>)
    requires Grows(s, t) && IsVerdict(env, s, h, keys, issues)
    ensures IsVerdict(env, t, h, keys, issues)
  {
    hide HasSection, HasSource;
    forall key | key in keys ensures key in t.reviews && t.reviews[key] == s.reviews[key] {
    }
    FoundAlike(s, t, keys);
  }

  lemma FoundAlike(s: Store, t: Store, keys: seq<Key>)
    requires forall key | key in keys :: key in s.reviews && key in t.reviews && t.reviews[key] == s.reviews[key]
    ensures forall i :: FoundBy(t, keys, i) <==> FoundBy(s, keys, i)
  {
  }

  lemma JudgedGrows(env: Env, s: Store, t: Store, l: Loop, h: ArticleLoop.Article)
    requires Grows(s, t) && IsJudged(env, s, l, h)
    ensures IsJudged(env, t, l, h)
  {
    hide IsVerdict, Grows;
    VerdictGrows(env, s, t, h, l.keys, l.issues);
  }

  lemma FindingsGrow(env: Env, s: Store, t: Store, l: Loop)
    requires Grows(s, t) && FindingsKept(env, s, l)
    ensures FindingsKept(env, t, l)
  {
    hide IsVerdict, IsJudged, Grows, FoundBy, IsOfSome;
    if l.candidate.Some? {
      ReviewsStay(s, t, l.candidate.value, l.keys);
    }
    forall h | h in l.blocked ensures WasBlocked(env, t, h, l.blocked[h]) {
      var keys :| IsVerdict(env, s, h, keys, l.blocked[h]);
      VerdictGrows(env, s, t, h, keys, l.blocked[h]);
    }
    if l.candidate.None? && l.keys != [] {
      var h :| IsJudged(env, s, l, h);
      JudgedGrows(env, s, t, l, h);
    }
  }

  lemma ReviewsStay(s: Store, t: Store, h: ArticleLoop.Article, keys: seq<Key>)
    requires Grows(s, t) && AreReviewsOf(s, h, keys)
    ensures AreReviewsOf(t, h, keys) && forall i :: FoundBy(t, keys, i) <==> FoundBy(s, keys, i)
  {
    FoundAlike(s, t, keys);
  }

  /** Without a candidate, the counted reviews are stored. */
  lemma CountedAreStored(env: Env, s: Store, l: Loop)
    requires FindingsKept(env, s, l)
    ensures forall key | key in l.keys :: key in s.reviews
  {
    hide NothingForgotten, ReviewsRelations, FoundBy, WasBlocked, IsOfSome;
  }

  lemma UndisturbedStays(env: Env, s: Store, t: Store, l: Loop)
    requires Grows(s, t) && FindingsKept(env, s, l) && IsUndisturbed(s, l) && t.current == s.current
    ensures IsUndisturbed(t, l)
  {
    hide FindingsKept;
    CountedAreStored(env, s, l);
  }

  lemma GoesOnGrows(env: Env, s: Store, t: Store, l: Loop, l': Loop)
    requires Grows(s, t) && t.current == s.current && GoesOn(env, s, l, l')
    ensures GoesOn(env, t, l, l')
  {
    hide FindingsKept, IsJudged, Grows, IsUndisturbed;
    FindingsGrow(env, s, t, l');
    UndisturbedStays(env, s, t, l');
    if l.candidate.Some? && IsJudged(env, s, l', l.candidate.value) {
      JudgedGrows(env, s, t, l', l.candidate.value);
    }
  }
}
