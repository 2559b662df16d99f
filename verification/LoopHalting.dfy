/** When a turn ends the run: exactly the reasons for which the loop gives up in the middle of a call
    (internal/investigator/article_loop.go, article_loop_input.go, article_loop_convergence.go). */
module LoopHalting {
  import opened Lists
  import opened Wrappers
  import opened ReviewMaterial
  import opened ArticleLoop
  import opened LoopRecovery
  import opened LoopSafety
  import opened LoopSteps
  import opened LoopQuestions
  import opened LoopRuns
  import opened LoopFindings
  import opened LoopVerdicts
  import opened LoopDuties
  import opened LoopProgress
  import opened LoopReuse

  // ----- the reasons

  /** The edit changes a draft that has reached its last version. */
  predicate IsTooLate(env: Env, s: Store, slot: nat, save: Save) {
    && slot !in s.receipts && s.current.version == save.expected && s.current.version >= REVISIONS
    && match env.edit(s.current.article, save)
       case Refused => false
       case Edited(article, _) => article != s.current.article
  }

  /** The new tasks among the first `n` of a plan; each takes a call. */
  ghost function NewTasks(env: Env, cache: map<Material, Key>, h: ArticleLoop.Article, plan: seq<Scope>, n: nat): set<nat>
    requires n <= |plan|
  {
    set i: nat | i < n && IsNew(env, cache, h, plan[i])
  }

  /** The draft cannot be planned, or its review does not fit the budget. */
  ghost predicate ReviewIsTooLong(env: Env, s: Store, l: Loop) {
    match env.plan(l, s.current.article)
    case None => true
    case Some(plan) => s.calls + |NewTasks(env, l.cache, s.current.article, plan, |plan|)| > env.budget
  }

  /** The loop as it is when the draft becomes a candidate. */
  function AsCandidate(s: Store, l: Loop, call: Call, reply: Reply): Loop {
    l.(read := l.read + Elements(call.sources), repairActions := if IsRepair(l, call, reply) then l.repairActions + 1 else l.repairActions,
       disputes := if Disputes(s, l, reply) then l.disputes + {s.current.article} else l.disputes, challenged := DisputedAfter(s, call.slot, l, reply),
       candidate := Some(s.current.article), draftVersion := s.current.version, scopes := if IsRevised(s, call.slot) then [] else l.scopes, keys := [], issues := [])
  }

  /** An author stops, edits a draft that is too old, or asks for a review that is too long. */
  ghost predicate AuthorHalts(env: Env, s: Store, l: Loop, call: Call, reply: Reply) {
    || reply.Stop?
    || (reply.SaveSections? && IsTooLate(env, s, call.slot, reply.save))
    || (reply.ReviseBlocks? && call.slot in s.plans && IsTooLate(env, s, call.slot, s.plans[call.slot]))
    || (Freezes(env, s, call.slot, l, reply, l.read + Elements(call.sources)) && ReviewIsTooLong(env, s, AsCandidate(s, l, call, reply)))
  }

  /** The last review of a candidate with blocking findings, which the stop rules give up on. */
  ghost predicate ReviewHalts(env: Env, s: Store, l: Loop, call: Call, scope: Scope, report: Report)
    requires l.candidate.Some?
  {
    && (forall t | t in l.scopes :: t.id == scope.id)
    && var l1 := LoopWith(env, s, Informed(l, call), scope, report);
      IsBlocking(l1.issues) && env.stalls(l1, BlockingOnly(l1.issues))
  }

  /** A reply that was cut off ends the run unless an author made it, or its review can be split. */
  ghost predicate Halts(env: Env, s: Store, l: Loop, call: Call, reply: Reply) {
    if IsCut(reply) then call.mode.Source? || (call.mode.Review? && env.split(l, s.current.article, call.mode.scope).None?)
    else
      match call.mode
      case Source => false
      case Review(scope) => IsAdmitted(env, l, scope, reply) && ReviewHalts(env, s, l, call, scope, reply.report)
      case Author => AuthorHalts(env, s, l, call, reply)
  }

  // ----- freezing

  /** What is used again can be used again. */
  lemma {:induction false} ReuseSucceeds(env: Env, s: Store, l: Loop, h: ArticleLoop.Article, scopes: seq<Scope>, n: nat, m: nat)
    requires n <= |scopes| && CacheAt(s, l, m)
    ensures ReuseFirst(env, s, l, h, scopes, n).ok
  {
    hide WasCleared, IsBlocking;
    if n > 0 {
      ReuseSucceeds(env, s, l, h, scopes, n - 1, m);
    }
  }

  lemma {:induction false} PendingAreCounted(env: Env, s: Store, l: Loop, h: ArticleLoop.Article, scopes: seq<Scope>, n: nat)
    requires n <= |scopes| && ReuseFirst(env, s, l, h, scopes, n).ok
    ensures |ReuseFirst(env, s, l, h, scopes, n).pending| == |NewTasks(env, l.cache, h, scopes, n)|
  {
    hide IsBlocking;
    if n == 0 {
      assert NewTasks(env, l.cache, h, scopes, 0) == {};
    } else {
      PendingAreCounted(env, s, l, h, scopes, n - 1);
      OneMoreCounted(env, l.cache, h, scopes, n);
    }
  }

  lemma OneMoreCounted(env: Env, cache: map<Material, Key>, h: ArticleLoop.Article, scopes: seq<Scope>, n: nat)
    requires 0 < n <= |scopes|
    ensures |NewTasks(env, cache, h, scopes, n)| == |NewTasks(env, cache, h, scopes, n - 1)| + if IsNew(env, cache, h, scopes[n - 1]) then 1 else 0
  {
    hide IsNew;
    var more, less := NewTasks(env, cache, h, scopes, n), NewTasks(env, cache, h, scopes, n - 1);
    assert more == if IsNew(env, cache, h, scopes[n - 1]) then less + {n - 1} else less;
  }

  predicate MayFreeze(env: Env, s: Store, l: Loop, expected: nat) {
    var h := s.current.article;
    s.current.version == expected && AllIn(env.transcript, l.read) && env.valid(h) && (!IsBlocked(l, h) || l.challenged == Some(h))
  }

  lemma FreezeHalts(env: Env, s: Store, l: Loop, expected: nat, m: nat)
    requires l.candidate.None? && CacheAt(s, l, m)
    ensures Freeze(env, s, l, expected).ok <==>
            !(MayFreeze(env, s, l, expected) && ReviewIsTooLong(env, s, l.(candidate := Some(s.current.article), draftVersion := s.current.version, keys := [], issues := [])))
  {
    hide ReuseFirst, AllIn, CacheAt, IsNew;
    var h := s.current.article;
    var l1 := l.(candidate := Some(h), draftVersion := s.current.version, keys := [], issues := []);
    CacheAlike(s, l, l1, m);
    if MayFreeze(env, s, l, expected) && env.plan(l1, h).Some? {
      var plan := env.plan(l1, h).value;
      ReuseSucceeds(env, s, l1, h, plan, |plan|, m);
      PendingAreCounted(env, s, l1, h, plan, |plan|);
    }
  }

  lemma CacheAlike(s: Store, l: Loop, l': Loop, m: nat)
    requires CacheAt(s, l, m) && l'.cache == l.cache
    ensures CacheAt(s, l', m)
  {
    hide Clears, WasCleared;
  }

  /** The loop in which a saved draft is frozen. */
  function AfterSave(s: Store, slot: nat, l: Loop): Loop {
    if IsRevised(s, slot) then l.(challenged := None, candidate := None, scopes := [], keys := [], draftVersion := 0) else l
  }

  lemma SaveHalts(env: Env, s: Store, l: Loop, slot: nat, save: Save, m: nat)
    requires l.candidate.None? && CacheAt(s, l, m)
    requires var a := SaveAndFinish(env, s, l, slot, save); AllMade(s, a.writes) && DraftIsOf(s, slot, a.writes)
    ensures var l1 := AfterSave(s, slot, l);
      SaveAndFinish(env, s, l, slot, save).ok <==>
      !IsTooLate(env, s, slot, save)
      && !(save.finish && slot in s.receipts && !s.receipts[slot].rejected && MayFreeze(env, s, l1, s.current.version)
           && ReviewIsTooLong(env, s, l1.(candidate := Some(s.current.article), draftVersion := s.current.version, keys := [], issues := [])))
  {
    hide Freeze, MayFreeze, ReviewIsTooLong, CacheAt;
    var w, a := SaveDraft(env, s, slot, save), SaveAndFinish(env, s, l, slot, save);
    if w.receipt.Some? {
      var receipt := w.receipt.value;
      assert a.writes[0] == PutDraft(slot, receipt) && Has(s, a.writes[0]);
      assert AfterDraft(s, slot, receipt) == s;
      var l1 := AfterSave(s, slot, l);
      CacheAlike(s, l, l1, m);
      if save.finish && !receipt.rejected {
        FreezeHalts(env, s, l1, s.current.version, m);
      }
    }
  }

  lemma ReviseHalts(env: Env, s: Store, l: Loop, slot: nat, patch: Patch, m: nat)
    requires l.candidate.None? && CacheAt(s, l, m)
    requires var a := Revise(env, s, l, slot, patch); AllMade(s, a.writes) && DraftIsOf(s, slot, a.writes)
    ensures var l1 := AfterSave(s, slot, l);
      Revise(env, s, l, slot, patch).ok <==>
      !(slot in s.plans && IsTooLate(env, s, slot, s.plans[slot]))
      && !(slot in s.plans && s.plans[slot].finish && slot in s.receipts && !s.receipts[slot].rejected && MayFreeze(env, s, l1, s.current.version)
           && ReviewIsTooLong(env, s, l1.(candidate := Some(s.current.article), draftVersion := s.current.version, keys := [], issues := [])))
  {
    hide SaveAndFinish, MayFreeze, ReviewIsTooLong, CacheAt, IsTooLate;
    var planned := if slot in s.plans then Some(s.plans[slot])
                   else if s.current.version != patch.expected then None
                   else env.expand(s.current.article, patch);
    if planned.Some? {
      var a, b := Revise(env, s, l, slot, patch), SaveAndFinish(env, s, l, slot, planned.value);
      assert a.writes == [PutPlan(slot, planned.value)] + b.writes;
      assert Has(s, a.writes[0]);
      forall i | 0 <= i < |b.writes| ensures Has(s, b.writes[i]) {
        assert a.writes[i + 1] == b.writes[i];
      }
      SaveHalts(env, s, l, slot, planned.value, m);
    }
  }

  // ----- the turn of an author

  /** The loop on which an author's reply acts. */
  function Counting(l: Loop, call: Call, reply: Reply): Loop {
    var l0 := Informed(l, call);
    if l0.issues != [] && CountsAsRepair(reply) then l0.(repairActions := l0.repairActions + 1) else l0
  }

  lemma CandidateIs(s: Store, l: Loop, call: Call, reply: Reply)
    requires call.mode.Author? && !IsCut(reply) && !reply.Challenge? && (!reply.SaveSections? && !reply.ReviseBlocks? ==> call.slot !in s.receipts)
    ensures var l1 := AfterSave(s, call.slot, Counting(l, call, reply));
      l1.(candidate := Some(s.current.article), draftVersion := s.current.version, keys := [], issues := []) == AsCandidate(s, l, call, reply)
  {
  }

  lemma DisputedCandidateIs(s: Store, l: Loop, call: Call, reply: Reply)
    requires call.mode.Author? && reply.Challenge? && Disputes(s, l, reply) && call.slot !in s.receipts
    ensures var l1 := Counting(l, call, reply);
      var l2 := l1.(disputes := l1.disputes + {s.current.article}, challenged := Some(s.current.article));
        l2.(candidate := Some(s.current.article), draftVersion := s.current.version, keys := [], issues := []) == AsCandidate(s, l, call, reply)
  {
  }

  lemma SavingHalts(env: Env, s: Store, l: Loop, call: Call, reply: Reply, m: nat)
    requires call.mode.Author? && l.candidate.None? && CacheAt(s, l, m) && (reply.SaveSections? || reply.ReviseBlocks?)
    requires var a := Act(env, s, Informed(l, call), call, reply); AllMade(s, a.writes) && DraftIsOf(s, call.slot, a.writes)
    ensures Act(env, s, Informed(l, call), call, reply).ok <==> !AuthorHalts(env, s, l, call, reply)
  {
    hide SaveAndFinish, Revise, CacheAt, AllMade, DraftIsOf, ReviewIsTooLong, AllIn, IsTooLate, AsCandidate;
    var l1 := Counting(l, call, reply);
    CacheAlike(s, l, l1, m);
    CandidateIs(s, l, call, reply);
    if reply.SaveSections? {
      SaveHalts(env, s, l1, call.slot, reply.save, m);
    } else {
      ReviseHalts(env, s, l1, call.slot, reply.patch, m);
    }
  }

  lemma FinishHalts(env: Env, s: Store, l: Loop, call: Call, reply: Reply, m: nat)
    requires call.mode.Author? && l.candidate.None? && CacheAt(s, l, m) && reply.Finish? && call.slot !in s.receipts
    ensures Act(env, s, Informed(l, call), call, reply).ok <==> !AuthorHalts(env, s, l, call, reply)
  {
    hide Freeze, CacheAt, ReviewIsTooLong, AllIn, AsCandidate;
    var l1 := Counting(l, call, reply);
    CacheAlike(s, l, l1, m);
    CandidateIs(s, l, call, reply);
    FreezeHalts(env, s, l1, reply.expected, m);
  }

  lemma DisputeHalts(env: Env, s: Store, l: Loop, call: Call, reply: Reply, m: nat)
    requires call.mode.Author? && l.candidate.None? && CacheAt(s, l, m) && reply.Challenge? && call.slot !in s.receipts
    ensures Act(env, s, Informed(l, call), call, reply).ok <==> !AuthorHalts(env, s, l, call, reply)
  {
    hide Freeze, CacheAt, ReviewIsTooLong, AllIn, AsCandidate;
    if Disputes(s, l, reply) {
      var l1 := Counting(l, call, reply);
      var l2 := l1.(disputes := l1.disputes + {s.current.article}, challenged := Some(s.current.article));
      CacheAlike(s, l, l2, m);
      DisputedCandidateIs(s, l, call, reply);
      FreezeHalts(env, s, l2, reply.expected, m);
    }
  }

  lemma OthersHalt(env: Env, s: Store, l: Loop, call: Call, reply: Reply)
    requires call.mode.Author? && !CountsAsRepair(reply)
    ensures Act(env, s, Informed(l, call), call, reply).ok <==> !AuthorHalts(env, s, l, call, reply)
  {
    hide AllIn, ReviewIsTooLong;
  }

  lemma AuthorHaltsExactly(env: Env, s: Store, l: Loop, call: Call, reply: Reply, m: nat)
    requires call.mode.Author? && l.candidate.None? && CacheAt(s, l, m) && !IsCut(reply)
    requires var a := Act(env, s, Informed(l, call), call, reply); AllMade(s, a.writes) && DraftIsOf(s, call.slot, a.writes)
    ensures Act(env, s, Informed(l, call), call, reply).ok <==> !AuthorHalts(env, s, l, call, reply)
  {
    hide Act, CacheAt, AllMade, DraftIsOf, AuthorHalts;
    if reply.SaveSections? || reply.ReviseBlocks? {
      SavingHalts(env, s, l, call, reply, m);
    } else {
      OthersDraftNothing(env, s, l, call, reply);
      NoDraftMade(s, call.slot, Act(env, s, Informed(l, call), call, reply).writes);
      if reply.Finish? {
        FinishHalts(env, s, l, call, reply, m);
      } else if reply.Challenge? {
        DisputeHalts(env, s, l, call, reply, m);
      } else {
        OthersHalt(env, s, l, call, reply);
      }
    }
  }

  // ----- the other turns

  lemma ReviewHaltsExactly(env: Env, s: Store, l: Loop, call: Call, reply: Reply)
    requires call.mode.Review? && !IsCut(reply)
    ensures Act(env, s, Informed(l, call), call, reply).ok <==> !(IsAdmitted(env, l, call.mode.scope, reply) && ReviewHalts(env, s, l, call, call.mode.scope, reply.report))
  {
    hide Act, IsComplete, Asked, ReviewHalts;
    if IsAdmitted(env, l, call.mode.scope, reply) {
      ReviewIsAccepted(env, s, l, call, reply);
      AcceptHalts(env, s, l, call, call.mode.scope, reply.report);
    } else {
      RefusedGoesOn(env, s, l, call, reply);
    }
  }

  lemma RefusedGoesOn(env: Env, s: Store, l: Loop, call: Call, reply: Reply)
    requires call.mode.Review? && !IsAdmitted(env, l, call.mode.scope, reply)
    ensures Act(env, s, Informed(l, call), call, reply).ok
  {
    hide IsAdmitted, Accept;
    AdmittedAlike(env, l, call, call.mode.scope, reply);
  }

  lemma AcceptHalts(env: Env, s: Store, l: Loop, call: Call, scope: Scope, report: Report)
    requires l.candidate.Some?
    ensures Accept(env, s, Informed(l, call), scope, report).ok <==> !ReviewHalts(env, s, l, call, scope, report)
  {
    hide BlockingOnly, RecordOf, Without, Merged, IsBlocking;
    var l1 := LoopWith(env, s, Informed(l, call), scope, report);
    NoBlocking(l1.issues);
    NothingIsLeft(l.scopes, RecordOf(env, s, Informed(l, call), l.candidate.value, scope, report).scope.id);
    RecordScope(env, s, Informed(l, call), l.candidate.value, scope, report);
  }

  lemma RecordScope(env: Env, s: Store, l: Loop, h: ArticleLoop.Article, scope: Scope, report: Report)
    ensures RecordOf(env, s, l, h, scope, report).scope == scope
  {
  }

  lemma {:induction false} NothingIsLeft(scopes: seq<Scope>, id: string)
    ensures Without(scopes, id) == [] <==> forall t | t in scopes :: t.id == id
  {
    if scopes != [] {
      var front, last := scopes[..|scopes| - 1], scopes[|scopes| - 1];
      NothingIsLeft(front, id);
      assert scopes == front + [last];
    }
  }

  lemma CutHalts(env: Env, s: Store, l: Loop, call: Call, reply: Reply)
    requires IsCut(reply)
    ensures Recover(env, s, l, call).ok <==> !Halts(env, s, l, call, reply)
  {
  }

  /** A turn whose writes are made halts for these reasons and no other. */
  lemma TurnHaltsExactly(env: Env, s: Store, call: Call, reply: Reply, m: nat)
    requires (!call.mode.Review? ==> s.loop.candidate.None?) && CacheAt(s, s.loop, m)
    requires var a := Turn(env, s, call, reply); AllMade(s, a.writes) && DraftIsOf(s, call.slot, a.writes)
    ensures Turn(env, s, call, reply).ok <==> !Halts(env, s, s.loop, call, reply)
  {
    hide Act, Recover, AllMade, DraftIsOf, CacheAt, IsAdmitted, AuthorHalts, ReviewHalts;
    if IsCut(reply) {
      CutHalts(env, s, s.loop, call, reply);
    } else {
      match call.mode {
        case Source => SourceGoesOn(env, s, s.loop, call, reply);
        case Review(_) => ReviewHaltsExactly(env, s, s.loop, call, reply);
        case Author => AuthorHaltsExactly(env, s, s.loop, call, reply, m);
      }
    }
  }

  lemma SourceGoesOn(env: Env, s: Store, l: Loop, call: Call, reply: Reply)
    requires call.mode.Source?
    ensures Act(env, s, Informed(l, call), call, reply).ok
  {
    hide Raised;
  }

  // ----- whole runs

  /** The reply is recorded, and everything that acting on it writes. */
  ghost predicate IsCarriedOut(env: Env, s: Store)
    requires IsOpen(s)
  {
    s.loop.pending.value.slot in s.replies && AllMade(s, TurnOf(env, s).writes)
  }

  lemma TurnRemains(env: Env, s: Store)
    requires IsOpen(s) && IsCarriedOut(env, s)
    ensures RemainingWork(env, s) == [] <==> !TurnOf(env, s).ok
  {
    hide Turn, Intended, Conflicts, Do, Remaining;
    var a := TurnCourse(env, s);
    var ws, slot := Intended(env, s).writes, s.loop.pending.value.slot;
    forall j | 0 <= j <= |a.writes| ensures Has(s, ws[j]) {
      if j > 0 {
        assert ws[j] == a.writes[j - 1];
      }
    }
    RemainingFrom(s, ws, |a.writes| + 1);
    if a.ok {
      assert ws[|a.writes| + 1..] == [PutTurn(slot, a.loop), PutCheckpoint(s.calls, a.loop)];
      TurnIsMissing(s, slot, a.loop);
    } else {
      assert ws[|a.writes| + 1..] == [];
      NoCourse(s);
    }
  }

  lemma TurnIsMissing(s: Store, slot: nat, l: Loop)
    requires slot !in s.turns
    ensures Remaining(s, [PutTurn(slot, l), PutCheckpoint(s.calls, l)]) != []
  {
  }

  /** MAIN RESULT: once the reply and its effects are stored, the run ends in the middle of the call for
      these reasons and no other; otherwise the turn is recorded. */
  lemma HaltsExactly(env: Env, s: Store)
    requires Thrifty(env, s) && IsOpen(s) && IsCarriedOut(env, s)
    ensures var call := s.loop.pending.value; RemainingWork(env, s) == [] <==> Halts(env, s, s.loop, call, s.replies[call.slot])
  {
    hide Turn, IsSafe, QuestionsKept, DraftsCounted, AllReported, IsLedger, FindingsKept, GoesOn, IsUndisturbed, IsUndisturbedBut, DraftIsOf, DutyAt, InputsDeliver, InputIsNext, IsWithin, Does, CacheAt, Resumes, AreOf, AllMade, Halts;
    var call := s.loop.pending.value;
    OthersHaveNoCandidate(env, s);
    TurnHaltsExactly(env, s, call, s.replies[call.slot], SlotOf(s));
    TurnRemains(env, s);
  }
}
